/**
 The two schema passes of the API factory and the dispatcher's gate that relies on them.
 */
module AgentGate {
  import opened Prelude
  import opened Json

  const WORKSPACE_API_ROOT := "/w/{slug}/api/v1"
  const CLI_METHODS := {"get", "post", "put", "patch", "delete", "head"}
  const MUTATING := {"post", "put", "patch", "delete"}
  const MUTATING_UPPER := {"POST", "PATCH", "PUT", "DELETE"}

  // ---------------------------------------------------------------------------------------------
  // ASCII case
  // ---------------------------------------------------------------------------------------------

  function LowerChar(c: char): char {
    if 'A' <= c <= 'Z' then (c as int + 32) as char else c
  }

  function UpperChar(c: char): char {
    if 'a' <= c <= 'z' then (c as int - 32) as char else c
  }

  function Lower(s: string): (r: string)
    ensures |r| == |s| && forall i :: 0 <= i < |s| ==> r[i] == LowerChar(s[i])
  {
    seq(|s|, i requires 0 <= i < |s| => LowerChar(s[i]))
  }

  function Upper(s: string): (r: string)
    ensures |r| == |s| && forall i :: 0 <= i < |s| ==> r[i] == UpperChar(s[i])
  {
    seq(|s|, i requires 0 <= i < |s| => UpperChar(s[i]))
  }

  // ---------------------------------------------------------------------------------------------
  // The factory's passes
  // ---------------------------------------------------------------------------------------------

  /** `_derive_cli_group_verb` and `_cli_summary`, whose wording does not matter here. */
  datatype Naming = Naming(derive: (string, string, Fields) -> (string, string), summary: Fields -> string)

  predicate IsWorkspacePath(path: string) {
    path == WORKSPACE_API_ROOT || WORKSPACE_API_ROOT + "/" <= path
  }

  predicate HasAgentClassification(op: Fields) {
    || Lookup(op, "x-agent-confirm") != Null
    || Lookup(op, "x-agent-forbidden") == Bool(true)
    || Lookup(op, "x-interactive-only") == Bool(true)
  }

  predicate IsCliVisible(op: Fields) {
    Lookup(op, "x-cli").Object? && Lookup(Lookup(op, "x-cli").fields, "hidden") != Bool(true)
  }

  function CliMetadata(n: Naming, path: string, method_: string, op: Fields): Value {
    var (group, verb) := n.derive(method_, path, op);
    Object(map["group" := Str(group), "verb" := Str(verb), "summary" := Str(n.summary(op)),
               "mutates" := Bool(Lower(method_) in MUTATING)])
  }

  function Confirmation(n: Naming, op: Fields): Value {
    Object(map["summary" := Str(n.summary(op) + "?"), "verb" := Str(n.summary(op)), "risk" := Str("medium")])
  }

  datatype Pass = CliPass | ConfirmPass

  /** What one pass makes of one operation. */
  function Stamp(pass: Pass, n: Naming, path: string, method_: string, op: Value): Value {
    if !op.Object? || !IsWorkspacePath(path) then op
    else
      match pass
      case CliPass =>
        if Lower(method_) !in CLI_METHODS || Lookup(op.fields, "x-cli").Object? then op
        else Object(op.fields["x-cli" := CliMetadata(n, path, method_, op.fields)])
      case ConfirmPass =>
        if Lower(method_) !in MUTATING || HasAgentClassification(op.fields)
           || !Lookup(op.fields, "operationId").Str? || !IsCliVisible(op.fields) then op
        else Object(op.fields["x-agent-confirm" := Confirmation(n, op.fields)])
  }

  function StampItem(pass: Pass, n: Naming, path: string, item: Value): Value {
    if item.Object? then Object(map m | m in item.fields :: Stamp(pass, n, path, m, item.fields[m])) else item
  }

  function StampPaths(pass: Pass, n: Naming, paths: Value): Value {
    if paths.Object? then Object(map p | p in paths.fields :: StampItem(pass, n, p, paths.fields[p])) else paths
  }

  /** The path items with those outside `todo` stamped, and one item with the operations outside `todo` stamped. */
  function PathsSoFar(pass: Pass, n: Naming, paths: Fields, todo: set<string>): Fields {
    map p | p in paths :: if p in todo then paths[p] else StampItem(pass, n, p, paths[p])
  }

  function ItemSoFar(pass: Pass, n: Naming, path: string, item: Fields, todo: set<string>): Fields {
    map m | m in item :: if m in todo then item[m] else Stamp(pass, n, path, m, item[m])
  }

  lemma OneMorePath(pass: Pass, n: Naming, paths: Fields, todo: set<string>, p: string)
    requires p in todo && todo <= paths.Keys
    ensures PathsSoFar(pass, n, paths, todo - {p})
         == PathsSoFar(pass, n, paths, todo)[p := StampItem(pass, n, p, paths[p])]
  {
  }

  lemma OneMoreOperation(pass: Pass, n: Naming, path: string, item: Fields, todo: set<string>, m: string)
    requires m in todo && todo <= item.Keys
    ensures ItemSoFar(pass, n, path, item, todo)[m] == item[m]
    ensures ItemSoFar(pass, n, path, item, todo - {m})
         == ItemSoFar(pass, n, path, item, todo)[m := Stamp(pass, n, path, m, item[m])]
  {
  }

  class Schema {
    var paths: Value

    constructor (paths: Value)
      ensures this.paths == paths
    {
      this.paths := paths;
    }

    /** `_declare_cli_metadata` and `_declare_agent_confirmations`: one walk over the path items each. */
    method Declare(pass: Pass, n: Naming)
      modifies this
      ensures paths == StampPaths(pass, n, old(paths))
    {
      if !paths.Object? {
        return;
      }
      var before := paths.fields;
      var todo := before.Keys;
      while todo != {}
        invariant todo <= before.Keys && paths.Object?
        invariant paths.fields == PathsSoFar(pass, n, before, todo)
        decreases |todo|
      {
        var p :| p in todo;
        var item := DeclareItem(pass, n, p, before[p]);
        OneMorePath(pass, n, before, todo, p);
        paths := Object(paths.fields[p := item]);
        todo := todo - {p};
      }
    }

    method DeclareItem(pass: Pass, n: Naming, path: string, item: Value) returns (stamped: Value)
      ensures stamped == StampItem(pass, n, path, item)
    {
      if !item.Object? {
        return item;
      }
      var operations, todo := item.fields, item.fields.Keys;
      while todo != {}
        invariant todo <= item.fields.Keys
        invariant operations == ItemSoFar(pass, n, path, item.fields, todo)
        decreases |todo|
      {
        var m :| m in todo;
        OneMoreOperation(pass, n, path, item.fields, todo, m);
        operations := operations[m := Stamp(pass, n, path, m, operations[m])];
        todo := todo - {m};
      }
      return Object(operations);
    }
  }

  /** The passes in the order the factory runs them. */
  function Declared(n: Naming, paths: Value): Value {
    StampPaths(ConfirmPass, n, StampPaths(CliPass, n, paths))
  }

  // ---------------------------------------------------------------------------------------------
  // The dispatcher
  // ---------------------------------------------------------------------------------------------

  /** An indexed operation; the index stores the method in upper case. */
  datatype Entry = Entry(method_: string, path: string, operation: Fields)

  predicate HasValidCliMetadata(op: Fields) {
    var cli := Lookup(op, "x-cli");
    && cli.Object?
    && Lookup(cli.fields, "hidden") != Bool(true)
    && Lookup(cli.fields, "group").Str? && Lookup(cli.fields, "group").s != ""
    && Lookup(cli.fields, "verb").Str? && Lookup(cli.fields, "verb").s != ""
  }

  datatype Rejection = OutsideSurface | Forbidden | Interactive | NoCliMetadata

  function WorkspaceAgentRejection(entry: Entry): Option<Rejection> {
    if !IsWorkspacePath(entry.path) then Some(OutsideSurface)
    else if Lookup(entry.operation, "x-agent-forbidden") == Bool(true) then Some(Forbidden)
    else if Lookup(entry.operation, "x-interactive-only") == Bool(true) then Some(Interactive)
    else if !HasValidCliMetadata(entry.operation) then Some(NoCliMetadata)
    else None
  }

  /** Python truthiness of a decoded value. */
  predicate Truthy(v: Value) {
    match v
    case Null => false
    case Bool(b) => b
    case Int(i) => i != 0
    case Float(x) => x != ZERO && x != NEGATIVE_ZERO
    case Str(s) => s != ""
    case List(items) => items != []
    case Object(fields) => fields != map[]
  }

  const GENERIC_SUMMARY := "Confirm this action."

  datatype Card = Card(summary: string, risk: string)

  function ConfirmMetadata(annotation: Value): Option<Card> {
    if annotation == Bool(true) then Some(Card(GENERIC_SUMMARY, "medium"))
    else if annotation.Object? then
      var first := Lookup(annotation.fields, "summary");
      var raw := if Truthy(first) then first else Lookup(annotation.fields, "message");
      var risk := Lookup(annotation.fields, "risk");
      Some(Card(if raw.Str? then raw.s else GENERIC_SUMMARY,
                if risk == Str("low") || risk == Str("medium") || risk == Str("high") then risk.s else "medium"))
    else None
  }

  datatype Source = WorkspaceAlways | Annotation

  datatype GateDecision = NotGated | GatedBy(source: Source, card: Card)

  function IsGated(name: string, entry: Entry, alwaysGated: set<string>): GateDecision {
    if WorkspaceAgentRejection(entry).Some? then NotGated
    else if name in alwaysGated then GatedBy(WorkspaceAlways, Card(name + " requires confirmation.", "medium"))
    else
      var card := ConfirmMetadata(Lookup(entry.operation, "x-agent-confirm"));
      if card.Some? then GatedBy(Annotation, card.value) else NotGated
  }

  /** The operation an operation id is indexed under in a schema's paths. */
  predicate Indexed(paths: Value, name: string, path: string, method_: string, entry: Entry) {
    && paths.Object? && path in paths.fields && paths.fields[path].Object?
    && method_ in paths.fields[path].fields && paths.fields[path].fields[method_].Object?
    && entry == Entry(Upper(method_), path, paths.fields[path].fields[method_].fields)
    && name != "" && Lookup(entry.operation, "operationId") == Str(name)
  }

  /** The dispatcher would go on to invoke the operation, and the operation writes. */
  predicate Writes(entry: Entry) {
    WorkspaceAgentRejection(entry).None? && entry.method_ in MUTATING_UPPER
  }

  // ---------------------------------------------------------------------------------------------
  // Theorems
  // ---------------------------------------------------------------------------------------------

  lemma CaseOfCase(s: string)
    ensures Lower(Upper(s)) == Lower(s)
  {
  }

  /** The dispatcher's upper-case test and the factory's lower-case test pick the same methods. */
  lemma MutatingEitherCase(method_: string)
    ensures Upper(method_) in MUTATING_UPPER <==> Lower(method_) in {"post", "put", "patch", "delete"}
    ensures Lower(method_) in MUTATING <==> Lower(method_) in {"post", "put", "patch", "delete"}
    ensures Lower(method_) in MUTATING ==> Lower(method_) in CLI_METHODS
  {
    CaseOfCase(method_);
    CaseBack(method_);
    assert Lower("POST") == "post" && Lower("PATCH") == "patch" && Lower("PUT") == "put" && Lower("DELETE") == "delete";
    assert Upper("post") == "POST" && Upper("patch") == "PATCH" && Upper("put") == "PUT" && Upper("delete") == "DELETE";
  }

  lemma CaseBack(s: string)
    ensures Upper(Lower(s)) == Upper(s)
  {
  }

  /** One operation through both passes. */
  function BothStamps(n: Naming, path: string, method_: string, op: Value): Value {
    Stamp(ConfirmPass, n, path, method_, Stamp(CliPass, n, path, method_, op))
  }

  /** `x-agent-confirm` is absent, true or an object. */
  predicate WellShaped(annotation: Value) {
    annotation == Null || annotation == Bool(true) || annotation.Object?
  }

  lemma KeysDiffer()
    ensures "x-cli" != "x-agent-confirm" && "x-cli" != "operationId" && "x-agent-confirm" != "operationId"
    ensures "x-cli" != "x-agent-forbidden" && "x-agent-confirm" != "x-agent-forbidden"
    ensures "x-cli" != "x-interactive-only" && "x-agent-confirm" != "x-interactive-only"
  {
    assert |"x-cli"| == 5 && |"x-agent-confirm"| == 15 && |"operationId"| == 11;
    assert |"x-agent-forbidden"| == 17 && |"x-interactive-only"| == 18;
  }

  lemma StampedOperation(n: Naming, path: string, method_: string, op: Fields, entry: Entry, name: string)
    requires BothStamps(n, path, method_, Object(op)) == Object(entry.operation)
    requires entry.path == path && entry.method_ == Upper(method_)
    requires Lookup(entry.operation, "operationId") == Str(name) && Writes(entry)
    ensures ConfirmMetadata(Lookup(entry.operation, "x-agent-confirm")).Some?
       <==> WellShaped(Lookup(op, "x-agent-confirm"))
  {
    MutatingEitherCase(method_);
    KeysDiffer();
    var afterCli := Stamp(CliPass, n, path, method_, Object(op)).fields;
    assert Lookup(afterCli, "x-agent-confirm") == Lookup(op, "x-agent-confirm");
  }

  /**
   After both passes, a writing operation that the dispatcher would invoke is gated exactly when the
   workspace always gates it or its original annotation is absent, true or an object.
   */
  lemma WritesAreGatedIff(
    n: Naming, paths: Value, alwaysGated: set<string>, name: string, path: string, method_: string, entry: Entry)
    requires Indexed(Declared(n, paths), name, path, method_, entry) && Writes(entry)
    ensures paths.Object? && path in paths.fields && paths.fields[path].Object?
         && method_ in paths.fields[path].fields && paths.fields[path].fields[method_].Object?
    ensures IsGated(name, entry, alwaysGated) != NotGated
       <==> name in alwaysGated || WellShaped(Lookup(paths.fields[path].fields[method_].fields, "x-agent-confirm"))
  {
    StampedOperation(n, path, method_, paths.fields[path].fields[method_].fields, entry, name);
  }

  lemma StampTwice(n: Naming, path: string, method_: string, op: Value)
    ensures var once := BothStamps(n, path, method_, op);
      Stamp(CliPass, n, path, method_, once) == once && Stamp(ConfirmPass, n, path, method_, once) == once
  {
    KeysDiffer();
  }

  /** Running the passes again changes nothing. */
  lemma PassesAreIdempotent(n: Naming, paths: Value)
    ensures Declared(n, Declared(n, paths)) == Declared(n, paths)
  {
    var once := Declared(n, paths);
    if paths.Object? {
      forall p | p in paths.fields
        ensures StampItem(CliPass, n, p, once.fields[p]) == once.fields[p]
        ensures StampItem(ConfirmPass, n, p, once.fields[p]) == once.fields[p]
      {
        if paths.fields[p].Object? {
          forall m | m in paths.fields[p].fields {
            StampTwice(n, p, m, paths.fields[p].fields[m]);
          }
        }
      }
    }
  }

  /** The order matters: confirmations first leaves a writing operation that is dispatched without a gate. */
  lemma ConfirmationsFirstLeavesAWriteUngated(n: Naming, op: Fields)
    requires op == map["operationId" := Str("tasks.create")]
    requires n.derive("post", WORKSPACE_API_ROOT, op).0 != "" && n.derive("post", WORKSPACE_API_ROOT, op).1 != ""
    ensures var wrong := Stamp(CliPass, n, WORKSPACE_API_ROOT, "post", Stamp(ConfirmPass, n, WORKSPACE_API_ROOT, "post", Object(op)));
      && wrong.Object?
      && var entry := Entry("POST", WORKSPACE_API_ROOT, wrong.fields);
         Writes(entry) && IsGated("tasks.create", entry, {}) == NotGated
  {
    KeysDiffer();
    assert Lower("post") == "post";
    assert Stamp(ConfirmPass, n, WORKSPACE_API_ROOT, "post", Object(op)) == Object(op);
    assert |"hidden"| == 6 && |"group"| == 5 && |"verb"| == 4 && |"summary"| == 7 && |"mutates"| == 7;
    assert "summary"[0] == 's' && "mutates"[0] == 'm';
  }

  // ---------------------------------------------------------------------------------------------
  // What the passes add, what the dispatcher refuses, and what a card says
  // ---------------------------------------------------------------------------------------------

  predicate InWorkspace(path: string) {
    path == "/w/{slug}/api/v1" || "/w/{slug}/api/v1/" <= path
  }

  lemma InWorkspaceIff(path: string)
    ensures IsWorkspacePath(path) <==> InWorkspace(path)
  {
    assert WORKSPACE_API_ROOT + "/" == "/w/{slug}/api/v1/";
  }

  /** The operation's own metadata names a group and a verb, and is not hidden. */
  ghost predicate NamesCommand(op: Fields) {
    var cli := Lookup(op, "x-cli");
    cli.Object? && Lookup(cli.fields, "hidden") != Bool(true)
      && (exists group, verb :: group != "" && verb != ""
            && Lookup(cli.fields, "group") == Str(group) && Lookup(cli.fields, "verb") == Str(verb))
  }

  lemma NamesCommandIff(op: Fields)
    ensures HasValidCliMetadata(op) <==> NamesCommand(op)
  {
    var cli := Lookup(op, "x-cli");
    if HasValidCliMetadata(op) {
      assert Lookup(cli.fields, "group") == Str(Lookup(cli.fields, "group").s)
        && Lookup(cli.fields, "verb") == Str(Lookup(cli.fields, "verb").s);
    }
  }

  /** The metadata that the first pass writes is valid exactly when the derived group and verb are not empty. */
  lemma WrittenMetadata(n: Naming, path: string, method_: string, op: Fields, stamped: Fields)
    requires "x-cli" in stamped && stamped["x-cli"] == CliMetadata(n, path, method_, op)
    ensures HasValidCliMetadata(stamped) <==> n.derive(method_, path, op).0 != "" && n.derive(method_, path, op).1 != ""
    ensures IsCliVisible(stamped)
  {
    assert |"hidden"| == 6 && |"group"| == 5 && |"verb"| == 4 && |"summary"| == 7 && |"mutates"| == 7;
    assert "summary"[0] == 's' && "mutates"[0] == 'm';
  }

  /** An operation can be dispatched exactly when this is so of it before the passes. */
  ghost predicate Dispatchable(n: Naming, path: string, method_: string, op: Fields) {
    && InWorkspace(path)
    && Lookup(op, "x-agent-forbidden") != Bool(true) && Lookup(op, "x-interactive-only") != Bool(true)
    && (if Lookup(op, "x-cli").Object? then NamesCommand(op)
        else Lower(method_) in {"get", "post", "put", "patch", "delete", "head"}
             && n.derive(method_, path, op).0 != "" && n.derive(method_, path, op).1 != "")
  }

  lemma StampedDispatchable(n: Naming, path: string, method_: string, op: Fields, entry: Entry)
    requires BothStamps(n, path, method_, Object(op)) == Object(entry.operation) && entry.path == path
    ensures WorkspaceAgentRejection(entry).None? <==> Dispatchable(n, path, method_, op)
    ensures InWorkspace(path) && Lookup(op, "x-agent-forbidden") == Bool(true) ==> WorkspaceAgentRejection(entry) == Some(Forbidden)
  {
    KeysDiffer();
    InWorkspaceIff(path);
    NamesCommandIff(op);
    var afterCli := Stamp(CliPass, n, path, method_, Object(op)).fields;
    if IsWorkspacePath(path) && Lower(method_) in CLI_METHODS && !Lookup(op, "x-cli").Object? {
      WrittenMetadata(n, path, method_, op, afterCli);
    }
    assert Lookup(entry.operation, "x-cli") == Lookup(afterCli, "x-cli");
  }

  /**
   Reading operations as well as writing ones: after both passes the dispatcher refuses exactly the operations outside
   the workspace surface, forbidden to agents, interactive only, or without a command of their own or a derived one.
   */
  lemma DispatchedIff(n: Naming, paths: Value, name: string, path: string, method_: string, entry: Entry)
    requires Indexed(Declared(n, paths), name, path, method_, entry)
    ensures paths.Object? && path in paths.fields && paths.fields[path].Object?
         && method_ in paths.fields[path].fields && paths.fields[path].fields[method_].Object?
    ensures WorkspaceAgentRejection(entry).None? <==> Dispatchable(n, path, method_, paths.fields[path].fields[method_].fields)
  {
    StampedDispatchable(n, path, method_, paths.fields[path].fields[method_].fields, entry);
  }

  /** What is refused is not gated: it never gets as far as a confirmation. */
  lemma RefusedIsNotGated(name: string, entry: Entry, alwaysGated: set<string>)
    requires WorkspaceAgentRejection(entry).Some?
    ensures IsGated(name, entry, alwaysGated) == NotGated
  {
  }

  /** Not classified: neither a confirmation of its own, nor forbidden, nor interactive only. */
  predicate Unclassified(op: Fields) {
    && ("x-agent-confirm" in op ==> op["x-agent-confirm"] == Null)
    && ("x-agent-forbidden" in op ==> op["x-agent-forbidden"] != Bool(true))
    && ("x-interactive-only" in op ==> op["x-interactive-only"] != Bool(true))
  }

  /** The second pass adds a default confirmation to these operations. */
  predicate GetsConfirmation(path: string, method_: string, op: Fields) {
    && InWorkspace(path) && Lower(method_) in {"post", "put", "patch", "delete"} && Unclassified(op)
    && "operationId" in op && op["operationId"].Str?
    && (Lookup(op, "x-cli").Object? ==> Lookup(Lookup(op, "x-cli").fields, "hidden") != Bool(true))
  }

  lemma PassesOnlyAdd(n: Naming, path: string, method_: string, op: Fields)
    ensures BothStamps(n, path, method_, Object(op)).Object?
    ensures var stamped := BothStamps(n, path, method_, Object(op)).fields;
      && stamped.Keys - {"x-cli", "x-agent-confirm"} == op.Keys - {"x-cli", "x-agent-confirm"}
      && (forall k :: k in op && k != "x-cli" && k != "x-agent-confirm" ==> stamped[k] == op[k])
      && (!InWorkspace(path) ==> stamped == op)
      && Lookup(stamped, "x-cli") ==
           (if InWorkspace(path) && Lower(method_) in {"get", "post", "put", "patch", "delete", "head"} && !Lookup(op, "x-cli").Object?
            then var (group, verb) := n.derive(method_, path, op);
                 Object(map["group" := Str(group), "verb" := Str(verb), "summary" := Str(n.summary(op)),
                            "mutates" := Bool(Lower(method_) in {"post", "put", "patch", "delete"})])
            else Lookup(op, "x-cli"))
      && Lookup(stamped, "x-agent-confirm") ==
           (if GetsConfirmation(path, method_, op) then
              var summary := n.summary(Stamp(CliPass, n, path, method_, Object(op)).fields);
              Object(map["summary" := Str(summary + "?"), "verb" := Str(summary), "risk" := Str("medium")])
            else Lookup(op, "x-agent-confirm"))
  {
    KeysDiffer();
    InWorkspaceIff(path);
    if IsWorkspacePath(path) && Lower(method_) in CLI_METHODS && !Lookup(op, "x-cli").Object? {
      WrittenMetadata(n, path, method_, op, Stamp(CliPass, n, path, method_, Object(op)).fields);
    }
  }

  /** Python's false values. */
  lemma FalsyIff(v: Value)
    ensures !Truthy(v) <==> v in {Null, Bool(false), Int(0), Float(0), Float(0x8000_0000_0000_0000), Str(""), List([]), Object(map[])}
  {
  }

  /** What the user is asked: the policy's own card, or the annotation's summary, or its message, and its risk. */
  lemma CardSays(name: string, entry: Entry, alwaysGated: set<string>)
    requires WorkspaceAgentRejection(entry).None?
    ensures var note, gate := Lookup(entry.operation, "x-agent-confirm"), IsGated(name, entry, alwaysGated);
      && (name in alwaysGated ==> gate == GatedBy(WorkspaceAlways, Card(name + " requires confirmation.", "medium")))
      && (name !in alwaysGated && note == Bool(true) ==> gate == GatedBy(Annotation, Card("Confirm this action.", "medium")))
      && (name !in alwaysGated && note.Object? ==>
            && gate.GatedBy? && gate.source == Annotation
            && (forall text :: text != "" && Lookup(note.fields, "summary") == Str(text) ==> gate.card.summary == text)
            && (forall text :: !Truthy(Lookup(note.fields, "summary")) && Lookup(note.fields, "message") == Str(text) ==>
                  gate.card.summary == text)
            && (!Truthy(Lookup(note.fields, "summary")) && !Lookup(note.fields, "message").Str? ==>
                  gate.card.summary == "Confirm this action.")
            && (Truthy(Lookup(note.fields, "summary")) && !Lookup(note.fields, "summary").Str? ==>
                  gate.card.summary == "Confirm this action.")
            && gate.card.risk in {"low", "medium", "high"}
            && (Lookup(note.fields, "risk") == Str("low") ==> gate.card.risk == "low")
            && (Lookup(note.fields, "risk") == Str("high") ==> gate.card.risk == "high")
            && (Lookup(note.fields, "risk") !in {Str("low"), Str("high")} ==> gate.card.risk == "medium"))
  {
  }
}
