/**
 How the dispatcher advertises an operation's inputs and how it routes them, and when the two agree.
 */
module InputRouting {
  import opened Prelude
  import opened Json
  import RefExpansion

  const BODY_METHODS := {"POST", "PATCH", "PUT"}
  const SLUG_FIELD := "{slug}"

  datatype Operation = Operation(method_: string, path: string, details: Fields)

  // ---------------------------------------------------------------------------------------------
  // Path templates
  // ---------------------------------------------------------------------------------------------

  /** `str.find(c, from)`, with the length standing for "not found". */
  function Find(s: string, c: char, from: nat): (i: nat)
    requires from <= |s|
    ensures from <= i <= |s| && (i < |s| ==> s[i] == c)
    ensures forall j :: from <= j < i ==> s[j] != c
    decreases |s| - from
  {
    if from == |s| || s[from] == c then from else Find(s, c, from + 1)
  }

  function TemplateVars(path: string): set<string>
    decreases |path|
  {
    var start := Find(path, '{', 0);
    if start == |path| then {}
    else
      var end := Find(path, '}', start);
      if end == |path| then {} else {path[start + 1..end]} + TemplateVars(path[end + 1..])
  }

  method PathTemplateVars(path: string) returns (vars: set<string>)
    ensures vars == TemplateVars(path)
  {
    vars := {};
    var cursor := path;
    while true
      invariant vars + TemplateVars(cursor) == TemplateVars(path)
      decreases |cursor|
    {
      var start := Find(cursor, '{', 0);
      if start == |cursor| {
        break;
      }
      var end := Find(cursor, '}', start);
      if end == |cursor| {
        break;
      }
      vars := vars + {cursor[start + 1..end]};
      cursor := cursor[end + 1..];
    }
  }

  /** A template: literal text and a variable, over and over, then more text. */
  datatype Template = Tail(text: string) | Piece(text: string, name: string, rest: Template)

  function Render(t: Template): string {
    match t
    case Tail(text) => text
    case Piece(text, name, rest) => text + "{" + name + "}" + Render(rest)
  }

  predicate WellFormed(t: Template) {
    '{' !in t.text && (t.Piece? ==> '}' !in t.name && WellFormed(t.rest))
  }

  function NamesOf(t: Template): set<string> {
    if t.Tail? then {} else {t.name} + NamesOf(t.rest)
  }

  lemma {:induction false} FindAt(s: string, c: char, from: nat, i: nat)
    requires from <= i <= |s| && (i < |s| ==> s[i] == c) && forall j :: from <= j < i ==> s[j] != c
    ensures Find(s, c, from) == i
  {
  }

  /** Exactly the variables written in a template are found in it. */
  lemma {:induction false} VariablesAreTheNames(t: Template)
    requires WellFormed(t)
    ensures TemplateVars(Render(t)) == NamesOf(t)
  {
    var path := Render(t);
    FindAt(path, '{', 0, |t.text|);
    if t.Piece? {
      var end := |t.text| + 1 + |t.name|;
      assert path[|t.text| + 1..end] == t.name;
      assert forall j :: |t.text| < j < end ==> path[j] == t.name[j - |t.text| - 1];
      FindAt(path, '}', |t.text|, end);
      assert path[end + 1..] == Render(t.rest);
      VariablesAreTheNames(t.rest);
    }
  }

  // ---------------------------------------------------------------------------------------------
  // Declarations
  // ---------------------------------------------------------------------------------------------

  function Parameters(op: Operation): seq<Value> {
    var parameters := Lookup(op.details, "parameters");
    if parameters.List? then parameters.items else []
  }

  predicate IsParameter(p: Value, place: string) {
    p.Object? && Lookup(p.fields, "in") == Str(place) && Lookup(p.fields, "name").Str?
  }

  function NameOf(p: Value): string
    requires p.Object? && Lookup(p.fields, "name").Str?
  {
    Lookup(p.fields, "name").s
  }

  function DeclaredIn(parameters: seq<Value>, place: string): set<string> {
    set p | p in parameters && IsParameter(p, place) :: NameOf(p)
  }

  function PathParams(op: Operation): set<string> {
    DeclaredIn(Parameters(op), "path")
  }

  function QueryParams(op: Operation): set<string> {
    DeclaredIn(Parameters(op), "query")
  }

  function BodySchema(op: Operation, components: Fields): Option<Fields> {
    var request := Lookup(op.details, "requestBody");
    if !request.Object? then None
    else
      var content := Lookup(request.fields, "content");
      if !content.Object? then None
      else
        var media := Lookup(content.fields, "application/json");
        if !media.Object? then None
        else
          var schema := Lookup(media.fields, "schema");
          if schema.Object? then Some(RefExpansion.Resolve(schema.fields, components, {})) else None
  }

  predicate HasObjectBody(op: Operation, components: Fields) {
    BodySchema(op, components).Some? && Lookup(BodySchema(op, components).value, "type") == Str("object")
  }

  predicate HasRawBody(op: Operation, components: Fields) {
    BodySchema(op, components).Some? && !HasObjectBody(op, components)
  }

  // ---------------------------------------------------------------------------------------------
  // The advertised schema: the properties, and which of them are required
  // ---------------------------------------------------------------------------------------------

  predicate Mentions(path: string, text: string) {
    |text| <= |path| && (text <= path || Mentions(path[1..], text))
  }

  predicate Injected(op: Operation, workspaceSlug: string) {
    workspaceSlug != "" && Mentions(op.path, SLUG_FIELD)
  }

  predicate IsAdvertised(p: Value, hidden: bool) {
    (IsParameter(p, "path") || IsParameter(p, "query")) && NameOf(p) != "" && !(NameOf(p) == "slug" && hidden)
  }

  predicate IsRequired(p: Value, hidden: bool) {
    IsAdvertised(p, hidden) && Lookup(p.fields, "required") == Bool(true)
  }

  function AdvertisedNames(parameters: seq<Value>, hidden: bool): set<string> {
    set p | p in parameters && IsAdvertised(p, hidden) :: NameOf(p)
  }

  function RequiredNames(parameters: seq<Value>, hidden: bool): set<string> {
    set p | p in parameters && IsRequired(p, hidden) :: NameOf(p)
  }

  function AdvertisedPath(parameters: seq<Value>, hidden: bool): set<string> {
    set p | p in parameters && IsAdvertised(p, hidden) && IsParameter(p, "path") :: NameOf(p)
  }

  /** Template variables no parameter declares. */
  function Undeclared(op: Operation, hidden: bool): set<string> {
    set v | v in TemplateVars(op.path) && v !in AdvertisedPath(Parameters(op), hidden) && !(v == "slug" && hidden)
  }

  function BodyProperties(op: Operation, components: Fields): set<string> {
    if HasRawBody(op, components) then {"body"}
    else if HasObjectBody(op, components) && Lookup(BodySchema(op, components).value, "properties").Object?
    then Lookup(BodySchema(op, components).value, "properties").fields.Keys
    else {}
  }

  function BodyRequired(op: Operation, components: Fields): set<string> {
    if HasRawBody(op, components) then {"body"}
    else if HasObjectBody(op, components) && Lookup(BodySchema(op, components).value, "required").List?
    then set v | v in Lookup(BodySchema(op, components).value, "required").items && v.Str? :: v.s
    else {}
  }

  /** A parameter's schema, with references expanded and the parameter's description where the schema has none. */
  function PropertyOf(p: Value, components: Fields): Value
    requires p.Object?
  {
    var raw, text := Lookup(p.fields, "schema"), Lookup(p.fields, "description");
    var schema := if raw.Object? then RefExpansion.Resolve(raw.fields, components, {}) else map[];
    Object(if text.Str? && text.s != "" && "description" !in schema then schema["description" := text] else schema)
  }

  /** Of parameters that share a name, the last one counts. */
  function ParameterProperties(parameters: seq<Value>, hidden: bool, components: Fields): (properties: Fields)
    ensures properties.Keys == AdvertisedNames(parameters, hidden)
  {
    if parameters == [] then map[]
    else
      var n := |parameters| - 1;
      var earlier, p := ParameterProperties(parameters[..n], hidden, components), parameters[n];
      assert parameters == parameters[..n] + [p];
      if IsAdvertised(p, hidden) then earlier[NameOf(p) := PropertyOf(p, components)] else earlier
  }

  function TextProperties(names: set<string>): Fields {
    map name | name in names :: Object(map["type" := Str("string")])
  }

  /** The body's properties; a property that is not a schema is advertised as an empty one. */
  function BodyPropertySchemas(op: Operation, components: Fields): (properties: Fields)
    ensures properties.Keys == BodyProperties(op, components)
  {
    map name | name in BodyProperties(op, components) ::
      var body := BodySchema(op, components).value;
      if HasRawBody(op, components) then Object(body)
      else
        var schema := Lookup(body, "properties").fields[name];
        if schema.Object? then schema else Object(map[])
  }

  /** The schema lists `required` in sorted order and allows no additional properties. */
  datatype Advertised = Advertised(properties: Fields, required: set<string>)

  function InputSchema(op: Operation, workspaceSlug: string, components: Fields): (schema: Advertised)
    ensures schema.properties.Keys == AdvertisedNames(Parameters(op), Injected(op, workspaceSlug))
      + Undeclared(op, Injected(op, workspaceSlug)) + BodyProperties(op, components)
  {
    var hidden := Injected(op, workspaceSlug);
    Advertised(
      ParameterProperties(Parameters(op), hidden, components) + TextProperties(Undeclared(op, hidden))
      + BodyPropertySchemas(op, components),
      RequiredNames(Parameters(op), hidden) + Undeclared(op, hidden) + BodyRequired(op, components))
  }

  method ToolInputSchema(op: Operation, workspaceSlug: string, components: Fields) returns (schema: Advertised)
    ensures schema == InputSchema(op, workspaceSlug, components)
  {
    var hidden := Injected(op, workspaceSlug);
    var properties, required, advertisedPath := AdvertiseParameters(Parameters(op), hidden, components);
    var template := PathTemplateVars(op.path);
    var undeclared := set v | v in template - advertisedPath && !(v == "slug" && hidden);
    assert undeclared == Undeclared(op, hidden);
    return Advertised(properties + TextProperties(undeclared) + BodyPropertySchemas(op, components),
                      required + undeclared + BodyRequired(op, components));
  }

  lemma {:induction false} OneMoreProperty(parameters: seq<Value>, hidden: bool, components: Fields, i: nat)
    requires i < |parameters|
    ensures var p, before := parameters[i], ParameterProperties(parameters[..i], hidden, components);
      ParameterProperties(parameters[..i + 1], hidden, components)
      == if IsAdvertised(p, hidden) then before[NameOf(p) := PropertyOf(p, components)] else before
  {
    assert parameters[..i + 1][..i] == parameters[..i];
  }

  lemma OneMoreParameter(parameters: seq<Value>, hidden: bool, i: nat)
    requires i < |parameters|
    ensures var p, before := parameters[i], RequiredNames(parameters[..i], hidden);
      RequiredNames(parameters[..i + 1], hidden) == if IsRequired(p, hidden) then before + {NameOf(p)} else before
    ensures var p, before := parameters[i], AdvertisedPath(parameters[..i], hidden);
      AdvertisedPath(parameters[..i + 1], hidden)
      == if IsAdvertised(p, hidden) && IsParameter(p, "path") then before + {NameOf(p)} else before
  {
    assert parameters[..i + 1] == parameters[..i] + [parameters[i]];
  }

  method AdvertiseParameters(parameters: seq<Value>, hidden: bool, components: Fields)
    returns (properties: Fields, required: set<string>, advertisedPath: set<string>)
    ensures properties == ParameterProperties(parameters, hidden, components)
    ensures required == RequiredNames(parameters, hidden) && advertisedPath == AdvertisedPath(parameters, hidden)
  {
    properties, required, advertisedPath := map[], {}, {};
    for i := 0 to |parameters|
      invariant properties == ParameterProperties(parameters[..i], hidden, components)
      invariant required == RequiredNames(parameters[..i], hidden)
      invariant advertisedPath == AdvertisedPath(parameters[..i], hidden)
    {
      var p := parameters[i];
      OneMoreProperty(parameters, hidden, components, i);
      OneMoreParameter(parameters, hidden, i);
      if !IsAdvertised(p, hidden) {
        continue;
      }
      properties := properties[NameOf(p) := PropertyOf(p, components)];
      if Lookup(p.fields, "required") == Bool(true) {
        required := required + {NameOf(p)};
      }
      if IsParameter(p, "path") {
        advertisedPath := advertisedPath + {NameOf(p)};
      }
    }
    assert parameters[..|parameters|] == parameters;
  }

  lemma {:induction false} LastParameterProperty(parameters: seq<Value>, hidden: bool, components: Fields, i: nat)
    requires i < |parameters| && IsAdvertised(parameters[i], hidden)
    requires forall j :: i < j < |parameters| && IsAdvertised(parameters[j], hidden) ==>
      NameOf(parameters[j]) != NameOf(parameters[i])
    ensures NameOf(parameters[i]) in ParameterProperties(parameters, hidden, components)
    ensures ParameterProperties(parameters, hidden, components)[NameOf(parameters[i])] == PropertyOf(parameters[i], components)
  {
    if i < |parameters| - 1 { LastParameterProperty(parameters[..|parameters| - 1], hidden, components, i); }
  }

  /** A name that parameters declare, and the body does not, is advertised with the schema of the last of them. */
  lemma PropertyIsItsParameters(op: Operation, workspaceSlug: string, components: Fields, i: nat)
    requires i < |Parameters(op)| && IsAdvertised(Parameters(op)[i], Injected(op, workspaceSlug))
    requires forall j :: i < j < |Parameters(op)| && IsAdvertised(Parameters(op)[j], Injected(op, workspaceSlug)) ==>
      NameOf(Parameters(op)[j]) != NameOf(Parameters(op)[i])
    requires var name := NameOf(Parameters(op)[i]);
      name !in BodyProperties(op, components) && name !in Undeclared(op, Injected(op, workspaceSlug))
    ensures var name, schema := NameOf(Parameters(op)[i]), InputSchema(op, workspaceSlug, components);
      name in schema.properties && schema.properties[name] == PropertyOf(Parameters(op)[i], components)
  {
    LastParameterProperty(Parameters(op), Injected(op, workspaceSlug), components, i);
  }

  // ---------------------------------------------------------------------------------------------
  // Routing
  // ---------------------------------------------------------------------------------------------

  /** `body` is null when the request carries none. */
  datatype Routed = Routed(pathVars: map<string, string>, query: Fields, body: Value)

  function PathNames(op: Operation): set<string> {
    TemplateVars(op.path) + PathParams(op)
  }

  /** Leftover inputs of a body-bearing method. */
  function BodyOf(op: Operation, components: Fields, rest: Fields): Value {
    if HasRawBody(op, components) && rest.Keys == {"body"} then rest["body"]
    else if rest != map[] then Object(rest) else Null
  }

  /** `show` is Python's `str()`. A missing template variable is an error naming the missing ones. */
  function Split(op: Operation, components: Fields, show: Value -> string, inputs: Fields): Result<Routed, set<string>> {
    var missing := TemplateVars(op.path) - inputs.Keys;
    var pathVars := map v | v in PathNames(op) && v in inputs :: show(inputs[v]);
    var remaining := inputs - PathNames(op);
    if missing != {} then Err(missing)
    else if op.method_ in BODY_METHODS then
      Ok(Routed(pathVars, remaining - (remaining.Keys - QueryParams(op)), BodyOf(op, components, remaining - QueryParams(op))))
    else Ok(Routed(pathVars, remaining, Null))
  }

  method SplitInputs(op: Operation, components: Fields, show: Value -> string, inputs: Fields)
    returns (routed: Result<Routed, set<string>>)
    ensures routed == Split(op, components, show, inputs)
  {
    var pathParams, queryParams := DeclaredNames(Parameters(op));
    var template := PathTemplateVars(op.path);
    var pathVars, remaining := BindPath(template + pathParams, show, inputs);
    var missing := template - pathVars.Keys;
    assert missing == template - inputs.Keys;
    if missing != {} {
      return Err(missing);
    }
    if op.method_ in BODY_METHODS {
      var query, body := SplitLeftovers(remaining, queryParams);
      return Ok(Routed(pathVars, query, BodyOf(op, components, body)));
    }
    return Ok(Routed(pathVars, remaining, Null));
  }

  method DeclaredNames(parameters: seq<Value>) returns (pathParams: set<string>, queryParams: set<string>)
    ensures pathParams == DeclaredIn(parameters, "path") && queryParams == DeclaredIn(parameters, "query")
  {
    pathParams, queryParams := {}, {};
    for i := 0 to |parameters|
      invariant pathParams == DeclaredIn(parameters[..i], "path") && queryParams == DeclaredIn(parameters[..i], "query")
    {
      var p := parameters[i];
      assert parameters[..i + 1] == parameters[..i] + [p];
      if IsParameter(p, "path") {
        pathParams := pathParams + {NameOf(p)};
      } else if IsParameter(p, "query") {
        queryParams := queryParams + {NameOf(p)};
      }
    }
    assert parameters[..|parameters|] == parameters;
  }

  method BindPath(names: set<string>, show: Value -> string, inputs: Fields)
    returns (pathVars: map<string, string>, remaining: Fields)
    ensures pathVars == map v | v in names && v in inputs :: show(inputs[v])
    ensures remaining == inputs - names
  {
    pathVars, remaining := map[], inputs;
    var todo := names;
    while todo != {}
      invariant todo <= names
      invariant pathVars == map v | v in names && v !in todo && v in inputs :: show(inputs[v])
      invariant remaining == inputs - (names - todo)
      decreases |todo|
    {
      var v :| v in todo;
      if v in remaining {
        pathVars := pathVars[v := show(remaining[v])];
        remaining := remaining - {v};
      }
      todo := todo - {v};
    }
  }

  method SplitLeftovers(remaining: Fields, queryParams: set<string>) returns (query: Fields, body: Fields)
    ensures query == remaining - (remaining.Keys - queryParams) && body == remaining - queryParams
  {
    query, body := map[], map[];
    var todo := remaining.Keys;
    while todo != {}
      invariant todo <= remaining.Keys
      invariant query == map k | k in remaining && k in queryParams && k !in todo :: remaining[k]
      invariant body == map k | k in remaining && k !in queryParams && k !in todo :: remaining[k]
      decreases |todo|
    {
      var k :| k in todo;
      if k in queryParams {
        query := query[k := remaining[k]];
      } else {
        body := body[k := remaining[k]];
      }
      todo := todo - {k};
    }
  }

  // ---------------------------------------------------------------------------------------------
  // Routing loses and invents nothing
  // ---------------------------------------------------------------------------------------------

  /** The leftover inputs that make up a request body. */
  function BodyInputs(op: Operation, inputs: Fields): Fields {
    if op.method_ in BODY_METHODS then inputs - PathNames(op) - QueryParams(op) else map[]
  }

  /** Each input goes to exactly one of path, query and body, with its value; nothing else is sent. */
  lemma EachInputGoesToOnePlace(op: Operation, components: Fields, show: Value -> string, inputs: Fields)
    requires Split(op, components, show, inputs).Ok?
    ensures var r, body := Split(op, components, show, inputs).value, BodyInputs(op, inputs);
      && r.pathVars.Keys + r.query.Keys + body.Keys == inputs.Keys
      && r.pathVars.Keys !! r.query.Keys !! body.Keys
      && (forall k :: k in r.pathVars ==> r.pathVars[k] == show(inputs[k]))
      && (forall k :: k in r.query ==> r.query[k] == inputs[k])
      && (r.body == (if body == map[] then Null else Object(body))
          || (HasRawBody(op, components) && body.Keys == {"body"} && r.body == inputs["body"]))
      && TemplateVars(op.path) <= r.pathVars.Keys
  {
    var r, body := Split(op, components, show, inputs).value, BodyInputs(op, inputs);
    assert r.pathVars.Keys == inputs.Keys * PathNames(op);
    if op.method_ in BODY_METHODS {
      assert body == inputs - PathNames(op) - QueryParams(op);
      assert r.query.Keys == (inputs.Keys - PathNames(op)) * QueryParams(op);
    }
  }

  // ---------------------------------------------------------------------------------------------
  // Inputs that meet the advertised schema bind
  // ---------------------------------------------------------------------------------------------

  /** The dispatcher adds its own workspace unless the call names one. */
  function Merged(op: Operation, workspaceSlug: string, inputs: Fields): Fields {
    if Mentions(op.path, SLUG_FIELD) && "slug" !in inputs then inputs["slug" := Str(workspaceSlug)] else inputs
  }

  predicate Binds(op: Operation, workspaceSlug: string, components: Fields, show: Value -> string, inputs: Fields) {
    Split(op, components, show, Merged(op, workspaceSlug, inputs)).Ok?
  }

  function Supplied(op: Operation, workspaceSlug: string, components: Fields): set<string> {
    WithSlug(op, InputSchema(op, workspaceSlug, components).required)
  }

  function Nulls(names: set<string>): Fields {
    map name | name in names :: Null
  }

  /** Every call with the required inputs binds its path exactly when each template variable is required or injected. */
  lemma RequiredInputsBindIff(op: Operation, workspaceSlug: string, components: Fields, show: Value -> string)
    ensures (forall inputs: Fields :: InputSchema(op, workspaceSlug, components).required <= inputs.Keys
               ==> Binds(op, workspaceSlug, components, show, inputs))
       <==> TemplateVars(op.path) <= Supplied(op, workspaceSlug, components)
  {
    var required := InputSchema(op, workspaceSlug, components).required;
    if TemplateVars(op.path) <= Supplied(op, workspaceSlug, components) {
      forall inputs: Fields | required <= inputs.Keys ensures Binds(op, workspaceSlug, components, show, inputs) {
        BindsWhenCovered(op, workspaceSlug, components, show, inputs, required);
      }
    } else {
      BareCallFails(op, workspaceSlug, components, show, required);
    }
  }

  function WithSlug(op: Operation, names: set<string>): set<string> {
    names + if Mentions(op.path, SLUG_FIELD) then {"slug"} else {}
  }

  lemma BindsWhenCovered(
    op: Operation, workspaceSlug: string, components: Fields, show: Value -> string, inputs: Fields, required: set<string>)
    requires required <= inputs.Keys && TemplateVars(op.path) <= WithSlug(op, required)
    ensures Binds(op, workspaceSlug, components, show, inputs)
  {
    assert TemplateVars(op.path) - Merged(op, workspaceSlug, inputs).Keys == {};
  }

  lemma BareCallFails(op: Operation, workspaceSlug: string, components: Fields, show: Value -> string, required: set<string>)
    requires !(TemplateVars(op.path) <= WithSlug(op, required))
    ensures Nulls(required).Keys == required && !Binds(op, workspaceSlug, components, show, Nulls(required))
  {
    var v :| v in TemplateVars(op.path) && v !in WithSlug(op, required);
    assert v in TemplateVars(op.path) - Merged(op, workspaceSlug, Nulls(required)).Keys;
  }

  /** OpenAPI's own rule, that path parameters are marked required, is enough. */
  lemma RequiredPathParamsBind(op: Operation, workspaceSlug: string, components: Fields, show: Value -> string, inputs: Fields)
    requires forall p :: p in Parameters(op) && IsParameter(p, "path") ==> Lookup(p.fields, "required") == Bool(true)
    requires InputSchema(op, workspaceSlug, components).required <= inputs.Keys
    ensures Binds(op, workspaceSlug, components, show, inputs)
  {
    var hidden := Injected(op, workspaceSlug);
    forall v | v in TemplateVars(op.path) ensures v in Supplied(op, workspaceSlug, components) {
      if v in AdvertisedPath(Parameters(op), hidden) {
        var p :| p in Parameters(op) && IsAdvertised(p, hidden) && IsParameter(p, "path") && NameOf(p) == v;
        assert IsRequired(p, hidden);
      } else if !(v == "slug" && hidden) {
        assert v in Undeclared(op, hidden);
      }
    }
    RequiredInputsBindIff(op, workspaceSlug, components, show);
  }

  // ---------------------------------------------------------------------------------------------
  // Advertised body properties reach the body
  // ---------------------------------------------------------------------------------------------

  /** Whenever the call binds, an input of this name is delivered in the body. */
  ghost predicate ReachesBody(op: Operation, components: Fields, show: Value -> string, name: string) {
    forall inputs: Fields :: name in inputs && Split(op, components, show, inputs).Ok? ==>
      Lookup(BodyInputs(op, inputs), name) == inputs[name] && name in BodyInputs(op, inputs)
  }

  /** A name in the body schema is delivered there exactly when the method carries a body and no other place claims the name. */
  lemma ReachesBodyIff(op: Operation, components: Fields, show: Value -> string, name: string)
    ensures ReachesBody(op, components, show, name)
       <==> op.method_ in {"POST", "PATCH", "PUT"} && name !in PathNames(op) + QueryParams(op)
  {
    if !(op.method_ in BODY_METHODS && name !in PathNames(op) + QueryParams(op)) {
      var inputs := Nulls(TemplateVars(op.path) + {name});
      assert TemplateVars(op.path) - inputs.Keys == {};
      assert Split(op, components, show, inputs).Ok? && name !in BodyInputs(op, inputs);
    }
  }

  lemma AdvertisedAreDeclared(parameters: seq<Value>, hidden: bool)
    ensures AdvertisedNames(parameters, hidden) <= DeclaredIn(parameters, "path") + DeclaredIn(parameters, "query")
  {
    forall name | name in AdvertisedNames(parameters, hidden)
      ensures name in DeclaredIn(parameters, "path") + DeclaredIn(parameters, "query")
    {
      var p :| p in parameters && IsAdvertised(p, hidden) && NameOf(p) == name;
      assert IsParameter(p, "path") || IsParameter(p, "query");
    }
  }

  ghost predicate MeetsSchema(op: Operation, workspaceSlug: string, components: Fields, inputs: Fields) {
    var schema := InputSchema(op, workspaceSlug, components);
    schema.required <= inputs.Keys <= schema.properties.Keys + TemplateVars(op.path)
  }

  /**
   A request body that is not an object is advertised as the one property "body". Calls that meet the
   schema send exactly that value, provided the method carries a body and no other place claims the name.
   */
  lemma RawBodyIsSentAsIs(op: Operation, workspaceSlug: string, components: Fields, show: Value -> string, inputs: Fields)
    requires HasRawBody(op, components) && op.method_ in BODY_METHODS && "body" !in PathNames(op) + QueryParams(op)
    requires MeetsSchema(op, workspaceSlug, components, inputs) && Split(op, components, show, inputs).Ok?
    ensures Split(op, components, show, inputs).value.body == inputs["body"]
  {
    MeetsSchemaKeys(op, workspaceSlug, components, inputs);
    AdvertisedAreDeclared(Parameters(op), Injected(op, workspaceSlug));
    RawLeftover(op, components, show, inputs, AdvertisedNames(Parameters(op), Injected(op, workspaceSlug)));
  }

  lemma MeetsSchemaKeys(op: Operation, workspaceSlug: string, components: Fields, inputs: Fields)
    requires MeetsSchema(op, workspaceSlug, components, inputs)
    ensures BodyRequired(op, components) <= inputs.Keys
    ensures inputs.Keys
      <= AdvertisedNames(Parameters(op), Injected(op, workspaceSlug)) + BodyProperties(op, components) + TemplateVars(op.path)
  {
  }

  lemma RawLeftover(op: Operation, components: Fields, show: Value -> string, inputs: Fields, declared: set<string>)
    requires HasRawBody(op, components) && op.method_ in BODY_METHODS && "body" !in PathNames(op) + QueryParams(op)
    requires declared <= PathParams(op) + QueryParams(op)
    requires "body" in inputs && inputs.Keys <= declared + {"body"} + TemplateVars(op.path)
    requires Split(op, components, show, inputs).Ok?
    ensures Split(op, components, show, inputs).value.body == inputs["body"]
  {
    var rest := inputs - PathNames(op) - QueryParams(op);
    assert rest.Keys == {"body"};
  }

  // ---------------------------------------------------------------------------------------------
  // A property that is advertised and never arrives
  // ---------------------------------------------------------------------------------------------

  function QueryParameter(name: string): Value {
    Object(map["in" := Str("query"), "name" := Str(name)])
  }

  function ObjectSchema(properties: Fields): Fields {
    map["type" := Str("object"), "properties" := Object(properties)]
  }

  function JsonBody(schema: Fields): Value {
    Object(map["content" := Object(map["application/json" := Object(map["schema" := Object(schema)])])])
  }

  /** A POST with one query parameter, whose body is an object with one property of the same name. */
  function Claimed(path: string, name: string, property: Fields): Operation {
    Operation("POST", path, map[
      "parameters" := List([QueryParameter(name)]),
      "requestBody" := JsonBody(ObjectSchema(map[name := Object(property)]))])
  }

  lemma ClaimedNames(path: string, name: string, property: Fields)
    ensures PathParams(Claimed(path, name, property)) == {} && QueryParams(Claimed(path, name, property)) == {name}
  {
    assert |"parameters"| == 10 && |"requestBody"| == 11 && |"in"| == 2 && |"name"| == 4 && |"query"| == 5 && |"path"| == 4;
    var p, op := QueryParameter(name), Claimed(path, name, property);
    assert Parameters(op) == [p] && IsParameter(p, "query") && !IsParameter(p, "path") && NameOf(p) == name;
    assert p in Parameters(op);
  }

  lemma ClaimedBody(path: string, name: string, property: Fields)
    requires name != "$ref" && "$ref" !in property && forall k :: k in property ==> Json.IsScalar(property[k])
    ensures BodySchema(Claimed(path, name, property), map[]) == Some(ObjectSchema(map[name := Object(property)]))
  {
    assert |"parameters"| == 10 && |"requestBody"| == 11 && |"type"| == 4 && |"properties"| == 10;
    assert "$ref"[0] == '$' && "type"[0] == 't';
    PlainSchemaStays(property);
    PlainSchemaStays(map[name := Object(property)]);
    PlainSchemaStays(ObjectSchema(map[name := Object(property)]));
  }

  /** An object without references, with members that expansion leaves alone, is left alone. */
  lemma {:induction false} PlainSchemaStays(fields: Fields)
    requires "$ref" !in fields
    requires forall k :: k in fields ==> RefExpansion.ResolveValue(fields[k], map[], {}) == fields[k]
    ensures RefExpansion.Resolve(fields, map[], {}) == fields
    ensures RefExpansion.ResolveValue(Object(fields), map[], {}) == Object(fields)
  {
  }

  lemma ClaimedSplit(op: Operation, components: Fields, show: Value -> string, v: string, name: string, a: Value, b: Value)
    requires op.method_ in BODY_METHODS && v != name
    requires TemplateVars(op.path) == {v} && PathParams(op) == {} && QueryParams(op) == {name}
    ensures Split(op, components, show, map[v := a, name := b]) == Ok(Routed(map[v := show(a)], map[name := b], Null))
  {
    var inputs: Fields := map[v := a, name := b];
    assert TemplateVars(op.path) - inputs.Keys == {};
    var remaining := inputs - PathNames(op);
    assert remaining == map[name := b];
    assert remaining - QueryParams(op) == map[];
    assert remaining - (remaining.Keys - QueryParams(op)) == remaining;
    assert BodyOf(op, components, map[]) == Null;
    assert (map x | x in PathNames(op) && x in inputs :: show(inputs[x])) == map[v := show(a)];
  }

  /**
   The body property is advertised, a call that gives it binds, and the value goes out in the query alone: with any
   name, on any path with one variable.
   */
  lemma {:induction false} ClaimedPropertyNeverArrives(
    t: Template, v: string, name: string, property: Fields, workspaceSlug: string, show: Value -> string, a: Value, b: Value)
    requires WellFormed(t) && NamesOf(t) == {v} && v != name
    requires name != "$ref" && "$ref" !in property && forall k :: k in property ==> Json.IsScalar(property[k])
    ensures var op := Claimed(Render(t), name, property);
      && op.method_ in BODY_METHODS && HasObjectBody(op, map[])
      && name in BodyProperties(op, map[]) && name in InputSchema(op, workspaceSlug, map[]).properties
      && Split(op, map[], show, map[v := a, name := b]) == Ok(Routed(map[v := show(a)], map[name := b], Null))
      && !ReachesBody(op, map[], show, name)
  {
    VariablesAreTheNames(t);
    ClaimedNames(Render(t), name, property);
    ClaimedIsAdvertised(Render(t), name, property, workspaceSlug);
    ClaimedSplit(Claimed(Render(t), name, property), map[], show, v, name, a, b);
    ReachesBodyIff(Claimed(Render(t), name, property), map[], show, name);
  }

  lemma ClaimedIsAdvertised(path: string, name: string, property: Fields, workspaceSlug: string)
    requires name != "$ref" && "$ref" !in property && forall k :: k in property ==> Json.IsScalar(property[k])
    ensures HasObjectBody(Claimed(path, name, property), map[]) && BodyProperties(Claimed(path, name, property), map[]) == {name}
    ensures name in InputSchema(Claimed(path, name, property), workspaceSlug, map[]).properties
  {
    assert |"type"| == 4 && |"properties"| == 10;
    ClaimedBody(path, name, property);
    assert BodyProperties(Claimed(path, name, property), map[]) == {name};
  }

  /** `POST /w/{slug}/api/v1/tasks` with a query parameter and a body property both called `dry_run`. */
  lemma DryRunNeverArrives(show: Value -> string)
    ensures var t := Piece("/w/", "slug", Tail("/api/v1/tasks"));
      var op := Claimed(Render(t), "dry_run", map["type" := Str("boolean")]);
      "dry_run" in InputSchema(op, "home", map[]).properties && !ReachesBody(op, map[], show, "dry_run")
  {
    var t := Piece("/w/", "slug", Tail("/api/v1/tasks"));
    assert |"slug"| == 4 && |"dry_run"| == 7 && |"$ref"| == 4 && "$ref"[0] == '$' && "type"[0] == 't';
    assert WellFormed(t) && NamesOf(t) == {"slug"};
    ClaimedPropertyNeverArrives(t, "slug", "dry_run", map["type" := Str("boolean")], "home", show, Str("home"), Bool(true));
  }

  // ---------------------------------------------------------------------------------------------
  // What the schema says of a body and of a parameter
  // ---------------------------------------------------------------------------------------------

  /** The operation's JSON body has this schema once references are expanded. */
  predicate HasBody(op: Operation, components: Fields, body: Fields) {
    && "requestBody" in op.details && op.details["requestBody"].Object?
    && "content" in op.details["requestBody"].fields && op.details["requestBody"].fields["content"].Object?
    && "application/json" in op.details["requestBody"].fields["content"].fields
    && var media := op.details["requestBody"].fields["content"].fields["application/json"];
       media.Object? && "schema" in media.fields && media.fields["schema"].Object?
       && body == RefExpansion.Resolve(media.fields["schema"].fields, components, {})
  }

  predicate IsObjectSchema(body: Fields) {
    "type" in body && body["type"] == Str("object")
  }

  lemma HasBodyIff(op: Operation, components: Fields, body: Fields)
    ensures BodySchema(op, components) == Some(body) <==> HasBody(op, components, body)
  {
  }

  /** A property of an object body is advertised with its own schema, or with an empty one if it is no schema. */
  lemma BodyPropertyIsAdvertised(
    op: Operation, workspaceSlug: string, components: Fields, body: Fields, properties: Fields, name: string)
    requires HasBody(op, components, body) && IsObjectSchema(body)
    requires "properties" in body && body["properties"] == Object(properties) && name in properties
    ensures var schema := InputSchema(op, workspaceSlug, components);
      name in schema.properties
      && schema.properties[name] == if properties[name].Object? then properties[name] else Object(map[])
  {
    HasBodyIff(op, components, body);
  }

  /** A body that is not an object is advertised, and required, as the one property "body". */
  lemma RawBodyIsAdvertised(op: Operation, workspaceSlug: string, components: Fields, body: Fields)
    requires HasBody(op, components, body) && !IsObjectSchema(body)
    ensures var schema := InputSchema(op, workspaceSlug, components);
      "body" in schema.properties && schema.properties["body"] == Object(body) && "body" in schema.required
  {
    HasBodyIff(op, components, body);
  }

  /** The path or query parameter is listed with this name. */
  predicate Lists(op: Operation, place: string, name: string, p: Value) {
    && "parameters" in op.details && op.details["parameters"].List? && p in op.details["parameters"].items && p.Object?
    && "in" in p.fields && p.fields["in"] == Str(place) && "name" in p.fields && p.fields["name"] == Str(name) && name != ""
  }

  /** The dispatcher supplies the workspace itself. */
  predicate Supplies(op: Operation, workspaceSlug: string, name: string) {
    name == "slug" && Injected(op, workspaceSlug)
  }

  /** A name is required exactly when a parameter says so, the path needs it undeclared, or the body's schema does. */
  lemma RequiredIff(op: Operation, workspaceSlug: string, components: Fields, name: string)
    ensures name in InputSchema(op, workspaceSlug, components).required <==>
      || (!Supplies(op, workspaceSlug, name)
          && exists p :: (Lists(op, "path", name, p) || Lists(op, "query", name, p))
               && "required" in p.fields && p.fields["required"] == Bool(true))
      || (name in TemplateVars(op.path) && !Supplies(op, workspaceSlug, name) && forall p :: !Lists(op, "path", name, p))
      || (exists body: Fields :: HasBody(op, components, body)
            && (if IsObjectSchema(body) then "required" in body && body["required"].List? && Str(name) in body["required"].items
                else name == "body"))
  {
    var hidden := Injected(op, workspaceSlug);
    forall body: Fields ensures BodySchema(op, components) == Some(body) <==> HasBody(op, components, body) {
      HasBodyIff(op, components, body);
    }
    RequiredByParameterIff(op, hidden, name);
    if !(name == "slug" && hidden) { DeclaredByParameterIff(op, hidden, name); }
    RequiredByBodyIff(op, components, name);
  }

  lemma RequiredByParameterIff(op: Operation, hidden: bool, name: string)
    ensures name in RequiredNames(Parameters(op), hidden) <==>
      && !(name == "slug" && hidden)
      && exists p :: (Lists(op, "path", name, p) || Lists(op, "query", name, p))
           && "required" in p.fields && p.fields["required"] == Bool(true)
  {
    if name in RequiredNames(Parameters(op), hidden) {
      var p :| p in Parameters(op) && IsRequired(p, hidden) && NameOf(p) == name;
      assert Lists(op, "path", name, p) || Lists(op, "query", name, p);
    }
    if p :| (Lists(op, "path", name, p) || Lists(op, "query", name, p)) && "required" in p.fields && p.fields["required"] == Bool(true) {
      assert p in Parameters(op) && NameOf(p) == name;
      assert !(name == "slug" && hidden) ==> IsRequired(p, hidden);
    }
  }

  lemma DeclaredByParameterIff(op: Operation, hidden: bool, name: string)
    requires !(name == "slug" && hidden)
    ensures name in AdvertisedPath(Parameters(op), hidden) <==> exists p :: Lists(op, "path", name, p)
  {
    if name in AdvertisedPath(Parameters(op), hidden) {
      var p :| p in Parameters(op) && IsAdvertised(p, hidden) && IsParameter(p, "path") && NameOf(p) == name;
      assert Lists(op, "path", name, p);
    }
    if p :| Lists(op, "path", name, p) {
      assert p in Parameters(op) && IsAdvertised(p, hidden) && IsParameter(p, "path");
    }
  }

  lemma RequiredByBodyIff(op: Operation, components: Fields, name: string)
    ensures name in BodyRequired(op, components) <==>
      && BodySchema(op, components).Some?
      && var body := BodySchema(op, components).value;
         if IsObjectSchema(body) then "required" in body && body["required"].List? && Str(name) in body["required"].items
         else name == "body"
  {
    if HasObjectBody(op, components) && Lookup(BodySchema(op, components).value, "required").List? {
      var items := Lookup(BodySchema(op, components).value, "required").items;
      if Str(name) in items { assert Str(name).Str?; }
    }
  }

  /** A parameter's property is its schema, expanded, and describes itself in the schema's words or else in the parameter's. */
  lemma {:induction false} PropertySays(p: Value, components: Fields, raw: Fields, k: string)
    requires p.Object? && "schema" in p.fields && p.fields["schema"] == Object(raw)
    ensures PropertyOf(p, components).Object?
    ensures var schema, property := RefExpansion.Resolve(raw, components, {}), PropertyOf(p, components).fields;
      && (k in schema ==> k in property && property[k] == schema[k])
      && (k in property && k !in schema ==> k == "description" && Lookup(p.fields, "description") == property[k])
      && ((exists text :: text != "" && Lookup(p.fields, "description") == Str(text)) ==> "description" in property)
  {
  }

  /** A template variable that no parameter declares is advertised as a string. */
  lemma UndeclaredVariableIsAString(op: Operation, workspaceSlug: string, components: Fields, v: string)
    requires v in TemplateVars(op.path) && !Supplies(op, workspaceSlug, v) && v !in BodyProperties(op, components)
    requires forall p :: !Lists(op, "path", v, p)
    ensures v in InputSchema(op, workspaceSlug, components).properties
    ensures InputSchema(op, workspaceSlug, components).properties[v] == Object(map["type" := Str("string")])
  {
    DeclaredByParameterIff(op, Injected(op, workspaceSlug), v);
  }

  // ---------------------------------------------------------------------------------------------
  // What a call with too few inputs is told, and where the workspace comes from
  // ---------------------------------------------------------------------------------------------

  /** A call fails exactly when template variables are not given, and it is told which. */
  lemma MissingAreNamed(op: Operation, components: Fields, show: Value -> string, inputs: Fields, missing: set<string>)
    ensures Split(op, components, show, inputs) == Err(missing)
       <==> missing != {} && forall v :: v in missing <==> v in TemplateVars(op.path) && v !in inputs
  {
    var left := TemplateVars(op.path) - inputs.Keys;
    if forall v :: v in missing <==> v in TemplateVars(op.path) && v !in inputs {
      assert missing == left;
    }
  }

  predicate OccursAt(path: string, i: nat, text: string) {
    i + |text| <= |path| && path[i..i + |text|] == text
  }

  lemma OccursAtStart(path: string, text: string)
    ensures OccursAt(path, 0, text) <==> text <= path
  {
  }

  lemma OccursBehind(path: string, i: nat, text: string)
    requires path != ""
    ensures OccursAt(path[1..], i, text) <==> OccursAt(path, i + 1, text)
  {
    if i + 1 + |text| <= |path| { assert path[1..][i..i + |text|] == path[i + 1..i + 1 + |text|]; }
  }

  lemma {:induction false} MentionsIff(path: string, text: string)
    requires text != ""
    ensures Mentions(path, text) <==> exists i :: OccursAt(path, i, text)
  {
    OccursAtStart(path, text);
    if |text| <= |path| && !(text <= path) {
      MentionsIff(path[1..], text);
      if i: nat :| OccursAt(path[1..], i, text) { OccursBehind(path, i, text); }
      if i: nat :| OccursAt(path, i, text) { OccursBehind(path, i - 1, text); }
    }
  }

  predicate NamesBraceFree(t: Template) {
    t.Piece? ==> '{' !in t.name && NamesBraceFree(t.rest)
  }

  lemma {:induction false} SlugOccurs(t: Template)
    requires WellFormed(t) && "slug" in NamesOf(t)
    ensures exists i :: OccursAt(Render(t), i, SLUG_FIELD)
  {
    var path, rest := Render(t), Render(t.rest);
    var n := |t.text| + 2 + |t.name|;
    assert path[n..] == rest;
    if t.name == "slug" {
      assert path[|t.text|..|t.text| + 6] == "{" + "slug" + "}";
      assert OccursAt(path, |t.text|, SLUG_FIELD);
    } else {
      SlugOccurs(t.rest);
      var i: nat :| OccursAt(rest, i, SLUG_FIELD);
      assert path[n + i..n + i + 6] == rest[i..i + 6];
      assert OccursAt(path, n + i, SLUG_FIELD);
    }
  }

  lemma {:induction false} OccursMeansSlug(t: Template, i: nat)
    requires WellFormed(t) && NamesBraceFree(t) && OccursAt(Render(t), i, SLUG_FIELD)
    ensures "slug" in NamesOf(t)
  {
    var path := Render(t);
    assert path[i] == path[i..i + 6][0] == '{';
    if t.Piece? {
      var n, rest := |t.text| + 2 + |t.name|, Render(t.rest);
      assert path[n..] == rest;
      BraceIsAtAPiece(t, i);
      if i == |t.text| {
        NameIsSlug(t, path);
      } else {
        assert rest[i - n..i - n + 6] == path[i..i + 6];
        OccursMeansSlug(t.rest, i - n);
      }
    }
  }

  lemma {:induction false} RenderedChars(t: Template, i: nat)
    requires t.Piece? && i < |Render(t)|
    ensures i < |t.text| ==> Render(t)[i] in t.text
    ensures |t.text| < i <= |t.text| + |t.name| ==> Render(t)[i] in t.name
    ensures i == |t.text| + 1 + |t.name| ==> Render(t)[i] == '}'
  {
  }

  lemma {:induction false} BraceIsAtAPiece(t: Template, i: nat)
    requires t.Piece? && WellFormed(t) && '{' !in t.name && i < |Render(t)| && Render(t)[i] == '{'
    ensures i == |t.text| || i >= |t.text| + 2 + |t.name|
  {
    RenderedChars(t, i);
  }

  lemma {:induction false} BraceEndsTheName(t: Template, path: string, end: nat)
    requires t.Piece? && WellFormed(t) && path == Render(t)
    requires |t.text| <= end < |path| && path[end] == '}' && forall j :: |t.text| <= j < end ==> path[j] != '}'
    ensures end == |t.text| + 1 + |t.name|
  {
    var k := |t.text|;
    assert forall j :: k < j <= k + |t.name| ==> path[j] == t.name[j - k - 1];
    FindAt(path, '}', k, end);
    FindAt(path, '}', k, k + 1 + |t.name|);
  }

  lemma SlugField(path: string, k: nat)
    requires OccursAt(path, k, SLUG_FIELD)
    ensures path[k + 5] == '}' && (forall j :: k <= j < k + 5 ==> path[j] != '}') && path[k + 1..k + 5] == "slug"
  {
    var field := path[k..k + 6];
    assert field == "{slug}" && forall j :: k <= j < k + 6 ==> path[j] == field[j - k];
    assert path[k + 1..k + 5] == field[1..5];
  }

  lemma {:induction false} NameIsSlug(t: Template, path: string)
    requires t.Piece? && WellFormed(t) && path == Render(t) && OccursAt(path, |t.text|, SLUG_FIELD)
    ensures t.name == "slug"
  {
    var k := |t.text|;
    SlugField(path, k);
    BraceEndsTheName(t, path, k + 5);
    assert path[k + 1..k + 5] == t.name;
  }

  lemma SlugIsBound(op: Operation, workspaceSlug: string, components: Fields, show: Value -> string, inputs: Fields)
    requires "slug" in TemplateVars(op.path) && Mentions(op.path, SLUG_FIELD)
    ensures var routed := Split(op, components, show, Merged(op, workspaceSlug, inputs));
      routed.Ok? ==>
        && "slug" in routed.value.pathVars
        && routed.value.pathVars["slug"] == show(if "slug" in inputs then inputs["slug"] else Str(workspaceSlug))
  {
  }

  lemma SlugIsNotAdvertised(op: Operation, workspaceSlug: string, components: Fields)
    requires Mentions(op.path, SLUG_FIELD) && workspaceSlug != ""
    ensures "slug" !in InputSchema(op, workspaceSlug, components).properties.Keys - BodyProperties(op, components)
  {
    assert "slug" !in AdvertisedNames(Parameters(op), true) && "slug" !in Undeclared(op, true);
  }

  /**
   A call on a path with a `slug` variable goes to the workspace it names, and else to the dispatcher's own; on any
   other path nothing is added to its inputs.
   */
  lemma {:induction false} WorkspaceIsInjected(
    t: Template, op: Operation, workspaceSlug: string, components: Fields, show: Value -> string, inputs: Fields)
    requires WellFormed(t) && NamesBraceFree(t) && op.path == Render(t)
    ensures "slug" !in NamesOf(t) ==> Merged(op, workspaceSlug, inputs) == inputs
    ensures "slug" in NamesOf(t) ==>
      var routed := Split(op, components, show, Merged(op, workspaceSlug, inputs));
      routed.Ok? ==>
        && "slug" in routed.value.pathVars
        && routed.value.pathVars["slug"] == show(if "slug" in inputs then inputs["slug"] else Str(workspaceSlug))
    ensures "slug" in NamesOf(t) && workspaceSlug != "" ==>
      "slug" !in InputSchema(op, workspaceSlug, components).properties.Keys - BodyProperties(op, components)
  {
    VariablesAreTheNames(t);
    MentionsIff(op.path, SLUG_FIELD);
    if "slug" in NamesOf(t) {
      SlugOccurs(t);
      SlugIsBound(op, workspaceSlug, components, show, inputs);
      if workspaceSlug != "" { SlugIsNotAdvertised(op, workspaceSlug, components); }
    } else if i: nat :| OccursAt(op.path, i, SLUG_FIELD) {
      OccursMeansSlug(t, i);
    }
  }
}
