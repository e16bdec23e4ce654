/**
 Route parameters substituted into link templates one `str.replace` at a time, in no particular order.
 */
module AgentLinks {
  import opened Prelude

  type byte = x: int | 0 <= x < 256

  // ---------------------------------------------------------------------------------------------
  // Percent encoding and replacement
  // ---------------------------------------------------------------------------------------------

  predicate IsUnreserved(b: byte) {
    65 <= b <= 90 || 97 <= b <= 122 || 48 <= b <= 57 || b == 95 || b == 46 || b == 45 || b == 126
  }

  function HexDigit(v: int): (c: char)
    requires 0 <= v < 16
    ensures '0' <= c <= '9' || 'A' <= c <= 'F'
  {
    if v < 10 then (48 + v) as char else (55 + v) as char
  }

  /** `urllib.parse.quote(value, safe="")`, the value given as its UTF-8 bytes. */
  function Quote(value: seq<byte>): string {
    if value == [] then ""
    else
      (if IsUnreserved(value[0]) then [value[0] as char] else ['%', HexDigit(value[0] / 16), HexDigit(value[0] % 16)])
      + Quote(value[1..])
  }

  predicate ColonFree(s: string) {
    forall i :: 0 <= i < |s| ==> s[i] != ':'
  }

  /** A quoted value brings in no colon and no slash. */
  lemma {:induction false} QuoteIsInert(value: seq<byte>)
    ensures ColonFree(Quote(value)) && '/' !in Quote(value)
  {
    if value != [] { QuoteIsInert(value[1..]); }
  }

  /** Python's `s.replace(old, new)`: left to right, without overlaps. */
  function Replace(s: string, pattern: string, value: string): string
    requires pattern != ""
  {
    if |s| < |pattern| then s
    else if pattern <= s then value + Replace(s[|pattern|..], pattern, value)
    else [s[0]] + Replace(s[1..], pattern, value)
  }

  /** The parameters replaced in the given order. */
  function ReplaceAll(path: string, order: seq<string>, values: map<string, string>): string
    requires forall name :: name in order ==> name in values
    decreases |order|
  {
    if order == [] then path
    else ReplaceAll(Replace(path, ":" + order[0], values[order[0]]), order[1..], values)
  }

  // ---------------------------------------------------------------------------------------------
  // All at once
  // ---------------------------------------------------------------------------------------------

  predicate PrefixFree(names: set<string>) {
    forall m, n :: m in names && n in names && m <= n ==> m == n
  }

  predicate NamesColonFree(names: set<string>) {
    forall n :: n in names ==> ColonFree(n)
  }

  predicate StartsDeclared(s: string, names: set<string>) {
    exists n :: n in names && n <= s
  }

  /** Every colon of the template starts a declared parameter. */
  predicate ColonsDeclared(template: string, names: set<string>) {
    forall i :: 0 <= i < |template| && template[i] == ':' ==> StartsDeclared(template[i + 1..], names)
  }

  predicate Covers(values: map<string, string>, names: set<string>) {
    forall n :: n in names ==> n in values && ColonFree(values[n])
  }

  /** One simultaneous pass: each declared parameter becomes its value, everything else is copied. */
  ghost function Substitute(template: string, names: set<string>, values: map<string, string>): string
    requires Covers(values, names)
    decreases |template|
  {
    if template == "" then ""
    else if template[0] == ':' && StartsDeclared(template[1..], names) then
      var name :| name in names && name <= template[1..];
      values[name] + Substitute(template[1 + |name|..], names, values)
    else [template[0]] + Substitute(template[1..], names, values)
  }

  lemma ColonsDeclaredBehind(template: string, names: set<string>, k: nat)
    requires ColonsDeclared(template, names) && k <= |template|
    ensures ColonsDeclared(template[k..], names)
  {
    forall i | 0 <= i < |template[k..]| && template[k..][i] == ':' ensures StartsDeclared(template[k..][i + 1..], names) {
      assert template[k + i] == ':' && template[k..][i + 1..] == template[k + i + 1..];
    }
  }

  /** Two declared names that both start a string are the same name. */
  lemma OneNameStarts(s: string, names: set<string>, m: string, n: string)
    requires PrefixFree(names) && m in names && n in names && m <= s && n <= s
    ensures m == n
  {
    assert m <= n || n <= m;
  }

  /** Text without a colon is copied by a replacement whose pattern starts with one. */
  lemma {:induction false} ReplaceSkipsText(text: string, rest: string, name: string, value: string)
    requires ColonFree(text)
    ensures Replace(text + rest, ":" + name, value) == text + Replace(rest, ":" + name, value)
  {
    if text == "" {
      assert text + rest == rest;
    } else {
      var s := text + rest;
      assert s[0] == text[0] && s[1..] == text[1..] + rest;
      ReplaceStep(s, ":" + name, value);
      ReplaceSkipsText(text[1..], rest, name, value);
      assert text == [text[0]] + text[1..];
    }
  }

  /** Text without a colon is copied by the simultaneous pass. */
  lemma {:induction false} SubstituteSkipsText(text: string, rest: string, names: set<string>, values: map<string, string>)
    requires Covers(values, names) && ColonFree(text)
    ensures Substitute(text + rest, names, values) == text + Substitute(rest, names, values)
  {
    if text == "" {
      assert text + rest == rest;
    } else {
      assert (text + rest)[0] == text[0] && (text + rest)[1..] == text[1..] + rest;
      SubstituteSkipsText(text[1..], rest, names, values);
      assert text == [text[0]] + text[1..];
    }
  }

  lemma {:induction false} SubstituteAtName(template: string, names: set<string>, values: map<string, string>, m: string)
    requires Covers(values, names) && PrefixFree(names)
    requires template != "" && template[0] == ':' && m in names && m <= template[1..]
    ensures Substitute(template, names, values) == values[m] + Substitute(template[1 + |m|..], names, values)
  {
    var name :| name in names && name <= template[1..]
      && Substitute(template, names, values) == values[name] + Substitute(template[1 + |name|..], names, values);
    OneNameStarts(template[1..], names, m, name);
  }

  lemma ColonsDeclaredText(text: string, rest: string, names: set<string>)
    requires ColonFree(text) && ColonsDeclared(rest, names)
    ensures ColonsDeclared(text + rest, names)
  {
    forall i | 0 <= i < |text + rest| && (text + rest)[i] == ':' ensures StartsDeclared((text + rest)[i + 1..], names) {
      assert i >= |text|;
      assert (text + rest)[i + 1..] == rest[i - |text| + 1..];
    }
  }

  lemma ColonsDeclaredName(name: string, rest: string, names: set<string>)
    requires name in names && ColonFree(name) && ColonsDeclared(rest, names)
    ensures ColonsDeclared(":" + name + rest, names)
  {
    ColonsDeclaredText(name, rest, names);
    var s := ":" + name + rest;
    assert s[1..] == name + rest;
    forall i | 0 <= i < |s| && s[i] == ':' ensures StartsDeclared(s[i + 1..], names) {
      if i == 0 {
        assert name <= s[1..];
      } else {
        assert s[i + 1..] == (name + rest)[i..] && (name + rest)[i - 1] == ':';
      }
    }
  }

  /** Replacing one parameter first does not change what the simultaneous pass makes of the rest. */
  lemma {:induction false} ReplaceOneFirst(template: string, names: set<string>, values: map<string, string>, n: string)
    requires PrefixFree(names) && NamesColonFree(names) && Covers(values, names) && n in names
    requires ColonsDeclared(template, names)
    ensures var rest := Replace(template, ":" + n, values[n]);
      && ColonsDeclared(rest, names - {n})
      && Substitute(rest, names - {n}, values) == Substitute(template, names, values)
    decreases |template|
  {
    var v, fewer := values[n], names - {n};
    if template == "" {
    } else if template[0] != ':' {
      var head := [template[0]];
      assert template == head + template[1..];
      ColonsDeclaredBehind(template, names, 1);
      ReplaceOneFirst(template[1..], names, values, n);
      ReplaceSkipsText(head, template[1..], n, v);
      ColonsDeclaredText(head, Replace(template[1..], ":" + n, v), fewer);
      SubstituteSkipsText(head, Replace(template[1..], ":" + n, v), fewer, values);
      SubstituteSkipsText(head, template[1..], names, values);
    } else {
      assert template[0 + 1..] == template[1..];
      var m :| m in names && m <= template[1..];
      var tail := template[1 + |m|..];
      assert template == ":" + m + tail;
      ColonsDeclaredBehind(template, names, 1 + |m|);
      ReplaceOneFirst(tail, names, values, n);
      SubstituteAtName(template, names, values, m);
      if m == n {
        ReplaceOwn(tail, names, values, n);
      } else {
        ReplaceOther(m, tail, names, values, n);
      }
    }
  }

  /** The replaced parameter itself: its value is text to the rest. */
  lemma {:induction false} ReplaceOwn(tail: string, names: set<string>, values: map<string, string>, n: string)
    requires Covers(values, names) && n in names
    requires var rest := Replace(tail, ":" + n, values[n]);
      && ColonsDeclared(rest, names - {n})
      && Substitute(rest, names - {n}, values) == Substitute(tail, names, values)
    ensures var rest := Replace(":" + n + tail, ":" + n, values[n]);
      && ColonsDeclared(rest, names - {n})
      && Substitute(rest, names - {n}, values) == values[n] + Substitute(tail, names, values)
  {
    var s, replaced := ":" + n + tail, Replace(tail, ":" + n, values[n]);
    assert ":" + n <= s && s[|":" + n|..] == tail;
    ColonsDeclaredText(values[n], replaced, names - {n});
    SubstituteSkipsText(values[n], replaced, names - {n}, values);
  }

  /** Another parameter: it stays, to be substituted later. */
  lemma {:induction false} ReplaceOther(m: string, tail: string, names: set<string>, values: map<string, string>, n: string)
    requires PrefixFree(names) && NamesColonFree(names) && Covers(values, names) && n in names && m in names && m != n
    requires var rest := Replace(tail, ":" + n, values[n]);
      && ColonsDeclared(rest, names - {n})
      && Substitute(rest, names - {n}, values) == Substitute(tail, names, values)
    ensures var rest := Replace(":" + m + tail, ":" + n, values[n]);
      && ColonsDeclared(rest, names - {n})
      && Substitute(rest, names - {n}, values) == values[m] + Substitute(tail, names, values)
  {
    var replaced := Replace(tail, ":" + n, values[n]);
    var rest := ":" + m + replaced;
    ReplaceElsewhere(m, tail, names, n, values[n]);
    ColonsDeclaredName(m, replaced, names - {n});
    assert m <= rest[1..] && rest[1 + |m|..] == replaced;
    SubstituteAtName(rest, names - {n}, values, m);
  }

  lemma {:induction false} ReplaceElsewhere(m: string, tail: string, names: set<string>, n: string, v: string)
    requires PrefixFree(names) && NamesColonFree(names) && m in names && n in names && m != n
    ensures Replace(":" + m + tail, ":" + n, v) == ":" + m + Replace(tail, ":" + n, v)
  {
    var s := ":" + m + tail;
    assert s[1..] == m + tail;
    assert !(":" + n <= s) by {
      if ":" + n <= s {
        assert (":" + n)[1..] <= s[1..];
        OneNameStarts(m + tail, names, m, n);
      }
    }
    ReplaceStep(s, ":" + n, v);
    ReplaceSkipsText(m, tail, n, v);
  }

  lemma {:induction false} ReplaceShort(s: string, pattern: string, value: string)
    requires pattern != "" && |s| < |pattern|
    ensures Replace(s, pattern, value) == s
  {
  }

  lemma {:induction false} ReplaceStep(s: string, pattern: string, value: string)
    requires pattern != "" && s != "" && !(pattern <= s)
    ensures Replace(s, pattern, value) == [s[0]] + Replace(s[1..], pattern, value)
  {
    if |s| < |pattern| {
      ReplaceShort(s[1..], pattern, value);
    }
  }

  lemma {:induction false} NothingDeclaredNothingLeft(path: string, values: map<string, string>)
    requires ColonsDeclared(path, {})
    ensures ColonFree(path) && Substitute(path, {}, values) == path
  {
    forall i | 0 <= i < |path| ensures path[i] != ':' {
      assert !StartsDeclared(path[i + 1..], {});
    }
    SubstituteSkipsText(path, "", {}, values);
    assert path + "" == path;
  }

  /**
   Whatever order the parameters are replaced in, the path is the simultaneous substitution, and no
   colon is left.
   */
  lemma {:induction false} AnyOrderIsSubstitution(template: string, order: seq<string>, values: map<string, string>)
    requires NoRepeats(order) && Covers(values, Members(order))
    requires PrefixFree(Members(order)) && NamesColonFree(Members(order)) && ColonsDeclared(template, Members(order))
    ensures ReplaceAll(template, order, values) == Substitute(template, Members(order), values)
    ensures ColonFree(ReplaceAll(template, order, values))
    decreases |order|
  {
    if order == [] {
      assert Members(order) == {};
      NothingDeclaredNothingLeft(template, values);
    } else {
      assert order == [order[0]] + order[1..];
      assert Members(order[1..]) == Members(order) - {order[0]};
      ReplaceOneFirst(template, Members(order), values, order[0]);
      AnyOrderIsSubstitution(Replace(template, ":" + order[0], values[order[0]]), order[1..], values);
    }
  }

  // ---------------------------------------------------------------------------------------------
  // When the order matters
  // ---------------------------------------------------------------------------------------------

  ghost predicate OrderNeverMatters(names: set<string>) {
    forall template, values, a, b ::
      NoRepeats(a) && NoRepeats(b) && Members(a) == names == Members(b) && Covers(values, names) && ColonsDeclared(template, names)
      ==> ReplaceAll(template, a, values) == ReplaceAll(template, b, values)
  }

  lemma {:induction false} ListOf(names: set<string>) returns (order: seq<string>)
    ensures NoRepeats(order) && Members(order) == names
  {
    if names == {} {
      order := [];
    } else {
      var n :| n in names;
      var rest := ListOf(names - {n});
      order := [n] + rest;
      assert n !in Members(rest);
      assert Members(order) == {n} + Members(rest);
    }
  }

  lemma {:induction false} ReplaceAllSkipsText(text: string, order: seq<string>, values: map<string, string>)
    requires ColonFree(text) && forall n :: n in order ==> n in values
    ensures ReplaceAll(text, order, values) == text
  {
    if order != [] {
      ReplaceSkipsText(text, "", order[0], values[order[0]]);
      assert text + "" == text;
      ReplaceAllSkipsText(text, order[1..], values);
    }
  }

  /** The first replacement leaves no colon: the rest of the order does nothing. */
  lemma {:induction false} FirstReplacementDecides(template: string, first: string, rest: seq<string>, values: map<string, string>, result: string)
    requires first in values && (forall n :: n in rest ==> n in values) && ColonFree(result)
    requires Replace(template, ":" + first, values[first]) == result
    ensures ReplaceAll(template, [first] + rest, values) == result
  {
    assert ([first] + rest)[1..] == rest;
    ReplaceAllSkipsText(result, rest, values);
  }

  lemma {:induction false} ReplaceAtStart(name: string, leftover: string, value: string)
    requires ColonFree(leftover)
    ensures Replace(":" + name + leftover, ":" + name, value) == value + leftover
  {
    var s := ":" + name + leftover;
    assert ":" + name <= s && s[|":" + name|..] == leftover;
    ReplaceSkipsText(leftover, "", name, value);
    assert leftover + "" == leftover;
  }

  lemma TwoOrders(m: string, n: string, names: set<string>) returns (short: seq<string>, long: seq<string>)
    requires m in names && n in names && m != n
    ensures |short| >= 2 && |long| >= 2 && short[0] == m && long[0] == n
    ensures NoRepeats(short) && NoRepeats(long) && Members(short) == names == Members(long)
  {
    var rest := ListOf(names - {m, n});
    assert m !in Members(rest) && n !in Members(rest);
    short, long := [m, n] + rest, [n, m] + rest;
    assert Members(short) == {m, n} + Members(rest) && Members(long) == {m, n} + Members(rest);
  }

  /** When a declared name followed by `leftover` is replaced first, the rest of the order does nothing. */
  lemma {:induction false} FirstNameDecides(order: seq<string>, leftover: string, values: map<string, string>)
    requires order != [] && ColonFree(leftover) && (forall n :: n in order ==> n in values) && ColonFree(values[order[0]])
    ensures ReplaceAll(":" + order[0] + leftover, order, values) == values[order[0]] + leftover
  {
    ReplaceAtStart(order[0], leftover, values[order[0]]);
    assert [order[0]] + order[1..] == order;
    FirstReplacementDecides(":" + order[0] + leftover, order[0], order[1..], values, values[order[0]] + leftover);
  }

  lemma MembersOnly(order: seq<string>, names: set<string>)
    requires Members(order) == names
    ensures forall n :: n in order ==> n in names
  {
  }

  lemma {:induction false} LeadingNameDecides(order: seq<string>, names: set<string>, values: map<string, string>, leftover: string)
    requires order != [] && Members(order) == names == values.Keys && ColonFree(leftover) && ColonFree(values[order[0]])
    ensures (forall n :: n in order ==> n in values)
    ensures ReplaceAll(":" + order[0] + leftover, order, values) == values[order[0]] + leftover
  {
    MembersOnly(order, names);
    FirstNameDecides(order, leftover, values);
  }

  lemma {:induction false} OrderShows(
    template: string, values: map<string, string>, a: seq<string>, b: seq<string>, names: set<string>)
    requires NoRepeats(a) && NoRepeats(b) && Members(a) == names == Members(b)
    requires Covers(values, names) && ColonsDeclared(template, names)
    requires (forall n :: n in a ==> n in values) && (forall n :: n in b ==> n in values)
    requires ReplaceAll(template, a, values) != ReplaceAll(template, b, values)
    ensures !OrderNeverMatters(names)
  {
  }

  /** A template for the longer name comes out differently when the shorter one goes first. */
  lemma PrefixNamesClash(m: string, n: string, names: set<string>)
    requires m in names && n in names && m != n && m <= n && NamesColonFree(names)
    ensures !OrderNeverMatters(names)
  {
    var short, long := TwoOrders(m, n, names);
    var values := map name | name in names :: if name == n then "" else "X";
    var template := ":" + n;
    ColonsDeclaredName(n, "", names);
    assert template + "" == template;
    LeadingNameDecides(short, names, values, n[|m|..]);
    assert ":" + m + n[|m|..] == template;
    LeadingNameDecides(long, names, values, "");
    OrderShows(template, values, short, long, names);
  }

  /** With names free of colons, the order never matters exactly when no name is a prefix of another. */
  lemma OrderNeverMattersIffPrefixFree(names: set<string>)
    requires NamesColonFree(names)
    ensures OrderNeverMatters(names) <==> PrefixFree(names)
  {
    if PrefixFree(names) {
      forall template, values, a, b |
        NoRepeats(a) && NoRepeats(b) && Members(a) == names == Members(b) && Covers(values, names) && ColonsDeclared(template, names)
        ensures ReplaceAll(template, a, values) == ReplaceAll(template, b, values)
      {
        AnyOrderIsSubstitution(template, a, values);
        AnyOrderIsSubstitution(template, b, values);
      }
    } else {
      var m, n :| m in names && n in names && m <= n && m != n;
      PrefixNamesClash(m, n, names);
    }
  }

  // ---------------------------------------------------------------------------------------------
  // The whole href
  // ---------------------------------------------------------------------------------------------

  datatype Scope = Workspace | Admin | Public

  datatype RouteDefinition = RouteDefinition(scope: Scope, template: string)

  predicate Contains(s: string, part: string) {
    part <= s || (s != "" && Contains(s[1..], part))
  }

  /** The checks and decorations after substitution; `queryText` is the encoded query, empty when there is none. */
  function Finish(route: RouteDefinition, path: string, queryText: string, slug: Option<seq<byte>>): Option<string> {
    if !ColonFree(path) then None
    else if route.scope.Workspace? && (slug.None? || slug.value == []) then None
    else
      var full := if route.scope.Workspace? then "/w/" + Quote(slug.value) + path else path;
      if !("/" <= full) || "//" <= full then None
      else if full == "/api" || "/api/" <= full || Contains(full, "/api/") then None
      else if queryText == "" then Some(full)
      else Some(full + "?" + queryText)
  }

  function Quoted(params: map<string, seq<byte>>): (values: map<string, string>)
    ensures values.Keys == params.Keys
  {
    map n | n in params :: Quote(params[n])
  }

  /** The replacement loop, visiting the parameters in whatever order the set yields them. */
  method ReplaceParams(template: string, params: map<string, seq<byte>>) returns (path: string, ghost order: seq<string>)
    ensures NoRepeats(order) && Members(order) == params.Keys
    ensures (forall n :: n in order ==> n in params) && path == ReplaceAll(template, order, Quoted(params))
  {
    order := [];
    path := template;
    var todo := params.Keys;
    while todo != {}
      invariant todo <= params.Keys && NoRepeats(order) && Members(order) == params.Keys - todo
      invariant forall n :: n in order ==> n in Members(order)
      invariant path == ReplaceAll(template, order, Quoted(params))
      decreases |todo|
    {
      var name :| name in todo;
      path := Replace(path, ":" + name, Quote(params[name]));
      OneMoreName(template, order, name, Quoted(params));
      order := order + [name];
      todo := todo - {name};
    }
  }

  lemma {:induction false} OneMoreName(template: string, order: seq<string>, name: string, values: map<string, string>)
    requires NoRepeats(order) && (forall n :: n in order ==> n in values) && name in values && name !in Members(order)
    ensures var longer := order + [name];
      && NoRepeats(longer) && Members(longer) == Members(order) + {name} && (forall n :: n in longer ==> n in values)
      && ReplaceAll(template, longer, values) == Replace(ReplaceAll(template, order, values), ":" + name, values[name])
  {
    ReplaceAllAppend(template, order, name, values);
    forall i | 0 <= i < |order| ensures order[i] != name { assert order[i] in Members(order); }
  }

  /** `_href` */
  method Href(route: RouteDefinition, params: map<string, seq<byte>>, queryText: string, slug: Option<seq<byte>>)
    returns (href: Option<string>)
    ensures PrefixFree(params.Keys) && NamesColonFree(params.Keys) && ColonsDeclared(route.template, params.Keys) ==>
      && Covers(Quoted(params), params.Keys)
      && href == Finish(route, Substitute(route.template, params.Keys, Quoted(params)), queryText, slug)
  {
    var path, order := ReplaceParams(route.template, params);
    forall n | n in params ensures ColonFree(Quoted(params)[n]) { QuoteIsInert(params[n]); }
    if PrefixFree(params.Keys) && NamesColonFree(params.Keys) && ColonsDeclared(route.template, params.Keys) {
      AnyOrderIsSubstitution(route.template, order, Quoted(params));
    }
    href := Finish(route, path, queryText, slug);
  }

  lemma {:induction false} ReplaceAllAppend(path: string, order: seq<string>, name: string, values: map<string, string>)
    requires (forall n :: n in order ==> n in values) && name in values
    ensures ReplaceAll(path, order + [name], values) == Replace(ReplaceAll(path, order, values), ":" + name, values[name])
    decreases |order|
  {
    var longer := order + [name];
    if order == [] {
      assert longer[1..] == [];
    } else {
      assert longer[0] == order[0] && longer[1..] == order[1..] + [name];
      ReplaceAllAppend(Replace(path, ":" + order[0], values[order[0]]), order[1..], name, values);
    }
  }

  // ---------------------------------------------------------------------------------------------
  // What quoting writes (sections 2.1 and 2.3 of RFC 3986)
  // ---------------------------------------------------------------------------------------------

  const HEX := "0123456789ABCDEF"

  predicate Unreserved(c: char) {
    'A' <= c <= 'Z' || 'a' <= c <= 'z' || '0' <= c <= '9' || c == '-' || c == '.' || c == '_' || c == '~'
  }

  lemma HexDigitIs(v: int)
    requires 0 <= v < 16
    ensures HexDigit(v) == HEX[v]
  {
  }

  /** Unreserved characters stand for themselves, every other byte is a percent sign and two upper-case hex digits. */
  lemma QuotedByte(b: byte)
    ensures Quote([b]) == if Unreserved(b as char) then [b as char] else ['%', HEX[b / 16], HEX[b % 16]]
  {
    HexDigitIs(b / 16);
    HexDigitIs(b % 16);
  }

  /** Bytes are quoted one by one. */
  lemma {:induction false} QuoteJoins(a: seq<byte>, b: seq<byte>)
    ensures Quote(a + b) == Quote(a) + Quote(b)
  {
    if a == [] {
      assert a + b == b;
    } else {
      assert (a + b)[1..] == a[1..] + b;
      QuoteJoins(a[1..], b);
    }
  }

  // ---------------------------------------------------------------------------------------------
  // Which hrefs come out
  // ---------------------------------------------------------------------------------------------

  predicate PartAt(s: string, i: nat, part: string) {
    i + |part| <= |s| && s[i..i + |part|] == part
  }

  ghost predicate HasPart(s: string, part: string) {
    exists i :: PartAt(s, i, part)
  }

  lemma PartAtStart(s: string, part: string)
    ensures PartAt(s, 0, part) <==> part <= s
  {
  }

  lemma PartBehind(s: string, i: nat, part: string)
    requires s != ""
    ensures PartAt(s[1..], i, part) <==> PartAt(s, i + 1, part)
  {
    if i + 1 + |part| <= |s| { assert s[1..][i..i + |part|] == s[i + 1..i + 1 + |part|]; }
  }

  lemma {:induction false} ContainsIff(s: string, part: string)
    ensures Contains(s, part) <==> HasPart(s, part)
  {
    PartAtStart(s, part);
    if !(part <= s) && s != "" {
      ContainsIff(s[1..], part);
      if i: nat :| PartAt(s[1..], i, part) { PartBehind(s, i, part); }
      if i: nat :| PartAt(s, i, part) { PartBehind(s, i - 1, part); }
    }
  }

  /** The path with its workspace in front, where the route's scope asks for one. */
  predicate IsFull(route: RouteDefinition, path: string, slug: Option<seq<byte>>, full: string) {
    if route.scope.Workspace? then slug.Some? && slug.value != [] && full == "/w/" + Quote(slug.value) + path else full == path
  }

  /**
   The href is the whole path, with the query behind it if there is one, exactly when no colon is left, a workspace
   is there if the scope asks for one, and the path is rooted on this host and outside the API.
   */
  lemma FinishIff(route: RouteDefinition, path: string, queryText: string, slug: Option<seq<byte>>, href: string, full: string)
    requires IsFull(route, path, slug, full)
    ensures Finish(route, path, queryText, slug) == Some(href)
       <==> && ':' !in path && full != "" && full[0] == '/' && (|full| > 1 ==> full[1] != '/')
            && full != "/api" && !HasPart(full, "/api/")
            && href == (if queryText == "" then full else full + "?" + queryText)
  {
    ContainsIff(full, "/api/");
    assert "/api/" <= full ==> PartAt(full, 0, "/api/");
    assert ColonFree(path) <==> ':' !in path;
  }

  /** A workspace route without a workspace has no href. */
  lemma NoWorkspaceNoHref(route: RouteDefinition, path: string, queryText: string, slug: Option<seq<byte>>)
    requires forall full :: !IsFull(route, path, slug, full)
    ensures Finish(route, path, queryText, slug) == None
  {
    if route.scope.Workspace? && slug.Some? && slug.value != [] {
      assert IsFull(route, path, slug, "/w/" + Quote(slug.value) + path);
    }
    assert !route.scope.Workspace? ==> IsFull(route, path, slug, path);
  }

  // ---------------------------------------------------------------------------------------------
  // Templates written from text and parameters
  // ---------------------------------------------------------------------------------------------

  datatype Template = End(text: string) | Param(text: string, name: string, rest: Template)

  function Render(t: Template): string {
    match t
    case End(text) => text
    case Param(text, name, rest) => text + (":" + name + Render(rest))
  }

  /** The template with each parameter's value in its place. */
  function Filled(t: Template, params: map<string, seq<byte>>): string
    requires NamesIn(t) <= params.Keys
  {
    match t
    case End(text) => text
    case Param(text, name, rest) => text + (Quote(params[name]) + Filled(rest, params))
  }

  function NamesIn(t: Template): set<string> {
    if t.End? then {} else {t.name} + NamesIn(t.rest)
  }

  predicate TextsColonFree(t: Template) {
    ColonFree(t.text) && (t.Param? ==> TextsColonFree(t.rest))
  }

  /** The simultaneous substitution fills in the template, if no parameter's name starts another's. */
  lemma {:induction false} SubstituteFillsIn(t: Template, params: map<string, seq<byte>>)
    requires TextsColonFree(t) && NamesIn(t) <= params.Keys && PrefixFree(params.Keys) && NamesColonFree(params.Keys)
    ensures Covers(Quoted(params), params.Keys) && ColonsDeclared(Render(t), params.Keys)
    ensures Substitute(Render(t), params.Keys, Quoted(params)) == Filled(t, params)
  {
    forall n | n in params ensures ColonFree(Quoted(params)[n]) { QuoteIsInert(params[n]); }
    match t {
      case End(text) =>
        SubstituteSkipsText(text, "", params.Keys, Quoted(params));
        ColonsDeclaredText(text, "", params.Keys);
        assert text + "" == text;
      case Param(text, name, rest) =>
        var tail := ":" + name + Render(rest);
        SubstituteFillsIn(rest, params);
        ColonsDeclaredName(name, Render(rest), params.Keys);
        ColonsDeclaredText(text, tail, params.Keys);
        SubstituteSkipsText(text, tail, params.Keys, Quoted(params));
        assert name <= tail[1..] && tail[1 + |name|..] == Render(rest);
        SubstituteAtName(tail, params.Keys, Quoted(params), name);
    }
  }
}
