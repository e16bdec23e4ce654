/** The laws assumed of JSON text, of sort values and of key fingerprints can all be met. */
module Witnesses {
  import opened Prelude
  import opened Json
  import CursorCodec
  import Pagination
  import RootKeys
  import RootKeyTheorems

  type byte = CursorCodec.byte

  // ---------------------------------------------------------------------------------------------
  // A prefix-free text for every decoded value
  // ---------------------------------------------------------------------------------------------

  function Unary(n: nat): seq<byte> {
    if n == 0 then [0] else [1] + Unary(n - 1)
  }

  function Letters(s: string): seq<byte> {
    if s == "" then [0] else [1] + Unary(s[0] as int) + Letters(s[1..])
  }

  function Number(n: int): seq<byte> {
    if n < 0 then [1] + Unary(-n) else [0] + Unary(n)
  }

  /** The keys of a map, each once, in an order that depends on the keys alone. */
  ghost function Order(keys: set<string>): (order: seq<string>)
    ensures Members(order) == keys
  {
    if keys == {} then []
    else
      var k :| k in keys;
      var rest := Order(keys - {k});
      assert Members([k] + rest) == {k} + Members(rest);
      [k] + rest
  }

  ghost function Text(v: Value): seq<byte>
    decreases v, 1, 0
  {
    match v
    case Null => [0]
    case Bool(b) => [1, if b then 1 else 0]
    case Int(n) => [2] + Number(n)
    case Float(x) => [3] + Unary(x)
    case Str(s) => [4] + Letters(s)
    case List(items) => [5] + Items(items)
    case Object(fields) => [6] + Pairs(fields, Order(fields.Keys))
  }

  ghost function Items(items: seq<Value>): seq<byte>
    decreases items, 1, 0
  {
    if items == [] then [0] else [1] + Text(items[0]) + Items(items[1..])
  }

  ghost function Pairs(fields: Fields, keys: seq<string>): seq<byte>
    requires forall k :: k in keys ==> k in fields
    decreases Object(fields), 0, |keys|
  {
    if keys == [] then [0]
    else [1] + Letters(keys[0]) + Text(fields[keys[0]]) + Pairs(fields, keys[1..])
  }

  lemma {:induction false} UnarySplits(m: nat, n: nat, r: seq<byte>, s: seq<byte>)
    requires Unary(m) + r == Unary(n) + s
    ensures m == n && r == s
  {
    Peel(Unary(m), r, Unary(n), s);
    if m > 0 && n > 0 {
      assert Unary(m)[1..] == Unary(m - 1) && Unary(n)[1..] == Unary(n - 1);
      UnarySplits(m - 1, n - 1, r, s);
    }
  }

  /** Equal concatenations of nonempty texts start alike and go on alike. */
  lemma Peel(a: seq<byte>, r: seq<byte>, b: seq<byte>, s: seq<byte>)
    requires a != [] && b != [] && a + r == b + s
    ensures a[0] == b[0] && a[1..] + r == b[1..] + s
    ensures |a| == |b| ==> a == b && r == s
  {
    assert (a + r)[0] == (b + s)[0];
    assert (a + r)[1..] == a[1..] + r && (b + s)[1..] == b[1..] + s;
    if |a| == |b| {
      assert (a + r)[..|a|] == a && (b + s)[..|b|] == b;
      assert (a + r)[|a|..] == r && (b + s)[|b|..] == s;
    }
  }

  lemma NumberSplits(m: int, n: int, r: seq<byte>, s: seq<byte>)
    requires Number(m) + r == Number(n) + s
    ensures m == n && r == s
  {
    Peel(Number(m), r, Number(n), s);
    UnarySplits(if m < 0 then -m else m, if n < 0 then -n else n, r, s);
  }

  lemma {:induction false} LettersSplit(a: string, b: string, r: seq<byte>, s: seq<byte>)
    requires Letters(a) + r == Letters(b) + s
    ensures a == b && r == s
  {
    Peel(Letters(a), r, Letters(b), s);
    if a != "" && b != "" {
      RegroupTwo(Unary(a[0] as int), Letters(a[1..]), r);
      RegroupTwo(Unary(b[0] as int), Letters(b[1..]), s);
      UnarySplits(a[0] as int, b[0] as int, Letters(a[1..]) + r, Letters(b[1..]) + s);
      LettersSplit(a[1..], b[1..], r, s);
      assert a == [a[0]] + a[1..] && b == [b[0]] + b[1..];
    }
  }

  /** A value can be told from its text, whatever follows it. */
  lemma {:induction false} TextSplits(v: Value, w: Value, r: seq<byte>, s: seq<byte>)
    requires Text(v) + r == Text(w) + s
    ensures v == w && r == s
    decreases v, 1, 0
  {
    Peel(Text(v), r, Text(w), s);
    match v {
      case Null =>
      case Bool(_) =>
      case Int(n) => NumberSplits(n, w.n, r, s);
      case Float(x) => UnarySplits(x, w.x, r, s);
      case Str(a) => LettersSplit(a, w.s, r, s);
      case List(items) => ItemsSplit(items, w.items, r, s);
      case Object(fields) =>
        PairsSplit(fields, Order(fields.Keys), w.fields, Order(w.fields.Keys), r, s);
        assert fields.Keys == Members(Order(fields.Keys)) == w.fields.Keys;
    }
  }

  lemma {:induction false} ItemsSplit(a: seq<Value>, b: seq<Value>, r: seq<byte>, s: seq<byte>)
    requires Items(a) + r == Items(b) + s
    ensures a == b && r == s
    decreases a, 1, 0
  {
    Peel(Items(a), r, Items(b), s);
    if a != [] && b != [] {
      RegroupTwo(Text(a[0]), Items(a[1..]), r);
      RegroupTwo(Text(b[0]), Items(b[1..]), s);
      TextSplits(a[0], b[0], Items(a[1..]) + r, Items(b[1..]) + s);
      ItemsSplit(a[1..], b[1..], r, s);
      assert a == [a[0]] + a[1..] && b == [b[0]] + b[1..];
    }
  }

  lemma {:induction false} PairsSplit(f: Fields, ks: seq<string>, g: Fields, ls: seq<string>, r: seq<byte>, s: seq<byte>)
    requires (forall k :: k in ks ==> k in f) && (forall l :: l in ls ==> l in g)
    requires Pairs(f, ks) + r == Pairs(g, ls) + s
    ensures ks == ls && r == s && forall k :: k in ks ==> f[k] == g[k]
    decreases Object(f), 0, |ks|
  {
    Peel(Pairs(f, ks), r, Pairs(g, ls), s);
    if ks != [] && ls != [] {
      PairsUnfold(f, ks, r);
      PairsUnfold(g, ls, s);
      PairSplits(ks[0], f[ks[0]], ls[0], g[ls[0]], Pairs(f, ks[1..]) + r, Pairs(g, ls[1..]) + s);
      PairsSplit(f, ks[1..], g, ls[1..], r, s);
      assert ks == [ks[0]] + ks[1..] && ls == [ls[0]] + ls[1..];
    }
  }

  lemma {:induction false} PairsUnfold(f: Fields, ks: seq<string>, r: seq<byte>)
    requires ks != [] && forall k :: k in ks ==> k in f
    ensures Pairs(f, ks)[1..] + r == Letters(ks[0]) + (Text(f[ks[0]]) + (Pairs(f, ks[1..]) + r))
  {
    Regroup(Letters(ks[0]), Text(f[ks[0]]), Pairs(f, ks[1..]), r);
  }

  lemma RegroupTwo(a: seq<byte>, b: seq<byte>, r: seq<byte>)
    ensures ([1] + a + b)[1..] + r == a + (b + r)
  {
    assert ([1] + a + b)[1..] == a + b;
  }

  lemma Regroup(a: seq<byte>, b: seq<byte>, c: seq<byte>, r: seq<byte>)
    ensures ([1] + a + b + c)[1..] + r == a + (b + (c + r))
  {
    assert ([1] + a + b + c)[1..] == a + b + c;
  }

  lemma {:induction false} PairSplits(k: string, v: Value, l: string, w: Value, r: seq<byte>, s: seq<byte>)
    requires Letters(k) + (Text(v) + r) == Letters(l) + (Text(w) + s)
    ensures k == l && v == w && r == s
    decreases v, 2
  {
    LettersSplit(k, l, Text(v) + r, Text(w) + s);
    TextSplits(v, w, r, s);
  }

  ghost predicate CarriesAll(p: CursorCodec.Platform) {
    forall payload: Fields :: CursorCodec.Carries(p, payload)
  }

  /** Some platform meets the laws that the cursor theorems assume, and carries every payload. */
  lemma SomePlatformIsLawful() returns (p: CursorCodec.Platform)
    ensures CursorCodec.Lawful(p) && CarriesAll(p)
  {
    p := CursorCodec.Platform(v => Option.Some(Text(v)), raw => Parse(raw), _ => seq(CursorCodec.SIGNATURE_BYTES, _ => 0));
    forall payload: Fields ensures CursorCodec.Carries(p, payload) {
      ParseOfText(Object(payload));
    }
  }

  lemma {:induction false} ParseOfText(v: Value)
    ensures Parse(Text(v)) == Some(v)
  {
    var w := Parse(Text(v)).value;
    assert Text(w) + [] == Text(v) + [];
    TextSplits(w, v, [], []);
  }

  /** A sort over a nullable column: every row with an ASCII id makes a boundary. */
  lemma SomeSortSpecIsLawful(p: CursorCodec.Platform, d: Pagination.Direction) returns (spec: Pagination.SortSpec)
    requires CarriesAll(p)
    ensures spec.direction == d && forall r: Pagination.Row :: CursorCodec.IsAscii(r.id) ==> Pagination.Survives(p, spec, r)
  {
    spec := Pagination.SortSpec(d,
      (v: Option<int>) => if v.Some? then Int(v.value) else Null,
      (v: Value) => if v.Int? then Some(Some(v.n)) else if v.Null? then Some(None) else None);
  }

  /** A sort over a column that is never null, whose parser rejects null: every row with a sort value still does. */
  lemma NotNullSortSpecIsLawful(p: CursorCodec.Platform, d: Pagination.Direction) returns (spec: Pagination.SortSpec)
    requires CarriesAll(p)
    ensures spec.direction == d && spec.parse(Null) == None
    ensures forall r: Pagination.Row :: CursorCodec.IsAscii(r.id) ==> (Pagination.Survives(p, spec, r) <==> r.sort.Some?)
  {
    spec := Pagination.SortSpec(d,
      (v: Option<int>) => if v.Some? then Int(v.value) else Null,
      (v: Value) => if v.Int? then Some(Some(v.n)) else None);
  }

  // ---------------------------------------------------------------------------------------------
  // Fingerprints
  // ---------------------------------------------------------------------------------------------

  const CHARS := 0x11_0000

  function Code(s: string): nat {
    if s == "" then 0 else 1 + s[0] as int + CHARS * Code(s[1..])
  }

  lemma {:induction false} CodeIsInjective(a: string, b: string)
    requires Code(a) == Code(b)
    ensures a == b
  {
    if a != "" && b != "" {
      DigitsAgree(a[0] as int, Code(a[1..]), b[0] as int, Code(b[1..]));
      CodeIsInjective(a[1..], b[1..]);
      assert a == [a[0]] + a[1..] && b == [b[0]] + b[1..];
    }
  }

  lemma DigitsAgree(c: nat, m: nat, d: nat, n: nat)
    requires c < CHARS && d < CHARS && c + CHARS * m == d + CHARS * n
    ensures c == d && m == n
  {
  }

  /** Some machine, on any key, is configured as the rotation theorems assume. */
  lemma SomeHostIsConfigured(key: RootKeys.Key)
    ensures exists host: RootKeys.Host :: host.rootKey == Some(key) && RootKeyTheorems.Configured(host)
  {
    var host := RootKeys.Host(Some(key), (r: string) => Some(key), (k: string) => RootKeys.Fingerprint(Code(k)));
    forall k, l | host.fingerprint(k) == host.fingerprint(l) ensures k == l {
      CodeIsInjective(k, l);
    }
    assert RootKeyTheorems.Configured(host);
  }

  ghost function Parse(raw: seq<byte>): Option<Value> {
    if exists v :: Text(v) == raw then
      var v :| Text(v) == raw;
      Some(v)
    else None
  }
}
