/** Signed opaque cursors: base64url (sections 3.2 and 5 of RFC 4648) around a signed JSON payload. */
module CursorCodec {
  import opened Prelude
  import Json

  type byte = x: int | 0 <= x < 256

  // ---------------------------------------------------------------------------------------------
  // base64url
  // ---------------------------------------------------------------------------------------------

  function Symbol(v: int): (c: char)
    requires 0 <= v < 64
    ensures c != '=' && c != '.' && c < 128 as char && SymbolValue(c) == Some(v)
  {
    if v < 26 then (65 + v) as char
    else if v < 52 then (71 + v) as char
    else if v < 62 then (v - 4) as char
    else if v == 62 then '-' else '_'
  }

  /** The decoder's table; the two standard-alphabet symbols are accepted beside their URL-safe forms. */
  function SymbolValue(c: char): (v: Option<int>)
    ensures v.Some? ==> 0 <= v.value < 64
  {
    if 'A' <= c <= 'Z' then Some(c as int - 65)
    else if 'a' <= c <= 'z' then Some(c as int - 71)
    else if '0' <= c <= '9' then Some(c as int + 4)
    else if c == '-' || c == '+' then Some(62)
    else if c == '_' || c == '/' then Some(63)
    else None
  }

  /** `urlsafe_b64encode`: groups of three bytes, the last one padded with `=`. */
  function EncodePadded(raw: seq<byte>): string {
    if raw == [] then ""
    else if |raw| == 1 then [Symbol(raw[0] / 4), Symbol(raw[0] % 4 * 16), '=', '=']
    else if |raw| == 2 then
      [Symbol(raw[0] / 4), Symbol(raw[0] % 4 * 16 + raw[1] / 16), Symbol(raw[1] % 16 * 4), '=']
    else
      [Symbol(raw[0] / 4), Symbol(raw[0] % 4 * 16 + raw[1] / 16), Symbol(raw[1] % 16 * 4 + raw[2] / 64), Symbol(raw[2] % 64)]
      + EncodePadded(raw[3..])
  }

  /** `rstrip(b"=")` */
  function RStripPad(s: string): string {
    if s != "" && s[|s| - 1] == '=' then RStripPad(s[..|s| - 1]) else s
  }

  /** `"=" * (-n % 4)` */
  function Padding(n: nat): string {
    match n % 4
    case 0 => ""
    case 1 => "==="
    case 2 => "=="
    case _ => "="
  }

  function B64Encode(raw: seq<byte>): string {
    RStripPad(EncodePadded(raw))
  }

  /**
   The scan of `binascii.a2b_base64` outside strict mode: `quad` symbols of the current group are
   read, `left` holds their unused bits, foreign characters are skipped, and padding that completes
   a group ends the input.
   */
  function Scan(s: string, quad: int, left: int, pads: nat): Option<seq<byte>>
    requires (quad == 0 && left == 0) || (quad == 1 && 0 <= left < 64) || (quad == 2 && 0 <= left < 16) || (quad == 3 && 0 <= left < 4)
  {
    if s == "" then (if quad == 0 then Some([]) else None)
    else if s[0] == '=' then
      if quad >= 2 && quad + pads + 1 >= 4 then Some([])
      else Scan(s[1..], quad, left, if quad >= 2 then pads + 1 else pads)
    else
      match SymbolValue(s[0])
      case None => Scan(s[1..], quad, left, pads)
      case Some(v) =>
        if quad == 0 then Scan(s[1..], 1, v, 0)
        else if quad == 1 then Prepend(left * 4 + v / 16, Scan(s[1..], 2, v % 16, 0))
        else if quad == 2 then Prepend(left * 16 + v / 4, Scan(s[1..], 3, v % 4, 0))
        else Prepend(left * 64 + v, Scan(s[1..], 0, 0, 0))
  }

  function Prepend(b: byte, rest: Option<seq<byte>>): Option<seq<byte>> {
    if rest.None? then None else Some([b] + rest.value)
  }

  predicate IsAscii(s: string) {
    forall i :: 0 <= i < |s| ==> s[i] < 128 as char
  }

  function B64Decode(value: string): Option<seq<byte>> {
    if IsAscii(value) then Scan(value + Padding(|value|), 0, 0, 0) else None
  }

  // ---------------------------------------------------------------------------------------------
  // Payloads
  // ---------------------------------------------------------------------------------------------

  const SIGNATURE_BYTES := 32

  /** JSON text, which some values are too large or too deep for, and the keyed digest, as the platform provides them. */
  datatype Platform = Platform(
    dumps: Json.Value -> Option<seq<byte>>, loads: seq<byte> -> Option<Json.Value>, hmac: seq<byte> -> seq<byte>)

  /** The digest has the length the decoder asks for. */
  ghost predicate Lawful(p: Platform) {
    forall raw :: |p.hmac(raw)| == SIGNATURE_BYTES
  }

  /** The platform writes this payload as JSON text and reads the text back as this payload. */
  predicate Carries(p: Platform, payload: Json.Fields) {
    var raw := p.dumps(Json.Object(payload));
    raw.Some? && raw.value != [] && p.loads(raw.value) == Some(Json.Object(payload))
  }

  datatype CursorError =
    | Malformed | PayloadMalformed | SignatureMalformed | SignatureInvalid
    | NotAnObject | UnsupportedVersion | SortValueMalformed | IdMalformed | NotAscii | NotSerializable

  /** `str.partition(".")`: what comes before the first dot, whether there is one, and what follows it. */
  function Partition(s: string): (string, bool, string) {
    if s == "" then ("", false, "")
    else if s[0] == '.' then ("", true, s[1..])
    else
      var (before, found, after) := Partition(s[1..]);
      ([s[0]] + before, found, after)
  }

  function EncodePayload(p: Platform, payload: Json.Fields): Result<string, CursorError> {
    var raw := p.dumps(Json.Object(payload));
    if raw.None? then Err(NotSerializable) else Ok(B64Encode(raw.value) + "." + B64Encode(p.hmac(raw.value)))
  }

  /** `value == 1` for a decoded JSON value: Python's `True` and `1.0` compare equal to it. */
  predicate EqualsOne(v: Json.Value) {
    v == Json.Int(1) || v == Json.Bool(true) || v == Json.Float(Json.ONE)
  }

  function DecodePayload(p: Platform, cursor: string): Result<Json.Fields, CursorError> {
    var (bodyPart, found, signaturePart) := Partition(cursor);
    if !found || bodyPart == "" || signaturePart == "" then Err(Malformed)
    else
      var body := B64Decode(bodyPart);
      if body.None? then Err(PayloadMalformed)
      else
        var supplied := B64Decode(signaturePart);
        if supplied.None? || |supplied.value| != SIGNATURE_BYTES then Err(SignatureMalformed)
        else if supplied.value != p.hmac(body.value) then Err(SignatureInvalid)
        else
          match p.loads(body.value)
          case None => Err(PayloadMalformed)
          case Some(Object(fields)) =>
            if EqualsOne(Json.Lookup(fields, "v")) then Ok(fields) else Err(UnsupportedVersion)
          case Some(_) => Err(NotAnObject)
  }

  /** A boundary: the last row's sort value, as a JSON scalar, and its id. */
  datatype Cursor = Cursor(lastSortValue: Json.Value, lastId: string)

  function PagePayload(c: Cursor): Json.Fields {
    map["v" := Json.Int(1), "cursor" := Json.List([c.lastSortValue, Json.Str(c.lastId)])]
  }

  function EncodePageCursor(p: Platform, c: Cursor): Result<string, CursorError> {
    if !IsAscii(c.lastId) then Err(NotAscii) else EncodePayload(p, PagePayload(c))
  }

  function DecodePageCursor(p: Platform, cursor: Option<string>): Result<Option<Cursor>, CursorError> {
    if cursor.None? || cursor.value == "" then Ok(None)
    else
      var payload := DecodePayload(p, cursor.value);
      if payload.Err? then Err(payload.error)
      else
        var raw, key := Json.Lookup(payload.value, "cursor"), Json.Lookup(payload.value, "key");
        if raw.List? && |raw.items| == 2 then
          if !Json.IsScalar(raw.items[0]) then Err(SortValueMalformed)
          else if !raw.items[1].Str? then Err(IdMalformed)
          else Ok(Some(Cursor(raw.items[0], raw.items[1].s)))
        else if key.Str? then Ok(Some(Cursor(key, key.s)))
        else Err(PayloadMalformed)
  }

  function KeyPayload(key: string): Json.Fields {
    map["v" := Json.Int(1), "key" := Json.Str(key)]
  }

  function EncodeCursor(p: Platform, key: string): Result<string, CursorError> {
    if !IsAscii(key) then Err(NotAscii) else EncodePayload(p, KeyPayload(key))
  }

  function DecodeCursor(p: Platform, cursor: Option<string>): Result<Option<string>, CursorError> {
    if cursor.None? || cursor.value == "" then Ok(None)
    else
      var payload := DecodePayload(p, cursor.value);
      if payload.Err? then Err(payload.error)
      else
        var key := Json.Lookup(payload.value, "key");
        if key.Str? then Ok(Some(key.s))
        else
          var structured := DecodePageCursor(p, cursor);
          if structured.Err? then Err(structured.error)
          else if structured.value.None? then Ok(None)
          else Ok(Some(structured.value.value.lastId))
  }

  // ---------------------------------------------------------------------------------------------
  // Round trips
  // ---------------------------------------------------------------------------------------------

  predicate WellShaped(s: string) {
    |s| % 4 == 0 && IsAscii(s) && '.' !in s && (s != "" ==> s[0] != '=')
  }

  lemma GroupInFront(group: string, rest: string)
    requires |group| == 4 && WellShaped(group) && WellShaped(rest)
    ensures WellShaped(group + rest)
  {
  }

  lemma {:induction false} EncodedShape(raw: seq<byte>)
    ensures WellShaped(EncodePadded(raw)) && (raw != [] ==> EncodePadded(raw) != "")
  {
    if |raw| >= 3 {
      EncodedShape(raw[3..]);
      GroupInFront(EncodePadded(raw)[..4], EncodePadded(raw[3..]));
      assert EncodePadded(raw) == EncodePadded(raw)[..4] + EncodePadded(raw[3..]);
    }
  }

  lemma {:induction false} RStripOfConcat(a: string, b: string)
    ensures RStripPad(a + b) == if RStripPad(b) == "" then RStripPad(a) else a + RStripPad(b)
  {
    if b == "" {
      assert a + b == a;
    } else if b[|b| - 1] == '=' {
      assert (a + b)[..|a + b| - 1] == a + b[..|b| - 1];
      RStripOfConcat(a, b[..|b| - 1]);
    }
  }

  lemma {:induction false} RStripKeepsHead(s: string)
    requires s != "" && s[0] != '='
    ensures var r := RStripPad(s); r != "" && r[0] == s[0] && r <= s
  {
    if s[|s| - 1] == '=' { RStripKeepsHead(s[..|s| - 1]); }
  }

  lemma StripShort(a: char, b: char)
    requires a != '=' && b != '='
    ensures RStripPad([a, b, '=', '=']) == [a, b]
  {
    assert [a, b, '=', '='][..3] == [a, b, '='] && [a, b, '='][..2] == [a, b];
    assert RStripPad([a, b]) == [a, b] && RStripPad([a, b, '=']) == [a, b];
  }

  lemma StripLong(a: char, b: char, c: char)
    requires c != '='
    ensures RStripPad([a, b, c, '=']) == [a, b, c]
  {
    assert [a, b, c, '='][..3] == [a, b, c];
    assert RStripPad([a, b, c]) == [a, b, c];
  }

  /** A whole group in front changes neither what is stripped behind it nor the padding to restore. */
  lemma {:induction false} StripBehindGroup(group: string, rest: string)
    requires |group| == 4 && group[3] != '=' && (rest != "" ==> rest[0] != '=')
    requires RStripPad(rest) + Padding(|RStripPad(rest)|) == rest
    ensures RStripPad(group + rest) + Padding(|RStripPad(group + rest)|) == group + rest
  {
    RStripOfConcat(group, rest);
    assert RStripPad(group) == group;
    if rest != "" { RStripKeepsHead(rest); }
    assert RStripPad(group + rest) == group + RStripPad(rest);
    PaddingBehindGroup(group, RStripPad(rest));
  }

  lemma PaddingBehindGroup(group: string, stripped: string)
    requires |group| == 4
    ensures (group + stripped) + Padding(|group + stripped|) == group + (stripped + Padding(|stripped|))
  {
    assert |group + stripped| % 4 == |stripped| % 4;
  }

  /** The padding to restore follows from the stripped length alone. */
  lemma {:induction false} PaddingRestored(raw: seq<byte>)
    ensures B64Encode(raw) + Padding(|B64Encode(raw)|) == EncodePadded(raw)
  {
    var s := EncodePadded(raw);
    if |raw| == 1 {
      StripShort(s[0], s[1]);
    } else if |raw| == 2 {
      StripLong(s[0], s[1], s[2]);
    } else if |raw| >= 3 {
      EncodedShape(raw[3..]);
      PaddingRestored(raw[3..]);
      assert s == s[..4] + EncodePadded(raw[3..]);
      StripBehindGroup(s[..4], EncodePadded(raw[3..]));
    }
  }

  lemma {:induction false} ScanSymbol(v: int, rest: string, quad: int, left: int)
    requires 0 <= v < 64
    requires (quad == 0 && left == 0) || (quad == 1 && 0 <= left < 64) || (quad == 2 && 0 <= left < 16) || (quad == 3 && 0 <= left < 4)
    ensures Scan([Symbol(v)] + rest, quad, left, 0) ==
      if quad == 0 then Scan(rest, 1, v, 0)
      else if quad == 1 then Prepend(left * 4 + v / 16, Scan(rest, 2, v % 16, 0))
      else if quad == 2 then Prepend(left * 16 + v / 4, Scan(rest, 3, v % 4, 0))
      else Prepend(left * 64 + v, Scan(rest, 0, 0, 0))
  {
    assert ([Symbol(v)] + rest)[1..] == rest;
  }

  /** The four six-bit values of three bytes, and the bytes back from them. */
  lemma SextetsOfBytes(a: byte, b: byte, c: byte)
    ensures var v0, v1, v2, v3 := a / 4, a % 4 * 16 + b / 16, b % 16 * 4 + c / 64, c % 64;
      && 0 <= v0 < 64 && 0 <= v1 < 64 && 0 <= v2 < 64 && 0 <= v3 < 64
      && v0 * 4 + v1 / 16 == a && v1 % 16 * 16 + v2 / 4 == b && v2 % 4 * 64 + v3 == c
  {
    assert (a % 4 * 16 + b / 16) / 16 == a % 4 && (a % 4 * 16 + b / 16) % 16 == b / 16;
    assert (b % 16 * 4 + c / 64) / 4 == b % 16 && (b % 16 * 4 + c / 64) % 4 == c / 64;
  }

  /** One full group of four symbols yields its three bytes. */
  lemma {:induction false} ScanGroup(a: byte, b: byte, c: byte, rest: string)
    ensures Scan([Symbol(a / 4), Symbol(a % 4 * 16 + b / 16), Symbol(b % 16 * 4 + c / 64), Symbol(c % 64)] + rest, 0, 0, 0)
         == Prepend(a, Prepend(b, Prepend(c, Scan(rest, 0, 0, 0))))
  {
    SextetsOfBytes(a, b, c);
    ScanFour(a / 4, a % 4 * 16 + b / 16, b % 16 * 4 + c / 64, c % 64, rest);
  }

  lemma {:induction false} ScanFour(v0: int, v1: int, v2: int, v3: int, rest: string)
    requires 0 <= v0 < 64 && 0 <= v1 < 64 && 0 <= v2 < 64 && 0 <= v3 < 64
    ensures Scan([Symbol(v0), Symbol(v1), Symbol(v2), Symbol(v3)] + rest, 0, 0, 0)
         == Prepend(v0 * 4 + v1 / 16, Prepend(v1 % 16 * 16 + v2 / 4, Prepend(v2 % 4 * 64 + v3, Scan(rest, 0, 0, 0))))
  {
    var s3 := [Symbol(v3)] + rest;
    var s2 := [Symbol(v2)] + s3;
    var s1 := [Symbol(v1)] + s2;
    ScanSymbol(v3, rest, 3, v2 % 4);
    ScanSymbol(v2, s3, 2, v1 % 16);
    ScanSymbol(v1, s2, 1, v0);
    ScanSymbol(v0, s1, 0, 0);
    assert [Symbol(v0), Symbol(v1), Symbol(v2), Symbol(v3)] + rest == [Symbol(v0)] + s1;
  }

  lemma PrependOnto(b: byte, rest: seq<byte>)
    requires |rest| <= 1
    ensures Prepend(b, Some(rest)) == Some(if rest == [] then [b] else [b, rest[0]])
  {
    assert [b] + rest == if rest == [] then [b] else [b, rest[0]];
  }

  /** A last group of one byte: two symbols, and the second pad ends the input. */
  lemma ScanOne(a: byte)
    ensures Scan([Symbol(a / 4), Symbol(a % 4 * 16), '=', '='], 0, 0, 0) == Some([a])
  {
    var v0, v1 := a / 4, a % 4 * 16;
    SextetsOfBytes(a, 0, 0);
    ScanSymbol(v0, [Symbol(v1)] + "==", 0, 0);
    ScanSymbol(v1, "==", 1, v0);
    assert "=="[1..] == "=" && Scan("=", 2, v1 % 16, 1) == Some([]) && Scan("==", 2, v1 % 16, 0) == Some([]);
    PrependOnto(a, []);
    assert [Symbol(v0), Symbol(v1), '=', '='] == [Symbol(v0)] + ([Symbol(v1)] + "==");
  }

  /** A last group of two bytes: three symbols, and the first pad ends the input. */
  lemma ScanTwo(a: byte, b: byte)
    ensures Scan([Symbol(a / 4), Symbol(a % 4 * 16 + b / 16), Symbol(b % 16 * 4), '='], 0, 0, 0) == Some([a, b])
  {
    var v0, v1, v2 := a / 4, a % 4 * 16 + b / 16, b % 16 * 4;
    SextetsOfBytes(a, b, 0);
    ScanSymbol(v0, [Symbol(v1)] + ([Symbol(v2)] + "="), 0, 0);
    ScanSymbol(v1, [Symbol(v2)] + "=", 1, v0);
    ScanSymbol(v2, "=", 2, v1 % 16);
    assert Scan("=", 3, v2 % 4, 0) == Some([]);
    PrependOnto(b, []);
    PrependOnto(a, [b]);
    assert [Symbol(v0), Symbol(v1), Symbol(v2), '='] == [Symbol(v0)] + ([Symbol(v1)] + ([Symbol(v2)] + "="));
  }

  lemma {:induction false} ScanOfEncoded(raw: seq<byte>)
    ensures Scan(EncodePadded(raw), 0, 0, 0) == Some(raw)
  {
    if |raw| == 1 {
      ScanOne(raw[0]);
      assert raw == [raw[0]];
    } else if |raw| == 2 {
      ScanTwo(raw[0], raw[1]);
      assert raw == [raw[0], raw[1]];
    } else if |raw| >= 3 {
      ScanGroup(raw[0], raw[1], raw[2], EncodePadded(raw[3..]));
      ScanOfEncoded(raw[3..]);
      assert raw == [raw[0]] + ([raw[1]] + ([raw[2]] + raw[3..]));
    }
  }

  /** Stripping the padding loses nothing: every byte string decodes back. */
  lemma B64RoundTrip(raw: seq<byte>)
    ensures B64Decode(B64Encode(raw)) == Some(raw)
    ensures '.' !in B64Encode(raw) && (raw != [] ==> B64Encode(raw) != "")
  {
    PaddingRestored(raw);
    EncodedShape(raw);
    ScanOfEncoded(raw);
    var s, stripped := EncodePadded(raw), B64Encode(raw);
    assert stripped == s[..|stripped|];
    if raw != [] { RStripKeepsHead(s); }
  }

  lemma {:induction false} PartitionAtFirstDot(before: string, after: string)
    requires '.' !in before
    ensures Partition(before + "." + after) == (before, true, after)
  {
    var s := before + "." + after;
    if before != "" {
      assert s[1..] == before[1..] + "." + after;
      PartitionAtFirstDot(before[1..], after);
      assert s[0] == before[0] && before == [before[0]] + before[1..];
    } else {
      assert s[1..] == after;
    }
  }

  /** A signed payload decodes to itself exactly when JSON text carries it; a token is never the first-page cursor. */
  lemma PayloadRoundTrip(p: Platform, payload: Json.Fields)
    requires Lawful(p) && "v" in payload && payload["v"] == Json.Int(1)
    ensures var token := EncodePayload(p, payload);
      && (token.Ok? ==> token.value != "")
      && (token.Ok? && DecodePayload(p, token.value) == Ok(payload) <==> Carries(p, payload))
  {
    if p.dumps(Json.Object(payload)).Some? {
      var raw := p.dumps(Json.Object(payload)).value;
      B64RoundTrip(raw);
      B64RoundTrip(p.hmac(raw));
      PartitionAtFirstDot(B64Encode(raw), B64Encode(p.hmac(raw)));
    }
  }

  lemma PayloadKeysDiffer()
    ensures "v" != "cursor" && "v" != "key" && "cursor" != "key"
  {
    assert |"v"| == 1 && |"cursor"| == 6 && |"key"| == 3;
  }

  /** A page cursor gives back its boundary, and its id through the key decoder. */
  lemma PageCursorRoundTrip(p: Platform, c: Cursor)
    requires Lawful(p) && Carries(p, PagePayload(c)) && Json.IsScalar(c.lastSortValue) && IsAscii(c.lastId)
    ensures var token := EncodePageCursor(p, c);
      && token.Ok? && token.value != ""
      && DecodePageCursor(p, Some(token.value)) == Ok(Some(c))
      && DecodeCursor(p, Some(token.value)) == Ok(Some(c.lastId))
  {
    PayloadKeysDiffer();
    PayloadRoundTrip(p, PagePayload(c));
  }

  /** A key cursor gives back its key, and through the page decoder the boundary whose two parts are that key. */
  lemma KeyCursorRoundTrip(p: Platform, key: string)
    requires Lawful(p) && Carries(p, KeyPayload(key)) && IsAscii(key)
    ensures var token := EncodeCursor(p, key);
      && token.Ok?
      && DecodeCursor(p, Some(token.value)) == Ok(Some(key))
      && DecodePageCursor(p, Some(token.value)) == Ok(Some(Cursor(Json.Str(key), key)))
  {
    PayloadKeysDiffer();
    PayloadRoundTrip(p, KeyPayload(key));
  }

  // ---------------------------------------------------------------------------------------------
  // What the decoders accept
  // ---------------------------------------------------------------------------------------------

  lemma {:induction false} PartitionSplits(s: string)
    ensures var (before, found, after) := Partition(s);
      if found then '.' !in before && |before| < |s| && s[|before|] == '.' && before == s[..|before|] && after == s[|before| + 1..]
      else '.' !in s
  {
    if s != "" && s[0] != '.' {
      PartitionSplits(s[1..]);
      assert s == [s[0]] + s[1..];
    }
  }

  /** The token's first dot is at `i`; what follows it decodes to the digest of what stands before it, which is this object. */
  ghost predicate SignedAt(p: Platform, token: string, i: nat, fields: Json.Fields) {
    && i < |token| && token[i] == '.' && '.' !in token[..i] && i > 0
    && B64Decode(token[..i]).Some?
    && var raw := B64Decode(token[..i]).value;
       && B64Decode(token[i + 1..]) == Some(p.hmac(raw)) && p.loads(raw) == Some(Json.Object(fields))
       && "v" in fields && (fields["v"] == Json.Int(1) || fields["v"] == Json.Bool(true) || fields["v"] == Json.Float(Json.ONE))
  }

  ghost predicate Signed(p: Platform, token: string, fields: Json.Fields) {
    exists i: nat :: SignedAt(p, token, i, fields)
  }

  lemma EmptyDecodes()
    ensures B64Decode("") == Some([])
  {
    assert "" + Padding(|""|) == "";
  }

  /** Only signed objects of version 1 get through. */
  lemma DecodedIffSigned(p: Platform, token: string, fields: Json.Fields)
    requires Lawful(p)
    ensures DecodePayload(p, token) == Ok(fields) <==> Signed(p, token, fields)
  {
    PartitionSplits(token);
    EmptyDecodes();
    var (before, found, after) := Partition(token);
    if DecodePayload(p, token) == Ok(fields) {
      assert SignedAt(p, token, |before|, fields);
    }
    if i: nat :| SignedAt(p, token, i, fields) {
      FirstDotIsUnique(token, i, |before|);
      assert |p.hmac(B64Decode(token[..i]).value)| == SIGNATURE_BYTES;
    }
  }

  lemma NoDotBefore(s: string, i: nat, j: nat)
    requires j <= |s| && '.' !in s[..j]
    ensures i < j ==> s[i] != '.'
  {
    if i < j { assert s[..j][i] == s[i]; }
  }

  lemma FirstDotIsUnique(s: string, i: nat, j: nat)
    requires i < |s| && s[i] == '.' && '.' !in s[..i]
    requires j < |s| && s[j] == '.' && '.' !in s[..j]
    ensures i == j
  {
    NoDotBefore(s, i, j);
    NoDotBefore(s, j, i);
  }

  /** The boundary that a decoded object carries: a pair of a scalar and an id, or else a key that stands for both. */
  predicate CarriesBoundary(fields: Json.Fields, c: Cursor) {
    if "cursor" in fields && fields["cursor"].List? && |fields["cursor"].items| == 2
    then fields["cursor"].items == [c.lastSortValue, Json.Str(c.lastId)] && Json.IsScalar(c.lastSortValue)
    else "key" in fields && fields["key"] == Json.Str(c.lastId) && c.lastSortValue == Json.Str(c.lastId)
  }

  lemma DecodedBoundary(p: Platform, token: string, c: Cursor)
    requires token != ""
    ensures DecodePageCursor(p, Some(token)) == Ok(Some(c))
       <==> DecodePayload(p, token).Ok? && CarriesBoundary(DecodePayload(p, token).value, c)
  {
  }

  /** The page decoder accepts a token, as this boundary, exactly when it is signed and carries this boundary. */
  lemma PageCursorAcceptedIff(p: Platform, token: string, c: Cursor)
    requires Lawful(p) && token != ""
    ensures DecodePageCursor(p, Some(token)) == Ok(Some(c))
       <==> exists fields :: Signed(p, token, fields) && CarriesBoundary(fields, c)
  {
    DecodedBoundary(p, token, c);
    forall fields ensures DecodePayload(p, token) == Ok(fields) <==> Signed(p, token, fields) {
      DecodedIffSigned(p, token, fields);
    }
    if DecodePayload(p, token).Ok? {
      assert Signed(p, token, DecodePayload(p, token).value);
    }
  }

  /** The key that a decoded object stands for: its key, or else the id of its boundary. */
  ghost predicate CarriesKey(fields: Json.Fields, key: string) {
    if "key" in fields && fields["key"].Str? then fields["key"].s == key
    else exists c: Cursor :: c.lastId == key && CarriesBoundary(fields, c)
  }

  lemma DecodedKey(p: Platform, token: string, key: string)
    requires token != ""
    ensures DecodeCursor(p, Some(token)) == Ok(Some(key))
       <==> DecodePayload(p, token).Ok? && CarriesKey(DecodePayload(p, token).value, key)
  {
    if DecodePageCursor(p, Some(token)).Ok? && DecodePageCursor(p, Some(token)).value.Some? {
      DecodedBoundary(p, token, DecodePageCursor(p, Some(token)).value.value);
    }
    forall c: Cursor ensures DecodePageCursor(p, Some(token)) == Ok(Some(c))
       <==> DecodePayload(p, token).Ok? && CarriesBoundary(DecodePayload(p, token).value, c) {
      DecodedBoundary(p, token, c);
    }
  }

  /** The key decoder accepts a token, as this key, exactly when it is signed and stands for this key. */
  lemma KeyCursorAcceptedIff(p: Platform, token: string, key: string)
    requires Lawful(p) && token != ""
    ensures DecodeCursor(p, Some(token)) == Ok(Some(key))
       <==> exists fields :: Signed(p, token, fields) && CarriesKey(fields, key)
  {
    DecodedKey(p, token, key);
    forall fields ensures DecodePayload(p, token) == Ok(fields) <==> Signed(p, token, fields) {
      DecodedIffSigned(p, token, fields);
    }
    if DecodePayload(p, token).Ok? {
      assert Signed(p, token, DecodePayload(p, token).value);
    }
  }

  /** Only no cursor, or an empty one, asks for the first page. */
  lemma FirstPageIff(p: Platform, cursor: Option<string>)
    ensures DecodePageCursor(p, cursor) == Ok(None) <==> cursor == None || cursor == Some("")
    ensures DecodeCursor(p, cursor) == Ok(None) <==> cursor == None || cursor == Some("")
  {
  }

  /** Any bytes other than the digest in place of the signature: both decoders refuse. */
  lemma ForgedSignatureIsRefused(p: Platform, raw: seq<byte>, forged: seq<byte>)
    requires forged != p.hmac(raw)
    ensures var token := B64Encode(raw) + "." + B64Encode(forged);
      token != "" && DecodePageCursor(p, Some(token)).Err? && DecodeCursor(p, Some(token)).Err?
  {
    B64RoundTrip(raw);
    B64RoundTrip(forged);
    PartitionAtFirstDot(B64Encode(raw), B64Encode(forged));
  }

  // ---------------------------------------------------------------------------------------------
  // What base64 text the decoder lets through
  // ---------------------------------------------------------------------------------------------

  /** Without the characters that are neither base64 symbols, of either alphabet, nor padding. */
  function Kept(s: string): string {
    if s == "" then ""
    else
      var rest := Kept(s[1..]);
      if 'A' <= s[0] <= 'Z' || 'a' <= s[0] <= 'z' || '0' <= s[0] <= '9' || s[0] in "-_+/=" then [s[0]] + rest else rest
  }

  /** Characters foreign to base64 are passed over. */
  lemma {:induction false} ForeignCharactersAreSkipped(s: string, quad: int, left: int, pads: nat)
    requires (quad == 0 && left == 0) || (quad == 1 && 0 <= left < 64) || (quad == 2 && 0 <= left < 16) || (quad == 3 && 0 <= left < 4)
    ensures Scan(s, quad, left, pads) == Scan(Kept(s), quad, left, pads)
    decreases |s|
  {
    if s != "" {
      var kept := Kept(s[1..]);
      assert ([s[0]] + kept)[1..] == kept;
      if s[0] == '=' {
        ForeignCharactersAreSkipped(s[1..], quad, left, if quad >= 2 then pads + 1 else pads);
      } else if SymbolValue(s[0]).None? {
        ForeignCharactersAreSkipped(s[1..], quad, left, pads);
      } else {
        var v := SymbolValue(s[0]).value;
        if quad == 0 {
          ForeignCharactersAreSkipped(s[1..], 1, v, 0);
        } else if quad == 1 {
          ForeignCharactersAreSkipped(s[1..], 2, v % 16, 0);
        } else if quad == 2 {
          ForeignCharactersAreSkipped(s[1..], 3, v % 4, 0);
        } else {
          ForeignCharactersAreSkipped(s[1..], 0, 0, 0);
        }
      }
    }
  }

  /** Symbols alone decode exactly when they come in whole groups of four. */
  lemma {:induction false} WholeGroupsDecode(s: string, quad: int, left: int)
    requires (quad == 0 && left == 0) || (quad == 1 && 0 <= left < 64) || (quad == 2 && 0 <= left < 16) || (quad == 3 && 0 <= left < 4)
    requires forall i :: 0 <= i < |s| ==> s[i] != '=' && SymbolValue(s[i]).Some?
    ensures Scan(s, quad, left, 0).Some? <==> (quad + |s|) % 4 == 0
    decreases |s|
  {
    if s != "" {
      var v := SymbolValue(s[0]).value;
      if quad == 0 {
        WholeGroupsDecode(s[1..], 1, v);
      } else if quad == 1 {
        WholeGroupsDecode(s[1..], 2, v % 16);
      } else if quad == 2 {
        WholeGroupsDecode(s[1..], 3, v % 4);
      } else {
        WholeGroupsDecode(s[1..], 0, 0);
      }
    }
  }

  /** The URL-safe alphabet (Table 2 of RFC 4648), which the decoder reads together with the standard one. */
  lemma AlphabetIs(v: int)
    requires 0 <= v < 64
    ensures v < 26 ==> Symbol(v) == ('A' as int + v) as char
    ensures 26 <= v < 52 ==> Symbol(v) == ('a' as int + v - 26) as char
    ensures 52 <= v < 62 ==> Symbol(v) == ('0' as int + v - 52) as char
    ensures v == 62 ==> Symbol(v) == '-' && SymbolValue('-') == SymbolValue('+') == Some(62)
    ensures v == 63 ==> Symbol(v) == '_' && SymbolValue('_') == SymbolValue('/') == Some(63)
  {
  }

  /** Examples of section 10 of RFC 4648, without their padding. */
  lemma KnownEncodings()
    ensures B64Encode([]) == "" && B64Encode([102]) == "Zg" && B64Encode([102, 111]) == "Zm8"
    ensures B64Encode([102, 111, 111]) == "Zm9v"
  {
    assert [102, 111, 111][3..] == [];
    assert EncodePadded([102, 111, 111]) == "Zm9v" && EncodePadded([102]) == "Zg==" && EncodePadded([102, 111]) == "Zm8=";
    StripShort('Z', 'g');
    StripLong('Z', 'm', '8');
  }
}
