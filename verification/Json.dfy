/** Decoded JSON values, as Python's `json.loads` returns them. */
module Json {
  const EXPONENT := 0x10_0000_0000_0000   // 2^52: the exponent's place in a double
  const CANONICAL_NAN := 0x7FF8_0000_0000_0000

  /** A double by its 64 bits; NaN is the canonical one, which is how `json` writes and reads it. */
  type Double = bits: int |
    && 0 <= bits < 0x1_0000_0000_0000_0000
    && (bits / EXPONENT % 2048 == 2047 && bits % EXPONENT != 0 ==> bits == CANONICAL_NAN)

  const ZERO: Double := 0
  const NEGATIVE_ZERO: Double := 0x8000_0000_0000_0000
  const ONE: Double := 0x3FF0_0000_0000_0000

  datatype Value =
    | Null
    | Bool(b: bool)
    | Int(n: int)
    | Float(x: Double)
    | Str(s: string)
    | List(items: seq<Value>)
    | Object(fields: map<string, Value>)

  type Fields = map<string, Value>

  predicate IsScalar(v: Value) {
    !v.List? && !v.Object?
  }

  /** `mapping.get(key)`, with an absent key reading as null. */
  function Lookup(fields: Fields, key: string): Value {
    if key in fields then fields[key] else Null
  }
}
