/**
 * The crate root (src/lib.rs): the API base URL and the integer-flag
 * coercion every `0`/`1` field of the wire format goes through.
 */
module Lib {
  import opened Wrappers
  import opened Json

  /** Root of the read-only JSON API; the board, catalog and thread endpoints hang off it. */
  const BASE: string := "https://a.4cdn.org/"

  /** What `int_to_bool`'s visitor says it expects when handed anything else. */
  const EXPECTED_INTEGER: string := "an integer"

  /**
   * `int_to_bool`: an integer is `true` unless it is zero; a value of any
   * other JSON type is rejected.
   */
  function IntToBool(v: Json): (r: Decoded<bool>)
    ensures r.Ok? <==> v.JInt?
    ensures r.Err? ==> r.error == InvalidType(EXPECTED_INTEGER)
  {
    match v
    case JInt(n) => Ok(n != 0)
    case _ => Err(InvalidType(EXPECTED_INTEGER))
  }

  /** How the API writes a boolean: `1` for true, `0` for false. */
  function FlagToInt(b: bool): (n: int)
    ensures (n == 0) == !b
  {
    if b then 1 else 0
  }

  lemma IntToBoolZero()
    ensures IntToBool(JInt(0)) == Ok(false)
  {
  }

  /** Every non-zero integer, negative ones included, reads as `true`. */
  lemma IntToBoolNonZero(n: int)
    requires n != 0
    ensures IntToBool(JInt(n)) == Ok(true)
  {
  }

  /** The coercion sees only whether the integer is zero. */
  lemma IntToBoolZeroness(m: int, n: int)
    requires (m == 0) <==> (n == 0)
    ensures IntToBool(JInt(m)) == IntToBool(JInt(n))
  {
  }

  /** Decoding the API's encoding of a flag gives the flag back. */
  lemma IntToBoolInvertsFlagToInt(b: bool)
    ensures IntToBool(JInt(FlagToInt(b))) == Ok(b)
  {
  }

  /** A `#[serde(default, deserialize_with = "int_to_bool")]` key: absent is `false`. */
  function DecodeFlag(v: Option<Json>): (r: Decoded<bool>)
    ensures v.None? ==> r == Ok(false)
    ensures v.Some? ==> r == IntToBool(v.value)
  {
    WithDefault(v, false, IntToBool)
  }

  predicate IsInteger(v: Json) { v.JInt? }

  /**
   * `int_to_bool` as serde_json drives it. serde_json hands a non-negative
   * JSON integer to the visitor's `visit_u64` and only a negative one to
   * `visit_i64`; the visitor overrides `visit_i64` alone, so serde's default
   * `visit_u64` rejects the value as being of the wrong type.
   */
  function IntToBoolAsDelivered(v: Json): (r: Decoded<bool>)
    ensures r.Ok? <==> v.JInt? && v.n < 0
    ensures r.Err? ==> r.error == InvalidType(EXPECTED_INTEGER)
  {
    match v
    case JInt(n) => if n < 0 then Ok(true) else Err(InvalidType(EXPECTED_INTEGER))
    case _ => Err(InvalidType(EXPECTED_INTEGER))
  }

  /**
   * The discrepancy: the API's own flag values `0` and `1` are rejected by
   * the visitor as written, while the intended coercion accepts them.
   */
  lemma IntToBoolAsDeliveredRejectsFlags(b: bool)
    ensures IntToBoolAsDelivered(JInt(FlagToInt(b))).Err?
    ensures IntToBool(JInt(FlagToInt(b))) == Ok(b)
  {
  }

  /** The two agree exactly on the values serde_json sends to `visit_i64`. */
  lemma IntToBoolAsDeliveredAgreesOnNegatives(v: Json)
    ensures IntToBoolAsDelivered(v).Ok? ==> IntToBoolAsDelivered(v) == IntToBool(v)
  {
  }
}
