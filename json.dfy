/**
 * The JSON values the imageboard API sends, as serde_json hands them to a
 * `Deserialize` implementation once the text is lexed, and the rules serde
 * applies to one field of a derived record: primitive decoding with range
 * checks, `Option` fields, `#[serde(default)]` fields, required fields and
 * `Vec` fields.
 */
module Json {
  import opened Wrappers

  /**
   * A JSON value where a scalar is expected. `JInt` is a number without a
   * fraction or exponent; `JOther` stands for booleans, floats, arrays and
   * objects, none of which a scalar field accepts.
   */
  datatype Json = JInt(n: int) | JStr(s: string) | JNull | JOther

  /** The kinds of `serde::de::Error` the decoding can raise. */
  datatype DecodeError =
    | InvalidType(expected: string)
    | InvalidValue(expected: string)
    | MissingField(field: string)
    | Custom(message: string)

  type Decoded<T> = Result<T, DecodeError>

  const U32_MAX: int := 0xFFFF_FFFF
  const U64_MAX: int := 0xFFFF_FFFF_FFFF_FFFF
  const I32_MIN: int := -0x8000_0000
  const I32_MAX: int := 0x7FFF_FFFF

  type uint32 = n: int | 0 <= n <= U32_MAX
  type uint64 = n: int | 0 <= n <= U64_MAX
  type int32 = n: int | I32_MIN <= n <= I32_MAX

  /** A JSON integer that fits `u32`; others are rejected as serde's primitive visitors do. */
  function DecodeU32(v: Json): (r: Decoded<uint32>)
    ensures r.Ok? <==> v.JInt? && 0 <= v.n <= U32_MAX
    ensures r.Ok? ==> r.value == v.n
  {
    match v
    case JInt(n) => if 0 <= n <= U32_MAX then Ok(n) else Err(InvalidValue("u32"))
    case _ => Err(InvalidType("u32"))
  }

  function DecodeU64(v: Json): (r: Decoded<uint64>)
    ensures r.Ok? <==> v.JInt? && 0 <= v.n <= U64_MAX
    ensures r.Ok? ==> r.value == v.n
  {
    match v
    case JInt(n) => if 0 <= n <= U64_MAX then Ok(n) else Err(InvalidValue("u64"))
    case _ => Err(InvalidType("u64"))
  }

  function DecodeI32(v: Json): (r: Decoded<int32>)
    ensures r.Ok? <==> v.JInt? && I32_MIN <= v.n <= I32_MAX
    ensures r.Ok? ==> r.value == v.n
  {
    match v
    case JInt(n) => if I32_MIN <= n <= I32_MAX then Ok(n) else Err(InvalidValue("i32"))
    case _ => Err(InvalidType("i32"))
  }

  function DecodeString(v: Json): (r: Decoded<string>)
    ensures r.Ok? <==> v.JStr?
    ensures r.Ok? ==> r.value == v.s
  {
    match v
    case JStr(s) => Ok(s)
    case _ => Err(InvalidType("a string"))
  }

  /** A field without `#[serde(default)]`: an absent key is an error naming it. */
  function Required<T>(key: string, v: Option<Json>, decode: Json -> Decoded<T>): Decoded<T> {
    match v
    case None => Err(MissingField(key))
    case Some(j) => decode(j)
  }

  /** A `#[serde(default)]` field: an absent key takes the type's default; `null` is not absent. */
  function WithDefault<T>(v: Option<Json>, default: T, decode: Json -> Decoded<T>): Decoded<T> {
    match v
    case None => Ok(default)
    case Some(j) => decode(j)
  }

  /** An `Option<T>` field: an absent key and `null` both give `None`. */
  function Optional<T>(v: Option<Json>, decode: Json -> Decoded<T>): Decoded<Option<T>> {
    match v
    case None => Ok(None)
    case Some(JNull) => Ok(None)
    case Some(j) =>
      match decode(j)
      case Ok(x) => Ok(Some(x))
      case Err(e) => Err(e)
  }

  /** What each of the three field rules accepts, stated without decoding. */
  predicate RequiredOk(v: Option<Json>, ok: Json -> bool) {
    v.Some? && ok(v.value)
  }

  predicate DefaultOk(v: Option<Json>, ok: Json -> bool) {
    v.None? || ok(v.value)
  }

  predicate OptionalOk(v: Option<Json>, ok: Json -> bool) {
    v.None? || v.value.JNull? || ok(v.value)
  }

  predicate IsU32(v: Json) { v.JInt? && 0 <= v.n <= U32_MAX }
  predicate IsU64(v: Json) { v.JInt? && 0 <= v.n <= U64_MAX }
  predicate IsI32(v: Json) { v.JInt? && I32_MIN <= v.n <= I32_MAX }
  predicate IsString(v: Json) { v.JStr? }

  /**
   * A `Vec<T>` field: the elements are decoded left to right and the first
   * element that fails aborts the whole sequence with its error.
   */
  function DecodeSeq<R, T>(raws: seq<R>, decode: R -> Decoded<T>): (r: Decoded<seq<T>>)
    ensures r.Ok? <==> forall i | 0 <= i < |raws| :: decode(raws[i]).Ok?
    ensures r.Ok? ==> |r.value| == |raws|
    ensures r.Ok? ==> forall i | 0 <= i < |raws| :: r.value[i] == decode(raws[i]).value
    ensures r.Err? ==>
      exists i | 0 <= i < |raws| ::
        decode(raws[i]).Err? && r.error == decode(raws[i]).error
        && forall j | 0 <= j < i :: decode(raws[j]).Ok?
  {
    if |raws| == 0 then Ok([])
    else
      match decode(raws[0])
      case Err(e) => Err(e)
      case Ok(x) =>
        match DecodeSeq(raws[1..], decode)
        case Err(e) =>
          assert forall j | 1 <= j <= |raws[1..]| :: raws[1..][j - 1] == raws[j];
          Err(e)
        case Ok(xs) => Ok([x] + xs)
  }
}
