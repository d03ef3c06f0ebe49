/** JSON values, as serde_json holds them, and the errors of the announcement parser. */
module Json {
  import opened Wrappers
  import opened Text

  datatype Value =
    | Null
    | Bool(flag: bool)
    | Integer(n: int)
    | Float(r: real)
    | Str(text: string)
    | Arr(items: seq<Value>)
    | Object(members: map<string, Value>)

  type U32 = n: nat | n < U32_BOUND

  /** A number too large for 64 bits is held as a float, which is no 64-bit number. */
  function AsU64(v: Value): Option<nat> {
    if v.Integer? && 0 <= v.n < U64_BOUND then Some(v.n) else None
  }

  function AsReal(v: Value): Option<real> {
    match v
    case Integer(n) => Some(n as real)
    case Float(r) => Some(r)
    case _ => None
  }

  function OfString(s: string): Value {
    Str(s)
  }

  function OfU32(n: U32): Value {
    Integer(n)
  }

  function AsString(v: Value): Option<string> {
    if v.Str? then Some(v.text) else None
  }

  /** What `from_value::<u32>` reads. */
  function ReadU32(v: Value): Option<U32> {
    if v.Integer? && 0 <= v.n < U32_BOUND then Some(v.n) else None
  }

  /** A 64-bit number cut down to 32 bits. */
  function Truncated(n: nat): U32 {
    n % U32_BOUND
  }

  /** `Panic` is not an error the parser returns: it stands for the parser aborting. */
  datatype ParseError =
    | ExpectedJsonArray
    | InvalidRootArray
    | MissingField(field: string)
    | InvalidField(field: string)
    | RleValue(field: string, entry: nat)
    | RleChunkLen(field: string, entry: nat, length: nat)
    | RleRepeatCount(field: string, entry: nat)
    | InvalidV3Namespace(namespace: nat)
    | InvalidV3Action(namespace: nat, action: nat, reason: string)
    | Panic
}
