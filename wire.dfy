/**
 * Values that travel over the worker's socket: bytes, the JSON values held in
 * a message's meta mapping, Python truthiness of those values, and the JSON
 * encoder/decoder pair that the framing layer uses for the meta header.
 *
 * JSON text syntax itself is not modelled: the encoder and decoder are
 * supplied as a `JsonCodec` value, and every lemma that depends on their
 * agreement assumes `RoundTrips`, which says that decoding the encoded meta,
 * followed by any run of space padding, gives the meta back.  A JSON text is
 * `ws value ws` (section 2 of RFC 8259), so trailing spaces are legal.
 */
module Wire {

  newtype byte = x: int | 0 <= x < 256

  datatype Option<T> = None | Some(value: T)

  /** The padding byte of a meta header: ASCII space. */
  const SPACE: byte := 32

  /** Message.META_LENGTH: the fixed size of every encoded meta header. */
  const META_LENGTH: nat := 1024

  /** The meta keys the framing layer itself reads or writes. */
  const PAYLOAD_LENGTH: string := "payload_length"
  const HAS_FD: string := "has_fd"
  const FILENO: string := "fileno"
  const TYPE: string := "type"

  /** A JSON value as `json.loads` returns it in Python. */
  datatype Value =
    | Null
    | Bool(b: bool)
    | Int(i: int)
    | Real(r: real)
    | Str(s: string)
    | List(items: seq<Value>)

  /** A message's meta mapping: a JSON object. */
  type Meta = map<string, Value>

  /** Python truthiness of a JSON value (`if v:`). */
  predicate Truthy(v: Value) {
    match v
    case Null => false
    case Bool(b) => b
    case Int(i) => i != 0
    case Real(r) => r != 0.0
    case Str(s) => s != ""
    case List(items) => items != []
  }

  /** `meta.get(key)` tested for truthiness: a missing key reads as None. */
  predicate KeyTruthy(meta: Meta, key: string) {
    key in meta && Truthy(meta[key])
  }

  /**
   * The integer Python arithmetic sees in a value: ints, and bools as 0 and 1
   * (`bool` is a subclass of `int`); anything else makes `-` or `recv` raise.
   */
  function AsInt(v: Value): (r: Option<int>)
    ensures r.Some? <==> (v.Int? || v.Bool?)
    ensures v.Int? ==> r == Some(v.i)
  {
    match v
    case Int(i) => Some(i)
    case Bool(b) => Some(if b then 1 else 0)
    case _ => None
  }

  /** `' ' * n` */
  function Spaces(n: nat): (r: seq<byte>)
    ensures |r| == n
    ensures forall i :: 0 <= i < n ==> r[i] == SPACE
  {
    seq(n, _ => SPACE)
  }

  /** `data + ' ' * (width - len(data))`: right-pads `data` with spaces to `width` bytes. */
  function Pad(data: seq<byte>, width: nat): (r: seq<byte>)
    requires |data| <= width
    ensures |r| == width
    ensures r[..|data|] == data
    ensures forall i :: |data| <= i < width ==> r[i] == SPACE
  {
    data + Spaces(width - |data|)
  }

  /**
   * `json.dumps` and `json.loads`. `loads` yields None when the text is not
   * JSON or is JSON but not an object (Python then raises, either in `loads`
   * or at the first `.get` on the result).
   */
  datatype JsonCodec = JsonCodec(dumps: Meta -> seq<byte>, loads: seq<byte> -> Option<Meta>)

  /** The encoder and decoder agree on every header that fits the frame. */
  ghost predicate RoundTrips(c: JsonCodec) {
    forall m :: |c.dumps(m)| <= META_LENGTH ==> c.loads(Pad(c.dumps(m), META_LENGTH)) == Some(m)
  }
}
