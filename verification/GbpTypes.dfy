/** JSON values as the binary protocol sees them, and the parts of its platform left abstract. */
module GbpTypes {
  import opened Utf8
  import opened Varint

  /** A string as its UTF-8 bytes. */
  type Text = s: seq<byte> | IsUtf8(s) witness []

  /** Unsigned integers that do not fit an i64. */
  type BigU64 = x: int | 0x8000_0000_0000_0000 <= x < 0x1_0000_0000_0000_0000 witness 0x8000_0000_0000_0000

  /** Little-endian IEEE 754 double: finite unless its eleven exponent bits are all ones. */
  predicate FiniteBits(b: seq<byte>) {
    |b| == 8 && !(b[7] % 128 == 127 && b[6] >= 240)
  }

  type F64 = b: seq<byte> | FiniteBits(b) witness [0, 0, 0, 0, 0, 0, 0, 0]

  predicate IsZero(b: F64) {
    b == [0, 0, 0, 0, 0, 0, 0, 0] || b == [0, 0, 0, 0, 0, 0, 0, 128]
  }

  /**
   A JSON value.  An object is an ordered map, kept as its keys and, in the same
   order, their values.
   */
  datatype Json =
    | Null
    | Bool(b: bool)
    | Int(i: i64)
    | Big(u: BigU64)
    | Float(bits: F64)
    | Str(s: Text)
    | Array(items: seq<Json>)
    | Object(keys: seq<Text>, vals: seq<Json>)
  {
    predicate IsComposite() {
      Array? || Object?
    }
  }

  /** One call the shallow content hash makes on its hasher. */
  datatype Atom =
    | WriteU8(b: byte)
    | WriteI64(i: i64)
    | WriteU64(bits: F64)
    | WriteUsize(n: nat)
    | WriteStr(s: Text)

  /** The hasher's digest and the rounding of a large unsigned integer to a double. */
  datatype Platform = Platform(digest: seq<Atom> -> nat, round: BigU64 -> F64)

  predicate Distinct<T(==)>(s: seq<T>) {
    forall i, j :: 0 <= i < j < |s| ==> s[i] != s[j]
  }

  /** An object is a map: one value for each key, and no key twice. */
  predicate WellFormed(v: Json) {
    match v
    case Array(items) => AllWellFormed(items)
    case Object(keys, vals) => |keys| == |vals| && Distinct(keys) && AllWellFormed(vals)
    case _ => true
  }

  predicate AllWellFormed(vs: seq<Json>) {
    forall i :: 0 <= i < |vs| ==> WellFormed(vs[i])
  }

  /** The least index at which x occurs, or |s|. */
  function IndexOf<T(==)>(s: seq<T>, x: T): (i: nat)
    ensures i <= |s|
    ensures i < |s| ==> s[i] == x
    ensures forall j :: 0 <= j < i ==> s[j] != x
  {
    if s == [] || s[0] == x then 0 else 1 + IndexOf(s[1..], x)
  }
}
