/**
 The variable-length integers of the binary protocol: little-endian base-128
 (unsigned LEB128, section 7.6 of DWARF 4), with zigzag for signed numbers.

 Bit operations are written arithmetically: masking with 0x7F is `% 128`, setting
 the top bit is `+ 128`, a right shift by 7 is `/ 128`.  The reader's `|=` adds a
 digit above every bit already read, so it is an addition; digits shifted past the
 word are lost, which is the `% modulus`.
 */
module Varint {
  import opened Wrappers

  type byte = x: int | 0 <= x < 256
  type u32 = x: int | 0 <= x < 0x1_0000_0000
  type u64 = x: int | 0 <= x < 0x1_0000_0000_0000_0000
  type i64 = x: int | -0x8000_0000_0000_0000 <= x < 0x8000_0000_0000_0000

  const U32: nat := 0x1_0000_0000
  const U64: nat := 0x1_0000_0000_0000_0000

  /** Why a message is refused. */
  datatype DecodeError =
    | UnexpectedEof
    | VarintTooLong
    | InvalidMagic
    | InvalidUtf8
    | InvalidReference
    | InvalidStringIndex
    | InvalidShapeId
    | InvalidKeyIndex
    | ZeroRunLength
    | MissingRunValue
    | PartNotArray
    | UnknownTag(tag: byte)

  // ----- what the writers produce -----

  /** The base-128 digits of n, least significant first, all but the last marked. */
  function Leb(n: nat): (r: seq<byte>)
    ensures |r| > 0
  {
    if n < 128 then [n] else [n % 128 + 128] + Leb(n / 128)
  }

  /** Signed to unsigned so that small magnitudes stay short. */
  function ZigZag(n: i64): (r: u64)
  {
    if n >= 0 then 2 * n else -2 * n - 1
  }

  function UnZigZag(z: u64): (r: i64)
  {
    if z % 2 == 0 then z / 2 else -(z / 2) - 1
  }

  function LebI64(n: i64): seq<byte> {
    Leb(ZigZag(n))
  }

  /** A growing output buffer. */
  class ByteBuffer {
    var bytes: seq<byte>

    constructor ()
      ensures bytes == []
    {
      bytes := [];
    }

    method Push(b: byte)
      modifies this
      ensures bytes == old(bytes) + [b]
    {
      bytes := bytes + [b];
    }

    method Extend(more: seq<byte>)
      modifies this
      ensures bytes == old(bytes) + more
    {
      bytes := bytes + more;
    }
  }

  method WriteVarint(n: u32, buf: ByteBuffer)
    modifies buf
    ensures buf.bytes == old(buf.bytes) + Leb(n)
  {
    WriteDigits(n, buf);
  }

  method WriteVarintI64(n: i64, buf: ByteBuffer)
    modifies buf
    ensures buf.bytes == old(buf.bytes) + LebI64(n)
  {
    WriteDigits(ZigZag(n), buf);
  }

  /** The writing loop of both widths. */
  method WriteDigits(n: nat, buf: ByteBuffer)
    modifies buf
    ensures buf.bytes == old(buf.bytes) + Leb(n)
  {
    var val := n;
    while val >= 0x80
      invariant buf.bytes + Leb(val) == old(buf.bytes) + Leb(n)
    {
      ghost var before := buf.bytes;
      buf.Push(val % 128 + 128);
      assert before + Leb(val) == buf.bytes + Leb(val / 128);
      val := val / 128;
    }
    buf.Push(val);
  }

  // ----- what the readers accept -----

  /** The number spelled by at most `left` digits at the front of s, and what follows it. */
  function ReadDigits(s: seq<byte>, left: nat): (r: Result<(nat, seq<byte>), DecodeError>)
    ensures r.Ok? ==> |r.value.1| < |s|
    ensures r.Ok? ==> r.value.1 == s[|s| - |r.value.1|..]
  {
    if left == 0 then Err(VarintTooLong)
    else if s == [] then Err(UnexpectedEof)
    else if s[0] < 128 then Ok((s[0] as nat, s[1..]))
    else
      var (high, rest) :- ReadDigits(s[1..], left - 1);
      Ok((s[0] % 128 + 128 * high, rest))
  }

  function ReadU32(s: seq<byte>): (r: Result<(u32, seq<byte>), DecodeError>)
    ensures r.Ok? ==> |r.value.1| < |s|
    ensures r.Ok? ==> r.value.1 == s[|s| - |r.value.1|..]
  {
    var (n, rest) :- ReadDigits(s, 5);
    Ok((n % U32, rest))
  }

  function ReadI64(s: seq<byte>): (r: Result<(i64, seq<byte>), DecodeError>)
    ensures r.Ok? ==> |r.value.1| < |s|
    ensures r.Ok? ==> r.value.1 == s[|s| - |r.value.1|..]
  {
    var (z, rest) :- ReadDigits(s, 10);
    Ok((UnZigZag(z % U64), rest))
  }

  function Pow128(k: nat): (r: nat)
    ensures r > 0
  {
    if k == 0 then 1 else 128 * Pow128(k - 1)
  }

  /** What a 32-bit or a 64-bit accumulator keeps of n. */
  function Word(n: nat, wide: bool): nat {
    if wide then n % U64 else n % U32
  }

  /** The reading loop of both widths: `limit` digits at most, accumulated in one machine word. */
  method ReadWord(data: seq<byte>, pos: nat, limit: nat, wide: bool) returns (r: Result<(nat, nat), DecodeError>)
    requires pos <= |data|
    ensures match ReadDigits(data[pos..], limit)
            case Err(e) => r == Err(e)
            case Ok((n, rest)) => r == Ok((Word(n, wide), |data| - |rest|))
  {
    hide ReadDigits, Spell, Word, Resumes, Pow128;
    var res, i := 0, 0;
    var scale: nat := 1;
    ResumesStart(data, pos, limit, wide);
    while i < limit
      invariant i <= limit && pos + i <= |data|
      invariant scale == Pow128(i)
      invariant res == Word(Spell(data[pos..pos + i], 0), wide)
      invariant Resumes(data, pos, limit, i)
    {
      if pos + i == |data| {
        ResumesEof(data, pos, limit, i);
        return Err(UnexpectedEof);
      }
      var b := data[pos + i];
      assert data[pos..pos + i + 1] == data[pos..pos + i] + [b];
      res := AddDigit(res, b, scale, wide, data[pos..pos + i]);
      if b < 128 {
        ResumesLast(data, pos, limit, i);
        return Ok((res, pos + i + 1));
      }
      ResumesNext(data, pos, limit, i);
      Pow128Next(i);
      scale := scale * 128;
      i := i + 1;
    }
    ResumesTooLong(data, pos, limit);
    r := Err(VarintTooLong);
  }

  /** Reading on from the i-th digit completes the whole reading. */
  ghost predicate Resumes(data: seq<byte>, pos: nat, limit: nat, i: nat)
    requires i <= limit && pos + i <= |data|
  {
    match ReadDigits(data[pos + i..], limit - i)
    case Err(e) => ReadDigits(data[pos..], limit) == Err(e)
    case Ok((n, rest)) => ReadDigits(data[pos..], limit) == Ok((Spell(data[pos..pos + i], n), rest))
  }

  lemma ResumesStart(data: seq<byte>, pos: nat, limit: nat, wide: bool)
    requires pos <= |data|
    ensures Resumes(data, pos, limit, 0) && Word(Spell(data[pos..pos + 0], 0), wide) == 0 && Pow128(0) == 1
  {
    hide ReadDigits;
    assert data[pos + 0..] == data[pos..] && data[pos..pos + 0] == [];
  }

  lemma Pow128Next(k: nat)
    ensures Pow128(k + 1) == 128 * Pow128(k)
  {
  }

  lemma ResumesEof(data: seq<byte>, pos: nat, limit: nat, i: nat)
    requires i < limit && pos + i == |data| && Resumes(data, pos, limit, i)
    ensures ReadDigits(data[pos..], limit) == Err(UnexpectedEof)
  {
    assert data[pos + i..] == [];
  }

  lemma ResumesTooLong(data: seq<byte>, pos: nat, limit: nat)
    requires pos + limit <= |data| && Resumes(data, pos, limit, limit)
    ensures ReadDigits(data[pos..], limit) == Err(VarintTooLong)
  {
  }

  lemma ResumesLast(data: seq<byte>, pos: nat, limit: nat, i: nat)
    requires i < limit && pos + i < |data| && data[pos + i] < 128 && Resumes(data, pos, limit, i)
    ensures ReadDigits(data[pos..], limit) == Ok((Spell(data[pos..pos + i + 1], 0), data[pos + i + 1..]))
  {
    var b, before := data[pos + i], data[pos..pos + i];
    assert data[pos..pos + i + 1] == before + [b];
    assert data[pos + i..][0] == b && data[pos + i..][1..] == data[pos + i + 1..];
    SpellAppend(before, b, 0);
  }

  lemma ReadDigitsOn(s: seq<byte>, left: nat)
    requires left > 0 && s != [] && s[0] >= 128
    ensures ReadDigits(s, left)
         == match ReadDigits(s[1..], left - 1)
            case Err(e) => Err(e)
            case Ok((high, rest)) => Ok((s[0] % 128 + 128 * high, rest))
  {
  }

  lemma ResumesNext(data: seq<byte>, pos: nat, limit: nat, i: nat)
    requires i < limit && pos + i < |data| && data[pos + i] >= 128
    requires Resumes(data, pos, limit, i)
    ensures Resumes(data, pos, limit, i + 1)
  {
    hide Spell, Leb, ReadDigits;
    var b, before := data[pos + i], data[pos..pos + i];
    assert data[pos..pos + (i + 1)] == before + [b];
    assert data[pos + i..][0] == b && data[pos + i..][1..] == data[pos + (i + 1)..];
    ReadDigitsOn(data[pos + i..], limit - i);
    var after := ReadDigits(data[pos + (i + 1)..], limit - (i + 1));
    if after.Ok? {
      SpellAppend(before, b, after.value.0);
    }
  }

  /** The number whose low digits are `digits` and whose remaining, higher part is n. */
  ghost function Spell(digits: seq<byte>, n: nat): nat {
    if digits == [] then n else digits[0] % 128 + 128 * Spell(digits[1..], n)
  }

  lemma {:induction false} SpellAppend(digits: seq<byte>, b: byte, n: nat)
    ensures Spell(digits + [b], n) == Spell(digits, b % 128 + 128 * n)
  {
    if digits == [] {
      assert (digits + [b])[1..] == [];
    } else {
      assert (digits + [b])[1..] == digits[1..] + [b];
      SpellAppend(digits[1..], b, n);
    }
  }

  lemma {:induction false} SpellSum(digits: seq<byte>, n: nat)
    ensures Spell(digits, n) == Spell(digits, 0) + n * Pow128(|digits|)
  {
    if digits != [] {
      SpellSum(digits[1..], n);
      var p := Pow128(|digits| - 1);
      assert 128 * (n * p) == n * (128 * p);
    }
  }

  /** One `|=` of the loop: the next digit added above the bits already read, in one machine word. */
  method AddDigit(res: nat, b: byte, scale: nat, wide: bool, ghost before: seq<byte>) returns (res': nat)
    requires res == Word(Spell(before, 0), wide)
    requires scale == Pow128(|before|)
    ensures res' == Word(Spell(before + [b], 0), wide)
  {
    var shifted := b % 128 * scale;
    assert shifted >= 0;
    res' := Word(res + shifted, wide);
    WordAdd(Spell(before, 0), shifted, wide);
    SpellAppend(before, b, 0);
    SpellSum(before, b % 128);
  }

  lemma WordAdd(a: nat, b: nat, wide: bool)
    ensures Word(Word(a, wide) + b, wide) == Word(a + b, wide)
  {
  }

  // ----- reading back what was written -----

  lemma {:induction false} ReadDigitsOfLeb(n: nat, left: nat, tail: seq<byte>)
    requires left > 0 && n < Pow128(left)
    ensures ReadDigits(Leb(n) + tail, left) == Ok((n, tail))
    ensures |Leb(n)| <= left
  {
    var s := Leb(n) + tail;
    if n < 128 {
      assert s[0] == n && s[1..] == tail;
    } else {
      assert s[0] == n % 128 + 128 && s[1..] == Leb(n / 128) + tail;
      assert left > 1 by { assert Pow128(1) == 128 * Pow128(0); }
      ReadDigitsOfLeb(n / 128, left - 1, tail);
    }
  }

  lemma Pow128Bounds()
    ensures Pow128(5) >= U32 && Pow128(10) >= U64
  {
    assert Pow128(3) == 128 * Pow128(2);
    assert Pow128(5) == 128 * Pow128(4) == 128 * 128 * Pow128(3);
    assert Pow128(7) == 128 * Pow128(6) == 128 * 128 * Pow128(5);
    assert Pow128(10) == 128 * Pow128(9) == 128 * 128 * Pow128(8);
  }

  /** Every u32 reads back, whatever follows it, from at most five bytes. */
  lemma ReadU32OfLeb(n: u32, tail: seq<byte>)
    ensures ReadU32(Leb(n) + tail) == Ok((n, tail))
    ensures |Leb(n)| <= 5
  {
    hide ReadDigits, Leb, Pow128;
    Pow128Bounds();
    ReadDigitsOfLeb(n, 5, tail);
  }

  /** Every i64, the minimum included, reads back from at most ten bytes. */
  lemma ReadI64OfLeb(n: i64, tail: seq<byte>)
    ensures ReadI64(LebI64(n) + tail) == Ok((n, tail))
    ensures |LebI64(n)| <= 10
  {
    hide ReadDigits, Leb, Pow128;
    Pow128Bounds();
    ReadDigitsOfLeb(ZigZag(n), 10, tail);
  }
}
