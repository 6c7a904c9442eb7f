/** Well-formed UTF-8: table 3-7 of the Unicode Standard, section 3.9. */
module Utf8 {
  import opened Varint

  predicate Between(b: byte, lo: nat, hi: nat) {
    lo <= b <= hi
  }

  predicate Tail(s: seq<byte>, from: nat, to: nat)
    requires from <= to <= |s|
  {
    forall i :: from <= i < to ==> Between(s[i], 0x80, 0xBF)
  }

  /** The bytes of the first character, or 0 if they are ill-formed. */
  function FirstLength(s: seq<byte>): (n: nat)
    requires s != []
    ensures n <= |s|
  {
    var b := s[0];
    if b < 0x80 then 1
    else if Between(b, 0xC2, 0xDF) then if |s| >= 2 && Tail(s, 1, 2) then 2 else 0
    else if Between(b, 0xE0, 0xEF) then
      if |s| >= 3 && Tail(s, 2, 3)
         && Between(s[1], if b == 0xE0 then 0xA0 else 0x80, if b == 0xED then 0x9F else 0xBF) then 3 else 0
    else if Between(b, 0xF0, 0xF4) then
      if |s| >= 4 && Tail(s, 2, 4)
         && Between(s[1], if b == 0xF0 then 0x90 else 0x80, if b == 0xF4 then 0x8F else 0xBF) then 4 else 0
    else 0
  }

  predicate IsUtf8(s: seq<byte>)
    decreases |s|
  {
    s == [] || (FirstLength(s) > 0 && IsUtf8(s[FirstLength(s)..]))
  }

  // ----- the encoding of characters -----------------------------------------------------

  /** A Unicode scalar value: any code point but the surrogates. */
  predicate IsScalar(c: nat) {
    c < 0xD800 || 0xE000 <= c < 0x11_0000
  }

  /** Its bytes: the lead says how many, and each one after it holds six bits. */
  function Bytes(c: nat): (s: seq<byte>)
    requires IsScalar(c)
    ensures |s| > 0
  {
    if c < 0x80 then [c]
    else if c < 0x800 then [0xC0 + c / 0x40, 0x80 + c % 0x40]
    else if c < 0x1_0000 then [0xE0 + c / 0x1000, 0x80 + c / 0x40 % 0x40, 0x80 + c % 0x40]
    else [0xF0 + c / 0x4_0000, 0x80 + c / 0x1000 % 0x40, 0x80 + c / 0x40 % 0x40, 0x80 + c % 0x40]
  }

  function AllBytes(cs: seq<nat>): seq<byte>
    requires forall c <- cs :: IsScalar(c)
  {
    if cs == [] then [] else Bytes(cs[0]) + AllBytes(cs[1..])
  }

  /** The bytes of a character are taken as one, whatever follows. */
  lemma BytesTaken(c: nat, rest: seq<byte>)
    requires IsScalar(c)
    ensures FirstLength(Bytes(c) + rest) == |Bytes(c)|
  {
    hide FirstLength;
    var b := Bytes(c);
    BytesAlone(c);
    LengthKept(b, b + rest);
  }

  lemma BytesAlone(c: nat)
    requires IsScalar(c)
    ensures FirstLength(Bytes(c)) == |Bytes(c)|
  {
    var b := Bytes(c);
    if c >= 0x1_0000 {
      assert c / 0x4_0000 <= 4 && (c / 0x4_0000 == 0 ==> c / 0x1000 >= 0x10) && (c / 0x4_0000 == 4 ==> c / 0x1000 < 0x110);
    }
  }

  /** What follows a character does not change its length. */
  lemma LengthKept(b: seq<byte>, s: seq<byte>)
    requires b != [] && FirstLength(b) == |b| && b <= s
    ensures FirstLength(s) == |b|
  {
    assert forall i :: 0 <= i < |b| ==> s[i] == b[i];
  }

  lemma TwoDigits(a: nat, x: nat)
    requires x < 0x40
    ensures (a * 0x40 + x) / 0x40 == a && (a * 0x40 + x) % 0x40 == x
  {
  }

  lemma MoreDigits(c: nat)
    ensures c / 0x1000 == c / 0x40 / 0x40 && c / 0x4_0000 == c / 0x40 / 0x40 / 0x40
  {
  }

  lemma TakenTwo(s: seq<byte>) returns (c: nat)
    requires |s| == 2 && FirstLength(s) == 2
    ensures IsScalar(c) && s == Bytes(c)
  {
    var a, x := s[0] as nat - 0xC0, s[1] as nat - 0x80;
    assert Between(s[1], 0x80, 0xBF);
    TwoDigits(a, x);
    c := a * 0x40 + x;
  }

  lemma TakenThree(s: seq<byte>) returns (c: nat)
    requires |s| == 3 && FirstLength(s) == 3
    ensures IsScalar(c) && s == Bytes(c)
  {
    var a, x, y := s[0] as nat - 0xE0, s[1] as nat - 0x80, s[2] as nat - 0x80;
    assert Between(s[1], 0x80, 0xBF) && Between(s[2], 0x80, 0xBF);
    TwoDigits(a, x);
    TwoDigits(a * 0x40 + x, y);
    c := (a * 0x40 + x) * 0x40 + y;
    MoreDigits(c);
    assert 0x20 <= a * 0x40 + x && !(0x360 <= a * 0x40 + x < 0x380) && a < 0x10;
  }

  lemma TakenFour(s: seq<byte>) returns (c: nat)
    requires |s| == 4 && FirstLength(s) == 4
    ensures IsScalar(c) && s == Bytes(c)
  {
    var a, x, y, z := s[0] as nat - 0xF0, s[1] as nat - 0x80, s[2] as nat - 0x80, s[3] as nat - 0x80;
    assert Between(s[1], 0x80, 0xBF) && Between(s[2], 0x80, 0xBF) && Between(s[3], 0x80, 0xBF);
    TwoDigits(a, x);
    TwoDigits(a * 0x40 + x, y);
    TwoDigits((a * 0x40 + x) * 0x40 + y, z);
    c := ((a * 0x40 + x) * 0x40 + y) * 0x40 + z;
    MoreDigits(c);
    assert 0x10 <= a * 0x40 + x < 0x110;
  }

  /** What is taken as one is the bytes of a character. */
  lemma TakenIsBytes(s: seq<byte>) returns (c: nat)
    requires s != [] && FirstLength(s) > 0
    ensures IsScalar(c) && s[..FirstLength(s)] == Bytes(c)
  {
    var n := FirstLength(s);
    var b := s[..n];
    Prefix(s);
    hide FirstLength, Bytes, IsScalar;
    if n == 1 {
      c := OneByte(b);
    } else if n == 2 {
      c := TakenTwo(b);
    } else if n == 3 {
      c := TakenThree(b);
    } else {
      c := TakenFour(b);
    }
  }

  lemma OneByte(b: seq<byte>) returns (c: nat)
    requires |b| == 1 && FirstLength(b) == 1
    ensures IsScalar(c) && b == Bytes(c)
  {
    c := b[0];
  }

  lemma Prefix(s: seq<byte>)
    requires s != [] && FirstLength(s) > 0
    ensures FirstLength(s) <= 4 && FirstLength(s[..FirstLength(s)]) == FirstLength(s)
  {
    var b := s[..FirstLength(s)];
    assert forall i :: 0 <= i < |b| ==> b[i] == s[i];
  }

  lemma {:induction false} AllBytesAreUtf8(cs: seq<nat>)
    requires forall c <- cs :: IsScalar(c)
    ensures IsUtf8(AllBytes(cs))
    decreases |cs|
  {
    hide FirstLength, Bytes, IsScalar;
    if cs != [] {
      var s, rest := AllBytes(cs), AllBytes(cs[1..]);
      assert cs[0] in cs && forall c <- cs[1..] :: c in cs;
      AllBytesAreUtf8(cs[1..]);
      BytesTaken(cs[0], rest);
      assert s[|Bytes(cs[0])|..] == rest;
    }
  }

  lemma {:induction false} Utf8IsBytes(s: seq<byte>) returns (cs: seq<nat>)
    requires IsUtf8(s)
    ensures (forall c <- cs :: IsScalar(c)) && AllBytes(cs) == s
    decreases |s|
  {
    hide FirstLength, Bytes, IsScalar;
    if s == [] {
      cs := [];
    } else {
      var n := FirstLength(s);
      var c := TakenIsBytes(s);
      var more := Utf8IsBytes(s[n..]);
      cs := [c] + more;
      assert cs[1..] == more && s == s[..n] + s[n..];
    }
  }

  /** Accepted is just what some characters are written as. */
  lemma IsUtf8Iff(s: seq<byte>)
    ensures IsUtf8(s) <==> exists cs: seq<nat> :: (forall c <- cs :: IsScalar(c)) && AllBytes(cs) == s
  {
    hide IsScalar, IsUtf8, AllBytes;
    if IsUtf8(s) {
      var cs := Utf8IsBytes(s);
    }
    forall cs: seq<nat> | (forall c <- cs :: IsScalar(c)) && AllBytes(cs) == s
      ensures IsUtf8(s)
    {
      AllBytesAreUtf8(cs);
    }
  }
}
