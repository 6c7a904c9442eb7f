/**
 The bytes of the binary protocol, in figures: what stands on the wire, and when its short forms
 are used.  A message is the letters GBP and an 8, the table of strings, the table of shapes and
 the value; a value is a tag and what the tag says.  Repeated composites are references, eight or
 more rows of one shape go by columns, sixteen or more equal scalars of a column are one run.
 */
module GbpWire {
  import opened Wrappers
  import opened Varint
  import opened GbpTypes
  import opened GbpEncoding
  import opened GbpTellsApart

  /** Numbers below 2^14: seven bits a byte, the lowest first, the top bit for more to come. */
  lemma ShortNumbers(n: nat)
    requires n < 0x4000
    ensures Leb(n) == if n < 0x80 then [n] else [0x80 + n % 0x80, n / 0x80]
  {
  }

  /** Signed numbers: 0, -1, 1, -2, 2 and so on stand for 0, 1, 2, 3, 4. */
  lemma SignedNumbers(i: i64)
    ensures LebI64(i) == Leb(if i >= 0 then 2 * i else -2 * i - 1)
    ensures LebI64(-1) == [1] && LebI64(1) == [2] && LebI64(-64) == [0x7F] && LebI64(64) == [0x80, 1]
  {
    ShortNumbers(128);
  }

  /** Eight bytes are a finite double unless the eleven bits of the exponent, in the last two, are all ones. */
  lemma FiniteIff(b: seq<byte>)
    requires |b| == 8
    ensures FiniteBits(b) <==> b[7] as nat % 0x80 * 0x10 + b[6] as nat / 0x10 != 0x7FF
  {
  }

  /** Scalars and short strings take no tables: "GBP", version 8, two empty tables, a tag, the value. */
  lemma ScalarMessages(p: Platform, i: i64, bits: F64, u: BigU64, s: Text)
    requires |s| <= 2
    ensures
      var head: seq<byte> := [0x47, 0x42, 0x50, 0x08, 0x00, 0x00];
      && Encode(p, Null).0 == head + [0x00]
      && Encode(p, Bool(true)).0 == head + [0x01] && Encode(p, Bool(false)).0 == head + [0x02]
      && Encode(p, Int(i)).0 == head + ([0x03] + Leb(if i >= 0 then 2 * i else -2 * i - 1))
      && Encode(p, Float(bits)).0 == head + ([0x04] + bits) && Encode(p, Big(u)).0 == head + ([0x04] + p.round(u))
      && Encode(p, Str(s)).0 == head + ([0x0A, |s|] + s)
  {
    hide Leb;
    Bare(EncodeValue(p, Null, EMPTY_TABLES));
    Bare(EncodeValue(p, Bool(true), EMPTY_TABLES));
    Bare(EncodeValue(p, Bool(false), EMPTY_TABLES));
    Bare(EncodeValue(p, Int(i), EMPTY_TABLES));
    Bare(EncodeValue(p, Float(bits), EMPTY_TABLES));
    Bare(EncodeValue(p, Big(u), EMPTY_TABLES));
    Bare(EncodeValue(p, Str(s), EMPTY_TABLES));
    ShortNumbers(|s|);
    assert [TAG_SHORT_STRING] + [|s|] + s == [0x0A, |s|] + s;
  }

  lemma Bare(w: Written)
    requires w.tables == EMPTY_TABLES
    ensures Message(w).0 == [0x47, 0x42, 0x50, 0x08, 0x00, 0x00] + w.bytes
  {
    ShortNumbers(0);
    assert EncodeStrings([]) == [] && EncodeShapes([]) == [];
    assert [0x47, 0x42, 0x50, 0x08] + [0] + [] + [0] + [] + w.bytes == [0x47, 0x42, 0x50, 0x08, 0x00, 0x00] + w.bytes;
  }

  /** A longer string stands in the header, and its number in the body. */
  lemma LongStringMessage(p: Platform, s: Text)
    requires |s| > 2
    ensures Encode(p, Str(s)).0 == [0x47, 0x42, 0x50, 0x08, 0x01] + Leb(|s|) + s + [0x00, 0x05, 0x00]
  {
    hide Leb, Message, Intern;
    FirstInterned(s);
    ShortNumbers(0);
    var w := EncodeValue(p, Str(s), EMPTY_TABLES);
    assert w.bytes == [0x05] + [0] == [0x05, 0x00];
    OneString(w, s);
  }

  lemma FirstInterned(s: Text)
    ensures Intern([], s) == ([s], 0)
  {
    assert [] + [s] == [s];
  }

  lemma OneString(w: Written, s: Text)
    requires w.tables.strings == [s] && w.tables.shapes == [] && w.bytes == [0x05, 0x00]
    ensures Message(w).0 == [0x47, 0x42, 0x50, 0x08, 0x01] + Leb(|s|) + s + [0x00, 0x05, 0x00]
  {
    hide Leb, EncodeStrings, EncodeShapes;
    ShortNumbers(0);
    ShortNumbers(1);
    StringsOfOne(s);
    Joined(Leb(|s|), s);
  }

  lemma StringsOfOne(s: Text)
    ensures EncodeStrings([s]) == Leb(|s|) + s && EncodeShapes([]) == []
  {
    hide Leb;
    assert [s][1..] == [] && EncodeStrings([]) == [];
    assert Leb(|s|) + s + [] == Leb(|s|) + s;
  }

  lemma Joined(x: seq<byte>, s: seq<byte>)
    ensures [0x47, 0x42, 0x50, 0x08] + [1] + (x + s) + [0] + [] + [0x05, 0x00]
         == [0x47, 0x42, 0x50, 0x08, 0x01] + x + s + [0x00, 0x05, 0x00]
  {
    var head: seq<byte> := [0x47, 0x42, 0x50, 0x08] + [1];
    assert head == [0x47, 0x42, 0x50, 0x08, 0x01];
    assert [0] + [] + [0x05, 0x00] == [0x00, 0x05, 0x00];
    assert head + (x + s) == head + x + s;
    assert head + x + s + [0] + [] + [0x05, 0x00] == head + x + s + ([0] + [] + [0x05, 0x00]);
  }

  /** A composite that has just been written is written again as a reference, however large it is. */
  lemma SecondCopy(p: Platform, v: Json, t: Tables)
    requires WellFormed(v) && (v.Object? ==> v.keys != []) && (v.Array? ==> |v.items| <= 50_000) && v.IsComposite()
    ensures
      var t' := EncodeValue(p, v, t).tables;
      KeyOf(p, v) in t'.positions && EncodeValue(p, v, t').bytes == [0x08] + Leb(t'.positions[KeyOf(p, v)])
  {
    hide Leb, EncodeSeq, EncodeItems;
    match v
    case Array(items) =>
    case Object(keys, vals) =>
      var t' := EncodeValue(p, v, t).tables;
      assert InternShape(t', keys).0.positions == t'.positions;
  }

  /** Rows of one shape are written by columns from 8 of them on. */
  lemma ColumnsFromEight(p: Platform, rows: seq<Json>, keys: seq<Text>, t: Tables)
    requires rows != [] && AllShaped(rows, keys)
    ensures EncodeItems(p, rows, t).bytes[..1] == if |rows| >= 8 then [0x09] else [0x06]
  {
    hide Leb, EncodeSeq, EncodeColumns;
    assert rows[0].Object? && rows[0].keys == keys;
  }

  /** A column of one and the same scalar is written as one run from 16 rows on, up to 2,000,001 rows. */
  lemma RunFromSixteen(p: Platform, rows: seq<Json>, keys: seq<Text>, v: Json, t: Tables)
    requires AllShaped(rows, keys) && |keys| == 1 && 16 <= |rows| <= 2_000_001 && !v.IsComposite()
    requires forall i :: 0 <= i < |rows| ==> rows[i].vals[0] == v
    ensures EncodeColumn(p, rows, keys, 0, 0, t).bytes == [0x0B] + Leb(|rows|) + EncodeValue(p, v, t).bytes
  {
    hide Leb, EncodeValue, RunFrom, Run, Column;
    var col := Column(rows, keys, 0);
    SameRun(col, 0);
    FirstRun(col);
    WholeStride(col);
    OneEntry(p, rows, keys, v, t);
  }

  lemma WholeStride(col: seq<Json>)
    requires 16 <= |col| && Run(col, 0) == |col| - 1
    ensures Stride(col, 0) == |col|
  {
  }

  lemma OneEntry(p: Platform, rows: seq<Json>, keys: seq<Text>, v: Json, t: Tables)
    requires AllShaped(rows, keys) && |keys| == 1 && |rows| > 1 && rows[0].vals[0] == v
    requires Stride(Column(rows, keys, 0), 0) == |rows|
    ensures EncodeColumn(p, rows, keys, 0, 0, t).bytes == [0x0B] + Leb(|rows|) + EncodeValue(p, v, t).bytes
  {
    hide Leb, EncodeValue, Stride, Column;
    var w := EncodeValue(p, v, t);
    assert EncodeColumn(p, rows, keys, 0, |rows|, w.tables) == Written(w.tables, [], true);
    assert [TAG_RUN] + Leb(|rows|) + w.bytes + [] == [0x0B] + Leb(|rows|) + w.bytes;
  }

  lemma FirstRun(col: seq<Json>)
    requires col != [] && !col[0].IsComposite()
    ensures Run(col, 0) == RunFrom(col, 0, 0)
  {
  }

  lemma {:induction false} SameRun(col: seq<Json>, run: nat)
    requires run < |col| <= MAX_RUN + 1 && forall i :: 0 <= i < |col| ==> col[i] == col[0]
    ensures RunFrom(col, 0, run) == |col| - 1
    decreases |col| - run
  {
    if run + 1 < |col| {
      SameRun(col, run + 1);
    }
  }

  /** More than 50,000 items are written in parts of 25,000, each with the length of its message before it. */
  lemma PartsAboveFiftyThousand(p: Platform, items: seq<Json>, t: Tables)
    requires |items| > 50_000
    ensures EncodeValue(p, Array(items), t).tables == t
    ensures
      var part := EncodeSlice(p, items[..25_000]).0;
      EncodeValue(p, Array(items), t).bytes
      == [0x0C] + Leb((|items| + 24_999) / 25_000) + (Leb(|part|) + part + EncodeChunks(p, items[25_000..]).0)
  {
    hide Leb, EncodeSlice, EncodeChunks;
    FirstChunk(p, items);
    assert ChunkCount(|items|) == (|items| + 24_999) / 25_000;
  }

  lemma FirstChunk(p: Platform, items: seq<Json>)
    requires |items| > 25_000
    ensures var part := EncodeSlice(p, items[..25_000]).0;
      EncodeChunks(p, items).0 == Leb(|part|) + part + EncodeChunks(p, items[25_000..]).0
  {
    hide Leb, EncodeSlice;
  }
}
