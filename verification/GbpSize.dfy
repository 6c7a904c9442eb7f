/**
 How much an encoding can take: at most 64 bytes for each unit of the value's size,
 headers of nested messages included.  So no length or index of a value up to
 MAX_SIZE is truncated by a cast to u32.  The bound is kept part by part: each value pays
 for its bytes and table entries and leaves headroom to its container, which the tag, the
 count and the shape's number of the container use up.
 */
module GbpSize {
  import opened Varint
  import opened GbpTypes
  import opened GbpEncoding

  const RATE: nat := 64
  const MAX_SIZE: nat := 67_000_000

  /** One for each value and each key, and one for each byte of text. */
  function Size(v: Json): (n: nat)
    ensures n >= 1
  {
    match v
    case Str(s) => 1 + |s|
    case Array(items) => 1 + SizeAll(items)
    case Object(keys, vals) => 1 + TextWeight(keys) + SizeAll(vals)
    case _ => 1
  }

  function SizeAll(vs: seq<Json>): nat {
    if vs == [] then 0 else Size(vs[0]) + SizeAll(vs[1..])
  }

  function TextWeight(strings: seq<Text>): nat {
    if strings == [] then 0 else 1 + |strings[0]| + TextWeight(strings[1..])
  }

  function ShapeWeight(shapes: seq<seq<nat>>): nat {
    if shapes == [] then 0 else 1 + |shapes[0]| + ShapeWeight(shapes[1..])
  }

  function Weight(t: Tables): nat {
    t.counter + TextWeight(t.strings) + ShapeWeight(t.shapes)
  }

  /** Bytes written so far, with what the tables will add to the header. */
  function Spent(w: Written): nat {
    |w.bytes| + 5 * Weight(w.tables)
  }

  /** The cost of interning an object's keys once more, for the columnar attempt on its array. */
  function Refund(v: Json): nat {
    match v
    case Object(keys, _) => 5 + 10 * TextWeight(keys)
    case _ => 0
  }

  function HeadRefund(vs: seq<Json>): nat {
    if vs == [] then 0 else Refund(vs[0])
  }

  /** References point below the counter, and shapes into the string pool. */
  ghost predicate TablesOk(t: Tables) {
    && (forall key :: key in t.positions ==> t.positions[key] < t.counter)
    && (forall i :: 0 <= i < |t.shapes| ==> IndicesBelow(t.shapes[i], |t.strings|))
  }

  predicate IndicesBelow(shape: seq<nat>, n: nat) {
    forall k :: 0 <= k < |shape| ==> shape[k] < n
  }

  // ----- the tables -----

  lemma {:induction false} TextWeightAppend(pool: seq<Text>, s: Text)
    ensures TextWeight(pool + [s]) == TextWeight(pool) + 1 + |s|
  {
    if pool == [] {
      assert (pool + [s])[1..] == [];
    } else {
      assert (pool + [s])[1..] == pool[1..] + [s];
      TextWeightAppend(pool[1..], s);
    }
  }

  lemma {:induction false} ShapeWeightAppend(shapes: seq<seq<nat>>, shape: seq<nat>)
    ensures ShapeWeight(shapes + [shape]) == ShapeWeight(shapes) + 1 + |shape|
  {
    if shapes == [] {
      assert (shapes + [shape])[1..] == [];
    } else {
      assert (shapes + [shape])[1..] == shapes[1..] + [shape];
      ShapeWeightAppend(shapes[1..], shape);
    }
  }

  lemma {:induction false} TextWeightBounds(strings: seq<Text>)
    ensures |strings| <= TextWeight(strings)
    ensures forall i :: 0 <= i < |strings| ==> |strings[i]| <= TextWeight(strings)
    ensures |EncodeStrings(strings)| <= 5 * TextWeight(strings) || TextWeight(strings) >= U32
  {
    if strings != [] && TextWeight(strings) < U32 {
      TextWeightBounds(strings[1..]);
      ReadU32OfLeb(|strings[0]|, []);
    } else if strings != [] {
      TextWeightBounds(strings[1..]);
    }
  }

  lemma {:induction false} ShapeWeightBounds(shapes: seq<seq<nat>>)
    requires forall i :: 0 <= i < |shapes| ==> IndicesBelow(shapes[i], U32)
    ensures |shapes| <= ShapeWeight(shapes)
    ensures forall i :: 0 <= i < |shapes| ==> |shapes[i]| <= ShapeWeight(shapes)
    ensures |EncodeShapes(shapes)| <= 5 * ShapeWeight(shapes) || ShapeWeight(shapes) >= U32
  {
    if shapes != [] {
      ShapeWeightBounds(shapes[1..]);
      if ShapeWeight(shapes) < U32 {
        ReadU32OfLeb(|shapes[0]|, []);
        IndicesLength(shapes[0]);
      }
    }
  }

  lemma {:induction false} IndicesLength(shape: seq<nat>)
    requires IndicesBelow(shape, U32)
    ensures |EncodeIndices(shape)| <= 5 * |shape|
  {
    if shape != [] {
      IndicesLength(shape[1..]);
      ReadU32OfLeb(shape[0], []);
    }
  }

  lemma InternWeight(pool: seq<Text>, s: Text)
    ensures TextWeight(Intern(pool, s).0) <= TextWeight(pool) + 1 + |s|
  {
    TextWeightAppend(pool, s);
  }

  lemma {:induction false} InternAllWeight(pool: seq<Text>, keys: seq<Text>)
    ensures TextWeight(InternAll(pool, keys).0) <= TextWeight(pool) + TextWeight(keys)
    decreases |keys|
  {
    if keys != [] {
      InternWeight(pool, keys[0]);
      InternAllWeight(Intern(pool, keys[0]).0, keys[1..]);
    }
  }

  lemma InternShapeWeight(t: Tables, keys: seq<Text>)
    requires TablesOk(t)
    ensures var t1 := InternShape(t, keys).0;
      TablesOk(t1) && Weight(t1) <= Weight(t) + 1 + 2 * TextWeight(keys)
  {
    var (strings, shape) := InternAll(t.strings, keys);
    var t1 := InternShape(t, keys).0;
    InternAllWeight(t.strings, keys);
    ShapeWeightAppend(t.shapes, shape);
    TextWeightBounds(keys);
    assert IndicesBelow(shape, |strings|);
    forall i | 0 <= i < |t1.shapes|
      ensures IndicesBelow(t1.shapes[i], |t1.strings|)
    {
      if i < |t.shapes| {
        assert IndicesBelow(t.shapes[i], |t.strings|);
      }
    }
  }

  // ----- values -----

  /** Enough room is left for `size` more units, `refund` of it back. */
  ghost predicate Room(t: Tables, size: nat, refund: nat) {
    TablesOk(t) && 5 * Weight(t) + RATE * size < U32 + refund
  }

  /** The writing stayed within its budget, and left `spare` of it. */
  ghost predicate Within(w: Written, t: Tables, size: nat, spare: nat) {
    TablesOk(w.tables) && w.fits && Spent(w) + spare <= 5 * Weight(t) + RATE * size
  }

  lemma {:induction false} ValueBudget(p: Platform, v: Json, t: Tables)
    requires WellFormed(v) && Room(t, Size(v), Refund(v))
    ensures Within(EncodeValue(p, v, t), t, Size(v), 30 + Refund(v))
    decreases v, 6
  {
    match v
    case Int(i) => ReadI64OfLeb(i, []);
    case Str(s) =>
      InternWeight(t.strings, s);
      TextWeightBounds(Intern(t.strings, s).0);
      if |s| > 2 {
        var t1 := t.(strings := Intern(t.strings, s).0);
        ReadU32OfLeb(Intern(t.strings, s).1, []);
        assert TablesOk(t1) by {
          forall i | 0 <= i < |t1.shapes|
            ensures IndicesBelow(t1.shapes[i], |t1.strings|)
          {
            assert IndicesBelow(t.shapes[i], |t.strings|);
          }
        }
      } else {
        ReadU32OfLeb(|s|, []);
      }
    case Array(items) => ArrayBudget(p, items, t);
    case Object(keys, vals) => ObjectBudget(p, keys, vals, t);
    case _ =>
  }

  lemma {:induction false} ObjectBudget(p: Platform, keys: seq<Text>, vals: seq<Json>, t: Tables)
    requires WellFormed(Object(keys, vals)) && Room(t, Size(Object(keys, vals)), Refund(Object(keys, vals)))
    ensures var v := Object(keys, vals); Within(EncodeValue(p, v, t), t, Size(v), 30 + Refund(v))
    decreases vals, 7
  {
    hide WellFormed, Leb, EncodeSeq, InternShape, TextWeight, Weight, TablesOk, SizeAll;
    var v := Object(keys, vals);
    assert AllWellFormed(vals) by {
      assert WellFormed(v);
      WellFormedParts(keys, vals);
    }
    var (t1, id) := InternShape(t, keys);
    InternShapeWeight(t, keys);
    ShapesBelow(t1);
    var key := ObjectDedupKey(p, keys, vals);
    ReadU32OfLeb(id, []);
    if keys != [] && key in t1.positions {
      PositionBelow(t1, key);
      ReadU32OfLeb(t1.positions[key], []);
    } else if keys != [] {
      SeqBudget(p, vals, t1);
      RegisterWeight(EncodeSeq(p, vals, t1).tables, key);
    }
  }

  lemma PositionBelow(t: Tables, key: DedupKey)
    requires TablesOk(t) && key in t.positions
    ensures t.positions[key] <= Weight(t)
  {
  }

  lemma RegisterWeight(t: Tables, key: DedupKey)
    requires TablesOk(t)
    ensures TablesOk(Register(t, key)) && Weight(Register(t, key)) == Weight(t) + 1
  {
  }

  lemma WellFormedParts(keys: seq<Text>, vals: seq<Json>)
    requires WellFormed(Object(keys, vals))
    ensures AllWellFormed(vals)
  {
  }

  lemma ShapesBelow(t: Tables)
    requires TablesOk(t) && 5 * Weight(t) < U32
    ensures |t.shapes| <= Weight(t) && |t.strings| <= Weight(t)
    ensures HeaderFits(t)
    ensures |EncodeStrings(t.strings)| + |EncodeShapes(t.shapes)| <= 5 * Weight(t)
  {
    TextWeightBounds(t.strings);
    forall i | 0 <= i < |t.shapes|
      ensures IndicesBelow(t.shapes[i], U32)
    {
      assert IndicesBelow(t.shapes[i], |t.strings|);
    }
    ShapeWeightBounds(t.shapes);
    forall i | 0 <= i < |t.shapes|
      ensures ShapeFits(t.shapes[i])
    {
      assert IndicesBelow(t.shapes[i], U32);
    }
  }

  lemma {:induction false} SeqBudget(p: Platform, vals: seq<Json>, t: Tables)
    requires AllWellFormed(vals) && Room(t, SizeAll(vals), HeadRefund(vals))
    ensures Within(EncodeSeq(p, vals, t), t, SizeAll(vals), 30 * |vals| + HeadRefund(vals))
    decreases vals, 0
  {
    hide EncodeValue, Weight, TablesOk;
    if vals != [] {
      var w := EncodeValue(p, vals[0], t);
      ValueBudget(p, vals[0], t);
      SeqBudget(p, vals[1..], w.tables);
    }
  }

  lemma {:induction false} ArrayBudget(p: Platform, items: seq<Json>, t: Tables)
    requires AllWellFormed(items) && Room(t, 1 + SizeAll(items), 0)
    ensures Within(EncodeArray(p, items, t), t, 1 + SizeAll(items), 30)
    decreases items, 5
  {
    hide Leb, EncodeItems, EncodeChunks, SizeAll;
    var key := ArrayDedupKey(p, items);
    if |items| > PARALLEL_ABOVE {
      ItemsCount(items);
      assert ChunkCount(|items|) <= |items|;
      ReadU32OfLeb(ChunkCount(|items|), []);
      ChunksBudget(p, items);
    } else if key in t.positions {
      ReadU32OfLeb(t.positions[key], []);
    } else {
      ItemsBudget(p, items, t);
    }
  }

  lemma {:induction false} ItemsCount(items: seq<Json>)
    ensures |items| <= SizeAll(items)
  {
    if items != [] {
      ItemsCount(items[1..]);
    }
  }

  lemma {:induction false} ItemsBudget(p: Platform, items: seq<Json>, t: Tables)
    requires AllWellFormed(items) && Room(t, 1 + SizeAll(items), 0)
    ensures var w := EncodeItems(p, items, t);
      TablesOk(w.tables) && w.fits && Spent(w) + 30 * |items| <= 5 * Weight(t) + 11 + RATE * SizeAll(items)
    decreases items, 3
  {
    hide Leb;
    ItemsCount(items);
    ReadU32OfLeb(|items|, []);
    if IsColumnar(items) {
      var keys := items[0].keys;
      var (t1, id) := InternShape(t, keys);
      InternShapeWeight(t, keys);
      CellsOfRows(items, keys);
      ShapesBelow(t1);
      ReadU32OfLeb(id, []);
      ColumnsBudget(p, items, keys, 0, t1);
    } else {
      var t1 := ProbeShape(items, t);
      if |items| >= MIN_COLUMN && items[0].Object? {
        InternShapeWeight(t, items[0].keys);
      }
      SeqBudget(p, items, t1);
    }
  }

  // ----- columns -----

  /** The cells of the columns from the k-th on. */
  function CellsFrom(items: seq<Json>, keys: seq<Text>, k: nat): nat
    requires AllShaped(items, keys) && k <= |keys|
  {
    if items == [] then 0 else SizeAll(items[0].vals[k..]) + CellsFrom(items[1..], keys, k)
  }

  /** The cells of column k. */
  function CellsOf(items: seq<Json>, keys: seq<Text>, k: nat): nat
    requires AllShaped(items, keys) && k < |keys|
  {
    if items == [] then 0 else Size(items[0].vals[k]) + CellsOf(items[1..], keys, k)
  }

  lemma {:induction false} CellsSplit(items: seq<Json>, keys: seq<Text>, k: nat)
    requires AllShaped(items, keys) && k < |keys|
    ensures CellsFrom(items, keys, k) == CellsOf(items, keys, k) + CellsFrom(items, keys, k + 1)
  {
    if items != [] {
      var vals := items[0].vals;
      assert vals[k..][0] == vals[k] && vals[k..][1..] == vals[k + 1..];
      CellsSplit(items[1..], keys, k);
    }
  }

  lemma {:induction false} NoCells(items: seq<Json>, keys: seq<Text>)
    requires AllShaped(items, keys)
    ensures CellsFrom(items, keys, |keys|) == 0
  {
    if items != [] {
      assert items[0].vals[|keys|..] == [];
      NoCells(items[1..], keys);
    }
  }

  /** Rows weigh what their cells do, and their keys besides. */
  lemma {:induction false} CellsOfRows(items: seq<Json>, keys: seq<Text>)
    requires AllShaped(items, keys)
    ensures CellsFrom(items, keys, 0) + |items| + (if items == [] then 0 else TextWeight(keys)) <= SizeAll(items)
  {
    if items != [] {
      assert items[0].vals[0..] == items[0].vals;
      CellsOfRows(items[1..], keys);
    }
  }

  lemma {:induction false} CellsSkip(items: seq<Json>, keys: seq<Text>, k: nat, n: nat)
    requires AllShaped(items, keys) && k < |keys| && n <= |items|
    ensures CellsOf(items, keys, k) >= n + CellsOf(items[n..], keys, k)
  {
    if n > 0 {
      assert items[1..][n - 1..] == items[n..];
      CellsSkip(items[1..], keys, k, n - 1);
    }
  }

  lemma {:induction false} ColumnsBudget(p: Platform, items: seq<Json>, keys: seq<Text>, k: nat, t: Tables)
    requires AllWellFormed(items) && AllShaped(items, keys) && k <= |keys| && Room(t, CellsFrom(items, keys, k), 0)
    ensures Within(EncodeColumns(p, items, keys, k, t), t, CellsFrom(items, keys, k), 0)
    decreases items, 2, |keys| - k
  {
    hide EncodeColumn, Weight, TablesOk;
    if k < |keys| {
      CellsSplit(items, keys, k);
      assert items[0..] == items;
      ColumnBudget(p, items, keys, k, 0, t);
      ColumnsBudget(p, items, keys, k + 1, EncodeColumn(p, items, keys, k, 0, t).tables);
    }
  }

  lemma {:induction false} ColumnBudget(p: Platform, items: seq<Json>, keys: seq<Text>, k: nat, i: nat, t: Tables)
    requires AllWellFormed(items) && AllShaped(items, keys) && k < |keys| && i <= |items|
    requires Room(t, CellsOf(items[i..], keys, k), 0)
    ensures Within(EncodeColumn(p, items, keys, k, i, t), t, CellsOf(items[i..], keys, k), 0)
    decreases items, 1, |items| - i
  {
    hide EncodeValue, Weight, TablesOk, Stride, RunPrefix, CellsOf, Column, Size;
    if i < |items| {
      var n := Stride(Column(items, keys, k), i);
      var w := EncodeValue(p, items[i].vals[k], t);
      assert WellFormed(items[i]) && AllWellFormed(items[i].vals);
      CellsStep(items, keys, k, i, n);
      PrefixLength(n);
      ValueBudget(p, items[i].vals[k], t);
      ColumnBudget(p, items, keys, k, i + n, w.tables);
    }
  }

  lemma PrefixLength(n: nat)
    requires 1 <= n <= MAX_RUN + 1
    ensures |RunPrefix(n)| <= 6 * (n - 1)
  {
    ReadU32OfLeb(n, []);
  }

  lemma CellsStep(items: seq<Json>, keys: seq<Text>, k: nat, i: nat, n: nat)
    requires AllShaped(items, keys) && k < |keys| && 1 <= n && i + n <= |items|
    ensures CellsOf(items[i..], keys, k) >= Size(items[i].vals[k]) + (n - 1) + CellsOf(items[i + n..], keys, k)
  {
    assert items[i..][0] == items[i] && items[i..][1..] == items[i + 1..];
    assert items[i + 1..][n - 1..] == items[i + n..];
    CellsSkip(items[i + 1..], keys, k, n - 1);
  }

  // ----- messages -----

  lemma {:induction false} ChunksBudget(p: Platform, items: seq<Json>)
    requires AllWellFormed(items) && RATE * (1 + SizeAll(items)) < U32
    ensures var (bytes, fits) := EncodeChunks(p, items); fits && |bytes| <= RATE * SizeAll(items)
    decreases items, 4, |items|
  {
    hide EncodeSlice, Leb;
    if items != [] {
      var n := if |items| <= CHUNK then |items| else CHUNK;
      assert n == |items| ==> items[..n] == items;
      SizeSplit(items, n);
      SliceBudget(p, items[..n]);
      ReadU32OfLeb(|EncodeSlice(p, items[..n]).0|, []);
      ChunksBudget(p, items[n..]);
    }
  }

  lemma {:induction false} SizeSplit(items: seq<Json>, n: nat)
    requires n <= |items|
    ensures SizeAll(items) == SizeAll(items[..n]) + SizeAll(items[n..])
  {
    if n == 0 {
      assert items[..0] == [] && items[0..] == items;
    } else {
      assert items[..n][1..] == items[1..][..n - 1] && items[n..] == items[1..][n - 1..];
      SizeSplit(items[1..], n - 1);
    }
  }

  lemma {:induction false} SliceBudget(p: Platform, items: seq<Json>)
    requires AllWellFormed(items) && RATE * (1 + SizeAll(items)) < U32
    ensures var (bytes, fits) := EncodeSlice(p, items); fits && |bytes| + 30 * |items| <= 25 + RATE * SizeAll(items)
    decreases items, 4, 0
  {
    ItemsBudget(p, items, EMPTY_TABLES);
    MessageBudget(EncodeItems(p, items, EMPTY_TABLES));
  }

  lemma MessageBudget(w: Written)
    requires TablesOk(w.tables) && 5 * Weight(w.tables) < U32
    ensures Message(w).1 == w.fits && |Message(w).0| <= 14 + Spent(w)
  {
    hide Leb;
    ShapesBelow(w.tables);
    ReadU32OfLeb(|w.tables.strings|, []);
    ReadU32OfLeb(|w.tables.shapes|, []);
  }

  /** A value of at most MAX_SIZE loses nothing to a cast, and takes at most 64 bytes a unit. */
  lemma EncodingFits(p: Platform, v: Json)
    requires WellFormed(v) && Size(v) <= MAX_SIZE
    ensures Encode(p, v).1
    ensures |Encode(p, v).0| <= RATE * Size(v)
  {
    ValueBudget(p, v, EMPTY_TABLES);
    MessageBudget(EncodeValue(p, v, EMPTY_TABLES));
  }
}
