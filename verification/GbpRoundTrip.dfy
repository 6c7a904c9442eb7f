/**
 When decoding gives back the encoded value.

 The protocol promises decode(encode(v)) == v.  The encoder recognises a repeated
 composite by a shallow hash, so the promise holds exactly when `Scan` accepts the
 value: every back-reference points at an equal composite, every run repeats one bit
 pattern, and no integer lies beyond an i64.
 */
module GbpRoundTrip {
  import opened Wrappers
  import opened Varint
  import opened GbpTypes
  import opened GbpEncoding
  import opened GbpDecoding
  import opened GbpMeaning
  import opened GbpSimulation

  // ----- the exact condition, checked on the value alone -----

  /**
   Walk the value in writing order, pooling the original composites as the decoder
   would pool decoded ones; None as soon as a back-reference, a run or a number would
   not be reproduced.
   */
  function Scan(p: Platform, v: Json, m: Memory): (r: Option<Memory>)
    ensures r.Some? && Lags(m) ==> Lags(r.value)
    decreases v, 6
  {
    match v
    case Big(_) => None
    case Array(items) => ScanArray(p, items, m)
    case Object(keys, vals) =>
      var key := ObjectDedupKey(p, keys, vals);
      if keys == [] then Some(m)
      else if key in m.positions then ScanRef(m, key, v)
      else
        var m' :- ScanSeq(p, vals, m);
        Some(Remember(m', key, v))
    case _ => Some(m)
  }

  /** The decoder never pools more values than the encoder has numbered. */
  predicate Lags(m: Memory) {
    |m.pool| <= m.counter
  }

  function ScanRef(m: Memory, key: DedupKey, v: Json): Option<Memory>
    requires key in m.positions
  {
    var i := m.positions[key];
    if i < |m.pool| && m.pool[i] == v then Some(m) else None
  }

  function ScanSeq(p: Platform, vals: seq<Json>, m: Memory): (r: Option<Memory>)
    ensures r.Some? && Lags(m) ==> Lags(r.value)
    decreases vals, 0
  {
    if vals == [] then Some(m)
    else
      var m1 :- Scan(p, vals[0], m);
      ScanSeq(p, vals[1..], m1)
  }

  function ScanArray(p: Platform, items: seq<Json>, m: Memory): (r: Option<Memory>)
    ensures r.Some? && Lags(m) ==> Lags(r.value)
    decreases items, 5
  {
    var key := ArrayDedupKey(p, items);
    if |items| > PARALLEL_ABOVE then
      if ScanChunks(p, items) then Some(m) else None
    else if key in m.positions then ScanRef(m, key, Array(items))
    else
      var m' :- ScanItems(p, items, m);
      Some(Remember(m', key, Array(items)))
  }

  function ScanItems(p: Platform, items: seq<Json>, m: Memory): (r: Option<Memory>)
    ensures r.Some? && Lags(m) ==> Lags(r.value)
    decreases items, 3
  {
    if IsColumnar(items) then ScanColumns(p, items, items[0].keys, 0, m) else ScanSeq(p, items, m)
  }

  function ScanColumns(p: Platform, items: seq<Json>, keys: seq<Text>, k: nat, m: Memory): (r: Option<Memory>)
    requires k <= |keys| && AllShaped(items, keys)
    ensures r.Some? && Lags(m) ==> Lags(r.value)
    decreases items, 2, |keys| - k
  {
    if k == |keys| then Some(m)
    else
      var m1 :- ScanColumn(p, items, keys, k, 0, m);
      ScanColumns(p, items, keys, k + 1, m1)
  }

  function ScanColumn(p: Platform, items: seq<Json>, keys: seq<Text>, k: nat, i: nat, m: Memory): (r: Option<Memory>)
    requires k < |keys| && i <= |items| && AllShaped(items, keys)
    ensures r.Some? && Lags(m) ==> Lags(r.value)
    decreases items, 1, |items| - i
  {
    if i == |items| then Some(m)
    else
      var col := Column(items, keys, k);
      var n := Stride(col, i);
      var m1 :- Scan(p, items[i].vals[k], m);
      if SameBits(col, i, n) then ScanColumn(p, items, keys, k, i + n, m1) else None
  }

  /** The n entries from the i-th on are one and the same value, zeros of either sign kept apart. */
  predicate SameBits(col: seq<Json>, i: nat, n: nat)
    requires i + n <= |col|
  {
    forall j :: i <= j < i + n ==> col[j] == col[i]
  }

  predicate ScanChunks(p: Platform, items: seq<Json>)
    decreases items, 4, |items|
  {
    items == []
    || var n := if |items| <= CHUNK then |items| else CHUNK;
       assert n == |items| ==> items[..n] == items;
       ScanItems(p, items[..n], FRESH).Some? && ScanChunks(p, items[n..])
  }

  // ----- the condition is exact -----

  /** The meaning is the value itself exactly when the scan accepts, and the memories then agree. */
  ghost predicate Agree<T>(scan: Option<Memory>, meant: Meant<T>, x: T) {
    match scan
    case Some(m) => meant == Some((x, m))
    case None => meant.None? || meant.value.0 != x
  }

  lemma {:induction false} ScanValueAgrees(p: Platform, v: Json, m: Memory)
    requires WellFormed(v)
    ensures Agree(Scan(p, v, m), MeanValue(p, v, m), v)
    decreases v, 6
  {
    match v
    case Array(items) => ScanArrayAgrees(p, items, m);
    case Object(keys, vals) =>
      if keys != [] && ObjectDedupKey(p, keys, vals) !in m.positions {
        ScanSeqAgrees(p, vals, m);
      }
    case _ =>
  }

  lemma {:induction false} ScanSeqAgrees(p: Platform, vals: seq<Json>, m: Memory)
    requires AllWellFormed(vals)
    ensures Agree(ScanSeq(p, vals, m), MeanSeq(p, vals, m), vals)
    decreases vals, 0
  {
    if vals != [] {
      ScanValueAgrees(p, vals[0], m);
      var r := MeanValue(p, vals[0], m);
      assert vals == [vals[0]] + vals[1..];
      if r.Some? {
        var rs := MeanSeq(p, vals[1..], r.value.1);
        ScanSeqAgrees(p, vals[1..], r.value.1);
        if rs.Some? {
          assert ([r.value.0] + rs.value.0)[0] == r.value.0 && ([r.value.0] + rs.value.0)[1..] == rs.value.0;
        }
      }
    }
  }

  lemma {:induction false} ScanArrayAgrees(p: Platform, items: seq<Json>, m: Memory)
    requires AllWellFormed(items)
    ensures Agree(ScanArray(p, items, m), MeanArray(p, items, m), Array(items))
    decreases items, 5
  {
    if |items| > PARALLEL_ABOVE {
      ScanChunksAgrees(p, items);
    } else if ArrayDedupKey(p, items) !in m.positions {
      ScanItemsAgrees(p, items, m);
    }
  }

  lemma {:induction false} ScanItemsAgrees(p: Platform, items: seq<Json>, m: Memory)
    requires AllWellFormed(items)
    ensures Agree(ScanItems(p, items, m), MeanItems(p, items, m), items)
    decreases items, 3
  {
    if IsColumnar(items) {
      var keys := items[0].keys;
      ScanColumnsAgrees(p, items, keys, 0, m);
      var r := MeanColumns(p, items, keys, 0, m);
      if r.Some? {
        RowsAreItems(items, keys, r.value.0);
      }
    } else {
      ScanSeqAgrees(p, items, m);
    }
  }

  /** The columns from the k-th on. */
  ghost function Columns(items: seq<Json>, keys: seq<Text>, k: nat): (cols: seq<seq<Json>>)
    requires k <= |keys| && AllShaped(items, keys)
    ensures |cols| == |keys| - k && forall c :: 0 <= c < |cols| ==> cols[c] == Column(items, keys, k + c)
    decreases |keys| - k
  {
    if k == |keys| then [] else [Column(items, keys, k)] + Columns(items, keys, k + 1)
  }

  /** Transposing columns gives the rows exactly when they are the rows' columns. */
  lemma {:induction false} RowsAreItems(items: seq<Json>, keys: seq<Text>, cols: seq<seq<Json>>)
    requires AllShaped(items, keys) && |cols| == |keys|
    requires forall k :: 0 <= k < |cols| ==> |cols[k]| == |items|
    ensures Rows(|items|, keys, cols) == items <==> cols == Columns(items, keys, 0)
  {
    var rows := Rows(|items|, keys, cols);
    forall i, k | 0 <= i < |items| && 0 <= k < |keys|
      ensures rows[i].vals[k] == cols[k][i]
    {
    }
    if rows == items {
      forall k | 0 <= k < |keys|
        ensures cols[k] == Column(items, keys, k)
      {
        assert forall i :: 0 <= i < |items| ==> cols[k][i] == rows[i].vals[k];
      }
    }
    if cols == Columns(items, keys, 0) {
      forall i | 0 <= i < |items|
        ensures rows[i] == items[i]
      {
        assert rows[i].vals == items[i].vals;
      }
    }
  }

  lemma {:induction false} ScanColumnsAgrees(p: Platform, items: seq<Json>, keys: seq<Text>, k: nat, m: Memory)
    requires AllWellFormed(items) && AllShaped(items, keys) && k <= |keys|
    ensures Agree(ScanColumns(p, items, keys, k, m), MeanColumns(p, items, keys, k, m), Columns(items, keys, k))
    decreases items, 2, |keys| - k
  {
    hide ScanColumn, MeanColumn, Column;
    if k < |keys| {
      ScanColumnAgrees(p, items, keys, k, 0, m);
      var col := Column(items, keys, k);
      assert col[0..] == col;
      var r := MeanColumn(p, items, keys, k, 0, m);
      if r.Some? {
        var rs := MeanColumns(p, items, keys, k + 1, r.value.1);
        ScanColumnsAgrees(p, items, keys, k + 1, r.value.1);
        if rs.Some? {
          assert ([r.value.0] + rs.value.0)[0] == r.value.0 && ([r.value.0] + rs.value.0)[1..] == rs.value.0;
          assert Columns(items, keys, k)[1..] == Columns(items, keys, k + 1);
        }
      }
    }
  }

  lemma {:induction false} ScanColumnAgrees(p: Platform, items: seq<Json>, keys: seq<Text>, k: nat, i: nat, m: Memory)
    requires AllWellFormed(items) && AllShaped(items, keys) && k < |keys| && i <= |items|
    ensures Agree(ScanColumn(p, items, keys, k, i, m), MeanColumn(p, items, keys, k, i, m), Column(items, keys, k)[i..])
    decreases items, 1, |items| - i
  {
    hide Scan, MeanValue, Stride, Repeat, Column, SameBits, WellFormed;
    var col := Column(items, keys, k);
    if i == |items| {
      assert col[i..] == [];
    } else {
      var n := Stride(col, i);
      CellWellFormed(items, keys, k, i);
      ScanValueAgrees(p, items[i].vals[k], m);
      var r := MeanValue(p, items[i].vals[k], m);
      if r.Some? {
        var (v, m1) := r.value;
        var rs := MeanColumn(p, items, keys, k, i + n, m1);
        ScanColumnAgrees(p, items, keys, k, i + n, m1);
        if rs.Some? {
          SplitAgrees(col, i, n, v, rs.value.0);
        }
      }
    }
  }

  /** A stretch of copies followed by a rest spells the end of a column exactly when both parts fit. */
  lemma CellWellFormed(items: seq<Json>, keys: seq<Text>, k: nat, i: nat)
    requires AllWellFormed(items) && AllShaped(items, keys) && k < |keys| && i < |items|
    ensures WellFormed(items[i].vals[k])
  {
    assert WellFormed(items[i]) && AllWellFormed(items[i].vals);
  }

  lemma SplitAgrees(col: seq<Json>, i: nat, n: nat, v: Json, rest: seq<Json>)
    requires 1 <= n && i + n <= |col|
    ensures Repeat(v, n) + rest == col[i..] <==> v == col[i] && SameBits(col, i, n) && rest == col[i + n..]
  {
    var s := Repeat(v, n) + rest;
    if s == col[i..] {
      assert forall j :: i <= j < i + n ==> col[j] == col[i..][j - i] == s[j - i] == v;
      assert rest == s[n..] == col[i..][n..] == col[i + n..];
    }
    if v == col[i] && SameBits(col, i, n) && rest == col[i + n..] {
      assert s == col[i..];
    }
  }

  lemma {:induction false} ScanChunksAgrees(p: Platform, items: seq<Json>)
    requires AllWellFormed(items)
    ensures ScanChunks(p, items) <==> MeanChunks(p, items) == Some(items)
    decreases items, 4, |items|
  {
    if items != [] {
      var n := if |items| <= CHUNK then |items| else CHUNK;
      assert n == |items| ==> items[..n] == items;
      assert items == items[..n] + items[n..];
      ScanItemsAgrees(p, items[..n], FRESH);
      ScanChunksAgrees(p, items[n..]);
      var part, more := MeanItems(p, items[..n], FRESH), MeanChunks(p, items[n..]);
      if part.Some? && more.Some? {
        assert (part.value.0 + more.value)[..n] == part.value.0 && (part.value.0 + more.value)[n..] == more.value;
      }
    }
  }

  predicate Faithful(p: Platform, v: Json) {
    Scan(p, v, FRESH).Some?
  }

  /** The round trip is exact if and only if the scan accepts the value. */
  lemma RoundTripIff(p: Platform, v: Json)
    requires WellFormed(v) && Encode(p, v).1
    ensures Decode(Encode(p, v).0) == Ok(v) <==> Faithful(p, v)
  {
    DecodeOfEncode(p, v);
    ScanValueAgrees(p, v, FRESH);
  }

  /** The same for a slice of values, which decodes to an array. */
  lemma SliceRoundTripIff(p: Platform, items: seq<Json>)
    requires AllWellFormed(items) && EncodeSlice(p, items).1
    ensures Decode(EncodeSlice(p, items).0) == Ok(Array(items)) <==> ScanItems(p, items, FRESH).Some?
  {
    SimSlice(p, items);
    ScanItemsAgrees(p, items, FRESH);
  }

  // ----- without empty arrays the two numberings stay in step -----

  predicate NoEmptyArray(v: Json) {
    match v
    case Array(items) => items != [] && NoneEmpty(items)
    case Object(_, vals) => NoneEmpty(vals)
    case _ => true
  }

  predicate NoneEmpty(vs: seq<Json>) {
    forall i :: 0 <= i < |vs| ==> NoEmptyArray(vs[i])
  }

  /** The decoder has pooled as many values as the encoder has numbered, and every number is in range. */
  ghost predicate InStep(m: Memory) {
    |m.pool| == m.counter && forall key :: key in m.positions ==> m.positions[key] < |m.pool|
  }

  ghost predicate StaysInStep<T>(r: Meant<T>) {
    r.Some? && InStep(r.value.1)
  }

  lemma {:induction false} ValueInStep(p: Platform, v: Json, m: Memory)
    requires NoEmptyArray(v) && InStep(m)
    ensures StaysInStep(MeanValue(p, v, m))
    decreases v, 6
  {
    match v
    case Array(items) =>
      if |items| > PARALLEL_ABOVE {
        ChunksInStep(p, items);
      } else if ArrayDedupKey(p, items) !in m.positions {
        ItemsInStep(p, items, m);
      }
    case Object(keys, vals) =>
      if keys != [] && ObjectDedupKey(p, keys, vals) !in m.positions {
        SeqInStep(p, vals, m);
      }
    case _ =>
  }

  lemma {:induction false} SeqInStep(p: Platform, vals: seq<Json>, m: Memory)
    requires NoneEmpty(vals) && InStep(m)
    ensures StaysInStep(MeanSeq(p, vals, m))
    decreases vals, 0
  {
    if vals != [] {
      ValueInStep(p, vals[0], m);
      SeqInStep(p, vals[1..], MeanValue(p, vals[0], m).value.1);
    }
  }

  lemma {:induction false} ItemsInStep(p: Platform, items: seq<Json>, m: Memory)
    requires NoneEmpty(items) && InStep(m)
    ensures StaysInStep(MeanItems(p, items, m))
    decreases items, 3
  {
    if IsColumnar(items) {
      ColumnsInStep(p, items, items[0].keys, 0, m);
    } else {
      SeqInStep(p, items, m);
    }
  }

  lemma {:induction false} ColumnsInStep(p: Platform, items: seq<Json>, keys: seq<Text>, k: nat, m: Memory)
    requires NoneEmpty(items) && AllShaped(items, keys) && k <= |keys| && InStep(m)
    ensures StaysInStep(MeanColumns(p, items, keys, k, m))
    decreases items, 2, |keys| - k
  {
    if k < |keys| {
      ColumnInStep(p, items, keys, k, 0, m);
      ColumnsInStep(p, items, keys, k + 1, MeanColumn(p, items, keys, k, 0, m).value.1);
    }
  }

  lemma CellNotEmpty(items: seq<Json>, keys: seq<Text>, k: nat, i: nat)
    requires NoneEmpty(items) && AllShaped(items, keys) && k < |keys| && i < |items|
    ensures NoEmptyArray(items[i].vals[k])
  {
    assert NoEmptyArray(items[i]) && NoneEmpty(items[i].vals);
  }

  lemma {:induction false} ColumnInStep(p: Platform, items: seq<Json>, keys: seq<Text>, k: nat, i: nat, m: Memory)
    requires NoneEmpty(items) && AllShaped(items, keys) && k < |keys| && i <= |items| && InStep(m)
    ensures StaysInStep(MeanColumn(p, items, keys, k, i, m))
    decreases items, 1, |items| - i
  {
    hide MeanValue, Stride, Column, Repeat, NoEmptyArray, InStep;
    if i < |items| {
      CellNotEmpty(items, keys, k, i);
      ValueInStep(p, items[i].vals[k], m);
      ColumnInStep(p, items, keys, k, i + Stride(Column(items, keys, k), i), MeanValue(p, items[i].vals[k], m).value.1);
    }
  }

  lemma {:induction false} ChunksInStep(p: Platform, items: seq<Json>)
    requires NoneEmpty(items)
    ensures MeanChunks(p, items).Some?
    decreases items, 4, |items|
  {
    if items != [] {
      var n := if |items| <= CHUNK then |items| else CHUNK;
      assert n == |items| ==> items[..n] == items;
      ItemsInStep(p, items[..n], FRESH);
      ChunksInStep(p, items[n..]);
    }
  }

  /** Without empty arrays no encoded value is ever refused, whatever the hash. */
  lemma DecodeNeverFails(p: Platform, v: Json)
    requires WellFormed(v) && NoEmptyArray(v) && Encode(p, v).1
    ensures Decode(Encode(p, v).0).Ok?
    ensures Some(Decode(Encode(p, v).0).value) == Meaning(p, v)
  {
    DecodeOfEncode(p, v);
    ValueInStep(p, v, FRESH);
  }
}
