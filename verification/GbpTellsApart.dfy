/**
 Sufficient and failing cases of the round trip, in terms a caller can read off the
 value: the values whose composites the dedup key tells apart survive, and three small
 families do not, whatever the digest.
 */
module GbpTellsApart {
  import opened Wrappers
  import opened Varint
  import opened GbpTypes
  import opened GbpEncoding
  import opened GbpDecoding
  import opened GbpMeaning
  import opened GbpSimulation
  import opened GbpRoundTrip
  import opened GbpSize

  /** The arrays and the objects with keys that occur in a value, itself included. */
  function Composites(v: Json): set<Json> {
    match v
    case Array(items) => {v} + AllComposites(items)
    case Object(keys, vals) => (if keys == [] then {} else {v}) + AllComposites(vals)
    case _ => {}
  }

  function AllComposites(vs: seq<Json>): set<Json> {
    if vs == [] then {} else Composites(vs[0]) + AllComposites(vs[1..])
  }

  lemma {:induction false} MemberComposites(vs: seq<Json>, i: nat)
    requires i < |vs|
    ensures Composites(vs[i]) <= AllComposites(vs)
  {
    if i > 0 {
      assert vs[1..][i - 1] == vs[i];
      MemberComposites(vs[1..], i - 1);
    }
  }

  lemma {:induction false} SliceComposites(vs: seq<Json>, lo: nat, hi: nat)
    requires lo <= hi <= |vs|
    ensures AllComposites(vs[lo..hi]) <= AllComposites(vs)
    decreases hi - lo
  {
    if lo < hi {
      MemberComposites(vs, lo);
      assert vs[lo..hi][1..] == vs[lo + 1..hi];
      SliceComposites(vs, lo + 1, hi);
    }
  }

  function KeyOf(p: Platform, v: Json): DedupKey
    requires v.IsComposite()
  {
    match v
    case Array(items) => ArrayDedupKey(p, items)
    case Object(keys, vals) => ObjectDedupKey(p, keys, vals)
  }

  /** Equal dedup keys mean equal composites. */
  ghost predicate TellsApart(p: Platform, u: set<Json>) {
    && (forall a :: a in u ==> a.IsComposite())
    && forall a, b :: a in u && b in u && KeyOf(p, a) == KeyOf(p, b) ==> a == b
  }

  /** No empty array, no integer beyond an i64, no negative zero. */
  predicate Plain(v: Json) {
    match v
    case Big(_) => false
    case Float(bits) => bits != [0, 0, 0, 0, 0, 0, 0, 128]
    case Array(items) => items != [] && AllPlain(items)
    case Object(_, vals) => AllPlain(vals)
    case _ => true
  }

  predicate AllPlain(vs: seq<Json>) {
    forall i :: 0 <= i < |vs| ==> Plain(vs[i])
  }

  /** Every registration points at a pooled composite of u with that very key. */
  ghost predicate Sound(p: Platform, m: Memory, u: set<Json>) {
    && |m.pool| == m.counter
    && forall key :: key in m.positions ==>
         m.positions[key] < |m.pool| && m.pool[m.positions[key]] in u && m.pool[m.positions[key]].IsComposite()
         && KeyOf(p, m.pool[m.positions[key]]) == key
  }

  ghost predicate StaysSound(p: Platform, r: Option<Memory>, u: set<Json>) {
    r.Some? && Sound(p, r.value, u)
  }

  lemma {:induction false} ScanAccepts(p: Platform, v: Json, m: Memory, u: set<Json>)
    requires WellFormed(v) && Plain(v) && Composites(v) <= u && TellsApart(p, u) && Sound(p, m, u)
    ensures StaysSound(p, Scan(p, v, m), u)
    decreases v, 6
  {
    hide ScanChunks, ScanItems, ScanSeq, WellFormed, ContentAtoms, ArrayAtoms;
    WellFormedInside(v);
    match v
    case Array(items) =>
      if |items| > PARALLEL_ABOVE {
        ScanAcceptsChunks(p, items, u);
      } else if ArrayDedupKey(p, items) !in m.positions {
        ScanAcceptsItems(p, items, m, u);
      }
    case Object(keys, vals) =>
      if keys != [] && ObjectDedupKey(p, keys, vals) !in m.positions {
        ScanAcceptsSeq(p, vals, m, u);
      }
    case _ =>
  }

  lemma WellFormedInside(v: Json)
    requires WellFormed(v)
    ensures v.Array? ==> AllWellFormed(v.items)
    ensures v.Object? ==> AllWellFormed(v.vals)
  {
  }

  lemma {:induction false} ScanAcceptsSeq(p: Platform, vals: seq<Json>, m: Memory, u: set<Json>)
    requires AllWellFormed(vals) && AllPlain(vals) && AllComposites(vals) <= u && TellsApart(p, u) && Sound(p, m, u)
    ensures StaysSound(p, ScanSeq(p, vals, m), u)
    decreases vals, 0
  {
    if vals != [] {
      ScanAccepts(p, vals[0], m, u);
      ScanAcceptsSeq(p, vals[1..], Scan(p, vals[0], m).value, u);
    }
  }

  lemma {:induction false} ScanAcceptsItems(p: Platform, items: seq<Json>, m: Memory, u: set<Json>)
    requires AllWellFormed(items) && AllPlain(items) && AllComposites(items) <= u && TellsApart(p, u) && Sound(p, m, u)
    ensures StaysSound(p, ScanItems(p, items, m), u)
    decreases items, 3
  {
    hide ScanColumns, ScanSeq, Sound, TellsApart;
    if IsColumnar(items) {
      ScanAcceptsColumns(p, items, items[0].keys, 0, m, u);
    } else {
      ScanAcceptsSeq(p, items, m, u);
    }
  }

  lemma {:induction false} ScanAcceptsColumns(p: Platform, items: seq<Json>, keys: seq<Text>, k: nat, m: Memory, u: set<Json>)
    requires AllWellFormed(items) && AllPlain(items) && AllComposites(items) <= u && TellsApart(p, u) && Sound(p, m, u)
    requires AllShaped(items, keys) && k <= |keys|
    ensures StaysSound(p, ScanColumns(p, items, keys, k, m), u)
    decreases items, 2, |keys| - k
  {
    hide ScanColumn, Sound, TellsApart;
    if k < |keys| {
      ScanAcceptsColumn(p, items, keys, k, 0, m, u);
      ScanAcceptsColumns(p, items, keys, k + 1, ScanColumn(p, items, keys, k, 0, m).value, u);
    }
  }

  lemma {:induction false} ScanAcceptsColumn(
    p: Platform, items: seq<Json>, keys: seq<Text>, k: nat, i: nat, m: Memory, u: set<Json>)
    requires AllWellFormed(items) && AllPlain(items) && AllComposites(items) <= u && TellsApart(p, u) && Sound(p, m, u)
    requires AllShaped(items, keys) && k < |keys| && i <= |items|
    ensures StaysSound(p, ScanColumn(p, items, keys, k, i, m), u)
    decreases items, 1, |items| - i
  {
    hide Scan, Stride, Column, WellFormed, Plain, Sound, TellsApart, SameBits, AllComposites;
    if i < |items| {
      var col := Column(items, keys, k);
      var n := Stride(col, i);
      CellFacts(items, keys, k, i, u);
      ScanAccepts(p, items[i].vals[k], m, u);
      PlainRun(items, keys, k, i);
      ScanAcceptsColumn(p, items, keys, k, i + n, Scan(p, items[i].vals[k], m).value, u);
    }
  }

  lemma CellFacts(items: seq<Json>, keys: seq<Text>, k: nat, i: nat, u: set<Json>)
    requires AllWellFormed(items) && AllPlain(items) && AllComposites(items) <= u
    requires AllShaped(items, keys) && k < |keys| && i < |items|
    ensures WellFormed(items[i].vals[k]) && Plain(items[i].vals[k]) && Composites(items[i].vals[k]) <= u
  {
    assert WellFormed(items[i]) && AllWellFormed(items[i].vals) && Plain(items[i]) && AllPlain(items[i].vals);
    MemberComposites(items, i);
    MemberComposites(items[i].vals, k);
  }

  /** Scalars that compare equal are the same when neither is a negative zero. */
  lemma PlainRun(items: seq<Json>, keys: seq<Text>, k: nat, i: nat)
    requires AllPlain(items) && AllShaped(items, keys) && k < |keys| && i < |items|
    ensures SameBits(Column(items, keys, k), i, Stride(Column(items, keys, k), i))
  {
    var col := Column(items, keys, k);
    forall j | i <= j < i + Stride(col, i)
      ensures col[j] == col[i]
    {
      assert SameScalar(col[j], col[i]);
      assert Plain(items[j]) && AllPlain(items[j].vals) && Plain(items[i]) && AllPlain(items[i].vals);
      assert Plain(col[j]) && Plain(col[i]);
    }
  }

  lemma {:induction false} ScanAcceptsChunks(p: Platform, items: seq<Json>, u: set<Json>)
    requires AllWellFormed(items) && AllPlain(items) && AllComposites(items) <= u && TellsApart(p, u)
    ensures ScanChunks(p, items)
    decreases items, 4, |items|
  {
    if items != [] {
      var n := if |items| <= CHUNK then |items| else CHUNK;
      assert n == |items| ==> items[..n] == items;
      SliceComposites(items, 0, n);
      SliceComposites(items, n, |items|);
      assert items[0..n] == items[..n] && items[n..|items|] == items[n..];
      ScanAcceptsItems(p, items[..n], FRESH, u);
      ScanAcceptsChunks(p, items[n..], u);
    }
  }

  /** Plain values whose composites the dedup key tells apart come back unchanged. */
  lemma RoundTrip(p: Platform, v: Json)
    requires WellFormed(v) && Plain(v) && TellsApart(p, Composites(v)) && Encode(p, v).1
    ensures Decode(Encode(p, v).0) == Ok(v)
  {
    ScanAccepts(p, v, FRESH, Composites(v));
    RoundTripIff(p, v);
  }

  // ----- values that do not survive, for any digest -----

  const A: Text := [0x61]
  const B: Text := [0x62]

  /** {"a":[],"b":[]}: the encoder numbers the first empty array, the decoder never pools it. */
  lemma EmptyArraysFail(p: Platform)
    ensures Encode(p, Object([A, B], [Array([]), Array([])])).1
    ensures Decode(Encode(p, Object([A, B], [Array([]), Array([])])).0) == Err(InvalidReference)
  {
    var e := Array([]);
    var v := Object([A, B], [e, e]);
    var key := ArrayDedupKey(p, []);
    var m1 := Memory(map[key := 0], 1, []);
    assert MeanValue(p, e, FRESH) == Some((e, m1));
    assert [e, e][1..] == [e];
    assert MeanSeq(p, [e, e], FRESH) == None by {
      assert MeanValue(p, e, m1) == None;
    }
    assert A != B && [A, B][0] == A && [A, B][1] == B;
    assert WellFormed(v);
    EmptyArraysSmall();
    EncodingFits(p, v);
    DecodeOfEncode(p, v);
  }

  lemma EmptyArraysSmall()
    ensures Size(Object([A, B], [Array([]), Array([])])) == 7
  {
    var e := Array([]);
    assert [A, B][1..] == [B] && [B][1..] == [] && [e, e][1..] == [e] && [e][1..] == [];
    assert TextWeight([B]) == 2 && TextWeight([A, B]) == 4;
    assert SizeAll([e]) == 1 && SizeAll([e, e]) == 2;
  }

  /** Objects that differ only inside a nested object with as many keys share a dedup key. */
  lemma NestedObjectsCollide(p: Platform, k: Text, inner: seq<Text>, x: seq<Json>, y: seq<Json>)
    ensures KeyOf(p, Object([k], [Object(inner, x)])) == KeyOf(p, Object([k], [Object(inner, y)]))
  {
    assert ContentAtoms(p, [Object(inner, x)]) == ContentAtoms(p, [Object(inner, y)]);
  }

  /** Null and false feed the hasher the same byte. */
  lemma NullAndFalseCollide(p: Platform, k: Text)
    ensures KeyOf(p, Object([k], [Null])) == KeyOf(p, Object([k], [Bool(false)]))
  {
    assert ContentAtoms(p, [Null]) == ContentAtoms(p, [Bool(false)]);
  }

  predicate IsRemembered(v: Json) {
    match v
    case Array(items) => |items| <= PARALLEL_ABOVE
    case Object(keys, _) => keys != []
    case _ => false
  }

  /** Of two different siblings with one dedup key the second is always lost. */
  lemma CollidingSiblings(p: Platform, a: Json, b: Json)
    requires WellFormed(a) && WellFormed(b) && IsRemembered(a) && IsRemembered(b)
    requires a != b && KeyOf(p, a) == KeyOf(p, b)
    requires Encode(p, Array([a, b])).1
    ensures Decode(Encode(p, Array([a, b])).0) != Ok(Array([a, b]))
  {
    hide Scan, KeyOf, Encode, Decode;
    PairNotScanned(p, a, b);
    RoundTripIff(p, Array([a, b]));
  }

  lemma PairNotScanned(p: Platform, a: Json, b: Json)
    requires IsRemembered(a) && IsRemembered(b) && a != b && KeyOf(p, a) == KeyOf(p, b)
    ensures Scan(p, Array([a, b]), FRESH).None?
  {
    hide EncodeSeq;
    assert [a, b][1..] == [b];
    var m := Scan(p, a, FRESH);
    if m.Some? {
      RememberedLast(p, a, m.value);
      assert Scan(p, b, m.value).None?;
      assert ScanSeq(p, [b], m.value).None?;
    }
    assert ScanSeq(p, [a, b], FRESH).None?;
    assert ScanItems(p, [a, b], FRESH).None?;
    assert ScanArray(p, [a, b], FRESH).None?;
  }

  lemma RememberedLast(p: Platform, a: Json, m: Memory)
    requires IsRemembered(a) && Scan(p, a, FRESH) == Some(m)
    ensures KeyOf(p, a) in m.positions
    ensures var i := m.positions[KeyOf(p, a)]; i < |m.pool| ==> m.pool[i] == a
  {
    var m' := match a
      case Array(items) => ScanItems(p, items, FRESH)
      case Object(_, vals) => ScanSeq(p, vals, FRESH);
    assert m'.Some? && m == Remember(m'.value, KeyOf(p, a), a);
    assert Lags(FRESH);
  }

  /** An integer above the i64 range comes back as the double it rounds to. */
  lemma BigIntegerChanges(p: Platform, u: BigU64)
    ensures Encode(p, Big(u)).1 && Decode(Encode(p, Big(u)).0) == Ok(Float(p.round(u)))
  {
    hide EncodeValue, Decode;
    EncodingFits(p, Big(u));
    DecodeOfEncode(p, Big(u));
  }

  /** A column of zeros. */
  function ZeroRows(zeros: seq<F64>): (rows: seq<Json>)
    ensures |rows| == |zeros| && forall i :: 0 <= i < |zeros| ==> rows[i] == Object([A], [Float(zeros[i])])
  {
    seq(|zeros|, i requires 0 <= i < |zeros| => Object([A], [Float(zeros[i])]))
  }

  predicate AllZero(zeros: seq<F64>) {
    forall i :: 0 <= i < |zeros| ==> IsZero(zeros[i])
  }

  predicate OneSign(zeros: seq<F64>) {
    forall i :: 0 <= i < |zeros| ==> zeros[i] == zeros[0]
  }

  /** It comes back unchanged exactly when the zeros have one sign or are too few for a run. */
  lemma ZeroColumnIff(p: Platform, zeros: seq<F64>)
    requires AllZero(zeros) && 8 <= |zeros| <= 50_000
    ensures Encode(p, Array(ZeroRows(zeros))).1
    ensures Decode(Encode(p, Array(ZeroRows(zeros))).0) == Ok(Array(ZeroRows(zeros)))
       <==> OneSign(zeros) || |zeros| <= 15
  {
    hide EncodeValue, Decode, Encode, Scan, OneSign, AllZero;
    var rows := ZeroRows(zeros);
    RowsSmall(rows);
    assert Size(Array(rows)) <= 1 + 4 * |zeros|;
    EncodingFits(p, Array(rows));
    RoundTripIff(p, Array(rows));
    ZeroRowsScan(p, zeros);
  }

  lemma {:induction false} RowsSmall(rows: seq<Json>)
    requires forall i :: 0 <= i < |rows| ==> rows[i].Object? && rows[i].keys == [A] && |rows[i].vals| == 1 && rows[i].vals[0].Float?
    ensures SizeAll(rows) == 4 * |rows| && AllWellFormed(rows)
  {
    if rows != [] {
      RowsSmall(rows[1..]);
      RowSmall(rows[0]);
      forall i | 0 <= i < |rows|
        ensures WellFormed(rows[i])
      {
        RowSmall(rows[i]);
      }
    }
  }

  lemma RowSmall(row: Json)
    requires row.Object? && row.keys == [A] && |row.vals| == 1 && row.vals[0].Float?
    ensures Size(row) == 4 && WellFormed(row)
  {
    assert row.vals == [row.vals[0]] && row.vals[1..] == [] && [A][1..] == [];
    assert SizeAll([]) == 0 && Size(row.vals[0]) == 1 && SizeAll(row.vals) == 1;
    assert TextWeight([]) == 0 && TextWeight([A]) == 1 + |A| == 2;
    assert AllWellFormed(row.vals) && Distinct([A]);
  }

  lemma ZeroRowsScan(p: Platform, zeros: seq<F64>)
    requires AllZero(zeros) && MIN_COLUMN <= |zeros| <= PARALLEL_ABOVE
    ensures Faithful(p, Array(ZeroRows(zeros))) <==> OneSign(zeros) || |zeros| <= MIN_RUN
  {
    hide ScanColumn, OneSign, AllZero;
    var rows := ZeroRows(zeros);
    ZeroColumnScan(p, zeros);
    assert IsColumnar(rows) && rows[0].keys == [A];
    var m := ScanColumn(p, rows, [A], 0, 0, FRESH);
    assert ScanColumns(p, rows, [A], 0, FRESH) == if m.Some? then ScanColumns(p, rows, [A], 1, m.value) else None;
    assert ScanItems(p, rows, FRESH) == ScanColumns(p, rows, [A], 0, FRESH);
    assert m.Some? ==> ScanColumns(p, rows, [A], 1, m.value).Some?;
    assert ArrayDedupKey(p, rows) !in FRESH.positions;
    assert ScanArray(p, rows, FRESH).Some? <==> ScanItems(p, rows, FRESH).Some?;
    assert Scan(p, Array(rows), FRESH) == ScanArray(p, rows, FRESH);
  }

  lemma ZeroColumnScan(p: Platform, zeros: seq<F64>)
    requires AllZero(zeros) && MIN_COLUMN <= |zeros| <= PARALLEL_ABOVE
    ensures ScanColumn(p, ZeroRows(zeros), [A], 0, 0, FRESH).Some? <==> OneSign(zeros) || |zeros| <= MIN_RUN
  {
    hide ScanColumn, Scan, Stride, SameBits, OneSign, IsZero;
    var rows := ZeroRows(zeros);
    var col := Column(rows, [A], 0);
    assert forall i :: 0 <= i < |zeros| ==> col[i] == Float(zeros[i]);
    if |zeros| <= MIN_RUN {
      ShortColumnScan(p, rows, 0, FRESH);
    } else {
      ZeroStride(col);
      ZeroBits(col, zeros);
      OneRunScan(p, rows, FRESH);
    }
  }

  lemma ZeroStride(col: seq<Json>)
    requires MIN_RUN < |col| <= MAX_RUN && forall i :: 0 <= i < |col| ==> col[i].Float? && IsZero(col[i].bits)
    ensures Stride(col, 0) == |col|
  {
    hide IsZero;
    FullRun(col, 0);
  }

  lemma ZeroBits(col: seq<Json>, zeros: seq<F64>)
    requires |col| == |zeros| > 0 && forall i :: 0 <= i < |zeros| ==> col[i] == Float(zeros[i])
    ensures SameBits(col, 0, |col|) <==> OneSign(zeros)
  {
  }

  lemma OneRunScan(p: Platform, rows: seq<Json>, m: Memory)
    requires AllShaped(rows, [A]) && rows != [] && rows[0].vals[0].Float?
    requires Stride(Column(rows, [A], 0), 0) == |rows|
    ensures ScanColumn(p, rows, [A], 0, 0, m).Some? <==> SameBits(Column(rows, [A], 0), 0, |rows|)
  {
    hide Scan, Stride, SameBits, Column;
    ScanFloat(p, rows[0].vals[0], m);
    assert ScanColumn(p, rows, [A], 0, |rows|, m) == Some(m);
  }

  /** A run of zeros goes on to the end of the column. */
  lemma {:induction false} FullRun(col: seq<Json>, run: nat)
    requires 0 < |col| <= MAX_RUN && run < |col| && forall i :: 0 <= i < |col| ==> col[i].Float? && IsZero(col[i].bits)
    ensures RunFrom(col, 0, run) == |col| - 1
    decreases |col| - run
  {
    if run + 1 < |col| {
      assert SameScalar(col[run + 1], col[0]);
      FullRun(col, run + 1);
    }
  }

  lemma {:induction false} ShortColumnScan(p: Platform, rows: seq<Json>, i: nat, m: Memory)
    requires AllShaped(rows, [A]) && i <= |rows| <= MIN_RUN
    requires forall j :: 0 <= j < |rows| ==> rows[j].vals[0].Float?
    ensures ScanColumn(p, rows, [A], 0, i, m) == Some(m)
    decreases |rows| - i
  {
    hide Scan, Stride, Column;
    if i < |rows| {
      ShortStride(Column(rows, [A], 0), i);
      ScanFloat(p, rows[i].vals[0], m);
      ShortColumnScan(p, rows, i + 1, m);
    }
  }

  lemma ShortStride(col: seq<Json>, i: nat)
    requires i < |col| <= MIN_RUN
    ensures Stride(col, i) == 1
  {
  }

  lemma ScanFloat(p: Platform, v: Json, m: Memory)
    requires v.Float?
    ensures Scan(p, v, m) == Some(m)
  {
  }

  /** A positive zero and fifteen negative ones. */
  lemma MixedZerosChange(p: Platform)
    ensures
      var zeros := [[0, 0, 0, 0, 0, 0, 0, 0]] + seq(15, _ => [0, 0, 0, 0, 0, 0, 0, 128]);
      AllZero(zeros) && Decode(Encode(p, Array(ZeroRows(zeros))).0) != Ok(Array(ZeroRows(zeros)))
  {
    hide Decode, Encode, ZeroRows;
    var plus: F64, minus: F64 := [0, 0, 0, 0, 0, 0, 0, 0], [0, 0, 0, 0, 0, 0, 0, 128];
    var zeros: seq<F64> := [plus] + seq(15, _ => minus);
    assert zeros[1] == minus && zeros[0] == plus;
    assert plus[7] != minus[7];
    ZeroColumnIff(p, zeros);
  }
}
