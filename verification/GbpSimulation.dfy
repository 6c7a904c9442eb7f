/**
 The decoder follows the encoder: reading what was written for a value, under any
 header whose pools extend the encoder's, yields the value's meaning, consumes exactly
 the written bytes, and leaves no run pending.  At each step the decoder's pool is the
 meaning's pool, so the numbering of back-references is rebuilt from the bytes alone.
 */
module GbpSimulation {
  import opened Wrappers
  import opened Varint
  import opened GbpTypes
  import opened GbpEncoding
  import opened GbpDecoding
  import opened GbpMeaning

  /** The decoder between two values: no run is being replayed. */
  function At(m: Memory, bytes: seq<byte>): State {
    State(m.pool, 0, None, bytes)
  }

  ghost function Expected<T>(r: Meant<T>, tail: seq<byte>): Decoded<T> {
    match r
    case None => Err(InvalidReference)
    case Some((x, m)) => Ok((x, At(m, tail)))
  }

  ghost predicate Synced(t: Tables, m: Memory) {
    m.positions == t.positions && m.counter == t.counter
  }

  ghost predicate SyncedAfter<T>(t: Tables, r: Meant<T>) {
    r.Some? ==> Synced(t, r.value.1)
  }

  /** A header that extends the tables: an index written earlier still means the same. */
  ghost predicate Covers(h: Header, t: Tables) {
    t.strings <= h.strings && t.shapes <= h.shapes && |h.strings| < U32 && |h.shapes| <= ARRAY_MARKER
  }

  // ----- one tag at a time -----

  lemma StepPlain(h: Header, m: Memory, tag: byte, rest: seq<byte>)
    requires tag != TAG_REF && tag != TAG_RUN && tag != TAG_PARTS
    ensures DecodeValue(h, At(m, [tag] + rest))
         == match DecodePlain(h, At(m, rest), tag)
            case Err(e) => Err(e)
            case Ok((v, d)) => Ok((v, Pool(d, v)))
  {
    assert ([tag] + rest)[1..] == rest;
  }

  lemma StepRef(h: Header, m: Memory, i: u32, rest: seq<byte>)
    ensures DecodeValue(h, At(m, [TAG_REF] + (Leb(i) + rest)))
         == if i < |m.pool| then Ok((m.pool[i], At(m, rest))) else Err(InvalidReference)
  {
    assert ([TAG_REF] + (Leb(i) + rest))[1..] == Leb(i) + rest;
    ReadU32OfLeb(i, rest);
  }

  lemma StepRun(h: Header, m: Memory, n: u32, rest: seq<byte>)
    requires n > 1
    ensures DecodeValue(h, At(m, [TAG_RUN] + (Leb(n) + rest)))
         == match DecodeValue(h, At(m, rest))
            case Err(e) => Err(e)
            case Ok((v, d)) => Ok((v, d.(runLeft := n - 1, runValue := Some(v))))
  {
    assert ([TAG_RUN] + (Leb(n) + rest))[1..] == Leb(n) + rest;
    ReadU32OfLeb(n, rest);
  }

  lemma StepParts(h: Header, m: Memory, count: u32, rest: seq<byte>)
    ensures DecodeValue(h, At(m, [TAG_PARTS] + (Leb(count) + rest)))
         == match DecodeParts(rest, count)
            case Err(e) => Err(e)
            case Ok((items, rest')) => Ok((Array(items), At(m, rest')))
  {
    assert ([TAG_PARTS] + (Leb(count) + rest))[1..] == Leb(count) + rest;
    ReadU32OfLeb(count, rest);
  }

  lemma StepArray(h: Header, m: Memory, n: u32, rest: seq<byte>)
    ensures DecodePlain(h, At(m, Leb(n) + rest), TAG_ARRAY)
         == match DecodeMany(h, At(m, rest), n)
            case Err(e) => Err(e)
            case Ok((items, d)) => Ok((Array(items), d))
  {
    ReadU32OfLeb(n, rest);
  }

  lemma StepObject(h: Header, m: Memory, id: u32, rest: seq<byte>)
    requires id < |h.shapes|
    ensures DecodePlain(h, At(m, Leb(id) + rest), TAG_OBJECT) == DecodeFields(h, At(m, rest), h.shapes[id], Object([], []))
  {
    ReadU32OfLeb(id, rest);
  }

  lemma BlankRows(n: nat)
    ensures seq(n, _ => Object([], [])) == Rows(n, [], [])
  {
    forall i | 0 <= i < n
      ensures Rows(n, [], [])[i] == Object([], [])
    {
      assert Rows(n, [], [])[i].vals == [];
    }
  }

  lemma StepColumns(h: Header, m: Memory, n: u32, id: u32, rest: seq<byte>)
    requires id < |h.shapes|
    ensures DecodePlain(h, At(m, Leb(n) + (Leb(id) + rest)), TAG_COLUMNS)
         == match DecodeColumns(h, At(m, rest), h.shapes[id], Rows(n, [], []))
            case Err(e) => Err(e)
            case Ok((items, d)) => Ok((Array(items), d))
  {
    hide DecodeColumns, Rows, ReadU32, Leb;
    ReadU32OfLeb(n, Leb(id) + rest);
    ReadU32OfLeb(id, rest);
    BlankRows(n);
  }

  lemma DecodeNone(h: Header, d: State)
    ensures DecodeMany(h, d, 0) == Ok(([], d))
  {
  }

  // ----- scalars and references -----

  lemma SimScalar(p: Platform, v: Json, t: Tables, m: Memory, h: Header, tail: seq<byte>)
    requires !v.IsComposite() && Synced(t, m)
    requires Covers(h, EncodeValue(p, v, t).tables)
    ensures DecodeValue(h, At(m, EncodeValue(p, v, t).bytes + tail)) == Expected(MeanValue(p, v, m), tail)
    ensures SyncedAfter(EncodeValue(p, v, t).tables, MeanValue(p, v, m))
  {
    hide DecodeValue, DecodeMany, DecodeFields, DecodeColumns, ReadI64, ReadU32;
    var bytes := EncodeValue(p, v, t).bytes;
    var tag, body := bytes[0], bytes[1..] + tail;
    assert bytes + tail == [tag] + body;
    StepPlain(h, m, tag, body);
    match v
    case Null => assert body == tail;
    case Bool(b) => assert body == tail && DecodePlain(h, At(m, body), tag) == Ok((Bool(b), At(m, tail)));
    case Int(i) =>
      assert body == LebI64(i) + tail;
      ReadI64OfLeb(i, tail);
    case Big(u) => SimFloat(h, m, p.round(u), tail);
    case Float(bits) => SimFloat(h, m, bits, tail);
    case Str(text) => SimStr(p, text, t, m, h, tail);
  }

  lemma SimStr(p: Platform, text: Text, t: Tables, m: Memory, h: Header, tail: seq<byte>)
    requires Covers(h, EncodeValue(p, Str(text), t).tables)
    ensures var bytes := EncodeValue(p, Str(text), t).bytes;
      DecodePlain(h, At(m, bytes[1..] + tail), bytes[0]) == Ok((Str(text), At(m, tail)))
  {
    hide DecodeValue, DecodeMany, DecodeFields, DecodeColumns, Leb, ReadU32;
    var bytes := EncodeValue(p, Str(text), t).bytes;
    if |text| > 2 {
      var i := Intern(t.strings, text).1;
      assert bytes[1..] + tail == Leb(i) + tail;
      ReadU32OfLeb(i, tail);
    } else {
      assert bytes[1..] + tail == Leb(|text|) + (text + tail);
      ReadU32OfLeb(|text|, text + tail);
      TakeFront(text, tail);
    }
  }

  lemma SimFloat(h: Header, m: Memory, bits: F64, tail: seq<byte>)
    ensures DecodePlain(h, At(m, bits + tail), TAG_FLOAT) == Ok((Float(bits), At(m, tail)))
  {
    TakeFront(bits, tail);
  }

  lemma TakeFront(front: seq<byte>, tail: seq<byte>)
    ensures TakeBytes(front + tail, |front|) == Ok((front, tail))
  {
    assert (front + tail)[..|front|] == front && (front + tail)[|front|..] == tail;
  }

  lemma SimRef(t: Tables, key: DedupKey, m: Memory, h: Header, tail: seq<byte>)
    requires key in t.positions && Synced(t, m) && EncodeRef(t, key).fits
    ensures DecodeValue(h, At(m, EncodeRef(t, key).bytes + tail)) == Expected(Recall(m, key), tail)
  {
    var i := t.positions[key];
    assert EncodeRef(t, key).bytes + tail == [TAG_REF] + (Leb(i) + tail);
    StepRef(h, m, i, tail);
  }

  // ----- values -----

  lemma {:induction false} SimValue(p: Platform, v: Json, t: Tables, m: Memory, h: Header, tail: seq<byte>)
    requires WellFormed(v) && Synced(t, m)
    requires EncodeValue(p, v, t).fits && Covers(h, EncodeValue(p, v, t).tables)
    ensures DecodeValue(h, At(m, EncodeValue(p, v, t).bytes + tail)) == Expected(MeanValue(p, v, m), tail)
    ensures SyncedAfter(EncodeValue(p, v, t).tables, MeanValue(p, v, m))
    decreases v, 6
  {
    match v
    case Array(items) => SimArray(p, items, t, m, h, tail);
    case Object(keys, vals) => SimObject(p, keys, vals, t, m, h, tail);
    case _ => SimScalar(p, v, t, m, h, tail);
  }

  lemma {:induction false} SimObject(
    p: Platform, keys: seq<Text>, vals: seq<Json>, t: Tables, m: Memory, h: Header, tail: seq<byte>)
    requires WellFormed(Object(keys, vals)) && Synced(t, m)
    requires var w := EncodeValue(p, Object(keys, vals), t); w.fits && Covers(h, w.tables)
    ensures var w := EncodeValue(p, Object(keys, vals), t);
      DecodeValue(h, At(m, w.bytes + tail)) == Expected(MeanValue(p, Object(keys, vals), m), tail)
      && SyncedAfter(w.tables, MeanValue(p, Object(keys, vals), m))
    decreases vals, 7
  {
    hide DecodePlain, DecodeValue, DecodeFields, EncodeSeq, MeanSeq, Leb, ObjectDedupKey, InternShape;
    var w := EncodeValue(p, Object(keys, vals), t);
    var (t1, id) := InternShape(t, keys);
    var key := ObjectDedupKey(p, keys, vals);
    if keys != [] && key in t1.positions {
      SimRef(t1, key, m, h, tail);
    } else {
      var kids := EncodeSeq(p, vals, t1);
      if keys == [] {
        NoValues(p, vals, t1, m);
      }
      assert w.bytes + tail == [TAG_OBJECT] + (Leb(id) + (kids.bytes + tail));
      assert t1.shapes <= kids.tables.shapes <= h.shapes;
      assert id < |t1.shapes| <= |h.shapes|;
      StepPlain(h, m, TAG_OBJECT, Leb(id) + (kids.bytes + tail));
      StepObject(h, m, id, kids.bytes + tail);
      var shape := h.shapes[id];
      assert shape == t1.shapes[id];
      assert t1.strings <= kids.tables.strings <= h.strings;
      assert Spells(h.strings, shape, keys);
      assert [] + keys == keys;
      SimFields(p, vals, t1, m, h, tail, shape, keys, Object([], []));
      var r := MeanSeq(p, vals, m);
      assert r.Some? ==> [] + r.value.0 == r.value.0;
    }
  }

  lemma NoValues(p: Platform, vals: seq<Json>, t: Tables, m: Memory)
    requires vals == []
    ensures EncodeSeq(p, vals, t) == Written(t, [], true) && MeanSeq(p, vals, m) == Some(([], m))
  {
  }

  lemma {:induction false} SimFields(p: Platform, vals: seq<Json>, t: Tables, m: Memory, h: Header, tail: seq<byte>,
                                     shape: seq<nat>, keys: seq<Text>, obj: Json)
    requires AllWellFormed(vals) && Synced(t, m)
    requires EncodeSeq(p, vals, t).fits && Covers(h, EncodeSeq(p, vals, t).tables)
    requires |keys| == |vals| && Spells(h.strings, shape, keys)
    requires obj.Object? && |obj.keys| == |obj.vals| && Distinct(obj.keys + keys)
    ensures DecodeFields(h, At(m, EncodeSeq(p, vals, t).bytes + tail), shape, obj)
         == match MeanSeq(p, vals, m)
            case None => Err(InvalidReference)
            case Some((vals', m')) => Ok((Object(obj.keys + keys, obj.vals + vals'), At(m', tail)))
    ensures SyncedAfter(EncodeSeq(p, vals, t).tables, MeanSeq(p, vals, m))
    decreases vals, 0
  {
    hide DecodeValue, EncodeValue, MeanValue;
    if vals == [] {
      assert obj.keys + keys == obj.keys && obj.vals + [] == obj.vals;
      assert EncodeSeq(p, vals, t).bytes + tail == tail;
    } else {
      var w := EncodeValue(p, vals[0], t);
      var ws := EncodeSeq(p, vals[1..], w.tables);
      assert EncodeSeq(p, vals, t).bytes + tail == w.bytes + (ws.bytes + tail);
      SimValue(p, vals[0], t, m, h, ws.bytes + tail);
      var r := MeanValue(p, vals[0], m);
      if r.Some? {
        var (v', m1) := r.value;
        PutFresh(obj, keys, v');
        var obj' := Put(obj, keys[0], v');
        assert h.strings[shape[0]] == keys[0];
        assert Spells(h.strings, shape[1..], keys[1..]);
        assert obj'.keys + keys[1..] == obj.keys + keys;
        SimFields(p, vals[1..], w.tables, m1, h, tail, shape[1..], keys[1..], obj');
        var rs := MeanSeq(p, vals[1..], m1);
        if rs.Some? {
          assert obj'.vals + rs.value.0 == obj.vals + ([v'] + rs.value.0);
        }
      }
    }
  }

  /** Inserting the next of a list of distinct keys appends it. */
  lemma PutFresh(obj: Json, keys: seq<Text>, val: Json)
    requires obj.Object? && |obj.keys| == |obj.vals| && keys != [] && Distinct(obj.keys + keys)
    ensures Put(obj, keys[0], val) == Object(obj.keys + [keys[0]], obj.vals + [val])
  {
    var i := IndexOf(obj.keys, keys[0]);
    var all := obj.keys + keys;
    assert all[|obj.keys|] == keys[0] && forall j :: 0 <= j < |obj.keys| ==> all[j] == obj.keys[j];
    if i < |obj.keys| {
      assert false;
    }
  }

  lemma {:induction false} SimSeq(p: Platform, vals: seq<Json>, t: Tables, m: Memory, h: Header, tail: seq<byte>)
    requires AllWellFormed(vals) && Synced(t, m)
    requires EncodeSeq(p, vals, t).fits && Covers(h, EncodeSeq(p, vals, t).tables)
    ensures DecodeMany(h, At(m, EncodeSeq(p, vals, t).bytes + tail), |vals|) == Expected(MeanSeq(p, vals, m), tail)
    ensures SyncedAfter(EncodeSeq(p, vals, t).tables, MeanSeq(p, vals, m))
    decreases vals, 0
  {
    hide DecodeValue, EncodeValue, MeanValue;
    if vals == [] {
      assert EncodeSeq(p, vals, t).bytes + tail == tail;
    } else {
      var w := EncodeValue(p, vals[0], t);
      var ws := EncodeSeq(p, vals[1..], w.tables);
      assert EncodeSeq(p, vals, t).bytes + tail == w.bytes + (ws.bytes + tail);
      SimValue(p, vals[0], t, m, h, ws.bytes + tail);
      var r := MeanValue(p, vals[0], m);
      if r.Some? {
        SimSeq(p, vals[1..], w.tables, r.value.1, h, tail);
      }
    }
  }

  // ----- arrays -----

  lemma {:induction false} SimArray(p: Platform, items: seq<Json>, t: Tables, m: Memory, h: Header, tail: seq<byte>)
    requires AllWellFormed(items) && Synced(t, m)
    requires EncodeArray(p, items, t).fits && Covers(h, EncodeArray(p, items, t).tables)
    ensures DecodeValue(h, At(m, EncodeArray(p, items, t).bytes + tail)) == Expected(MeanArray(p, items, m), tail)
    ensures SyncedAfter(EncodeArray(p, items, t).tables, MeanArray(p, items, m))
    decreases items, 5
  {
    hide DecodeValue, EncodeItems, MeanItems, EncodeChunks, MeanChunks, DecodeParts, Leb;
    var w := EncodeArray(p, items, t);
    var key := ArrayDedupKey(p, items);
    if |items| > PARALLEL_ABOVE {
      var (bytes, _) := EncodeChunks(p, items);
      assert w.bytes + tail == [TAG_PARTS] + (Leb(ChunkCount(|items|)) + (bytes + tail));
      assert ChunkCount(|items|) <= |items|;
      StepParts(h, m, ChunkCount(|items|), bytes + tail);
      SimChunks(p, items, tail);
    } else if key in t.positions {
      SimRef(t, key, m, h, tail);
    } else {
      SimItems(p, items, t, m, h, tail);
    }
  }

  lemma {:induction false} SimColumnar(p: Platform, items: seq<Json>, t: Tables, m: Memory, h: Header, tail: seq<byte>)
    requires AllWellFormed(items) && Synced(t, m) && IsColumnar(items)
    requires EncodeItems(p, items, t).fits && Covers(h, EncodeItems(p, items, t).tables)
    ensures DecodeValue(h, At(m, EncodeItems(p, items, t).bytes + tail))
         == match MeanItems(p, items, m)
            case None => Err(InvalidReference)
            case Some((items', m')) => Ok((Array(items'), Pool(At(m', tail), Array(items'))))
    ensures SyncedAfter(EncodeItems(p, items, t).tables, MeanItems(p, items, m))
    decreases items, 3, 0
  {
    hide DecodeValue, DecodePlain, DecodeMany, DecodeColumns, EncodeSeq, EncodeColumns, MeanSeq, MeanColumns;
    hide Leb, Rows, ReadU32, InternShape, Pool;
    assert items[0].keys[..0] == [];
    var w := EncodeItems(p, items, t);
    var keys := items[0].keys;
    var (t1, id) := InternShape(t, keys);
    var cols := EncodeColumns(p, items, keys, 0, t1);
    assert t1.shapes <= cols.tables.shapes <= h.shapes && t1.strings <= cols.tables.strings <= h.strings;
    var rest := cols.bytes + tail;
    assert w.bytes + tail == [TAG_COLUMNS] + (Leb(|items|) + (Leb(id) + rest));
    assert id < |h.shapes|;
    StepPlain(h, m, TAG_COLUMNS, Leb(|items|) + (Leb(id) + rest));
    StepColumns(h, m, |items|, id, rest);
    assert WellFormed(items[0]);
    assert h.shapes[id][0..] == h.shapes[id];
    SimColumns(p, items, keys, 0, t1, m, h, tail, h.shapes[id], []);
    var r := MeanColumns(p, items, keys, 0, m);
    if r.Some? {
      assert [] + r.value.0 == r.value.0;
    }
  }

  lemma {:induction false} SimItems(p: Platform, items: seq<Json>, t: Tables, m: Memory, h: Header, tail: seq<byte>)
    requires AllWellFormed(items) && Synced(t, m)
    requires EncodeItems(p, items, t).fits && Covers(h, EncodeItems(p, items, t).tables)
    ensures DecodeValue(h, At(m, EncodeItems(p, items, t).bytes + tail))
         == match MeanItems(p, items, m)
            case None => Err(InvalidReference)
            case Some((items', m')) => Ok((Array(items'), Pool(At(m', tail), Array(items'))))
    ensures SyncedAfter(EncodeItems(p, items, t).tables, MeanItems(p, items, m))
    decreases items, 3, 1
  {
    hide DecodeValue, DecodePlain, DecodeMany, DecodeColumns, EncodeSeq, EncodeColumns, MeanSeq, MeanColumns;
    if IsColumnar(items) {
      SimColumnar(p, items, t, m, h, tail);
    } else {
      var t1 := ProbeShape(items, t);
      var ws := EncodeSeq(p, items, t1);
      assert EncodeItems(p, items, t).bytes + tail == [TAG_ARRAY] + (Leb(|items|) + (ws.bytes + tail));
      StepPlain(h, m, TAG_ARRAY, Leb(|items|) + (ws.bytes + tail));
      StepArray(h, m, |items|, ws.bytes + tail);
      SimSeq(p, items, t1, m, h, tail);
    }
  }

  // ----- columns -----

  lemma {:induction false} SimColumns(p: Platform, items: seq<Json>, keys: seq<Text>, k: nat, t: Tables, m: Memory,
                                      h: Header, tail: seq<byte>, shape: seq<nat>, done: seq<seq<Json>>)
    requires AllWellFormed(items) && AllShaped(items, keys) && Distinct(keys) && k <= |keys| && Synced(t, m)
    requires EncodeColumns(p, items, keys, k, t).fits && Covers(h, EncodeColumns(p, items, keys, k, t).tables)
    requires Spells(h.strings, shape, keys)
    requires |done| == k && forall c :: 0 <= c < k ==> |done[c]| == |items|
    ensures DecodeColumns(h, At(m, EncodeColumns(p, items, keys, k, t).bytes + tail), shape[k..], Rows(|items|, keys[..k], done))
         == match MeanColumns(p, items, keys, k, m)
            case None => Err(InvalidReference)
            case Some((cols, m')) => Ok((Rows(|items|, keys, done + cols), At(m', tail)))
    ensures SyncedAfter(EncodeColumns(p, items, keys, k, t).tables, MeanColumns(p, items, keys, k, m))
    decreases items, 2, |keys| - k
  {
    hide DecodeMany, EncodeColumn, MeanColumn, Rows, PutAll;
    if k == |keys| {
      assert keys[..k] == keys && done + [] == done;
      assert EncodeColumns(p, items, keys, k, t).bytes + tail == tail;
    } else {
      var w := EncodeColumn(p, items, keys, k, 0, t);
      var ws := EncodeColumns(p, items, keys, k + 1, w.tables);
      assert EncodeColumns(p, items, keys, k, t).bytes + tail == w.bytes + (ws.bytes + tail);
      SimColumn(p, items, keys, k, 0, t, m, h, ws.bytes + tail);
      var r := MeanColumn(p, items, keys, k, 0, m);
      assert shape[k..][0] == shape[k] && shape[k..][1..] == shape[k + 1..];
      if r.Some? {
        var (col, m1) := r.value;
        RowsGrow(|items|, keys, k, done, col);
        SimColumns(p, items, keys, k + 1, w.tables, m1, h, tail, shape, done + [col]);
        var rs := MeanColumns(p, items, keys, k + 1, m1);
        if rs.Some? {
          assert done + [col] + rs.value.0 == done + ([col] + rs.value.0);
        }
      }
    }
  }

  /** Writing one more column into the rows. */
  lemma RowsGrow(n: nat, keys: seq<Text>, k: nat, done: seq<seq<Json>>, col: seq<Json>)
    requires k < |keys| && Distinct(keys) && |col| == n
    requires |done| == k && forall c :: 0 <= c < k ==> |done[c]| == n
    ensures AllRecords(Rows(n, keys[..k], done))
    ensures PutAll(Rows(n, keys[..k], done), keys[k], col) == Rows(n, keys[..k + 1], done + [col])
  {
    var rows, rows' := Rows(n, keys[..k], done), Rows(n, keys[..k + 1], done + [col]);
    forall i | 0 <= i < n
      ensures Put(rows[i], keys[k], col[i]) == rows'[i]
    {
      assert keys[..k] + [keys[k]] == keys[..k + 1];
      PutFresh(rows[i], [keys[k]], col[i]);
      assert rows[i].vals + [col[i]] == rows'[i].vals;
    }
  }

  /** Every run ends inside its column, and none is pending where the column ends. */
  lemma {:induction false} SimColumn(p: Platform, items: seq<Json>, keys: seq<Text>, k: nat, i: nat, t: Tables, m: Memory,
                                     h: Header, tail: seq<byte>)
    requires AllWellFormed(items) && AllShaped(items, keys) && k < |keys| && i <= |items| && Synced(t, m)
    requires EncodeColumn(p, items, keys, k, i, t).fits && Covers(h, EncodeColumn(p, items, keys, k, i, t).tables)
    ensures DecodeMany(h, At(m, EncodeColumn(p, items, keys, k, i, t).bytes + tail), |items| - i)
         == Expected(MeanColumn(p, items, keys, k, i, m), tail)
    ensures SyncedAfter(EncodeColumn(p, items, keys, k, i, t).tables, MeanColumn(p, items, keys, k, i, m))
    decreases items, 1, |items| - i
  {
    hide DecodeValue, DecodeMany, EncodeValue, MeanValue, Stride, RunPrefix, Repeat;
    var all := EncodeColumn(p, items, keys, k, i, t);
    if i == |items| {
      DecodeNone(h, At(m, tail));
      assert all.bytes + tail == tail;
    } else {
      var val := items[i].vals[k];
      assert WellFormed(items[i]) && AllWellFormed(items[i].vals);
      var n := Stride(Column(items, keys, k), i);
      var w := EncodeValue(p, val, t);
      var ws := EncodeColumn(p, items, keys, k, i + n, w.tables);
      var rest := ws.bytes + tail;
      assert all.bytes + tail == RunPrefix(n) + (w.bytes + rest);
      SimValue(p, val, t, m, h, rest);
      SimEntry(h, m, n, w.bytes + rest, MeanValue(p, val, m), rest, |items| - i);
      if MeanValue(p, val, m).Some? {
        SimColumn(p, items, keys, k, i + n, w.tables, MeanValue(p, val, m).value.1, h, tail);
      }
    }
  }

  /** One entry of a column stands for n of its rows. */
  lemma ManyStep(h: Header, d: State, n: nat)
    requires n > 0
    ensures DecodeMany(h, d, n)
         == match DecodeValue(h, d)
            case Err(e) => Err(e)
            case Ok((v, d1)) =>
              match DecodeMany(h, d1, n - 1)
              case Err(e) => Err(e)
              case Ok((vs, d2)) => Ok(([v] + vs, d2))
  {
    hide DecodeValue;
  }

  lemma SimEntry(h: Header, m: Memory, n: u32, s: seq<byte>, r: Meant<Json>, rest: seq<byte>, rows: nat)
    requires 1 <= n <= rows
    requires DecodeValue(h, At(m, s)) == Expected(r, rest)
    ensures DecodeMany(h, At(m, RunPrefix(n) + s), rows)
         == match r
            case None => Err(InvalidReference)
            case Some((v, m1)) =>
              match DecodeMany(h, At(m1, rest), rows - n)
              case Err(e) => Err(e)
              case Ok((vs, d)) => Ok((Repeat(v, n) + vs, d))
  {
    hide DecodeValue, DecodeMany, Repeat, Leb;
    ManyStep(h, At(m, RunPrefix(n) + s), rows);
    if n > 1 {
      assert RunPrefix(n) + s == [TAG_RUN] + (Leb(n) + s);
      StepRun(h, m, n, s);
      if r.Some? {
        var (v, m1) := r.value;
        ReplayRun(h, State(m1.pool, n - 1, Some(v), rest), v, rows - 1);
        RepeatOneMore(v, n - 1);
        var resumed := DecodeMany(h, At(m1, rest), rows - n);
        if resumed.Ok? {
          assert [v] + (Repeat(v, n - 1) + resumed.value.0) == [v] + Repeat(v, n - 1) + resumed.value.0;
        }
      }
    } else {
      assert RunPrefix(n) + s == s;
      if r.Some? {
        RepeatOnce(r.value.0);
      }
    }
  }

  lemma RepeatOneMore(v: Json, n: nat)
    ensures [v] + Repeat(v, n) == Repeat(v, n + 1)
  {
  }

  lemma RepeatOnce(v: Json)
    ensures Repeat(v, 1) == [v]
  {
  }

  lemma RunValue(h: Header, d: State, v: Json)
    requires d.runLeft > 0 && d.runValue == Some(v)
    ensures DecodeValue(h, d)
         == Ok((v, d.(runLeft := d.runLeft - 1, runValue := if d.runLeft == 1 then None else d.runValue)))
  {
    hide DecodePlain;
  }

  /** A pending run yields its copies, then reading resumes with no run pending. */
  lemma {:induction false} ReplayRun(h: Header, d: State, v: Json, n: nat)
    requires d.runLeft <= n && (d.runLeft > 0 ==> d.runValue == Some(v)) && (d.runLeft == 0 ==> d.runValue == None)
    ensures DecodeMany(h, d, n)
         == match DecodeMany(h, d.(runLeft := 0, runValue := None), n - d.runLeft)
            case Err(e) => Err(e)
            case Ok((vs, d')) => Ok((Repeat(v, d.runLeft) + vs, d'))
    decreases d.runLeft
  {
    hide Repeat, DecodeMany, DecodeValue;
    var resumed := DecodeMany(h, d.(runLeft := 0, runValue := None), n - d.runLeft);
    if d.runLeft == 0 {
      assert d.(runLeft := 0, runValue := None) == d;
      if resumed.Ok? {
        assert Repeat(v, 0) + resumed.value.0 == resumed.value.0;
      }
    } else {
      var d1 := d.(runLeft := d.runLeft - 1, runValue := if d.runLeft == 1 then None else d.runValue);
      RunValue(h, d, v);
      ManyStep(h, d, n);
      ReplayRun(h, d1, v, n - 1);
      assert d1.(runLeft := 0, runValue := None) == d.(runLeft := 0, runValue := None);
      RepeatOneMore(v, d.runLeft - 1);
      if resumed.Ok? {
        assert [v] + (Repeat(v, d.runLeft - 1) + resumed.value.0) == Repeat(v, d.runLeft) + resumed.value.0;
      }
    }
  }

  // ----- messages -----

  lemma {:induction false} SimChunks(p: Platform, items: seq<Json>, tail: seq<byte>)
    requires AllWellFormed(items) && EncodeChunks(p, items).1
    ensures DecodeParts(EncodeChunks(p, items).0 + tail, ChunkCount(|items|))
         == match MeanChunks(p, items)
            case None => Err(InvalidReference)
            case Some(items') => Ok((items', tail))
    decreases items, 4, |items|
  {
    hide Decode, EncodeSlice, MeanItems, ReadU32, TakeBytes, Leb;
    if items == [] {
      assert EncodeChunks(p, items).0 + tail == tail;
    } else {
      var n := if |items| <= CHUNK then |items| else CHUNK;
      assert n == |items| ==> items[..n] == items;
      var part := EncodeSlice(p, items[..n]).0;
      var more := EncodeChunks(p, items[n..]).0;
      var s := EncodeChunks(p, items).0 + tail;
      assert s == Leb(|part|) + (part + (more + tail));
      ReadU32OfLeb(|part|, part + (more + tail));
      TakeFront(part, more + tail);
      SimSlice(p, items[..n]);
      assert ChunkCount(|items|) == 1 + ChunkCount(|items[n..]|);
      SimChunks(p, items[n..], tail);
    }
  }

  lemma {:induction false} SimSlice(p: Platform, items: seq<Json>)
    requires AllWellFormed(items) && EncodeSlice(p, items).1
    ensures Decode(EncodeSlice(p, items).0)
         == match MeanItems(p, items, FRESH)
            case None => Err(InvalidReference)
            case Some((items', _)) => Ok(Array(items'))
    decreases items, 4, 0
  {
    hide DecodeValue, EncodeItems, MeanItems, DecodeHeader;
    var w := EncodeItems(p, items, EMPTY_TABLES);
    ReadHeader(w);
    assert w.bytes + [] == w.bytes;
    SimItems(p, items, EMPTY_TABLES, FRESH, Header(w.tables.strings, w.tables.shapes), []);
  }

  /** The header gives back the tables the body was written with. */
  lemma ReadHeader(w: Written)
    requires HeaderFits(w.tables)
    ensures DecodeHeader(Message(w).0) == Ok((Header(w.tables.strings, w.tables.shapes), w.bytes))
  {
    hide ReadU32, Leb, DecodeStrings, DecodeShapes, EncodeStrings, EncodeShapes;
    var t, data := w.tables, Message(w).0;
    var s4 := w.bytes;
    var s3 := EncodeShapes(t.shapes) + s4;
    var s2 := Leb(|t.shapes|) + s3;
    var s1 := EncodeStrings(t.strings) + s2;
    var s0 := Leb(|t.strings|) + s1;
    assert data == MAGIC + s0;
    assert data[..4] == MAGIC && data[4..] == s0;
    ReadU32OfLeb(|t.strings|, s1);
    ReadStrings(t.strings, s2);
    ReadU32OfLeb(|t.shapes|, s3);
    ReadShapes(t.shapes, s4);
  }

  lemma {:induction false} ReadStrings(strings: seq<Text>, tail: seq<byte>)
    requires forall i :: 0 <= i < |strings| ==> |strings[i]| < U32
    ensures DecodeStrings(EncodeStrings(strings) + tail, |strings|) == Ok((strings, tail))
  {
    hide Leb, ReadU32, TakeBytes;
    if strings == [] {
      assert EncodeStrings(strings) + tail == tail;
    } else {
      var text, rest := strings[0], EncodeStrings(strings[1..]) + tail;
      assert EncodeStrings(strings) + tail == Leb(|text|) + (text + rest);
      ReadU32OfLeb(|text|, text + rest);
      TakeFront(text, rest);
      ReadStrings(strings[1..], tail);
      assert [text] + strings[1..] == strings;
    }
  }

  lemma {:induction false} ReadShapes(shapes: seq<seq<nat>>, tail: seq<byte>)
    requires forall i :: 0 <= i < |shapes| ==> ShapeFits(shapes[i])
    ensures DecodeShapes(EncodeShapes(shapes) + tail, |shapes|) == Ok((shapes, tail))
  {
    hide Leb, ReadU32, EncodeIndices, DecodeIndices;
    if shapes == [] {
      assert EncodeShapes(shapes) + tail == tail;
    } else {
      var shape, rest := shapes[0], EncodeShapes(shapes[1..]) + tail;
      assert EncodeShapes(shapes) + tail == Leb(|shape|) + (EncodeIndices(shape) + rest);
      ReadU32OfLeb(|shape|, EncodeIndices(shape) + rest);
      ReadIndices(shape, rest);
      ReadShapes(shapes[1..], tail);
      assert [shape] + shapes[1..] == shapes;
    }
  }

  lemma {:induction false} ReadIndices(shape: seq<nat>, tail: seq<byte>)
    requires ShapeFits(shape)
    ensures DecodeIndices(EncodeIndices(shape) + tail, |shape|) == Ok((shape, tail))
  {
    hide Leb, ReadU32;
    if shape == [] {
      assert EncodeIndices(shape) + tail == tail;
    } else {
      var rest := EncodeIndices(shape[1..]) + tail;
      assert EncodeIndices(shape) + tail == Leb(shape[0]) + rest;
      ReadU32OfLeb(shape[0], rest);
      ReadIndices(shape[1..], tail);
      assert [shape[0]] + shape[1..] == shape;
    }
  }

  /** Decoding an encoded value gives its meaning, whatever the value and the hash. */
  lemma DecodeOfEncode(p: Platform, v: Json)
    requires WellFormed(v) && Encode(p, v).1
    ensures Decode(Encode(p, v).0)
         == match Meaning(p, v)
            case None => Err(InvalidReference)
            case Some(v') => Ok(v')
  {
    hide DecodeValue, EncodeValue, MeanValue, DecodeHeader;
    var w := EncodeValue(p, v, EMPTY_TABLES);
    ReadHeader(w);
    assert w.bytes + [] == w.bytes;
    SimValue(p, v, EMPTY_TABLES, FRESH, Header(w.tables.strings, w.tables.shapes), []);
  }
}
