/**
 The encoder as the source has it: an object whose tables grow as it writes.  Its maps give
 a string, a shape or a composite's key its number in one lookup; `Valid` says that they are
 the lists' own numbering, and `Raise` that a key made of a shape's number stands for one made
 of the shape's names.  Every method that writes leaves the tables and the bytes that the
 functions of `GbpEncoding` say, so what is proved of these is proved of the object.
 */
module GbpEncoderClass {
  import opened Varint
  import opened GbpTypes
  import opened GbpEncoding

  /** Nothing written so far, nor the header to come, needs more than a u32. */
  ghost predicate Fits(w: Written) {
    w.fits && HeaderFits(w.tables)
  }

  /** What is in the buffer, then what `rest` will write, is what `all` writes after `start`. */
  ghost predicate Progress(start: seq<byte>, bytes: seq<byte>, rest: Written, all: Written) {
    rest.tables == all.tables && rest.fits && bytes + rest.bytes == start + all.bytes
  }

  lemma ProgressStep(start: seq<byte>, before: seq<byte>, step: seq<byte>, fits: bool, rest: Written, all: Written)
    requires Progress(start, before, Then(rest, step, fits), all)
    ensures Progress(start, before + step, rest, all) && fits && rest.tables == all.tables
  {
    assert before + (step + rest.bytes) == before + step + rest.bytes;
  }

  lemma ProgressStart(start: seq<byte>, all: Written)
    requires all.fits
    ensures Progress(start, start, all, all)
  {
  }

  lemma ProgressDone(start: seq<byte>, bytes: seq<byte>, rest: Written, all: Written)
    requires Progress(start, bytes, rest, all) && rest.bytes == []
    ensures bytes == start + all.bytes && rest.tables == all.tables
  {
    assert bytes + [] == bytes;
  }

  lemma SeqStep(p: Platform, vals: seq<Json>, i: nat, t: Tables)
    requires i < |vals|
    ensures var w := EncodeValue(p, vals[i], t);
      EncodeSeq(p, vals[i..], t) == Then(EncodeSeq(p, vals[i + 1..], w.tables), w.bytes, w.fits)
  {
    hide EncodeValue;
    assert vals[i..][0] == vals[i] && vals[i..][1..] == vals[i + 1..];
  }

  lemma SeqDone(p: Platform, vals: seq<Json>, t: Tables)
    ensures EncodeSeq(p, vals[|vals|..], t) == Written(t, [], true)
  {
  }

  lemma HeaderFitsEarlier(t: Tables, t': Tables)
    requires Extends(t, t') && HeaderFits(t')
    ensures HeaderFits(t)
  {
    assert forall i :: 0 <= i < |t.strings| ==> t.strings[i] == t'.strings[i];
    assert forall i :: 0 <= i < |t.shapes| ==> t.shapes[i] == t'.shapes[i];
  }

  lemma HeaderFitsNumbers(t: Tables)
    requires HeaderFits(t)
    ensures |t.strings| < U32 && |t.shapes| <= ARRAY_MARKER
  {
  }

  lemma {:induction false} IndexOfDistinct<T>(s: seq<T>, i: nat)
    requires i < |s| && Distinct(s)
    ensures IndexOf(s, s[i]) == i
  {
    var j := IndexOf(s, s[i]);
    assert j <= i && s[j] == s[i];
  }

  class GbpEncoder {
    const p: Platform
    var stringPool: seq<Text>
    var stringMap: map<Text, nat>
    var shapePool: seq<seq<nat>>
    var shapeMap: map<seq<nat>, nat>
    /** Keyed by shape number, or the array marker, and content hash. */
    var positionMap: map<(nat, nat), nat>
    var valueCounter: nat

    /** `positionMap` with each shape number replaced by the keys it stands for. */
    ghost var positions: map<DedupKey, nat>

    ghost predicate Valid()
      reads this
    {
      && Indexes(stringMap, stringPool)
      && Indexes(shapeMap, shapePool)
      && ShapesOk(stringPool, shapePool)
      && PositionsMatch(stringPool, shapePool, positionMap, positions)
    }

    /** The map is the inverse of the pool. */
    static ghost predicate Indexes<T>(m: map<T, nat>, pool: seq<T>) {
      && (forall i :: 0 <= i < |pool| ==> pool[i] in m && m[pool[i]] == i)
      && (forall x :: x in m ==> m[x] < |pool| && pool[m[x]] == x)
    }

    static ghost predicate ShapeBelow(shape: seq<nat>, n: nat) {
      forall k :: 0 <= k < |shape| ==> shape[k] < n
    }

    static ghost predicate ShapesOk(strings: seq<Text>, shapes: seq<seq<nat>>) {
      |shapes| <= ARRAY_MARKER && forall id :: 0 <= id < |shapes| ==> ShapeBelow(shapes[id], |strings|)
    }

    /** Shape numbers and key sequences name the same registrations. */
    static ghost predicate PositionsMatch(strings: seq<Text>, shapes: seq<seq<nat>>,
                                          numbered: map<(nat, nat), nat>, named: map<DedupKey, nat>)
      requires ShapesOk(strings, shapes)
    {
      && (forall pk :: pk in numbered ==> IsNumber(shapes, pk.0))
      && (forall pk :: pk in numbered ==>
            Raise(strings, shapes, pk) in named && named[Raise(strings, shapes, pk)] == numbered[pk])
      && (forall key :: key in named ==> exists pk :: pk in numbered && Raise(strings, shapes, pk) == key)
    }

    static ghost predicate IsNumber(shapes: seq<seq<nat>>, id: nat) {
      id < |shapes| || id == ARRAY_MARKER
    }

    /** The dedup key a numbered position stands for. */
    static ghost function Raise(strings: seq<Text>, shapes: seq<seq<nat>>, pk: (nat, nat)): DedupKey
      requires ShapesOk(strings, shapes) && IsNumber(shapes, pk.0)
    {
      if pk.0 == ARRAY_MARKER then ArrayKey(pk.1) else ObjectKey(KeysOf(strings, shapes[pk.0]), pk.1)
    }

    /** Growing pools change nothing about the numbers already given. */
    static lemma PoolsGrow(strings: seq<Text>, shapes: seq<seq<nat>>, strings': seq<Text>, shapes': seq<seq<nat>>,
                           numbered: map<(nat, nat), nat>, named: map<DedupKey, nat>)
      requires ShapesOk(strings, shapes) && PositionsMatch(strings, shapes, numbered, named)
      requires strings <= strings' && shapes <= shapes' && ShapesOk(strings', shapes')
      ensures PositionsMatch(strings', shapes', numbered, named)
    {
      forall pk | pk in numbered
        ensures IsNumber(shapes', pk.0) && Raise(strings', shapes', pk) == Raise(strings, shapes, pk)
      {
        if pk.0 != ARRAY_MARKER {
          assert KeysOf(strings', shapes'[pk.0]) == KeysOf(strings, shapes[pk.0]);
        }
      }
    }

    static lemma ShapesOkGrow(strings: seq<Text>, shapes: seq<seq<nat>>, s: Text, shape: seq<nat>)
      requires ShapesOk(strings, shapes)
      ensures ShapesOk(strings + [s], shapes)
      ensures ShapeBelow(shape, |strings|) && |shapes| < ARRAY_MARKER ==> ShapesOk(strings, shapes + [shape])
    {
      forall id | 0 <= id < |shapes|
        ensures ShapeBelow(shapes[id], |strings + [s]|)
      {
        assert ShapeBelow(shapes[id], |strings|);
      }
    }

    static ghost function KeysOf(strings: seq<Text>, shape: seq<nat>): (keys: seq<Text>)
      requires ShapeBelow(shape, |strings|)
      ensures |keys| == |shape| && forall k :: 0 <= k < |shape| ==> keys[k] == strings[shape[k]]
    {
      seq(|shape|, k requires 0 <= k < |shape| => strings[shape[k]])
    }

    ghost function Abs(): Tables
      reads this
    {
      Tables(stringPool, shapePool, positions, valueCounter)
    }

    constructor (p: Platform)
      ensures Valid() && Abs() == EMPTY_TABLES && this.p == p
    {
      this.p := p;
      stringPool, stringMap, shapePool, shapeMap := [], map[], [], map[];
      positionMap, valueCounter, positions := map[], 0, map[];
    }

    method Clear()
      modifies this
      ensures Valid() && Abs() == EMPTY_TABLES
    {
      stringPool, stringMap, shapePool, shapeMap := [], map[], [], map[];
      positionMap, valueCounter, positions := map[], 0, map[];
    }

    // ----- interning -----

    static lemma IndexesAppend<T>(m: map<T, nat>, pool: seq<T>, x: T)
      requires Indexes(m, pool)
      ensures x !in m ==> Indexes(m[x := |pool|], pool + [x])
      ensures x in m ==> m[x] < |pool|
    {
    }

    static lemma PoolIndex<T>(m: map<T, nat>, pool: seq<T>, x: T)
      requires Indexes(m, pool)
      ensures if x in m then IndexOf(pool, x) == m[x] else IndexOf(pool, x) == |pool|
    {
      if x in m {
        forall i, j | 0 <= i < j < |pool|
          ensures pool[i] != pool[j]
        {
          assert m[pool[i]] == i && m[pool[j]] == j;
        }
        IndexOfDistinct(pool, m[x]);
      }
    }

    method GetStringIdx(s: Text) returns (idx: nat)
      requires Valid()
      modifies this
      ensures Valid() && (stringPool, idx) == Intern(old(stringPool), s)
      ensures Abs() == old(Abs()).(strings := stringPool)
    {
      hide IndexOf, Indexes, ShapesOk, PositionsMatch;
      PoolIndex(stringMap, stringPool, s);
      IndexesAppend(stringMap, stringPool, s);
      if s in stringMap {
        idx := stringMap[s];
      } else {
        idx := |stringPool|;
        stringMap := stringMap[s := idx];
        ShapesOkGrow(stringPool, shapePool, s, []);
        PoolsGrow(stringPool, shapePool, stringPool + [s], shapePool, positionMap, positions);
        stringPool := stringPool + [s];
      }
    }

    /** The indices of an object's keys, new keys interned on the way. */
    method InternKeys(keys: seq<Text>) returns (scratchpad: seq<nat>)
      requires Valid()
      modifies this
      ensures Valid() && (stringPool, scratchpad) == InternAll(old(stringPool), keys)
      ensures Abs() == old(Abs()).(strings := stringPool)
    {
      hide Valid, InternAll, Intern;
      scratchpad := [];
      var i := 0;
      assert keys[0..] == keys && scratchpad + InternAll(stringPool, keys).1 == InternAll(stringPool, keys).1;
      while i < |keys|
        invariant i <= |keys| && Valid()
        invariant Abs() == old(Abs()).(strings := stringPool)
        invariant InternAll(old(stringPool), keys)
               == (InternAll(stringPool, keys[i..]).0, scratchpad + InternAll(stringPool, keys[i..]).1)
      {
        InternStep(stringPool, keys, i);
        var idx := GetStringIdx(keys[i]);
        assert scratchpad + ([idx] + InternAll(stringPool, keys[i + 1..]).1)
            == scratchpad + [idx] + InternAll(stringPool, keys[i + 1..]).1;
        scratchpad := scratchpad + [idx];
        i := i + 1;
      }
      InternDone(stringPool, keys);
      assert scratchpad + [] == scratchpad;
    }

    static lemma InternStep(pool: seq<Text>, keys: seq<Text>, i: nat)
      requires i < |keys|
      ensures var (pool1, idx) := Intern(pool, keys[i]);
        InternAll(pool, keys[i..]) == (InternAll(pool1, keys[i + 1..]).0, [idx] + InternAll(pool1, keys[i + 1..]).1)
    {
      hide Intern;
      assert keys[i..][0] == keys[i] && keys[i..][1..] == keys[i + 1..];
    }

    static lemma InternDone(pool: seq<Text>, keys: seq<Text>)
      ensures InternAll(pool, keys[|keys|..]) == (pool, [])
    {
    }

    method GetShapeIdFromMap(keys: seq<Text>) returns (id: nat)
      requires Valid() && |InternShape(Abs(), keys).0.shapes| <= ARRAY_MARKER
      modifies this
      ensures Valid() && (Abs(), id) == InternShape(old(Abs()), keys)
    {
      hide Valid;
      var scratchpad := InternKeys(keys);
      id := GetShapeId(scratchpad);
    }

    method GetShapeId(shape: seq<nat>) returns (id: nat)
      requires Valid() && ShapeBelow(shape, |stringPool|)
      requires IndexOf(shapePool, shape) == |shapePool| ==> |shapePool| < ARRAY_MARKER
      modifies this
      ensures Valid() && id == IndexOf(old(shapePool), shape)
      ensures Abs() == old(Abs()).(shapes := if id < |old(shapePool)| then old(shapePool) else old(shapePool) + [shape])
    {
      hide IndexOf, Indexes, ShapesOk, PositionsMatch;
      PoolIndex(shapeMap, shapePool, shape);
      IndexesAppend(shapeMap, shapePool, shape);
      if shape in shapeMap {
        id := shapeMap[shape];
      } else {
        id := |shapePool|;
        shapeMap := shapeMap[shape := id];
        ShapesOkGrow(stringPool, shapePool, [], shape);
        PoolsGrow(stringPool, shapePool, stringPool, shapePool + [shape], positionMap, positions);
        shapePool := shapePool + [shape];
      }
    }

    // ----- remembering composites -----

    /** Different numbers never stand for the same key. */
    lemma RaiseInjective(a: (nat, nat), b: (nat, nat))
      requires Valid() && IsNumber(shapePool, a.0) && IsNumber(shapePool, b.0)
      requires Raise(stringPool, shapePool, a) == Raise(stringPool, shapePool, b)
      ensures a == b
    {
      if a.0 != ARRAY_MARKER {
        var s, t := shapePool[a.0], shapePool[b.0];
        var keys := KeysOf(stringPool, s);
        assert keys == KeysOf(stringPool, t);
        assert ShapeBelow(s, |stringPool|) && ShapeBelow(t, |stringPool|);
        forall k | 0 <= k < |s|
          ensures s[k] == t[k]
        {
          assert keys[k] == stringPool[s[k]] == stringPool[t[k]];
          assert stringMap[stringPool[s[k]]] == s[k];
        }
        assert s == t;
        assert shapeMap[s] == a.0;
      }
    }

    /** Looking up by number is looking up by keys. */
    lemma LookupAgrees(pk: (nat, nat), key: DedupKey)
      requires Valid() && IsNumber(shapePool, pk.0) && Raise(stringPool, shapePool, pk) == key
      ensures pk in positionMap <==> key in positions
      ensures pk in positionMap ==> positionMap[pk] == positions[key]
    {
      if key in positions {
        var other :| other in positionMap && Raise(stringPool, shapePool, other) == key;
        RaiseInjective(other, pk);
      }
    }

    lemma NumberStands(id: nat, keys: seq<Text>, hash: nat)
      requires Valid() && id < |shapePool| && Spells(stringPool, shapePool[id], keys)
      ensures IsNumber(shapePool, id) && Raise(stringPool, shapePool, (id, hash)) == ObjectKey(keys, hash)
    {
      assert KeysOf(stringPool, shapePool[id]) == keys;
    }

    /** The number of a composite just written is bound to its key. */
    method Remember(id: nat, hash: nat, ghost key: DedupKey)
      requires Valid() && IsNumber(shapePool, id) && Raise(stringPool, shapePool, (id, hash)) == key
      modifies this
      ensures Valid() && Abs() == Register(old(Abs()), key)
    {
      RegisterMatches((id, hash), key);
      positionMap := positionMap[(id, hash) := valueCounter];
      positions := positions[key := valueCounter];
      valueCounter := valueCounter + 1;
    }

    lemma RegisterMatches(pk: (nat, nat), key: DedupKey)
      requires Valid() && IsNumber(shapePool, pk.0) && Raise(stringPool, shapePool, pk) == key
      ensures PositionsMatch(stringPool, shapePool, positionMap[pk := valueCounter], positions[key := valueCounter])
    {
      var numbered, named := positionMap[pk := valueCounter], positions[key := valueCounter];
      forall other | other in positionMap && Raise(stringPool, shapePool, other) == key
        ensures other == pk
      {
        RaiseInjective(other, pk);
      }
      forall k | k in named
        ensures exists other :: other in numbered && Raise(stringPool, shapePool, other) == k
      {
        if k == key {
          assert pk in numbered;
        } else {
          var other :| other in positionMap && Raise(stringPool, shapePool, other) == k;
          assert other in numbered;
        }
      }
    }

    // ----- hashing -----

    method FastContentHashMap(vals: seq<Json>) returns (h: nat)
      ensures h == p.digest(ContentAtoms(p, vals))
    {
      hide ShallowAtoms;
      var atoms: seq<Atom> := [];
      var i := 0;
      assert vals[0..] == vals && [] + ContentAtoms(p, vals) == ContentAtoms(p, vals);
      while i < |vals|
        invariant i <= |vals| && atoms + ContentAtoms(p, vals[i..]) == ContentAtoms(p, vals)
      {
        assert vals[i..][0] == vals[i] && vals[i..][1..] == vals[i + 1..];
        assert atoms + (ShallowAtoms(p, vals[i]) + ContentAtoms(p, vals[i + 1..]))
            == atoms + ShallowAtoms(p, vals[i]) + ContentAtoms(p, vals[i + 1..]);
        atoms := atoms + ShallowAtoms(p, vals[i]);
        i := i + 1;
      }
      assert vals[i..] == [] && atoms + [] == atoms;
      h := p.digest(atoms);
    }

    method FastArrayHash(items: seq<Json>) returns (h: nat)
      ensures h == p.digest(ArrayAtoms(p, items))
    {
      var atoms := [WriteUsize(|items|)];
      if |items| > 0 {
        atoms := atoms + ShallowAtoms(p, items[0]);
      }
      if |items| > 1 {
        atoms := atoms + ShallowAtoms(p, items[|items| - 1]);
      }
      assert atoms == ArrayAtoms(p, items);
      h := p.digest(atoms);
    }

    // ----- the body -----

    method EncodeRecursive(v: Json, buf: ByteBuffer)
      requires Valid() && WellFormed(v) && Fits(EncodeValue(p, v, Abs()))
      modifies this, buf
      ensures Valid() && Abs() == EncodeValue(p, v, old(Abs())).tables
      ensures buf.bytes == old(buf.bytes) + EncodeValue(p, v, old(Abs())).bytes
      decreases v, 8
    {
      match v
      case Null => buf.Push(TAG_NULL);
      case Bool(b) =>
        if b {
          buf.Push(TAG_TRUE);
        } else {
          buf.Push(TAG_FALSE);
        }
      case Int(i) =>
        buf.Push(TAG_INT);
        WriteVarintI64(i, buf);
      case Big(u) =>
        buf.Push(TAG_FLOAT);
        buf.Extend(p.round(u));
      case Float(bits) =>
        buf.Push(TAG_FLOAT);
        buf.Extend(bits);
      case Str(s) =>
        if |s| > 2 {
          buf.Push(TAG_STRING);
          var idx := GetStringIdx(s);
          WriteVarint(idx, buf);
        } else {
          buf.Push(TAG_SHORT_STRING);
          WriteVarint(|s|, buf);
          buf.Extend(s);
        }
      case Array(items) => EncodeArrayValue(items, buf);
      case Object(keys, vals) => EncodeObjectValue(keys, vals, buf);
    }

    /** The object arm of the value encoder. */
    method EncodeObjectValue(keys: seq<Text>, vals: seq<Json>, buf: ByteBuffer)
      requires Valid() && WellFormed(Object(keys, vals)) && Fits(EncodeValue(p, Object(keys, vals), Abs()))
      modifies this, buf
      ensures Valid() && Abs() == EncodeValue(p, Object(keys, vals), old(Abs())).tables
      ensures buf.bytes == old(buf.bytes) + EncodeValue(p, Object(keys, vals), old(Abs())).bytes
      decreases vals, 9
    {
      hide Leb, Valid, EncodeSeq, HeaderFits, InternShape, ContentAtoms, Raise, KeysOf;
      ghost var w := EncodeValue(p, Object(keys, vals), Abs());
      ghost var t1 := InternShape(Abs(), keys).0;
      HeaderFitsEarlier(t1, w.tables);
      HeaderFitsNumbers(t1);
      var id := GetShapeIdFromMap(keys);
      if |keys| == 0 {
        buf.Push(TAG_OBJECT);
        WriteVarint(id, buf);
        return;
      }
      var hash := FastContentHashMap(vals);
      NumberStands(id, keys, hash);
      ghost var key := ObjectDedupKey(p, keys, vals);
      LookupAgrees((id, hash), key);
      if (id, hash) in positionMap {
        WriteRef(positionMap[(id, hash)], buf);
        return;
      }
      buf.Push(TAG_OBJECT);
      WriteVarint(id, buf);
      ghost var kids := EncodeSeq(p, vals, t1);
      HeaderFitsEarlier(kids.tables, w.tables);
      EncodeAll(vals, buf);
      NumberStands(id, keys, hash);
      Remember(id, hash, key);
      assert buf.bytes == old(buf.bytes) + ([TAG_OBJECT] + Leb(id) + kids.bytes);
    }

    method WriteRef(idx: u32, buf: ByteBuffer)
      modifies buf
      ensures buf.bytes == old(buf.bytes) + ([TAG_REF] + Leb(idx))
    {
      buf.Push(TAG_REF);
      WriteVarint(idx, buf);
    }

    /** The loop over an object's values or an array's items. */
    method EncodeAll(vals: seq<Json>, buf: ByteBuffer)
      requires Valid() && AllWellFormed(vals) && Fits(EncodeSeq(p, vals, Abs()))
      modifies this, buf
      ensures Valid() && Abs() == EncodeSeq(p, vals, old(Abs())).tables
      ensures buf.bytes == old(buf.bytes) + EncodeSeq(p, vals, old(Abs())).bytes
      decreases vals, 4
    {
      hide Valid, EncodeValue, EncodeSeq, HeaderFits, Progress;
      ghost var all := EncodeSeq(p, vals, Abs());
      var i := 0;
      assert vals[0..] == vals;
      ProgressStart(buf.bytes, all);
      while i < |vals|
        invariant i <= |vals| && Valid()
        invariant Progress(old(buf.bytes), buf.bytes, EncodeSeq(p, vals[i..], Abs()), all)
      {
        ghost var t := Abs();
        ghost var w := EncodeValue(p, vals[i], t);
        ghost var rest := EncodeSeq(p, vals[i + 1..], w.tables);
        SeqStep(p, vals, i, t);
        ProgressStep(old(buf.bytes), buf.bytes, w.bytes, w.fits, rest, all);
        HeaderFitsEarlier(w.tables, all.tables);
        EncodeRecursive(vals[i], buf);
        i := i + 1;
      }
      SeqDone(p, vals, Abs());
      ProgressDone(old(buf.bytes), buf.bytes, EncodeSeq(p, vals[i..], Abs()), all);
    }

    /** The array arm of the value encoder. */
    method EncodeArrayValue(items: seq<Json>, buf: ByteBuffer)
      requires Valid() && AllWellFormed(items) && Fits(EncodeArray(p, items, Abs()))
      modifies this, buf
      ensures Valid() && Abs() == EncodeArray(p, items, old(Abs())).tables
      ensures buf.bytes == old(buf.bytes) + EncodeArray(p, items, old(Abs())).bytes
      decreases items, 7
    {
      hide Valid, Leb, EncodeItems, EncodeChunks, HeaderFits;
      ghost var w := EncodeArray(p, items, Abs());
      if |items| > 1000 {
        var done := TryEncodeParallel(items, buf);
        if done {
          assert buf.bytes == old(buf.bytes) + w.bytes;
          return;
        }
      }
      var hash := FastArrayHash(items);
      ghost var key := ArrayDedupKey(p, items);
      LookupAgrees((ARRAY_MARKER, hash), key);
      if (ARRAY_MARKER, hash) in positionMap {
        WriteRef(positionMap[(ARRAY_MARKER, hash)], buf);
        return;
      }
      HeaderFitsEarlier(EncodeItems(p, items, Abs()).tables, w.tables);
      EncodeItemsOf(items, buf);
      Remember(ARRAY_MARKER, hash, key);
    }

    /** Columns where they apply, else a plain list; also the body of `EncodeSlice`. */
    method EncodeItemsOf(items: seq<Json>, buf: ByteBuffer)
      requires Valid() && AllWellFormed(items) && Fits(EncodeItems(p, items, Abs()))
      modifies this, buf
      ensures Valid() && Abs() == EncodeItems(p, items, old(Abs())).tables
      ensures buf.bytes == old(buf.bytes) + EncodeItems(p, items, old(Abs())).bytes
      decreases items, 5
    {
      hide Leb, Valid, EncodeColumns, EncodeSeq, HeaderFits;
      ghost var t, w := Abs(), EncodeItems(p, items, Abs());
      var done := TryEncodeColumnar(items, buf);
      if !done {
        buf.Push(TAG_ARRAY);
        WriteVarint(|items|, buf);
        ghost var ws := EncodeSeq(p, items, Abs());
        EncodeAll(items, buf);
        assert buf.bytes == old(buf.bytes) + ([TAG_ARRAY] + Leb(|items|) + ws.bytes);
      }
    }

    // ----- columns -----

    method TryEncodeColumnar(items: seq<Json>, buf: ByteBuffer) returns (done: bool)
      requires Valid() && AllWellFormed(items) && Fits(EncodeItems(p, items, Abs()))
      modifies this, buf
      ensures Valid() && done == IsColumnar(items)
      ensures done ==> Abs() == EncodeItems(p, items, old(Abs())).tables
      ensures done ==> buf.bytes == old(buf.bytes) + EncodeItems(p, items, old(Abs())).bytes
      ensures !done ==> Abs() == ProbeShape(items, old(Abs())) && buf.bytes == old(buf.bytes)
      decreases items, 3
    {
      if |items| < MIN_COLUMN {
        return false;
      }
      if !items[0].Object? {
        return false;
      }
      hide Leb, Valid, EncodeColumns, EncodeSeq, HeaderFits, InternShape, KeysOf, AllShaped, WellFormed;
      ghost var t, w := Abs(), EncodeItems(p, items, Abs());
      var keys := items[0].keys;
      HeaderFitsEarlier(InternShape(t, keys).0, w.tables);
      HeaderFitsNumbers(InternShape(t, keys).0);
      var id := GetShapeIdFromMap(keys);
      done := HasOneShape(items, keys);
      if done {
        WriteColumns(items, keys, id, buf);
      }
    }

    /** The column-major form: its tag, the table's dimensions, then the columns. */
    method WriteColumns(items: seq<Json>, keys: seq<Text>, id: u32, buf: ByteBuffer)
      requires Valid() && AllWellFormed(items) && AllShaped(items, keys) && 0 < |items| < U32
      requires id < |shapePool| && Spells(stringPool, shapePool[id], keys)
      requires Fits(EncodeColumns(p, items, keys, 0, Abs()))
      modifies this, buf
      ensures Valid() && Abs() == EncodeColumns(p, items, keys, 0, old(Abs())).tables
      ensures buf.bytes == old(buf.bytes)
           + ([TAG_COLUMNS] + Leb(|items|) + Leb(id) + EncodeColumns(p, items, keys, 0, old(Abs())).bytes)
      decreases items, 2, 1
    {
      hide Leb, EncodeColumns, HeaderFits, AllShaped, WellFormed, PositionsMatch, Indexes;
      buf.Push(TAG_COLUMNS);
      WriteVarint(|items|, buf);
      WriteVarint(id, buf);
      var names := ResolveNames(id);
      assert names == keys;
      EncodeColumnsOf(items, names, buf);
    }

    /** Every item is an object with exactly these keys in this order. */
    static method HasOneShape(items: seq<Json>, keys: seq<Text>) returns (same: bool)
      requires AllWellFormed(items) && |items| > 0 && items[0].Object? && items[0].keys == keys
      ensures same == AllShaped(items, keys)
    {
      var i := 1;
      assert WellFormed(items[0]);
      while i < |items|
        invariant 1 <= i <= |items| && AllShaped(items[..i], keys)
      {
        if !items[i].Object? {
          return false;
        }
        if |items[i].keys| != |keys| {
          return false;
        }
        if items[i].keys != keys {
          return false;
        }
        assert WellFormed(items[i]);
        assert items[..i + 1] == items[..i] + [items[i]];
        i := i + 1;
      }
      assert items[..i] == items;
      same := true;
    }

    /** The key names of a shape, looked up once. */
    method ResolveNames(id: nat) returns (names: seq<Text>)
      requires Valid() && id < |shapePool|
      ensures names == KeysOf(stringPool, shapePool[id])
    {
      names := [];
      var shape := shapePool[id];
      var i := 0;
      while i < |shape|
        invariant i <= |shape| && names == KeysOf(stringPool, shape)[..i]
      {
        names := names + [stringPool[shape[i]]];
        i := i + 1;
      }
    }

    /** Indexing an object by key name: null when the key is missing. */
    static function Lookup(obj: Json, key: Text): Json {
      if obj.Object? && IndexOf(obj.keys, key) < |obj.keys| && |obj.vals| == |obj.keys|
      then obj.vals[IndexOf(obj.keys, key)]
      else Null
    }

    lemma LookupIsCell(items: seq<Json>, names: seq<Text>, k: nat, i: nat)
      requires AllWellFormed(items) && AllShaped(items, names) && k < |names| && i < |items|
      ensures Lookup(items[i], names[k]) == Column(items, names, k)[i]
      ensures WellFormed(items[i].vals[k])
    {
      assert WellFormed(items[i]) && AllWellFormed(items[i].vals);
      IndexOfDistinct(names, k);
    }

    method EncodeColumnsOf(items: seq<Json>, names: seq<Text>, buf: ByteBuffer)
      requires Valid() && AllWellFormed(items) && AllShaped(items, names) && |items| > 0
      requires Fits(EncodeColumns(p, items, names, 0, Abs()))
      modifies this, buf
      ensures Valid() && Abs() == EncodeColumns(p, items, names, 0, old(Abs())).tables
      ensures buf.bytes == old(buf.bytes) + EncodeColumns(p, items, names, 0, old(Abs())).bytes
      decreases items, 2, 0
    {
      hide Valid, EncodeColumn, HeaderFits, Progress;
      ghost var all := EncodeColumns(p, items, names, 0, Abs());
      var k := 0;
      ProgressStart(buf.bytes, all);
      while k < |names|
        invariant k <= |names| && Valid()
        invariant Progress(old(buf.bytes), buf.bytes, EncodeColumns(p, items, names, k, Abs()), all)
      {
        ghost var w := EncodeColumn(p, items, names, k, 0, Abs());
        ghost var rest := EncodeColumns(p, items, names, k + 1, w.tables);
        ProgressStep(old(buf.bytes), buf.bytes, w.bytes, w.fits, rest, all);
        HeaderFitsEarlier(w.tables, all.tables);
        EncodeColumnOf(items, names, k, buf);
        k := k + 1;
      }
      ProgressDone(old(buf.bytes), buf.bytes, EncodeColumns(p, items, names, k, Abs()), all);
    }

    lemma ColumnTurn(items: seq<Json>, names: seq<Text>, k: nat, i: nat, t: Tables)
      requires AllShaped(items, names) && k < |names| && i < |items|
      ensures
        var n := Stride(Column(items, names, k), i);
        var w := EncodeValue(p, items[i].vals[k], t);
        EncodeColumn(p, items, names, k, i, t)
        == Then(EncodeColumn(p, items, names, k, i + n, w.tables), RunPrefix(n) + w.bytes, w.fits)
    {
      hide EncodeValue, Stride, Column;
    }

    lemma ColumnOver(items: seq<Json>, names: seq<Text>, k: nat, t: Tables)
      requires AllShaped(items, names) && k < |names|
      ensures EncodeColumn(p, items, names, k, |items|, t) == Written(t, [], true)
    {
    }

    /** One column, long runs of an equal scalar written once. */
    method EncodeColumnOf(items: seq<Json>, names: seq<Text>, k: nat, buf: ByteBuffer)
      requires Valid() && AllWellFormed(items) && AllShaped(items, names) && k < |names|
      requires Fits(EncodeColumn(p, items, names, k, 0, Abs()))
      modifies this, buf
      ensures Valid() && Abs() == EncodeColumn(p, items, names, k, 0, old(Abs())).tables
      ensures buf.bytes == old(buf.bytes) + EncodeColumn(p, items, names, k, 0, old(Abs())).bytes
      decreases items, 1
    {
      hide Valid, EncodeValue, EncodeColumn, HeaderFits, Progress, Stride, Column, WellFormed, Leb;
      ghost var all := EncodeColumn(p, items, names, k, 0, Abs());
      var i := 0;
      ProgressStart(buf.bytes, all);
      while i < |items|
        invariant i <= |items| && Valid()
        invariant Progress(old(buf.bytes), buf.bytes, EncodeColumn(p, items, names, k, i, Abs()), all)
      {
        ghost var n := Stride(Column(items, names, k), i);
        ghost var w := EncodeValue(p, items[i].vals[k], Abs());
        ghost var rest := EncodeColumn(p, items, names, k, i + n, w.tables);
        ColumnTurn(items, names, k, i, Abs());
        ProgressStep(old(buf.bytes), buf.bytes, RunPrefix(n) + w.bytes, w.fits, rest, all);
        HeaderFitsEarlier(w.tables, all.tables);
        i := EncodeEntry(items, names, k, i, buf);
      }
      ColumnOver(items, names, k, Abs());
      ProgressDone(old(buf.bytes), buf.bytes, EncodeColumn(p, items, names, k, i, Abs()), all);
    }

    /** One turn of the column loop: a run or a single value, and the next row. */
    method EncodeEntry(items: seq<Json>, names: seq<Text>, k: nat, i: nat, buf: ByteBuffer) returns (next: nat)
      requires Valid() && AllWellFormed(items) && AllShaped(items, names) && k < |names| && i < |items|
      requires Fits(EncodeValue(p, items[i].vals[k], Abs()))
      modifies this, buf
      ensures next == i + Stride(Column(items, names, k), i)
      ensures Valid() && Abs() == EncodeValue(p, items[i].vals[k], old(Abs())).tables
      ensures buf.bytes == old(buf.bytes)
           + (RunPrefix(next - i) + EncodeValue(p, items[i].vals[k], old(Abs())).bytes)
      decreases items, 0
    {
      hide Valid, EncodeValue, HeaderFits, Lookup, Run, Column, WellFormed, Leb;
      LookupIsCell(items, names, k, i);
      var val := Lookup(items[i], names[k]);
      var run := CountRun(items, names, k, i, val);
      if run > 0 {
        if run >= MIN_RUN {
          buf.Push(TAG_RUN);
          WriteVarint(run + 1, buf);
          EncodeRecursive(val, buf);
          return i + run + 1;
        }
      }
      EncodeRecursive(val, buf);
      next := i + 1;
    }

    /** Look ahead for equal scalars, at most MAX_RUN of them. */
    method CountRun(items: seq<Json>, names: seq<Text>, k: nat, i: nat, val: Json) returns (run: nat)
      requires AllWellFormed(items) && AllShaped(items, names) && k < |names| && i < |items|
      requires val == Column(items, names, k)[i]
      ensures run == Run(Column(items, names, k), i)
    {
      hide Lookup, Column, WellFormed, AllShaped, SameScalar;
      ghost var col := Column(items, names, k);
      run := 0;
      if !val.IsComposite() {
        var j := i + 1;
        while j < |items| && run < MAX_RUN
          invariant j == i + 1 + run <= |items| && run <= MAX_RUN
          invariant forall r :: i < r <= i + run ==> SameScalar(col[r], col[i])
          invariant RunFrom(col, i, run) == Run(col, i)
        {
          LookupIsCell(items, names, k, j);
          if SameScalar(Lookup(items[j], names[k]), val) {
            run := run + 1;
            j := j + 1;
          } else {
            break;
          }
        }
      }
    }

    // ----- oversized arrays -----

    method TryEncodeParallel(items: seq<Json>, buf: ByteBuffer) returns (done: bool)
      requires AllWellFormed(items)
      requires |items| > PARALLEL_ABOVE ==> EncodeChunks(p, items).1 && |items| < U32
      modifies buf
      ensures done == (|items| > PARALLEL_ABOVE)
      ensures buf.bytes == if done
        then old(buf.bytes) + [TAG_PARTS] + Leb(ChunkCount(|items|)) + EncodeChunks(p, items).0
        else old(buf.bytes)
      decreases items, 6
    {
      hide Leb, EncodeChunks;
      done := false;
      if |items| > PARALLEL_ABOVE {
        var chunks := EncodeParts(items);
        buf.Push(TAG_PARTS);
        WriteVarint(|chunks|, buf);
        ghost var head := buf.bytes;
        var c := 0;
        while c < |chunks|
          invariant c <= |chunks| && buf.bytes == head + Frames(chunks[..c])
        {
          assert chunks[..c + 1] == chunks[..c] + [chunks[c]];
          FramesAppend(chunks[..c], chunks[c]);
          WriteVarint(|chunks[c]|, buf);
          buf.Extend(chunks[c]);
          c := c + 1;
        }
        assert chunks[..c] == chunks;
        done := true;
      }
    }

    /** The chunks, each encoded by an encoder of its own. */
    method EncodeParts(items: seq<Json>) returns (chunks: seq<seq<byte>>)
      requires AllWellFormed(items) && EncodeChunks(p, items).1 && |items| > PARALLEL_ABOVE
      ensures |chunks| == ChunkCount(|items|) && Frames(chunks) == EncodeChunks(p, items).0
      ensures forall c :: 0 <= c < |chunks| ==> |chunks[c]| < U32
      decreases items, 5
    {
      hide Leb, Frames, Valid, WellFormed, AllWellFormed, EncodeChunks, ChunkCount, GbpEncoding.EncodeSlice;
      chunks := [];
      var pos := 0;
      assert items[0..] == items;
      FramesOfNone(EncodeChunks(p, items).0);
      while pos < |items|
        invariant pos <= |items|
        invariant |chunks| + ChunkCount(|items| - pos) == ChunkCount(|items|)
        invariant EncodeChunks(p, items[pos..]).1 && forall c :: 0 <= c < |chunks| ==> |chunks[c]| < U32
        invariant Frames(chunks) + EncodeChunks(p, items[pos..]).0 == EncodeChunks(p, items).0
      {
        var end := if |items| - pos <= CHUNK then |items| else pos + CHUNK;
        ChunkStep(p, items, pos, end);
        var part := EncodeChunk(items, pos, end);
        ghost var later := EncodeChunks(p, items[end..]).0;
        FramesAppend(chunks, part);
        assert Frames(chunks) + (Leb(|part|) + part + later) == Frames(chunks + [part]) + later;
        chunks := chunks + [part];
        pos := end;
      }
      FramesAllDone(p, items, chunks);
    }

    static lemma ChunkStep(p: Platform, items: seq<Json>, pos: nat, end: nat)
      requires AllWellFormed(items) && pos < |items| && end == (if |items| - pos <= CHUNK then |items| else pos + CHUNK)
      ensures AllWellFormed(items[pos..end])
      ensures ChunkCount(|items| - pos) == 1 + ChunkCount(|items| - end)
      ensures var (part, fits) := GbpEncoding.EncodeSlice(p, items[pos..end]);
        var (later, more) := EncodeChunks(p, items[end..]);
        EncodeChunks(p, items[pos..]) == (Leb(|part|) + part + later, |part| < U32 && fits && more)
    {
      hide Leb, WellFormed, EncodeItems;
      var rest := items[pos..];
      assert items[pos..end] == rest[..end - pos] && items[end..] == rest[end - pos..];
    }

    /** The work of one parallel task: a fresh encoder for one chunk. */
    method EncodeChunk(items: seq<Json>, pos: nat, end: nat) returns (part: seq<byte>)
      requires pos < end <= |items| && (pos > 0 || end < |items|)
      requires AllWellFormed(items[pos..end]) && GbpEncoding.EncodeSlice(p, items[pos..end]).1
      ensures part == GbpEncoding.EncodeSlice(p, items[pos..end]).0
      decreases items, 4
    {
      var chunk := items[pos..end];
      assert chunk == items[..end][pos..];
      assert if end == |items| then items[..end] == items else pos == 0 ==> chunk == items[..end];
      var encoder := new GbpEncoder(p);
      part := encoder.EncodeSlice(chunk);
    }

    static lemma FramesOfNone(later: seq<byte>)
      ensures Frames([]) + later == later
    {
    }

    static lemma FramesAllDone(p: Platform, items: seq<Json>, chunks: seq<seq<byte>>)
      ensures Frames(chunks) + EncodeChunks(p, items[|items|..]).0 == Frames(chunks) && ChunkCount(0) == 0
    {
    }

    /** Each part behind its length. */
    static ghost function Frames(chunks: seq<seq<byte>>): seq<byte> {
      if chunks == [] then [] else Leb(|chunks[0]|) + chunks[0] + Frames(chunks[1..])
    }

    static lemma {:induction false} FramesAppend(chunks: seq<seq<byte>>, part: seq<byte>)
      ensures Frames(chunks + [part]) == Frames(chunks) + (Leb(|part|) + part)
    {
      if chunks == [] {
        assert (chunks + [part])[1..] == [];
      } else {
        assert (chunks + [part])[1..] == chunks[1..] + [part];
        FramesAppend(chunks[1..], part);
      }
    }

    // ----- whole messages -----

    method EncodeSlice(items: seq<Json>) returns (bytes: seq<byte>)
      requires AllWellFormed(items) && GbpEncoding.EncodeSlice(p, items).1
      modifies this
      ensures Valid() && bytes == GbpEncoding.EncodeSlice(p, items).0
      decreases items, 6
    {
      hide EncodeItems, HeaderFits, Valid, EncodeStrings, EncodeShapes, Leb, WellFormed;
      Clear();
      var data := new ByteBuffer();
      EncodeItemsOf(items, data);
      bytes := Assemble(data.bytes);
    }

    method Encode(v: Json) returns (bytes: seq<byte>)
      requires WellFormed(v) && GbpEncoding.Encode(p, v).1
      modifies this
      ensures Valid() && bytes == GbpEncoding.Encode(p, v).0
    {
      hide EncodeValue, HeaderFits, Valid, EncodeStrings, EncodeShapes, Leb, WellFormed;
      Clear();
      var data := new ByteBuffer();
      EncodeRecursive(v, data);
      bytes := Assemble(data.bytes);
    }

    /** The header, written from the tables as they stand after the body, then the body. */
    method Assemble(data: seq<byte>) returns (bytes: seq<byte>)
      requires Valid() && HeaderFits(Abs())
      ensures bytes == Message(Written(Abs(), data, true)).0
    {
      hide Leb, Valid, EncodeStrings, EncodeShapes, EncodeIndices;
      var buf := new ByteBuffer();
      buf.Extend(MAGIC);
      WriteVarint(|stringPool|, buf);
      ghost var head := buf.bytes;
      EmptyHeader();
      var i := 0;
      while i < |stringPool|
        invariant i <= |stringPool| && buf.bytes == head + EncodeStrings(stringPool[..i])
      {
        assert stringPool[..i + 1] == stringPool[..i] + [stringPool[i]];
        StringsAppend(stringPool[..i], stringPool[i]);
        WriteVarint(|stringPool[i]|, buf);
        buf.Extend(stringPool[i]);
        i := i + 1;
      }
      assert stringPool[..i] == stringPool;
      WriteVarint(|shapePool|, buf);
      head := buf.bytes;
      i := 0;
      while i < |shapePool|
        invariant i <= |shapePool| && buf.bytes == head + EncodeShapes(shapePool[..i])
      {
        assert shapePool[..i + 1] == shapePool[..i] + [shapePool[i]];
        ShapesAppend(shapePool[..i], shapePool[i]);
        WriteShape(shapePool[i], buf);
        i := i + 1;
      }
      assert shapePool[..i] == shapePool;
      buf.Extend(data);
      bytes := buf.bytes;
    }

    static lemma EmptyHeader()
      ensures EncodeStrings([]) == [] && EncodeShapes([]) == []
    {
    }

    static lemma {:induction false} StringsAppend(strings: seq<Text>, s: Text)
      ensures EncodeStrings(strings + [s]) == EncodeStrings(strings) + (Leb(|s|) + s)
    {
      hide Leb;
      if strings == [] {
        assert (strings + [s])[1..] == [];
      } else {
        assert (strings + [s])[1..] == strings[1..] + [s];
        StringsAppend(strings[1..], s);
      }
    }

    static lemma {:induction false} ShapesAppend(shapes: seq<seq<nat>>, shape: seq<nat>)
      ensures EncodeShapes(shapes + [shape]) == EncodeShapes(shapes) + (Leb(|shape|) + EncodeIndices(shape))
    {
      hide Leb, EncodeIndices;
      if shapes == [] {
        assert (shapes + [shape])[1..] == [];
      } else {
        assert (shapes + [shape])[1..] == shapes[1..] + [shape];
        ShapesAppend(shapes[1..], shape);
      }
    }

    static lemma {:induction false} IndicesAppend(shape: seq<nat>, i: nat)
      ensures EncodeIndices(shape + [i]) == EncodeIndices(shape) + Leb(i)
    {
      hide Leb;
      if shape == [] {
        assert (shape + [i])[1..] == [];
      } else {
        assert (shape + [i])[1..] == shape[1..] + [i];
        IndicesAppend(shape[1..], i);
      }
    }

    static method WriteShape(shape: seq<nat>, buf: ByteBuffer)
      requires ShapeFits(shape)
      modifies buf
      ensures buf.bytes == old(buf.bytes) + (Leb(|shape|) + EncodeIndices(shape))
    {
      hide Leb;
      WriteVarint(|shape|, buf);
      ghost var head := buf.bytes;
      var k := 0;
      while k < |shape|
        invariant k <= |shape| && buf.bytes == head + EncodeIndices(shape[..k])
      {
        assert shape[..k + 1] == shape[..k] + [shape[k]];
        IndicesAppend(shape[..k], shape[k]);
        WriteVarint(shape[k], buf);
        k := k + 1;
      }
      assert shape[..k] == shape;
    }
  }
}
