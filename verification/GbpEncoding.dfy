/**
 What the encoder writes, as a function of the value and of the encoder's tables.  The tables are
 lists, in which a string or shape has the number of its first occurrence, and a map from keys of
 composites to the numbers a counter gives them.  Next to the bytes each function tells whether every length and number
 written so far fits the 32 bits that the source casts it to.
 `GbpEncoderClass` proves the encoder's methods against these functions.
 */
module GbpEncoding {
  import opened Varint
  import opened GbpTypes

  const TAG_NULL: byte := 0x00
  const TAG_TRUE: byte := 0x01
  const TAG_FALSE: byte := 0x02
  const TAG_INT: byte := 0x03
  const TAG_FLOAT: byte := 0x04
  const TAG_STRING: byte := 0x05
  const TAG_ARRAY: byte := 0x06
  const TAG_OBJECT: byte := 0x07
  const TAG_REF: byte := 0x08
  const TAG_COLUMNS: byte := 0x09
  const TAG_SHORT_STRING: byte := 0x0A
  const TAG_RUN: byte := 0x0B
  const TAG_PARTS: byte := 0x0C
  const MAGIC: seq<byte> := [0x47, 0x42, 0x50, 0x08]

  const ARRAY_MARKER: nat := 0xFFFF_FFFF
  const MIN_COLUMN: nat := 8
  const MIN_RUN: nat := 15
  const MAX_RUN: nat := 2_000_000
  const PARALLEL_ABOVE: nat := 50_000
  const CHUNK: nat := 25_000

  // ----- the shallow content hash -----

  function ShallowAtoms(p: Platform, v: Json): seq<Atom> {
    match v
    case Null => [WriteU8(0)]
    case Bool(b) => [WriteU8(if b then 1 else 0)]
    case Int(i) => [WriteI64(i)]
    case Big(u) => [WriteU64(p.round(u))]
    case Float(bits) => [WriteU64(bits)]
    case Str(s) => [WriteStr(s)]
    case Array(items) => [WriteU8(1), WriteUsize(|items|)]
    case Object(keys, _) => [WriteU8(2), WriteUsize(|keys|)]
  }

  function ContentAtoms(p: Platform, vals: seq<Json>): seq<Atom> {
    if vals == [] then [] else ShallowAtoms(p, vals[0]) + ContentAtoms(p, vals[1..])
  }

  function ArrayAtoms(p: Platform, items: seq<Json>): seq<Atom> {
    [WriteUsize(|items|)]
    + (if items == [] then [] else ShallowAtoms(p, items[0]))
    + (if |items| <= 1 then [] else ShallowAtoms(p, items[|items| - 1]))
  }

  /** What a composite is remembered under. */
  datatype DedupKey = ObjectKey(keys: seq<Text>, hash: nat) | ArrayKey(hash: nat)

  function ObjectDedupKey(p: Platform, keys: seq<Text>, vals: seq<Json>): DedupKey {
    ObjectKey(keys, p.digest(ContentAtoms(p, vals)))
  }

  function ArrayDedupKey(p: Platform, items: seq<Json>): DedupKey {
    ArrayKey(p.digest(ArrayAtoms(p, items)))
  }

  // ----- the encoder's tables -----

  /**
   Interned strings and shapes (a shape lists the indices of an object's keys), the
   composites remembered so far, and how many there have been.
   */
  datatype Tables = Tables(strings: seq<Text>, shapes: seq<seq<nat>>, positions: map<DedupKey, nat>, counter: nat)

  const EMPTY_TABLES := Tables([], [], map[], 0)

  ghost predicate Extends(t: Tables, t': Tables) {
    t.strings <= t'.strings && t.shapes <= t'.shapes && t.counter <= t'.counter
  }

  function Intern(pool: seq<Text>, s: Text): (r: (seq<Text>, nat))
    ensures pool <= r.0 && r.1 < |r.0| && r.0[r.1] == s
  {
    var i := IndexOf(pool, s);
    if i < |pool| then (pool, i) else (pool + [s], i)
  }

  function InternAll(pool: seq<Text>, keys: seq<Text>): (r: (seq<Text>, seq<nat>))
    ensures pool <= r.0 && |r.1| == |keys|
    ensures forall k :: 0 <= k < |keys| ==> r.1[k] < |r.0| && r.0[r.1[k]] == keys[k]
    decreases |keys|
  {
    if keys == [] then (pool, [])
    else
      var (pool1, i) := Intern(pool, keys[0]);
      var (pool2, rest) := InternAll(pool1, keys[1..]);
      (pool2, [i] + rest)
  }

  function InternShape(t: Tables, keys: seq<Text>): (r: (Tables, nat))
    ensures Extends(t, r.0) && r.0.positions == t.positions && r.0.counter == t.counter
    ensures r.1 < |r.0.shapes| && Spells(r.0.strings, r.0.shapes[r.1], keys)
  {
    var (strings, shape) := InternAll(t.strings, keys);
    var id := IndexOf(t.shapes, shape);
    var shapes := if id < |t.shapes| then t.shapes else t.shapes + [shape];
    (t.(strings := strings, shapes := shapes), id)
  }

  /** The shape names exactly these keys. */
  ghost predicate Spells(strings: seq<Text>, shape: seq<nat>, keys: seq<Text>) {
    |shape| == |keys|
    && forall k :: 0 <= k < |keys| ==> shape[k] < |strings| && strings[shape[k]] == keys[k]
  }

  function Register(t: Tables, key: DedupKey): Tables {
    t.(positions := t.positions[key := t.counter], counter := t.counter + 1)
  }

  // ----- the body -----

  /**
   The tables after writing, the bytes written, and whether every length and index cast
   to u32 on the way was below 2^32.
   */
  datatype Written = Written(tables: Tables, bytes: seq<byte>, fits: bool)

  function Then(w: Written, prefix: seq<byte>, fits: bool): Written {
    w.(bytes := prefix + w.bytes, fits := fits && w.fits)
  }

  function EncodeValue(p: Platform, v: Json, t: Tables): (w: Written)
    ensures Extends(t, w.tables)
    decreases v, 6
  {
    match v
    case Null => Written(t, [TAG_NULL], true)
    case Bool(b) => Written(t, [if b then TAG_TRUE else TAG_FALSE], true)
    case Int(i) => Written(t, [TAG_INT] + LebI64(i), true)
    case Big(u) => Written(t, [TAG_FLOAT] + p.round(u), true)
    case Float(bits) => Written(t, [TAG_FLOAT] + bits, true)
    case Str(s) =>
      if |s| > 2 then
        var (strings, i) := Intern(t.strings, s);
        Written(t.(strings := strings), [TAG_STRING] + Leb(i), true)
      else Written(t, [TAG_SHORT_STRING] + Leb(|s|) + s, true)
    case Array(items) => EncodeArray(p, items, t)
    case Object(keys, vals) =>
      var (t1, id) := InternShape(t, keys);
      var key := ObjectDedupKey(p, keys, vals);
      if keys == [] then Written(t1, [TAG_OBJECT] + Leb(id), true)
      else if key in t1.positions then EncodeRef(t1, key)
      else
        var w := EncodeSeq(p, vals, t1);
        Written(Register(w.tables, key), [TAG_OBJECT] + Leb(id) + w.bytes, w.fits)
  }

  function EncodeRef(t: Tables, key: DedupKey): Written
    requires key in t.positions
  {
    Written(t, [TAG_REF] + Leb(t.positions[key]), t.positions[key] < U32)
  }

  function EncodeSeq(p: Platform, vals: seq<Json>, t: Tables): (w: Written)
    ensures Extends(t, w.tables)
    decreases vals, 0
  {
    if vals == [] then Written(t, [], true)
    else
      var w := EncodeValue(p, vals[0], t);
      Then(EncodeSeq(p, vals[1..], w.tables), w.bytes, w.fits)
  }

  function EncodeArray(p: Platform, items: seq<Json>, t: Tables): (w: Written)
    ensures Extends(t, w.tables)
    decreases items, 5
  {
    var key := ArrayDedupKey(p, items);
    if |items| > PARALLEL_ABOVE then
      var (bytes, fits) := EncodeChunks(p, items);
      Written(t, [TAG_PARTS] + Leb(ChunkCount(|items|)) + bytes, fits && |items| < U32)
    else if key in t.positions then EncodeRef(t, key)
    else
      var w := EncodeItems(p, items, t);
      w.(tables := Register(w.tables, key))
  }

  /** Eight or more objects with one key sequence. */
  predicate IsColumnar(items: seq<Json>) {
    |items| >= MIN_COLUMN && items[0].Object? && AllShaped(items, items[0].keys)
  }

  predicate AllShaped(items: seq<Json>, keys: seq<Text>) {
    forall i {:trigger items[i]} :: 0 <= i < |items| ==>
      items[i].Object? && items[i].keys == keys && |items[i].vals| == |keys|
  }

  /** The values of the k-th key, in row order. */
  function Column(items: seq<Json>, keys: seq<Text>, k: nat): (col: seq<Json>)
    requires AllShaped(items, keys) && k < |keys|
    ensures |col| == |items| && forall i :: 0 <= i < |items| ==> col[i] == items[i].vals[k]
  {
    seq(|items|, i requires 0 <= i < |items| => items[i].vals[k])
  }

  /** The columnar attempt interns the first object's keys even when it then gives up. */
  function ProbeShape(items: seq<Json>, t: Tables): (t': Tables)
    ensures Extends(t, t') && t'.positions == t.positions && t'.counter == t.counter
  {
    if |items| >= MIN_COLUMN && items[0].Object? then InternShape(t, items[0].keys).0 else t
  }

  /** The contents of an array: column by column where that applies, else item by item. */
  function EncodeItems(p: Platform, items: seq<Json>, t: Tables): (w: Written)
    ensures Extends(t, w.tables)
    decreases items, 3
  {
    if IsColumnar(items) then
      var (t1, id) := InternShape(t, items[0].keys);
      Then(EncodeColumns(p, items, items[0].keys, 0, t1), [TAG_COLUMNS] + Leb(|items|) + Leb(id), |items| < U32)
    else
      Then(EncodeSeq(p, items, ProbeShape(items, t)), [TAG_ARRAY] + Leb(|items|), |items| < U32)
  }

  function EncodeColumns(p: Platform, items: seq<Json>, keys: seq<Text>, k: nat, t: Tables): (w: Written)
    requires k <= |keys| && AllShaped(items, keys)
    ensures Extends(t, w.tables)
    decreases items, 2, |keys| - k
  {
    if k == |keys| then Written(t, [], true)
    else
      var w := EncodeColumn(p, items, keys, k, 0, t);
      Then(EncodeColumns(p, items, keys, k + 1, w.tables), w.bytes, w.fits)
  }

  /** Column k from row i on. */
  function EncodeColumn(p: Platform, items: seq<Json>, keys: seq<Text>, k: nat, i: nat, t: Tables): (w: Written)
    requires k < |keys| && i <= |items| && AllShaped(items, keys)
    ensures Extends(t, w.tables)
    decreases items, 1, |items| - i
  {
    if i == |items| then Written(t, [], true)
    else
      var n := Stride(Column(items, keys, k), i);
      var w := EncodeValue(p, items[i].vals[k], t);
      Then(EncodeColumn(p, items, keys, k, i + n, w.tables), RunPrefix(n) + w.bytes, w.fits)
  }

  /** Rows covered by one entry of a column: a long run, or a single row. */
  function Stride(col: seq<Json>, i: nat): (n: nat)
    requires i < |col|
    ensures 1 <= n && i + n <= |col| && n <= MAX_RUN + 1
    ensures forall j :: i <= j < i + n ==> SameScalar(col[j], col[i])
    ensures n > 1 ==> !col[i].IsComposite()
  {
    if Run(col, i) >= MIN_RUN then Run(col, i) + 1 else 1
  }

  function RunPrefix(n: nat): seq<byte> {
    if n > 1 then [TAG_RUN] + Leb(n) else []
  }

  /** Equality of scalars as the JSON library defines it: the two zeros are equal. */
  predicate SameScalar(a: Json, b: Json) {
    a == b || (a.Float? && b.Float? && IsZero(a.bits) && IsZero(b.bits))
  }

  /** How many entries after the i-th repeat it, when it is a scalar. */
  function Run(col: seq<Json>, i: nat): (run: nat)
    requires i < |col|
    ensures i + run < |col| && run <= MAX_RUN
    ensures forall j :: i < j <= i + run ==> SameScalar(col[j], col[i])
    ensures run > 0 ==> !col[i].IsComposite()
  {
    if col[i].IsComposite() then 0 else RunFrom(col, i, 0)
  }

  function RunFrom(col: seq<Json>, i: nat, run: nat): (run': nat)
    requires i + run < |col| && run <= MAX_RUN
    requires forall j :: i < j <= i + run ==> SameScalar(col[j], col[i])
    ensures i + run' < |col| && run <= run' <= MAX_RUN
    ensures forall j :: i < j <= i + run' ==> SameScalar(col[j], col[i])
    decreases MAX_RUN - run
  {
    if i + run + 1 < |col| && run < MAX_RUN && SameScalar(col[i + run + 1], col[i])
    then RunFrom(col, i, run + 1)
    else run
  }

  // ----- whole messages -----

  function ChunkCount(n: nat): nat {
    (n + CHUNK - 1) / CHUNK
  }

  /** Each chunk of an oversized array is a message of its own, written with fresh tables. */
  function EncodeChunks(p: Platform, items: seq<Json>): (r: (seq<byte>, bool))
    decreases items, 4, |items|
  {
    if items == [] then ([], true)
    else
      var n := if |items| <= CHUNK then |items| else CHUNK;
      assert n == |items| ==> items[..n] == items;
      var part := EncodeSlice(p, items[..n]);
      var (bytes, fits) := EncodeChunks(p, items[n..]);
      (Leb(|part.0|) + part.0 + bytes, |part.0| < U32 && part.1 && fits)
  }

  function EncodeSlice(p: Platform, items: seq<Json>): (seq<byte>, bool)
    decreases items, 4, 0
  {
    Message(EncodeItems(p, items, EMPTY_TABLES))
  }

  function Encode(p: Platform, v: Json): (seq<byte>, bool) {
    Message(EncodeValue(p, v, EMPTY_TABLES))
  }

  /** The header is written last, from the final tables, and stands first. */
  function Message(w: Written): (seq<byte>, bool) {
    (MAGIC + Leb(|w.tables.strings|) + EncodeStrings(w.tables.strings)
     + Leb(|w.tables.shapes|) + EncodeShapes(w.tables.shapes) + w.bytes,
     w.fits && HeaderFits(w.tables))
  }

  function EncodeStrings(strings: seq<Text>): seq<byte> {
    if strings == [] then [] else Leb(|strings[0]|) + strings[0] + EncodeStrings(strings[1..])
  }

  function EncodeShapes(shapes: seq<seq<nat>>): seq<byte> {
    if shapes == [] then [] else Leb(|shapes[0]|) + EncodeIndices(shapes[0]) + EncodeShapes(shapes[1..])
  }

  function EncodeIndices(shape: seq<nat>): seq<byte> {
    if shape == [] then [] else Leb(shape[0]) + EncodeIndices(shape[1..])
  }

  /** The pools, their entries and the value counter are counted in u32; no shape is numbered as the array marker. */
  predicate HeaderFits(t: Tables) {
    |t.strings| < U32 && (forall i :: 0 <= i < |t.strings| ==> |t.strings[i]| < U32)
    && |t.shapes| <= ARRAY_MARKER
    && (forall i :: 0 <= i < |t.shapes| ==> ShapeFits(t.shapes[i]))
    && t.counter < U32
  }

  predicate ShapeFits(shape: seq<nat>) {
    |shape| < U32 && forall k :: 0 <= k < |shape| ==> shape[k] < U32
  }
}
