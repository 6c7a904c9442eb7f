/**
 What a value becomes by being encoded and decoded, told on values alone: no bytes,
 no string or shape tables.  A composite whose key is already registered becomes the
 pooled composite its registration points at; a run of scalars becomes copies of its
 first; an integer too large for an i64 becomes a double.
 */
module GbpMeaning {
  import opened Wrappers
  import opened Varint
  import opened GbpTypes
  import opened GbpEncoding
  import opened GbpDecoding

  /** Registrations and their count on the encoder's side; the decoder's pool. */
  datatype Memory = Memory(positions: map<DedupKey, nat>, counter: nat, pool: seq<Json>)

  const FRESH := Memory(map[], 0, [])

  type Meant<T> = Option<(T, Memory)>

  function Recall(m: Memory, key: DedupKey): Meant<Json>
    requires key in m.positions
  {
    if m.positions[key] < |m.pool| then Some((m.pool[m.positions[key]], m)) else None
  }

  /** The encoder numbers every registered composite; the decoder pools those with contents. */
  function Remember(m: Memory, key: DedupKey, v: Json): Memory {
    Memory(m.positions[key := m.counter], m.counter + 1, if IsPooled(v) then m.pool + [v] else m.pool)
  }

  function MeanValue(p: Platform, v: Json, m: Memory): Meant<Json>
    decreases v, 6
  {
    match v
    case Big(u) => Some((Float(p.round(u)), m))
    case Array(items) => MeanArray(p, items, m)
    case Object(keys, vals) =>
      var key := ObjectDedupKey(p, keys, vals);
      if keys == [] then Some((Object([], []), m))
      else if key in m.positions then Recall(m, key)
      else
        var (vals', m') :- MeanSeq(p, vals, m);
        var v' := Object(keys, vals');
        Some((v', Remember(m', key, v')))
    case _ => Some((v, m))
  }

  function MeanSeq(p: Platform, vals: seq<Json>, m: Memory): (r: Meant<seq<Json>>)
    ensures r.Some? ==> |r.value.0| == |vals|
    decreases vals, 0
  {
    if vals == [] then Some(([], m))
    else
      var (v, m1) :- MeanValue(p, vals[0], m);
      var (vs, m2) :- MeanSeq(p, vals[1..], m1);
      Some(([v] + vs, m2))
  }

  function MeanArray(p: Platform, items: seq<Json>, m: Memory): Meant<Json>
    decreases items, 5
  {
    var key := ArrayDedupKey(p, items);
    if |items| > PARALLEL_ABOVE then
      var items' :- MeanChunks(p, items);
      Some((Array(items'), m))
    else if key in m.positions then Recall(m, key)
    else
      var (items', m') :- MeanItems(p, items, m);
      Some((Array(items'), Remember(m', key, Array(items'))))
  }

  function MeanItems(p: Platform, items: seq<Json>, m: Memory): (r: Meant<seq<Json>>)
    ensures r.Some? ==> |r.value.0| == |items|
    decreases items, 3
  {
    if IsColumnar(items) then
      var keys := items[0].keys;
      var (cols, m') :- MeanColumns(p, items, keys, 0, m);
      Some((Rows(|items|, keys, cols), m'))
    else MeanSeq(p, items, m)
  }

  /** Transposition: row i takes the i-th entry of every column. */
  function Rows(n: nat, keys: seq<Text>, cols: seq<seq<Json>>): (rows: seq<Json>)
    requires forall k :: 0 <= k < |cols| ==> |cols[k]| == n
    ensures |rows| == n
  {
    seq(n, i requires 0 <= i < n => Object(keys, seq(|cols|, k requires 0 <= k < |cols| => cols[k][i])))
  }

  /** The columns from the k-th on. */
  function MeanColumns(p: Platform, items: seq<Json>, keys: seq<Text>, k: nat, m: Memory): (r: Meant<seq<seq<Json>>>)
    requires k <= |keys| && AllShaped(items, keys)
    ensures r.Some? ==> |r.value.0| == |keys| - k
    ensures r.Some? ==> forall c :: 0 <= c < |r.value.0| ==> |r.value.0[c]| == |items|
    decreases items, 2, |keys| - k
  {
    if k == |keys| then Some(([], m))
    else
      var (col, m1) :- MeanColumn(p, items, keys, k, 0, m);
      var (cols, m2) :- MeanColumns(p, items, keys, k + 1, m1);
      Some(([col] + cols, m2))
  }

  function MeanColumn(p: Platform, items: seq<Json>, keys: seq<Text>, k: nat, i: nat, m: Memory): (r: Meant<seq<Json>>)
    requires k < |keys| && i <= |items| && AllShaped(items, keys)
    ensures r.Some? ==> |r.value.0| == |items| - i
    decreases items, 1, |items| - i
  {
    if i == |items| then Some(([], m))
    else
      var n := Stride(Column(items, keys, k), i);
      var (v, m1) :- MeanValue(p, items[i].vals[k], m);
      var (rest, m2) :- MeanColumn(p, items, keys, k, i + n, m1);
      Some((Repeat(v, n) + rest, m2))
  }

  function Repeat<T>(x: T, n: nat): (r: seq<T>)
    ensures |r| == n && forall i :: 0 <= i < n ==> r[i] == x
  {
    seq(n, _ => x)
  }

  /** Every chunk of an oversized array starts afresh, and none of it is remembered. */
  function MeanChunks(p: Platform, items: seq<Json>): (r: Option<seq<Json>>)
    ensures r.Some? ==> |r.value| == |items|
    decreases items, 4, |items|
  {
    if items == [] then Some([])
    else
      var n := if |items| <= CHUNK then |items| else CHUNK;
      assert n == |items| ==> items[..n] == items;
      var (part, _) :- MeanItems(p, items[..n], FRESH);
      var more :- MeanChunks(p, items[n..]);
      Some(part + more)
  }

  function Meaning(p: Platform, v: Json): Option<Json> {
    var (v', _) :- MeanValue(p, v, FRESH);
    Some(v')
  }
}
