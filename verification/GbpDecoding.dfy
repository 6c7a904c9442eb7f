/**
 What the decoder makes of any byte sequence, well-formed or not, as a function.  A reader takes
 the bytes that are left and returns what it read with the bytes left after it, or an error; the
 pool of composites and a pending run are passed along.  A run that is pending is replayed by
 whatever reads the next value, in a column or not.  The recursion ends because every other value
 takes a byte.
 `GbpDecoderClass` proves the decoder's methods against these functions.
 */
module GbpDecoding {
  import opened Utf8
  import opened Wrappers
  import opened Varint
  import opened GbpTypes
  import opened GbpEncoding

  datatype Header = Header(strings: seq<Text>, shapes: seq<seq<nat>>)

  /** The value pool, the run being replayed, and the bytes not yet read. */
  datatype State = State(pool: seq<Json>, runLeft: nat, runValue: Option<Json>, rest: seq<byte>)

  type Decoded<T> = Result<(T, State), DecodeError>

  function TakeBytes(s: seq<byte>, n: nat): (r: Result<(seq<byte>, seq<byte>), DecodeError>)
    ensures r.Ok? ==> |r.value.0| == n && r.value.0 + r.value.1 == s
  {
    if n <= |s| then Ok((s[..n], s[n..])) else Err(UnexpectedEof)
  }

  /** Composites with contents are pooled. */
  predicate IsPooled(v: Json) {
    match v
    case Object(keys, _) => keys != []
    case Array(items) => items != []
    case _ => false
  }

  function Pool(d: State, v: Json): State {
    if IsPooled(v) then d.(pool := d.pool + [v]) else d
  }

  /** Map insertion: an existing key keeps its place. */
  function Put(obj: Json, key: Text, val: Json): (r: Json)
    requires obj.Object? && |obj.keys| == |obj.vals|
    ensures r.Object? && |r.keys| == |r.vals|
  {
    var i := IndexOf(obj.keys, key);
    if i < |obj.keys| then Object(obj.keys, obj.vals[i := val])
    else Object(obj.keys + [key], obj.vals + [val])
  }

  predicate AllRecords(rows: seq<Json>) {
    forall i {:trigger rows[i]} :: 0 <= i < |rows| ==> rows[i].Object? && |rows[i].keys| == |rows[i].vals|
  }

  function PutAll(rows: seq<Json>, key: Text, col: seq<Json>): (rows': seq<Json>)
    requires |col| == |rows| && AllRecords(rows)
    ensures |rows'| == |rows| && AllRecords(rows')
    ensures forall i :: 0 <= i < |rows| ==> rows'[i] == Put(rows[i], key, col[i])
  {
    seq(|rows|, i requires 0 <= i < |rows| => Put(rows[i], key, col[i]))
  }

  // ----- the body -----

  function DecodeValue(h: Header, d: State): (r: Decoded<Json>)
    ensures r.Ok? ==> |r.value.1.rest| <= |d.rest|
    decreases |d.rest|, 0, 0
  {
    if d.runLeft > 0 then Replay(d)
    else if d.rest == [] then Err(UnexpectedEof)
    else
      var tag := d.rest[0];
      var d1 := d.(rest := d.rest[1..]);
      if tag == TAG_REF then
        var (i, rest) :- ReadU32(d1.rest);
        if i < |d.pool| then Ok((d.pool[i], d1.(rest := rest))) else Err(InvalidReference)
      else if tag == TAG_RUN then
        var (count, rest) :- ReadU32(d1.rest);
        if count == 0 then Err(ZeroRunLength)
        else
          var (v, d2) :- DecodeValue(h, d1.(rest := rest));
          Ok((v, if count > 1 then d2.(runLeft := count - 1, runValue := Some(v)) else d2))
      else if tag == TAG_PARTS then
        var (count, rest) :- ReadU32(d1.rest);
        var (items, rest') :- DecodeParts(rest, count);
        Ok((Array(items), d1.(rest := rest')))
      else
        var (v, d2) :- DecodePlain(h, d1, tag);
        Ok((v, Pool(d2, v)))
  }

  function Replay(d: State): Decoded<Json>
    requires d.runLeft > 0
  {
    if d.runValue.None? then Err(MissingRunValue)
    else
      Ok((d.runValue.value, d.(runLeft := d.runLeft - 1, runValue := if d.runLeft == 1 then None else d.runValue)))
  }

  /** The tags whose value is pooled when it is a composite with contents. */
  function DecodePlain(h: Header, d: State, tag: byte): (r: Decoded<Json>)
    ensures r.Ok? ==> |r.value.1.rest| <= |d.rest|
    decreases |d.rest|, 4, 0
  {
    if tag == TAG_NULL then Ok((Null, d))
    else if tag == TAG_TRUE then Ok((Bool(true), d))
    else if tag == TAG_FALSE then Ok((Bool(false), d))
    else if tag == TAG_INT then
      var (i, rest) :- ReadI64(d.rest);
      Ok((Int(i), d.(rest := rest)))
    else if tag == TAG_FLOAT then
      var (bits, rest) :- TakeBytes(d.rest, 8);
      Ok((if FiniteBits(bits) then Float(bits) else Null, d.(rest := rest)))
    else if tag == TAG_STRING then
      var (i, rest) :- ReadU32(d.rest);
      if i < |h.strings| then Ok((Str(h.strings[i]), d.(rest := rest))) else Err(InvalidStringIndex)
    else if tag == TAG_SHORT_STRING then
      var (len, rest) :- ReadU32(d.rest);
      var (s, rest') :- TakeBytes(rest, len);
      if IsUtf8(s) then Ok((Str(s), d.(rest := rest'))) else Err(InvalidUtf8)
    else if tag == TAG_ARRAY then
      var (len, rest) :- ReadU32(d.rest);
      var (items, d2) :- DecodeMany(h, d.(rest := rest), len);
      Ok((Array(items), d2))
    else if tag == TAG_OBJECT then
      var (id, rest) :- ReadU32(d.rest);
      if id < |h.shapes| then DecodeFields(h, d.(rest := rest), h.shapes[id], Object([], []))
      else Err(InvalidShapeId)
    else if tag == TAG_COLUMNS then
      var (len, rest) :- ReadU32(d.rest);
      var (id, rest') :- ReadU32(rest);
      if id < |h.shapes| then
        var (rows, d2) :- DecodeColumns(h, d.(rest := rest'), h.shapes[id], seq(len, _ => Object([], [])));
        Ok((Array(rows), d2))
      else Err(InvalidShapeId)
    else Err(UnknownTag(tag))
  }

  function DecodeMany(h: Header, d: State, n: nat): (r: Decoded<seq<Json>>)
    ensures r.Ok? ==> |r.value.1.rest| <= |d.rest| && |r.value.0| == n
    decreases |d.rest|, 1, n
  {
    if n == 0 then Ok(([], d))
    else
      var (v, d1) :- DecodeValue(h, d);
      var (vs, d2) :- DecodeMany(h, d1, n - 1);
      Ok(([v] + vs, d2))
  }

  function DecodeFields(h: Header, d: State, shape: seq<nat>, obj: Json): (r: Decoded<Json>)
    requires obj.Object? && |obj.keys| == |obj.vals|
    ensures r.Ok? ==> |r.value.1.rest| <= |d.rest|
    decreases |d.rest|, 2, |shape|
  {
    if shape == [] then Ok((obj, d))
    else if shape[0] >= |h.strings| then Err(InvalidKeyIndex)
    else
      var (v, d1) :- DecodeValue(h, d);
      DecodeFields(h, d1, shape[1..], Put(obj, h.strings[shape[0]], v))
  }

  function DecodeColumns(h: Header, d: State, shape: seq<nat>, rows: seq<Json>): (r: Decoded<seq<Json>>)
    requires AllRecords(rows)
    ensures r.Ok? ==> |r.value.1.rest| <= |d.rest|
    decreases |d.rest|, 2, |shape|
  {
    if shape == [] then Ok((rows, d))
    else if shape[0] >= |h.strings| then Err(InvalidKeyIndex)
    else
      var (col, d1) :- DecodeMany(h, d, |rows|);
      DecodeColumns(h, d1, shape[1..], PutAll(rows, h.strings[shape[0]], col))
  }

  /** The parts of an oversized array: messages of their own, each an array. */
  function DecodeParts(s: seq<byte>, count: nat): (r: Result<(seq<Json>, seq<byte>), DecodeError>)
    ensures r.Ok? ==> |r.value.1| <= |s|
    decreases |s|, 3, count
  {
    if count == 0 then Ok(([], s))
    else
      var (len, rest) :- ReadU32(s);
      var (part, rest') :- TakeBytes(rest, len);
      var v :- Decode(part);
      if !v.Array? then Err(PartNotArray)
      else
        var (more, rest'') :- DecodeParts(rest', count - 1);
        Ok((v.items + more, rest''))
  }

  // ----- whole messages -----

  function Decode(data: seq<byte>): Result<Json, DecodeError>
    decreases |data|, 5, 0
  {
    var (h, rest) :- DecodeHeader(data);
    var (v, _) :- DecodeValue(h, State([], 0, None, rest));
    Ok(v)
  }

  function DecodeHeader(data: seq<byte>): (r: Result<(Header, seq<byte>), DecodeError>)
    ensures r.Ok? ==> |r.value.1| < |data|
  {
    var (magic, rest) :- TakeBytes(data, 4);
    if magic != MAGIC then Err(InvalidMagic)
    else
      var (m, rest1) :- ReadU32(rest);
      var (strings, rest2) :- DecodeStrings(rest1, m);
      var (n, rest3) :- ReadU32(rest2);
      var (shapes, rest4) :- DecodeShapes(rest3, n);
      Ok((Header(strings, shapes), rest4))
  }

  function DecodeStrings(s: seq<byte>, n: nat): (r: Result<(seq<Text>, seq<byte>), DecodeError>)
    ensures r.Ok? ==> |r.value.1| <= |s|
    decreases n
  {
    if n == 0 then Ok(([], s))
    else
      var (len, rest) :- ReadU32(s);
      var (text, rest') :- TakeBytes(rest, len);
      if !IsUtf8(text) then Err(InvalidUtf8)
      else
        var (more, rest'') :- DecodeStrings(rest', n - 1);
        Ok(([text] + more, rest''))
  }

  function DecodeShapes(s: seq<byte>, n: nat): (r: Result<(seq<seq<nat>>, seq<byte>), DecodeError>)
    ensures r.Ok? ==> |r.value.1| <= |s|
    decreases n
  {
    if n == 0 then Ok(([], s))
    else
      var (len, rest) :- ReadU32(s);
      var (shape, rest') :- DecodeIndices(rest, len);
      var (more, rest'') :- DecodeShapes(rest', n - 1);
      Ok(([shape] + more, rest''))
  }

  function DecodeIndices(s: seq<byte>, n: nat): (r: Result<(seq<nat>, seq<byte>), DecodeError>)
    ensures r.Ok? ==> |r.value.1| <= |s|
    decreases n
  {
    if n == 0 then Ok(([], s))
    else
      var (i, rest) :- ReadU32(s);
      var (more, rest') :- DecodeIndices(rest, n - 1);
      Ok(([i] + more, rest'))
  }
}
