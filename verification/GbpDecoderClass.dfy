/**
 The decoder as the source has it: pools and run state held across recursive calls, and a
 cursor over the bytes.  A read moves the cursor or fails, and what it returns, the pools it
 leaves and the run that is still pending are those of the functions of `GbpDecoding` on the
 bytes from the cursor on.  That holds for any bytes, well-formed or not, so the object refuses
 exactly what the functions refuse, with the same error.
 */
module GbpDecoderClass {
  import opened Utf8
  import opened Wrappers
  import opened Varint
  import opened GbpTypes
  import opened GbpEncoding
  import opened GbpDecoding

  /** A read position in a byte string. */
  class Cursor {
    const data: seq<byte>
    var pos: nat

    constructor (data: seq<byte>)
      ensures this.data == data && pos == 0
    {
      this.data := data;
      pos := 0;
    }

    ghost predicate Valid()
      reads this
    {
      pos <= |data|
    }

    ghost function Rest(): seq<byte>
      reads this
      requires Valid()
    {
      data[pos..]
    }

    method ReadByte() returns (r: Result<byte, DecodeError>)
      requires Valid()
      modifies this
      ensures Valid()
      ensures old(Rest()) == [] ==> r == Err(UnexpectedEof) && pos == old(pos)
      ensures old(Rest()) != [] ==> r == Ok(old(Rest())[0]) && Rest() == old(Rest())[1..] && pos == old(pos) + 1
    {
      if pos == |data| {
        return Err(UnexpectedEof);
      }
      r := Ok(data[pos]);
      pos := pos + 1;
    }

    method ReadExact(n: nat) returns (r: Result<seq<byte>, DecodeError>)
      requires Valid()
      modifies this
      ensures Valid() && old(pos) <= pos
      ensures match TakeBytes(old(Rest()), n)
              case Err(e) => r == Err(e)
              case Ok((bytes, rest)) => r == Ok(bytes) && Rest() == rest
    {
      if n > |data| - pos {
        return Err(UnexpectedEof);
      }
      assert data[pos..][..n] == data[pos..pos + n] && data[pos..][n..] == data[pos + n..];
      r := Ok(data[pos..pos + n]);
      pos := pos + n;
    }

    method ReadVarint() returns (r: Result<u32, DecodeError>)
      requires Valid()
      modifies this
      ensures Valid() && old(pos) <= pos
      ensures match ReadU32(old(Rest()))
              case Err(e) => r == Err(e)
              case Ok((n, rest)) => r == Ok(n) && Rest() == rest && old(pos) < pos
    {
      var read := ReadWord(data, pos, 5, false);
      if read.Err? {
        return Err(read.error);
      }
      pos := read.value.1;
      r := Ok(read.value.0);
    }

    method ReadVarintI64() returns (r: Result<i64, DecodeError>)
      requires Valid()
      modifies this
      ensures Valid() && old(pos) <= pos
      ensures match ReadI64(old(Rest()))
              case Err(e) => r == Err(e)
              case Ok((n, rest)) => r == Ok(n) && Rest() == rest
    {
      var read := ReadWord(data, pos, 10, true);
      if read.Err? {
        return Err(read.error);
      }
      pos := read.value.1;
      r := Ok(UnZigZag(read.value.0));
    }

  }

  /** What a call left behind: the specified value and state, or the specified refusal. */
  ghost predicate Follows<T>(spec: Decoded<T>, r: Result<T, DecodeError>, after: State) {
    match spec
    case Err(e) => r == Err(e)
    case Ok((x, d)) => r == Ok(x) && after == d
  }

  /** All of a sequence is what has been read, then what the rest gives. */
  ghost predicate Resumed<T, S>(all: Result<(seq<T>, S), DecodeError>, rest: Result<(seq<T>, S), DecodeError>, done: seq<T>) {
    all == Prefixed(done, rest)
  }

  ghost function Prefixed<T, S>(front: seq<T>, rest: Result<(seq<T>, S), DecodeError>): Result<(seq<T>, S), DecodeError> {
    match rest
    case Err(e) => Err(e)
    case Ok((more, d)) => Ok((front + more, d))
  }

  lemma ResumedStart<T, S>(all: Result<(seq<T>, S), DecodeError>)
    ensures Resumed(all, all, [])
  {
    if all.Ok? {
      assert [] + all.value.0 == all.value.0;
    }
  }

  lemma ResumedAfter<T, S>(
    all: Result<(seq<T>, S), DecodeError>, rest: Result<(seq<T>, S), DecodeError>, done: seq<T>, next: seq<T>)
    requires Resumed(all, Prefixed(next, rest), done)
    ensures Resumed(all, rest, done + next)
  {
    if rest.Ok? {
      assert done + (next + rest.value.0) == done + next + rest.value.0;
    }
  }

  lemma ResumedEnd<T, S>(all: Result<(seq<T>, S), DecodeError>, d: S, done: seq<T>)
    requires Resumed(all, Ok(([], d)), done)
    ensures all == Ok((done, d))
  {
    assert done + [] == done;
  }

  class GbpDecoder {
    var stringPool: seq<Text>
    var shapePool: seq<seq<nat>>
    var valuePool: seq<Json>
    var rleCount: nat
    var rleValue: Option<Json>

    constructor ()
      ensures valuePool == [] && rleCount == 0 && rleValue == None
    {
      stringPool, shapePool, valuePool, rleCount, rleValue := [], [], [], 0, None;
    }

    ghost function Pools(): Header
      reads this
    {
      Header(stringPool, shapePool)
    }

    ghost function Now(cursor: Cursor): State
      reads this, cursor
      requires cursor.Valid()
    {
      State(valuePool, rleCount, rleValue, cursor.Rest())
    }

    method Decode(data: seq<byte>) returns (r: Result<Json, DecodeError>)
      modifies this
      ensures r == GbpDecoding.Decode(data)
      decreases |data|, 9, 0
    {
      stringPool, shapePool, valuePool, rleCount, rleValue := [], [], [], 0, None;
      var cursor := new Cursor(data);
      assert cursor.Rest() == data;
      var header := ReadHeader(cursor);
      if header.Err? {
        return Err(header.error);
      }
      r := DecodeRecursive(cursor);
    }

    method ReadHeader(cursor: Cursor) returns (r: Result<(), DecodeError>)
      requires cursor.Valid() && stringPool == [] && shapePool == []
      modifies this, cursor
      ensures cursor.Valid() && old(cursor.pos) <= cursor.pos
      ensures valuePool == old(valuePool) && rleCount == old(rleCount) && rleValue == old(rleValue)
      ensures match DecodeHeader(old(cursor.Rest()))
              case Err(e) => r == Err(e)
              case Ok((h, rest)) => r == Ok(()) && Pools() == h && cursor.Rest() == rest && old(cursor.pos) < cursor.pos
    {
      hide DecodeStrings, DecodeShapes, ReadU32, TakeBytes;
      var magic := cursor.ReadExact(4);
      if magic.Err? {
        return Err(magic.error);
      }
      if magic.value != MAGIC {
        return Err(InvalidMagic);
      }
      var m := cursor.ReadVarint();
      if m.Err? {
        return Err(m.error);
      }
      var strings := ReadStrings(cursor, m.value);
      if strings.Err? {
        return Err(strings.error);
      }
      stringPool := strings.value;
      var n := cursor.ReadVarint();
      if n.Err? {
        return Err(n.error);
      }
      var shapes := ReadShapes(cursor, n.value);
      if shapes.Err? {
        return Err(shapes.error);
      }
      shapePool := shapes.value;
      r := Ok(());
    }

    static method ReadStrings(cursor: Cursor, n: nat) returns (r: Result<seq<Text>, DecodeError>)
      requires cursor.Valid()
      modifies cursor
      ensures cursor.Valid() && old(cursor.pos) <= cursor.pos
      ensures match DecodeStrings(old(cursor.Rest()), n)
              case Err(e) => r == Err(e)
              case Ok((strings, rest)) => r == Ok(strings) && cursor.Rest() == rest
    {
      hide ReadU32, TakeBytes;
      ghost var all := DecodeStrings(cursor.Rest(), n);
      var pool: seq<Text> := [];
      var i := 0;
      ResumedStart(all);
      while i < n
        invariant i <= n && cursor.Valid() && old(cursor.pos) <= cursor.pos
        invariant Resumed(all, DecodeStrings(cursor.Rest(), n - i), pool)
      {
        var len := cursor.ReadVarint();
        if len.Err? {
          return Err(len.error);
        }
        var text := cursor.ReadExact(len.value);
        if text.Err? {
          return Err(text.error);
        }
        if !IsUtf8(text.value) {
          return Err(InvalidUtf8);
        }
        ResumedAfter(all, DecodeStrings(cursor.Rest(), n - i - 1), pool, [text.value]);
        pool := pool + [text.value];
        i := i + 1;
      }
      ResumedEnd(all, cursor.Rest(), pool);
      r := Ok(pool);
    }

    static method ReadShapes(cursor: Cursor, n: nat) returns (r: Result<seq<seq<nat>>, DecodeError>)
      requires cursor.Valid()
      modifies cursor
      ensures cursor.Valid() && old(cursor.pos) <= cursor.pos
      ensures match DecodeShapes(old(cursor.Rest()), n)
              case Err(e) => r == Err(e)
              case Ok((shapes, rest)) => r == Ok(shapes) && cursor.Rest() == rest
    {
      hide ReadU32, TakeBytes;
      ghost var all := DecodeShapes(cursor.Rest(), n);
      var pool: seq<seq<nat>> := [];
      var i := 0;
      ResumedStart(all);
      while i < n
        invariant i <= n && cursor.Valid() && old(cursor.pos) <= cursor.pos
        invariant Resumed(all, DecodeShapes(cursor.Rest(), n - i), pool)
      {
        var len := cursor.ReadVarint();
        if len.Err? {
          return Err(len.error);
        }
        var shape := ReadIndices(cursor, len.value);
        if shape.Err? {
          return Err(shape.error);
        }
        ResumedAfter(all, DecodeShapes(cursor.Rest(), n - i - 1), pool, [shape.value]);
        pool := pool + [shape.value];
        i := i + 1;
      }
      ResumedEnd(all, cursor.Rest(), pool);
      r := Ok(pool);
    }

    static method ReadIndices(cursor: Cursor, n: nat) returns (r: Result<seq<nat>, DecodeError>)
      requires cursor.Valid()
      modifies cursor
      ensures cursor.Valid() && old(cursor.pos) <= cursor.pos
      ensures match DecodeIndices(old(cursor.Rest()), n)
              case Err(e) => r == Err(e)
              case Ok((shape, rest)) => r == Ok(shape) && cursor.Rest() == rest
    {
      hide ReadU32, TakeBytes;
      ghost var all := DecodeIndices(cursor.Rest(), n);
      var shape: seq<nat> := [];
      var i := 0;
      ResumedStart(all);
      while i < n
        invariant i <= n && cursor.Valid() && old(cursor.pos) <= cursor.pos
        invariant Resumed(all, DecodeIndices(cursor.Rest(), n - i), shape)
      {
        var idx := cursor.ReadVarint();
        if idx.Err? {
          return Err(idx.error);
        }
        ResumedAfter(all, DecodeIndices(cursor.Rest(), n - i - 1), shape, [idx.value as nat]);
        shape := shape + [idx.value];
        i := i + 1;
      }
      ResumedEnd(all, cursor.Rest(), shape);
      r := Ok(shape);
    }

    // ----- the body -----

    method DecodeRecursive(cursor: Cursor) returns (r: Result<Json, DecodeError>)
      requires cursor.Valid()
      modifies this, cursor
      ensures cursor.Valid() && old(cursor.pos) <= cursor.pos && Pools() == old(Pools())
      ensures Follows(DecodeValue(old(Pools()), old(Now(cursor))), r, Now(cursor))
      decreases |cursor.data| - cursor.pos, 0, 0
    {
      hide DecodePlain, DecodeParts, ReadU32;
      if rleCount > 0 {
        r := ReplayRun(cursor);
        return;
      }
      ghost var d := Now(cursor);
      var tag := cursor.ReadByte();
      if tag.Err? {
        return Err(UnexpectedEof);
      }
      if tag.value == TAG_REF {
        r := ReadReference(cursor);
        return;
      }
      if tag.value == TAG_RUN {
        r := ReadRun(cursor);
        return;
      }
      if tag.value == TAG_PARTS {
        var count := cursor.ReadVarint();
        if count.Err? {
          return Err(count.error);
        }
        var items := ReadParts(cursor, count.value);
        if items.Err? {
          return Err(items.error);
        }
        return Ok(Array(items.value));
      }
      r := DecodeTagged(cursor, tag.value);
      if r.Ok? && IsPooled(r.value) {
        valuePool := valuePool + [r.value];
      }
    }

    /** One more copy of the pending run's value. */
    method ReplayRun(cursor: Cursor) returns (r: Result<Json, DecodeError>)
      requires cursor.Valid() && rleCount > 0
      modifies this
      ensures Pools() == old(Pools()) && Follows(Replay(old(Now(cursor))), r, Now(cursor))
    {
      rleCount := rleCount - 1;
      if rleValue.None? {
        return Err(MissingRunValue);
      }
      r := Ok(rleValue.value);
      if rleCount == 0 {
        rleValue := None;
      }
    }

    method ReadReference(cursor: Cursor) returns (r: Result<Json, DecodeError>)
      requires cursor.Valid()
      modifies cursor
      ensures cursor.Valid() && old(cursor.pos) <= cursor.pos
      ensures match ReadU32(old(cursor.Rest()))
              case Err(e) => r == Err(e)
              case Ok((i, rest)) =>
                if i < |valuePool| then r == Ok(valuePool[i]) && cursor.Rest() == rest else r == Err(InvalidReference)
    {
      var idx := cursor.ReadVarint();
      if idx.Err? {
        return Err(idx.error);
      }
      if idx.value >= |valuePool| {
        return Err(InvalidReference);
      }
      r := Ok(valuePool[idx.value]);
    }

    /** A run: its length, its value, and the state in which later calls replay it. */
    method ReadRun(cursor: Cursor) returns (r: Result<Json, DecodeError>)
      requires cursor.Valid()
      modifies this, cursor
      ensures cursor.Valid() && old(cursor.pos) <= cursor.pos && Pools() == old(Pools())
      ensures match ReadU32(old(cursor.Rest()))
              case Err(e) => r == Err(e)
              case Ok((count, rest)) =>
                if count == 0 then r == Err(ZeroRunLength)
                else
                  match DecodeValue(old(Pools()), old(Now(cursor)).(rest := rest))
                  case Err(e) => r == Err(e)
                  case Ok((v, d)) =>
                    var d' := if count > 1 then d.(runLeft := count - 1, runValue := Some(v)) else d;
                    r == Ok(v) && Now(cursor) == d'
      decreases |cursor.data| - cursor.pos, 1, 0
    {
      hide DecodeValue, ReadU32;
      var count := cursor.ReadVarint();
      if count.Err? {
        return Err(count.error);
      }
      if count.value == 0 {
        return Err(ZeroRunLength);
      }
      r := DecodeRecursive(cursor);
      if r.Ok? && count.value > 1 {
        rleCount := count.value - 1;
        rleValue := Some(r.value);
      }
    }

    method DecodeColumnar(cursor: Cursor) returns (r: Result<Json, DecodeError>)
      requires cursor.Valid()
      modifies this, cursor
      ensures cursor.Valid() && old(cursor.pos) <= cursor.pos && Pools() == old(Pools())
      ensures Follows(DecodePlain(old(Pools()), old(Now(cursor)), TAG_COLUMNS), r, Now(cursor))
      decreases |cursor.data| - cursor.pos, 8, 1
    {
      hide DecodeValue, DecodeMany, DecodeFields, DecodeColumns, ReadU32, ReadI64;
      var len := cursor.ReadVarint();
      if len.Err? {
        return Err(len.error);
      }
      var id := cursor.ReadVarint();
      if id.Err? {
        return Err(id.error);
      }
      if id.value >= |shapePool| {
        return Err(InvalidShapeId);
      }
      var rows := DecodeTable(cursor, len.value, shapePool[id.value]);
      r := if rows.Ok? then Ok(Array(rows.value)) else Err(rows.error);
    }

    /** The tags whose value is pooled when it is a composite with contents. */
    method DecodeTagged(cursor: Cursor, tag: byte) returns (r: Result<Json, DecodeError>)
      requires cursor.Valid()
      modifies this, cursor
      ensures cursor.Valid() && old(cursor.pos) <= cursor.pos && Pools() == old(Pools())
      ensures Follows(DecodePlain(old(Pools()), old(Now(cursor)), tag), r, Now(cursor))
      decreases |cursor.data| - cursor.pos, 9, 0
    {
      hide DecodeValue, DecodeMany, DecodeFields, DecodeColumns, ReadU32, ReadI64;
      if tag == TAG_NULL {
        r := Ok(Null);
      } else if tag == TAG_TRUE {
        r := Ok(Bool(true));
      } else if tag == TAG_FALSE {
        r := Ok(Bool(false));
      } else if tag == TAG_INT {
        var i := cursor.ReadVarintI64();
        if i.Err? {
          return Err(i.error);
        }
        r := Ok(Int(i.value));
      } else if tag == TAG_FLOAT {
        var bits := cursor.ReadExact(8);
        if bits.Err? {
          return Err(bits.error);
        }
        r := Ok(if FiniteBits(bits.value) then Float(bits.value) else Null);
      } else if tag == TAG_STRING {
        var idx := cursor.ReadVarint();
        if idx.Err? {
          return Err(idx.error);
        }
        if idx.value >= |stringPool| {
          return Err(InvalidStringIndex);
        }
        r := Ok(Str(stringPool[idx.value]));
      } else if tag == TAG_SHORT_STRING {
        var len := cursor.ReadVarint();
        if len.Err? {
          return Err(len.error);
        }
        var text := cursor.ReadExact(len.value);
        if text.Err? {
          return Err(text.error);
        }
        if !IsUtf8(text.value) {
          return Err(InvalidUtf8);
        }
        r := Ok(Str(text.value));
      } else if tag == TAG_ARRAY {
        var len := cursor.ReadVarint();
        if len.Err? {
          return Err(len.error);
        }
        var items := DecodeItems(cursor, len.value);
        r := if items.Ok? then Ok(Array(items.value)) else Err(items.error);
      } else if tag == TAG_OBJECT {
        var id := cursor.ReadVarint();
        if id.Err? {
          return Err(id.error);
        }
        if id.value >= |shapePool| {
          return Err(InvalidShapeId);
        }
        r := DecodeObject(cursor, shapePool[id.value]);
      } else if tag == TAG_COLUMNS {
        r := DecodeColumnar(cursor);
      } else {
        r := Err(UnknownTag(tag));
      }
    }

    method DecodeItems(cursor: Cursor, len: nat) returns (r: Result<seq<Json>, DecodeError>)
      requires cursor.Valid()
      modifies this, cursor
      ensures cursor.Valid() && old(cursor.pos) <= cursor.pos && Pools() == old(Pools())
      ensures Follows(DecodeMany(old(Pools()), old(Now(cursor)), len), r, Now(cursor))
      decreases |cursor.data| - cursor.pos, 5, 0
    {
      hide Resumed, DecodeMany, DecodeValue;
      ghost var h, all := Pools(), DecodeMany(Pools(), Now(cursor), len);
      var arr: seq<Json> := [];
      var i := 0;
      ResumedStart(all);
      while i < len
        invariant i <= len && cursor.Valid() && old(cursor.pos) <= cursor.pos && Pools() == h
        invariant Resumed(all, DecodeMany(h, Now(cursor), len - i), arr)
      {
        ghost var d := Now(cursor);
        ManyUnfolds(h, all, d, arr, len - i);
        var v := DecodeRecursive(cursor);
        if v.Err? {
          return Err(v.error);
        }
        ResumedStep(h, all, d, v.value, Now(cursor), arr, len - i);
        arr := arr + [v.value];
        i := i + 1;
      }
      NoneLeft(h, Now(cursor));
      ResumedEnd(all, Now(cursor), arr);
      r := Ok(arr);
    }

    static lemma ResumedStep(h: Header, all: Decoded<seq<Json>>, d: State, v: Json, d': State, done: seq<Json>, n: nat)
      requires n > 0 && DecodeValue(h, d) == Ok((v, d')) && Resumed(all, DecodeMany(h, d, n), done)
      ensures Resumed(all, DecodeMany(h, d', n - 1), done + [v])
    {
      hide DecodeValue, Resumed;
      ResumedAfter(all, DecodeMany(h, d', n - 1), done, [v]);
    }

    /** A refusal of the next value refuses the whole sequence. */
    static lemma ManyUnfolds(h: Header, all: Decoded<seq<Json>>, d: State, done: seq<Json>, n: nat)
      requires n > 0 && Resumed(all, DecodeMany(h, d, n), done)
      ensures DecodeValue(h, d).Err? ==> all == Err(DecodeValue(h, d).error)
    {
      hide DecodeValue;
    }

    static lemma NoneLeft(h: Header, d: State)
      ensures DecodeMany(h, d, 0) == Ok(([], d))
    {
    }

    method DecodeObject(cursor: Cursor, shape: seq<nat>) returns (r: Result<Json, DecodeError>)
      requires cursor.Valid()
      modifies this, cursor
      ensures cursor.Valid() && old(cursor.pos) <= cursor.pos && Pools() == old(Pools())
      ensures Follows(DecodeFields(old(Pools()), old(Now(cursor)), shape, Object([], [])), r, Now(cursor))
      decreases |cursor.data| - cursor.pos, 5, 0
    {
      hide DecodeValue, Put;
      ghost var h, all := Pools(), DecodeFields(Pools(), Now(cursor), shape, Object([], []));
      var obj := Object([], []);
      var k := 0;
      assert shape[0..] == shape;
      while k < |shape|
        invariant k <= |shape| && cursor.Valid() && old(cursor.pos) <= cursor.pos && Pools() == h
        invariant obj.Object? && |obj.keys| == |obj.vals|
        invariant DecodeFields(h, Now(cursor), shape[k..], obj) == all
      {
        assert shape[k..][0] == shape[k] && shape[k..][1..] == shape[k + 1..];
        if shape[k] >= |stringPool| {
          return Err(InvalidKeyIndex);
        }
        var key := stringPool[shape[k]];
        var v := DecodeRecursive(cursor);
        if v.Err? {
          return Err(v.error);
        }
        obj := Put(obj, key, v.value);
        k := k + 1;
      }
      r := Ok(obj);
    }

    method DecodeTable(cursor: Cursor, len: nat, shape: seq<nat>) returns (r: Result<seq<Json>, DecodeError>)
      requires cursor.Valid()
      modifies this, cursor
      ensures cursor.Valid() && old(cursor.pos) <= cursor.pos && Pools() == old(Pools())
      ensures Follows(DecodeColumns(old(Pools()), old(Now(cursor)), shape, seq(len, _ => Object([], []))), r, Now(cursor))
      decreases |cursor.data| - cursor.pos, 6, 0
    {
      hide DecodeMany, PutAll;
      var rows: seq<Json> := seq(len, _ => Object([], []));
      ghost var h, all := Pools(), DecodeColumns(Pools(), Now(cursor), shape, rows);
      var k := 0;
      assert shape[0..] == shape;
      while k < |shape|
        invariant k <= |shape| && cursor.Valid() && old(cursor.pos) <= cursor.pos && Pools() == h
        invariant AllRecords(rows) && DecodeColumns(h, Now(cursor), shape[k..], rows) == all
      {
        assert shape[k..][0] == shape[k] && shape[k..][1..] == shape[k + 1..];
        if shape[k] >= |stringPool| {
          return Err(InvalidKeyIndex);
        }
        var filled := FillColumn(cursor, rows, stringPool[shape[k]]);
        if filled.Err? {
          return Err(filled.error);
        }
        rows := filled.value;
        k := k + 1;
      }
      r := Ok(rows);
    }

    /** Decode one column, inserting each value into its row as it comes. */
    method FillColumn(cursor: Cursor, rows: seq<Json>, key: Text) returns (r: Result<seq<Json>, DecodeError>)
      requires cursor.Valid() && AllRecords(rows)
      modifies this, cursor
      ensures cursor.Valid() && old(cursor.pos) <= cursor.pos && Pools() == old(Pools())
      ensures match DecodeMany(old(Pools()), old(Now(cursor)), |rows|)
              case Err(e) => r == Err(e)
              case Ok((col, d)) => r == Ok(PutAll(rows, key, col)) && Now(cursor) == d
      decreases |cursor.data| - cursor.pos, 5, 0
    {
      hide Resumed, DecodeMany, DecodeValue, Put;
      ghost var h, all := Pools(), DecodeMany(Pools(), Now(cursor), |rows|);
      ghost var col: seq<Json> := [];
      var arr := rows;
      var i := 0;
      ResumedStart(all);
      while i < |rows|
        invariant i <= |rows| == |arr| && |col| == i && cursor.Valid() && old(cursor.pos) <= cursor.pos && Pools() == h
        invariant forall j :: 0 <= j < i ==> arr[j] == Put(rows[j], key, col[j])
        invariant forall j :: i <= j < |rows| ==> arr[j] == rows[j]
        invariant Resumed(all, DecodeMany(h, Now(cursor), |rows| - i), col)
      {
        ghost var d := Now(cursor);
        ManyUnfolds(h, all, d, col, |rows| - i);
        var v := DecodeRecursive(cursor);
        if v.Err? {
          return Err(v.error);
        }
        ResumedStep(h, all, d, v.value, Now(cursor), col, |rows| - i);
        arr := arr[i := Put(arr[i], key, v.value)];
        col := col + [v.value];
        i := i + 1;
      }
      NoneLeft(h, Now(cursor));
      ResumedEnd(all, Now(cursor), col);
      assert arr == PutAll(rows, key, col);
      r := Ok(arr);
    }

    /** Each part is a message of its own, given to a decoder of its own. */
    static method ReadParts(cursor: Cursor, count: nat) returns (r: Result<seq<Json>, DecodeError>)
      requires cursor.Valid()
      modifies cursor
      ensures cursor.Valid() && old(cursor.pos) <= cursor.pos
      ensures match DecodeParts(old(cursor.Rest()), count)
              case Err(e) => r == Err(e)
              case Ok((items, rest)) => r == Ok(items) && cursor.Rest() == rest
      decreases |cursor.data| - cursor.pos, 8, 0
    {
      hide GbpDecoding.Decode, ReadU32, TakeBytes;
      ghost var all := DecodeParts(cursor.Rest(), count);
      var combined: seq<Json> := [];
      var i := 0;
      ResumedStart(all);
      while i < count
        invariant i <= count && cursor.Valid() && old(cursor.pos) <= cursor.pos
        invariant Resumed(all, DecodeParts(cursor.Rest(), count - i), combined)
      {
        var len := cursor.ReadVarint();
        if len.Err? {
          return Err(len.error);
        }
        var part := cursor.ReadExact(len.value);
        if part.Err? {
          return Err(part.error);
        }
        var subDecoder := new GbpDecoder();
        var v := subDecoder.Decode(part.value);
        if v.Err? {
          return Err(v.error);
        }
        if !v.value.Array? {
          return Err(PartNotArray);
        }
        ResumedAfter(all, DecodeParts(cursor.Rest(), count - i - 1), combined, v.value.items);
        combined := combined + v.value.items;
        i := i + 1;
      }
      ResumedEnd(all, cursor.Rest(), combined);
      r := Ok(combined);
    }
  }
}
