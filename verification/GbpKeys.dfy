/**
 What the dedup key of a composite depends on, told on its members alone.  With a digest that
 never repeats, two objects have one key exactly when their keys are the same and their members
 look alike from outside: nested ones by kind and length, a null like a false.  So lists of flat
 records always come back.
 */
module GbpKeys {
  import opened Wrappers
  import opened Varint
  import opened GbpTypes
  import opened GbpEncoding
  import opened GbpDecoding
  import opened GbpMeaning
  import opened GbpRoundTrip
  import opened GbpSize
  import opened GbpTellsApart

  ghost predicate Injective(p: Platform) {
    forall a, b :: p.digest(a) == p.digest(b) ==> a == b
  }

  // ----- the reference ------------------------------------------------------------------

  /** The double an integer beyond an i64, or a double, is taken for. */
  function DoubleOf(p: Platform, v: Json): Option<F64> {
    match v
    case Big(u) => Some(p.round(u))
    case Float(bits) => Some(bits)
    case _ => None
  }

  predicate IsNo(v: Json) {
    v.Null? || (v.Bool? && !v.b)
  }

  /** Two members that cannot be told apart from outside. */
  predicate Alike(p: Platform, a: Json, b: Json) {
    if a.Array? || b.Array? then a.Array? && b.Array? && |a.items| == |b.items|
    else if a.Object? || b.Object? then a.Object? && b.Object? && |a.keys| == |b.keys|
    else if IsNo(a) || IsNo(b) then IsNo(a) && IsNo(b)
    else if DoubleOf(p, a).Some? || DoubleOf(p, b).Some? then DoubleOf(p, a) == DoubleOf(p, b)
    else a == b
  }

  predicate AllAlike(p: Platform, x: seq<Json>, y: seq<Json>) {
    |x| == |y| && forall i :: 0 <= i < |x| ==> Alike(p, x[i], y[i])
  }

  /** Objects: the same keys, and all members alike.  Arrays: the same length, and both ends alike. */
  predicate LooksLike(p: Platform, a: Json, b: Json) {
    match (a, b)
    case (Object(k, x), Object(l, y)) => k == l && AllAlike(p, x, y)
    case (Array(x), Array(y)) =>
      |x| == |y| && (x == [] || (Alike(p, x[0], y[0]) && Alike(p, x[|x| - 1], y[|y| - 1])))
    case _ => false
  }

  // ----- the key says as much -----------------------------------------------------------

  predicate StartsPlain(rest: seq<Atom>) {
    rest == [] || !rest[0].WriteUsize?
  }

  lemma ShallowStarts(p: Platform, v: Json)
    ensures ShallowAtoms(p, v) != [] && !ShallowAtoms(p, v)[0].WriteUsize?
  {
  }

  lemma ContentStarts(p: Platform, vals: seq<Json>)
    ensures StartsPlain(ContentAtoms(p, vals))
  {
    hide ShallowAtoms;
    if vals != [] {
      ShallowStarts(p, vals[0]);
    }
  }

  /** What a member feeds the hasher tells as much as its looks, and where it ends. */
  lemma MemberFeeds(p: Platform, a: Json, b: Json, x: seq<Atom>, y: seq<Atom>)
    requires StartsPlain(x) && StartsPlain(y)
    ensures ShallowAtoms(p, a) + x == ShallowAtoms(p, b) + y <==> Alike(p, a, b) && x == y
  {
    var s, t := ShallowAtoms(p, a), ShallowAtoms(p, b);
    if s + x == t + y {
      assert (s + x)[0] == s[0] && (t + y)[0] == t[0];
      assert |s| == 2 ==> (s + x)[1] == s[1];
      assert |t| == 2 ==> (t + y)[1] == t[1];
      assert |s| == 1 && x != [] ==> (s + x)[1] == x[0];
      assert |t| == 1 && y != [] ==> (t + y)[1] == y[0];
      assert |s| == |t|;
      assert x == (s + x)[|s|..] && y == (t + y)[|t|..];
    }
  }

  lemma {:induction false} MembersFeed(p: Platform, x: seq<Json>, y: seq<Json>)
    requires |x| == |y|
    ensures ContentAtoms(p, x) == ContentAtoms(p, y) <==> AllAlike(p, x, y)
    decreases |x|
  {
    hide ShallowAtoms, Alike;
    if x != [] {
      ContentStarts(p, x[1..]);
      ContentStarts(p, y[1..]);
      MemberFeeds(p, x[0], y[0], ContentAtoms(p, x[1..]), ContentAtoms(p, y[1..]));
      MembersFeed(p, x[1..], y[1..]);
      assert AllAlike(p, x, y) <==> Alike(p, x[0], y[0]) && AllAlike(p, x[1..], y[1..]) by {
        assert forall i :: 0 < i < |x| ==> x[i] == x[1..][i - 1] && y[i] == y[1..][i - 1];
      }
    }
  }

  lemma ArraysFeed(p: Platform, x: seq<Json>, y: seq<Json>)
    ensures ArrayAtoms(p, x) == ArrayAtoms(p, y) <==> LooksLike(p, Array(x), Array(y))
  {
    hide ShallowAtoms, Alike;
    var a, b := ArrayAtoms(p, x), ArrayAtoms(p, y);
    assert a[0] == WriteUsize(|x|) && b[0] == WriteUsize(|y|);
    if |x| == |y| && x != [] {
      var lastX := if |x| <= 1 then [] else ShallowAtoms(p, x[|x| - 1]);
      var lastY := if |y| <= 1 then [] else ShallowAtoms(p, y[|y| - 1]);
      ShallowStarts(p, x[|x| - 1]);
      ShallowStarts(p, y[|y| - 1]);
      assert a == [WriteUsize(|x|)] + (ShallowAtoms(p, x[0]) + lastX);
      assert b == [WriteUsize(|y|)] + (ShallowAtoms(p, y[0]) + lastY);
      assert a[1..] == ShallowAtoms(p, x[0]) + lastX && b[1..] == ShallowAtoms(p, y[0]) + lastY;
      assert a == b <==> a[1..] == b[1..] by {
        assert a == [a[0]] + a[1..] && b == [b[0]] + b[1..];
      }
      MemberFeeds(p, x[0], y[0], lastX, lastY);
      if |x| > 1 {
        assert lastX + [] == lastX && lastY + [] == lastY;
        MemberFeeds(p, x[|x| - 1], y[|y| - 1], [], []);
      }
    }
  }

  /** With a digest that never repeats, composites have one key exactly when they look alike. */
  lemma OneKeyIff(p: Platform, a: Json, b: Json)
    requires Injective(p) && a.IsComposite() && b.IsComposite() && WellFormed(a) && WellFormed(b)
    ensures KeyOf(p, a) == KeyOf(p, b) <==> LooksLike(p, a, b)
  {
    hide ContentAtoms, ArrayAtoms, AllAlike, Alike;
    match (a, b)
    case (Object(k, x), Object(l, y)) =>
      if k == l {
        MembersFeed(p, x, y);
      }
    case (Array(x), Array(y)) => ArraysFeed(p, x, y);
    case _ =>
  }

  /** Composites that look alike have one key whatever the digest. */
  lemma LooksLikeOneKey(p: Platform, a: Json, b: Json)
    requires LooksLike(p, a, b)
    ensures a.IsComposite() && b.IsComposite() && KeyOf(p, a) == KeyOf(p, b)
  {
    hide ContentAtoms, ArrayAtoms, Alike;
    match (a, b)
    case (Object(k, x), Object(l, y)) => MembersFeed(p, x, y);
    case (Array(x), Array(y)) => ArraysFeed(p, x, y);
  }

  // ----- flat records -------------------------------------------------------------------

  /** An integer of 64 bits, a string, a boolean, or a double other than -0.0. */
  predicate IsFlat(v: Json) {
    v.Int? || v.Str? || v.Bool? || (v.Float? && v.bits != [0, 0, 0, 0, 0, 0, 0, 128])
  }

  predicate AllFlat(vs: seq<Json>) {
    forall i :: 0 <= i < |vs| ==> IsFlat(vs[i])
  }

  /** An object with flat members only. */
  predicate IsRecord(v: Json) {
    v.Object? && |v.keys| == |v.vals| && Distinct(v.keys) && AllFlat(v.vals)
  }

  predicate AllRecord(rows: seq<Json>) {
    forall i :: 0 <= i < |rows| ==> IsRecord(rows[i])
  }

  /** Records have one key only if they are equal. */
  lemma RecordsApart(p: Platform, a: Json, b: Json)
    requires Injective(p) && IsRecord(a) && IsRecord(b)
    ensures KeyOf(p, a) == KeyOf(p, b) <==> a == b
  {
    RecordFacts(a);
    RecordFacts(b);
    OneKeyIff(p, a, b);
    if LooksLike(p, a, b) {
      forall i | 0 <= i < |a.vals|
        ensures a.vals[i] == b.vals[i]
      {
        assert IsFlat(a.vals[i]) && IsFlat(b.vals[i]) && Alike(p, a.vals[i], b.vals[i]);
      }
      assert a.vals == b.vals;
    }
  }

  lemma RecordFacts(v: Json)
    requires IsRecord(v)
    ensures WellFormed(v) && Plain(v) && Composites(v) <= {v}
  {
    assert AllWellFormed(v.vals) by {
      forall i | 0 <= i < |v.vals|
        ensures WellFormed(v.vals[i])
      {
        assert IsFlat(v.vals[i]);
      }
    }
    assert AllPlain(v.vals) by {
      forall i | 0 <= i < |v.vals|
        ensures Plain(v.vals[i])
      {
        assert IsFlat(v.vals[i]);
      }
    }
    NoComposites(v.vals);
  }

  lemma {:induction false} NoComposites(vs: seq<Json>)
    requires AllFlat(vs)
    ensures AllComposites(vs) == {}
    decreases |vs|
  {
    if vs != [] {
      assert IsFlat(vs[0]);
      NoComposites(vs[1..]);
    }
  }

  lemma {:induction false} RecordComposites(rows: seq<Json>)
    requires AllRecord(rows)
    ensures forall c <- AllComposites(rows) :: IsRecord(c)
    ensures AllWellFormed(rows) && AllPlain(rows)
    decreases |rows|
  {
    hide IsRecord, Composites;
    if rows != [] {
      RecordFacts(rows[0]);
      RecordComposites(rows[1..]);
      forall i | 0 <= i < |rows|
        ensures WellFormed(rows[i]) && Plain(rows[i])
      {
        RecordFacts(rows[i]);
      }
    }
  }

  lemma ListTellsApart(p: Platform, rows: seq<Json>)
    requires Injective(p) && AllRecord(rows)
    ensures TellsApart(p, Composites(Array(rows)))
  {
    hide AllComposites, IsRecord, ArrayAtoms, ContentAtoms;
    RecordComposites(rows);
    forall a, b | a in Composites(Array(rows)) && b in Composites(Array(rows))
      ensures a.IsComposite() && b.IsComposite() && (KeyOf(p, a) == KeyOf(p, b) ==> a == b)
    {
      assert a == Array(rows) || IsRecord(a);
      assert b == Array(rows) || IsRecord(b);
      if a != Array(rows) {
        RecordFacts(a);
        IsObject(a);
      }
      if b != Array(rows) {
        IsObject(b);
      }
      if a != Array(rows) && b != Array(rows) {
        RecordsApart(p, a, b);
      }
    }
  }

  lemma IsObject(v: Json)
    requires IsRecord(v)
    ensures v.Object?
  {
  }

  /** Every list of records comes back unchanged. */
  lemma RecordsRoundTrip(p: Platform, rows: seq<Json>)
    requires Injective(p) && AllRecord(rows) && Encode(p, Array(rows)).1
    ensures Decode(Encode(p, Array(rows)).0) == Ok(Array(rows))
  {
    hide Encode, Decode, TellsApart, Composites, AllRecord;
    if rows == [] {
      EmptyScans(p);
      RoundTripIff(p, Array([]));
    } else {
      RecordComposites(rows);
      ListTellsApart(p, rows);
      RoundTrip(p, Array(rows));
    }
  }

  lemma EmptyScans(p: Platform)
    ensures WellFormed(Array([])) && Faithful(p, Array([]))
  {
  }

  // ----- what is not told apart ---------------------------------------------------------

  lemma AlikeSelf(p: Platform, v: Json)
    ensures Alike(p, v, v)
  {
  }

  /** Arrays that differ inside only, the second of which is lost for any digest. */
  lemma MiddleNotSeen(p: Platform, x: seq<Json>, y: seq<Json>)
    requires |x| == |y| >= 2 && x[0] == y[0] && x[|x| - 1] == y[|y| - 1] && x != y
    requires |x| <= 50_000 && AllWellFormed(x) && AllWellFormed(y) && Encode(p, Array([Array(x), Array(y)])).1
    ensures Decode(Encode(p, Array([Array(x), Array(y)])).0) != Ok(Array([Array(x), Array(y)]))
  {
    hide Encode, Decode, KeyOf, Alike;
    AlikeSelf(p, x[0]);
    AlikeSelf(p, x[|x| - 1]);
    LooksLikeOneKey(p, Array(x), Array(y));
    CollidingSiblings(p, Array(x), Array(y));
  }

  /**
   A hasher that takes a signed number for the unsigned one with its bits, as hashers do unless they
   say otherwise, does not tell the integer 0 from the double 0.0, and the second record is lost.
   */
  lemma ZeroAndZeroPointZero(p: Platform, k: Text)
    requires p.digest([WriteI64(0)]) == p.digest([WriteU64([0, 0, 0, 0, 0, 0, 0, 0])])
    requires Encode(p, Array([Object([k], [Int(0)]), Object([k], [Float([0, 0, 0, 0, 0, 0, 0, 0])])])).1
    ensures
      var rows := Array([Object([k], [Int(0)]), Object([k], [Float([0, 0, 0, 0, 0, 0, 0, 0])])]);
      Decode(Encode(p, rows).0) != Ok(rows)
  {
    hide Encode, Decode;
    var zero: F64 := [0, 0, 0, 0, 0, 0, 0, 0];
    var a, b := Object([k], [Int(0)]), Object([k], [Float(zero)]);
    OneAtom(p, Int(0));
    OneAtom(p, Float(zero));
    CollidingSiblings(p, a, b);
  }

  lemma OneAtom(p: Platform, v: Json)
    ensures ContentAtoms(p, [v]) == ShallowAtoms(p, v)
  {
    assert [v][1..] == [] && ContentAtoms(p, []) == [];
    assert ShallowAtoms(p, v) + [] == ShallowAtoms(p, v);
  }
}
