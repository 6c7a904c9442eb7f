/**
 Deferred delivery: a response is split into an initial payload and patches, and merging
 the patches back gives the whole response.
 */
module Deferral {
  import opened Sets
  import opened Wrappers
  import opened JsonTree

  datatype Fragment = Fragment(tag: Option<string>, path: seq<string>, fields: seq<string>, disabled: bool)

  datatype IncrementalPatch = IncrementalPatch(data: Json, path: seq<Step>, tag: Option<string>)

  datatype Part =
    | Initial(data: Json, errors: seq<Json>, hasNext: bool)
    | Subsequent(incremental: seq<IncrementalPatch>, hasNext: bool)

  // ----- paths ------------------------------------------------------------------------

  const INDEX_LIMIT: nat := 0x1_0000_0000_0000_0000

  predicate IsDigit(c: char) {
    '0' <= c <= '9'
  }

  /** Decimal digits, if there are only such. */
  function ParseDigits(s: string, acc: nat): Option<nat> {
    if s == "" then Some(acc)
    else if IsDigit(s[0]) then ParseDigits(s[1..], acc * 10 + (s[0] as int - '0' as int))
    else None
  }

  /** A segment that reads as an unsigned 64-bit number, a plus sign allowed, is an index; any other is a key. */
  function ToStep(segment: string): Step {
    var digits := if segment != "" && segment[0] == '+' then segment[1..] else segment;
    var n := if digits == "" then None else ParseDigits(digits, 0);
    if n.Some? && n.value < INDEX_LIMIT then Index(n.value) else Key(segment)
  }

  function Steps(path: seq<string>): (steps: seq<Step>)
    ensures |steps| == |path|
  {
    seq(|path|, i requires 0 <= i < |path| => ToStep(path[i]))
  }

  // ----- taking out and putting back --------------------------------------------------

  function SetChild(v: Json, step: Step, w: Json): Json
    requires Child(v, step).Some?
  {
    match step
    case Key(name) => Obj(v.fields[name := w])
    case Index(i) => Arr(v.items[i := w])
  }

  /** The value with another one at a path. */
  function ReplaceAt(v: Json, path: seq<Step>, w: Json): Json
    requires Lookup(v, path).Some?
    decreases |path|
  {
    if path == [] then w
    else SetChild(v, path[0], ReplaceAt(Child(v, path[0]).value, path[1..], w))
  }

  function Pick(from: map<string, Json>, names: seq<string>): map<string, Json> {
    map k | k in from && k in names :: from[k]
  }

  /** The fields move from the object at the path into the result; without a target the result is null. */
  function Extract(data: Json, path: seq<Step>, fields: seq<string>): (Json, Json) {
    match Lookup(data, path)
    case None => (data, Null)
    case Some(target) =>
      if target.Obj? then
        (ReplaceAt(data, path, Obj(target.fields - Elements(fields))), Obj(Pick(target.fields, fields)))
      else (data, Obj(map[]))
  }

  /** The client's side: the members of a patch join the object at its path. */
  function Merge(data: Json, p: IncrementalPatch): Json {
    match Lookup(data, p.path)
    case Some(Obj(fields)) => if p.data.Obj? then ReplaceAt(data, p.path, Obj(fields + p.data.fields)) else data
    case _ => data
  }

  predicate Carries(p: IncrementalPatch) {
    p.data.Obj? && p.data.fields != map[]
  }

  /** The patch has a target without any of its members. */
  predicate Fits(data: Json, p: IncrementalPatch) {
    Carries(p) ==>
      var target := Lookup(data, p.path);
      target.Some? && target.value.Obj? && target.value.fields.Keys !! p.data.fields.Keys
  }

  lemma {:induction false} LookupReplaced(v: Json, path: seq<Step>, w: Json)
    requires Lookup(v, path).Some?
    ensures Lookup(ReplaceAt(v, path, w), path) == Some(w)
    decreases |path|
  {
    if path != [] {
      LookupReplaced(Child(v, path[0]).value, path[1..], w);
    }
  }

  lemma SetTwice(v: Json, step: Step, a: Json, b: Json)
    requires Child(v, step).Some?
    ensures Child(SetChild(v, step, a), step) == Some(a)
    ensures SetChild(SetChild(v, step, a), step, b) == SetChild(v, step, b)
  {
  }

  lemma {:induction false} ReplaceTwice(v: Json, path: seq<Step>, w: Json, x: Json)
    requires Lookup(v, path).Some?
    ensures Lookup(ReplaceAt(v, path, w), path).Some?
    ensures ReplaceAt(ReplaceAt(v, path, w), path, x) == ReplaceAt(v, path, x)
    decreases |path|
  {
    hide SetChild, Child;
    LookupReplaced(v, path, w);
    if path != [] {
      var c := Child(v, path[0]).value;
      ReplaceTwice(c, path[1..], w, x);
      SetTwice(v, path[0], ReplaceAt(c, path[1..], w), ReplaceAt(c, path[1..], x));
    }
  }

  lemma {:induction false} ReplaceSame(v: Json, path: seq<Step>)
    requires Lookup(v, path).Some?
    ensures ReplaceAt(v, path, Lookup(v, path).value) == v
    decreases |path|
  {
    if path != [] {
      ReplaceSame(Child(v, path[0]).value, path[1..]);
    }
  }

  /** Putting back what was taken out gives the value again, and it fits where it was. */
  lemma ExtractThenMerge(data: Json, path: seq<Step>, fields: seq<string>, tag: Option<string>)
    ensures
      var (rest, taken) := Extract(data, path, fields);
      var p := IncrementalPatch(taken, path, tag);
      Merge(rest, p) == data && Fits(rest, p)
  {
    var (rest, taken) := Extract(data, path, fields);
    var found := Lookup(data, path);
    if found.Some? && found.value.Obj? {
      var target := found.value.fields;
      LookupReplaced(data, path, Obj(target - Elements(fields)));
      assert target - Elements(fields) + Pick(target, fields) == target;
      ReplaceTwice(data, path, Obj(target - Elements(fields)), found.value);
      ReplaceSame(data, path);
    }
  }

  lemma MergeNothing(data: Json, p: IncrementalPatch)
    requires !Carries(p)
    ensures Merge(data, p) == data
  {
    if Lookup(data, p.path).Some? && Lookup(data, p.path).value.Obj? && p.data.Obj? {
      var fields := Lookup(data, p.path).value.fields;
      assert fields + map[] == fields;
      ReplaceSame(data, p.path);
    }
  }

  // ----- the order of two merges ------------------------------------------------------

  /** The later patch brings back something the path of the earlier one goes through. */
  predicate Swallows(later: IncrementalPatch, earlier: IncrementalPatch) {
    && Carries(earlier)
    && later.data.Obj?
    && later.path < earlier.path
    && var step := earlier.path[|later.path|];
       step.Key? && step.name in later.data.fields
  }

  function Below(p: IncrementalPatch): IncrementalPatch
    requires p.path != []
  {
    p.(path := p.path[1..])
  }

  /** A merge below a member replaces that member by the merged one. */
  lemma MergeBelow(data: Json, p: IncrementalPatch)
    requires p.path != []
    ensures
      var c := Child(data, p.path[0]);
      Merge(data, p) == if c.Some? then SetChild(data, p.path[0], Merge(c.value, Below(p))) else data
    ensures
      var c := Child(data, p.path[0]);
      if c.Some? then Fits(data, p) <==> Fits(c.value, Below(p)) else Carries(p) ==> !Fits(data, p)
  {
    var c := Child(data, p.path[0]);
    if c.Some? && Merge(c.value, Below(p)) == c.value {
      SetSame(data, p.path[0]);
    }
  }

  lemma SetSame(v: Json, step: Step)
    requires Child(v, step).Some?
    ensures SetChild(v, step, Child(v, step).value) == v
  {
  }

  lemma SetApart(v: Json, a: Step, b: Step, x: Json, y: Json)
    requires Child(v, a).Some? && Child(v, b).Some? && a != b
    ensures Child(SetChild(v, a, x), b) == Child(v, b) && Child(SetChild(v, b, y), a) == Child(v, a)
    ensures SetChild(SetChild(v, a, x), b, y) == SetChild(SetChild(v, b, y), a, x)
  {
    if v.Obj? {
      assert v.fields[a.name := x][b.name := y] == v.fields[b.name := y][a.name := x];
    } else {
      assert v.items[a.i := x][b.i := y] == v.items[b.i := y][a.i := x];
    }
  }

  /**
   Two patches that fit one after the other also fit in the other order, with the same
   result, unless the first to be merged brings back what the second one's path goes through.
   */
  lemma {:induction false} Commute(data: Json, p: IncrementalPatch, q: IncrementalPatch)
    requires Fits(data, q) && Fits(Merge(data, q), p) && !Swallows(q, p)
    ensures Fits(data, p) && Fits(Merge(data, p), q)
    ensures Merge(Merge(data, p), q) == Merge(Merge(data, q), p)
    decreases |p.path|
  {
    hide Fits, Merge;
    if !Carries(q) {
      MergeNothing(data, q);
      MergeNothing(Merge(data, p), q);
      NothingFits(Merge(data, p), q);
    } else if !Carries(p) {
      MergeNothing(data, p);
      MergeNothing(Merge(data, q), p);
      NothingFits(data, p);
    } else if p.path == [] || q.path == [] {
      CommuteAtRoot(data, p, q);
    } else {
      var a, b := p.path[0], q.path[0];
      MergeBelow(data, q);
      var cb := Child(data, b).value;
      var after := Merge(cb, Below(q));
      MergeBelow(Merge(data, q), p);
      if a == b {
        SetTwice(data, a, after, after);
        Commute(cb, Below(p), Below(q));
        var first := Merge(cb, Below(p));
        MergeBelow(data, p);
        MergeBelow(Merge(data, p), q);
        SetTwice(data, a, first, Merge(first, Below(q)));
        SetTwice(data, a, after, Merge(after, Below(p)));
      } else {
        ChildApart(data, a, b, after);
        var ca := Child(data, a).value;
        SetApart(data, a, b, Merge(ca, Below(p)), after);
        MergeBelow(data, p);
        MergeBelow(Merge(data, p), q);
      }
    }
  }

  lemma NothingFits(data: Json, p: IncrementalPatch)
    requires !Carries(p)
    ensures Fits(data, p)
  {
  }

  lemma ChildApart(v: Json, a: Step, b: Step, w: Json)
    requires Child(v, b).Some? && a != b
    ensures Child(SetChild(v, b, w), a) == Child(v, a)
  {
  }

  lemma CommuteAtRoot(data: Json, p: IncrementalPatch, q: IncrementalPatch)
    requires Carries(p) && Carries(q) && (p.path == [] || q.path == [])
    requires Fits(data, q) && Fits(Merge(data, q), p) && !Swallows(q, p)
    ensures Fits(data, p) && Fits(Merge(data, p), q)
    ensures Merge(Merge(data, p), q) == Merge(Merge(data, q), p)
  {
    if p.path == [] && q.path == [] {
      assert data.fields + q.data.fields + p.data.fields == data.fields + p.data.fields + q.data.fields;
    } else if p.path == [] {
      MergeBelow(data, q);
      MergeBelow(Merge(data, p), q);
      var k := q.path[0].name;
      assert k in data.fields;
      assert Merge(data, q).fields.Keys == data.fields.Keys;
      var w := Merge(data.fields[k], Below(q));
      assert (data.fields + p.data.fields)[k := w] == data.fields[k := w] + p.data.fields;
    } else {
      MergeBelow(data, p);
      MergeBelow(Merge(data, q), p);
      assert q.path < p.path;
      var k := p.path[0].name;
      assert k in data.fields;
      var w := Merge(data.fields[k], Below(p));
      assert (data.fields + q.data.fields)[k := w] == data.fields[k := w] + q.data.fields;
    }
  }

  // ----- all the fragments ------------------------------------------------------------

  /** Fragments are taken out first to last, each from what the ones before left. */
  function ExtractAll(data: Json, fragments: seq<Fragment>): (Json, seq<IncrementalPatch>)
    decreases |fragments|
  {
    if fragments == [] then (data, [])
    else
      var f := fragments[0];
      var (rest, taken) := Extract(data, Steps(f.path), f.fields);
      var (initial, patches) := ExtractAll(rest, fragments[1..]);
      (initial, [IncrementalPatch(taken, Steps(f.path), f.tag)] + patches)
  }

  /** Patches merged last to first. */
  function MergeBackward(data: Json, ps: seq<IncrementalPatch>): Json
    decreases |ps|
  {
    if ps == [] then data else Merge(MergeBackward(data, ps[1..]), ps[0])
  }

  /** Patches merged as they arrive. */
  function MergeForward(data: Json, ps: seq<IncrementalPatch>): Json
    decreases |ps|
  {
    if ps == [] then data else MergeForward(Merge(data, ps[0]), ps[1..])
  }

  predicate FitBackward(data: Json, ps: seq<IncrementalPatch>)
    decreases |ps|
  {
    ps == [] || (FitBackward(data, ps[1..]) && Fits(MergeBackward(data, ps[1..]), ps[0]))
  }

  predicate FitForward(data: Json, ps: seq<IncrementalPatch>)
    decreases |ps|
  {
    ps == [] || (Fits(data, ps[0]) && FitForward(Merge(data, ps[0]), ps[1..]))
  }

  /** Nothing is lost: merged last to first, the patches restore the data for any fragments. */
  lemma {:induction false} BackwardRestores(data: Json, fragments: seq<Fragment>)
    ensures
      var (initial, patches) := ExtractAll(data, fragments);
      MergeBackward(initial, patches) == data && FitBackward(initial, patches)
    decreases |fragments|
  {
    hide Extract, Merge, Fits;
    if fragments != [] {
      var f := fragments[0];
      var (rest, taken) := Extract(data, Steps(f.path), f.fields);
      BackwardRestores(rest, fragments[1..]);
      ExtractThenMerge(data, Steps(f.path), f.fields, f.tag);
      var (initial, patches) := ExtractAll(data, fragments);
      assert patches[1..] == ExtractAll(rest, fragments[1..]).1;
    }
  }

  /** No patch brings back something that the path of an earlier patch goes through. */
  ghost predicate NoneSwallowed(ps: seq<IncrementalPatch>) {
    forall i, j :: 0 <= i < j < |ps| ==> !Swallows(ps[j], ps[i])
  }

  /** A patch that fits at the end may be merged first, when no other swallows it. */
  lemma {:induction false} MergeFirst(data: Json, p: IncrementalPatch, ps: seq<IncrementalPatch>)
    requires FitForward(data, ps) && Fits(MergeForward(data, ps), p) && forall q <- ps :: !Swallows(q, p)
    ensures Fits(data, p) && FitForward(Merge(data, p), ps)
    ensures MergeForward(Merge(data, p), ps) == Merge(MergeForward(data, ps), p)
    decreases |ps|
  {
    hide Merge, Fits, Swallows;
    if ps != [] {
      MergeFirst(Merge(data, ps[0]), p, ps[1..]);
      Commute(data, p, ps[0]);
    }
  }

  lemma {:induction false} ForwardFits(data: Json, ps: seq<IncrementalPatch>)
    requires FitBackward(data, ps) && NoneSwallowed(ps)
    ensures FitForward(data, ps) && MergeForward(data, ps) == MergeBackward(data, ps)
    decreases |ps|
  {
    hide Merge, Fits, Swallows;
    if ps != [] {
      var rest := ps[1..];
      forall i, j | 0 <= i < j < |rest|
        ensures !Swallows(rest[j], rest[i])
      {
        assert rest[i] == ps[i + 1] && rest[j] == ps[j + 1];
      }
      ForwardFits(data, rest);
      forall q | q in rest
        ensures !Swallows(q, ps[0])
      {
        var j :| 0 <= j < |rest| && rest[j] == q;
        assert q == ps[j + 1];
      }
      MergeFirst(data, ps[0], rest);
    }
  }

  // ----- where everything is ----------------------------------------------------------

  predicate Has(data: Json, place: seq<Step>) {
    Lookup(data, place).Some?
  }

  /** The patch brings what is at the place. */
  predicate Brings(p: IncrementalPatch, place: seq<Step>) {
    p.path < place && p.data.Obj? && Has(p.data, place[|p.path|..])
  }

  lemma BringsBelow(p: IncrementalPatch, place: seq<Step>)
    requires p.path != []
    ensures Brings(p, place) <==> place != [] && place[0] == p.path[0] && Brings(Below(p), place[1..])
  {
    if place != [] {
      assert place == [place[0]] + place[1..] && p.path == [p.path[0]] + p.path[1..];
      if |p.path| < |place| {
        assert place[|p.path|..] == place[1..][|p.path| - 1..];
      }
    }
  }

  /** After a merge there is what there was and what the patch brings; a fitting patch brings only what was not there. */
  lemma {:induction false} PlacesMerged(data: Json, p: IncrementalPatch, place: seq<Step>)
    ensures Has(Merge(data, p), place) ==> Has(data, place) || Brings(p, place)
    ensures Fits(data, p) && (Has(data, place) || Brings(p, place)) ==> Has(Merge(data, p), place)
    ensures Fits(data, p) && Brings(p, place) ==> !Has(data, place)
    decreases |p.path|
  {
    hide Merge, Fits, Brings;
    if !Carries(p) {
      MergeNothing(data, p);
      BringsNothing(p, place);
    } else if p.path == [] {
      PlacesAtRoot(data, p, place);
    } else {
      MergeBelow(data, p);
      BringsBelow(p, place);
      var c := Child(data, p.path[0]);
      if c.Some? && place != [] {
        PlacesMerged(c.value, Below(p), place[1..]);
        if place[0] == p.path[0] {
          SetTwice(data, p.path[0], Merge(c.value, Below(p)), Null);
        } else {
          ChildApart(data, place[0], p.path[0], Merge(c.value, Below(p)));
        }
      }
    }
  }

  lemma BringsNothing(p: IncrementalPatch, place: seq<Step>)
    requires !Carries(p)
    ensures !Brings(p, place)
  {
    if p.path < place {
      assert place[|p.path|..] != [];
    }
  }

  lemma PlacesAtRoot(data: Json, p: IncrementalPatch, place: seq<Step>)
    requires Carries(p) && p.path == []
    ensures Has(Merge(data, p), place) ==> Has(data, place) || Brings(p, place)
    ensures Fits(data, p) && (Has(data, place) || Brings(p, place)) ==> Has(Merge(data, p), place)
    ensures Fits(data, p) && Brings(p, place) ==> !Has(data, place)
  {
    if place != [] {
      assert place[0..] == place;
    }
  }

  lemma {:induction false} LookupThrough(v: Json, path: seq<Step>, rest: seq<Step>)
    ensures Lookup(v, path + rest) == if Has(v, path) then Lookup(Lookup(v, path).value, rest) else None
    decreases |path|
  {
    if path == [] {
      assert path + rest == rest;
    } else {
      assert (path + rest)[0] == path[0] && (path + rest)[1..] == path[1..] + rest;
      if Child(v, path[0]).Some? {
        LookupThrough(Child(v, path[0]).value, path[1..], rest);
      }
    }
  }

  /** The place is one of the fields of the object at the path, or inside one. */
  predicate InFields(path: seq<Step>, fields: seq<string>, place: seq<Step>) {
    path < place && place[|path|].Key? && place[|path|].name in fields
  }

  /** Taking fields out splits the data: what lies in the fields goes, all else stays. */
  lemma ExtractSplits(data: Json, path: seq<Step>, fields: seq<string>, tag: Option<string>, place: seq<Step>)
    ensures
      var (rest, taken) := Extract(data, path, fields);
      && (Brings(IncrementalPatch(taken, path, tag), place) <==> Has(data, place) && InFields(path, fields, place))
      && (Has(rest, place) <==> Has(data, place) && !InFields(path, fields, place))
  {
    hide Merge, Fits;
    var (rest, taken) := Extract(data, path, fields);
    var p := IncrementalPatch(taken, path, tag);
    assert Brings(p, place) <==> Has(data, place) && InFields(path, fields, place) by {
      if path < place {
        var inside := place[|path|..];
        assert place == path + inside;
        LookupThrough(data, path, inside);
      }
    }
    ExtractThenMerge(data, path, fields, tag);
    PlacesMerged(rest, p, place);
  }

  lemma {:induction false} PlacesMergedForward(data: Json, ps: seq<IncrementalPatch>, place: seq<Step>)
    requires !Has(data, place) && forall p <- ps :: !Brings(p, place)
    ensures !Has(MergeForward(data, ps), place)
    decreases |ps|
  {
    hide Merge, Brings;
    if ps != [] {
      PlacesMerged(data, ps[0], place);
      PlacesMergedForward(Merge(data, ps[0]), ps[1..], place);
    }
  }

  /** Every place is in the initial data or brought by one patch only. */
  lemma {:induction false} BroughtOnce(data: Json, ps: seq<IncrementalPatch>, i: nat, place: seq<Step>)
    requires FitBackward(data, ps) && i < |ps| && Brings(ps[i], place)
    ensures !Has(data, place) && Has(MergeBackward(data, ps), place)
    ensures forall j :: 0 <= j < |ps| && j != i ==> !Brings(ps[j], place)
    decreases |ps|
  {
    hide Merge, Fits, Brings;
    var before := MergeBackward(data, ps[1..]);
    PlacesMerged(before, ps[0], place);
    if i == 0 {
      if Has(data, place) {
        StillThere(data, ps[1..], place);
      }
      forall j | 0 < j < |ps|
        ensures !Brings(ps[j], place)
      {
        if Brings(ps[j], place) {
          assert ps[1..][j - 1] == ps[j];
          BroughtOnce(data, ps[1..], j - 1, place);
        }
      }
    } else {
      assert ps[1..][i - 1] == ps[i];
      BroughtOnce(data, ps[1..], i - 1, place);
      forall j | 0 < j < |ps| && j != i
        ensures !Brings(ps[j], place)
      {
        assert ps[1..][j - 1] == ps[j];
      }
    }
  }

  lemma {:induction false} StillThere(data: Json, ps: seq<IncrementalPatch>, place: seq<Step>)
    requires FitBackward(data, ps) && Has(data, place)
    ensures Has(MergeBackward(data, ps), place)
    decreases |ps|
  {
    hide Merge, Fits;
    if ps != [] {
      StillThere(data, ps[1..], place);
      PlacesMerged(MergeBackward(data, ps[1..]), ps[0], place);
    }
  }

  lemma {:induction false} MergeForwardSplit(data: Json, ps: seq<IncrementalPatch>, qs: seq<IncrementalPatch>)
    ensures MergeForward(data, ps + qs) == MergeForward(MergeForward(data, ps), qs)
    decreases |ps|
  {
    if ps == [] {
      assert ps + qs == qs;
    } else {
      assert (ps + qs)[1..] == ps[1..] + qs;
      MergeForwardSplit(Merge(data, ps[0]), ps[1..], qs);
    }
  }

  lemma {:induction false} HasAbove(data: Json, place: seq<Step>, above: seq<Step>)
    requires Has(data, place) && above <= place
    ensures Has(data, above)
    decreases |above|
  {
    if above != [] {
      HasAbove(Child(data, above[0]).value, place[1..], above[1..]);
    }
  }

  lemma BringsMemberIff(p: IncrementalPatch, name: string)
    ensures Brings(p, p.path + [Key(name)]) <==> p.data.Obj? && name in p.data.fields
  {
    assert (p.path + [Key(name)])[|p.path|..] == [Key(name)];
    var c := Child(p.data, Key(name));
    assert Lookup(p.data, [Key(name)]) == if c.Some? then Lookup(c.value, []) else None;
  }

  /** A swallowed patch finds no target when it arrives, and what it brings stays lost. */
  lemma SwallowedIsLost(data: Json, ps: seq<IncrementalPatch>, i: nat, j: nat)
    requires FitBackward(data, ps) && i < j < |ps| && Swallows(ps[j], ps[i])
    ensures MergeForward(data, ps) != MergeBackward(data, ps)
  {
    hide Fits, FitBackward, MergeForward, MergeBackward;
    var p, q := ps[i], ps[j];
    var taken := p.path[..|q.path| + 1];
    assert taken == q.path + [p.path[|q.path|]];
    BringsMemberIff(q, p.path[|q.path|].name);
    BroughtOnce(data, ps, j, taken);
    var reached := MergeForward(data, ps[..i]);
    PlacesMergedForward(data, ps[..i], taken);
    if Has(reached, p.path) {
      HasAbove(reached, p.path, taken);
    }
    assert Merge(reached, p) == reached;
    var x :| x in p.data.fields;
    var lost := p.path + [Key(x)];
    BringsMemberIff(p, x);
    BroughtOnce(data, ps, i, lost);
    PlacesMergedForward(data, ps[..i], lost);
    PlacesMergedForward(reached, ps[i + 1..], lost);
    assert ps == ps[..i] + ([p] + ps[i + 1..]);
    MergeForwardSplit(data, ps[..i], [p] + ps[i + 1..]);
    assert ([p] + ps[i + 1..])[1..] == ps[i + 1..];
    ForwardStep(reached, p, ps[i + 1..]);
  }

  lemma ForwardStep(data: Json, p: IncrementalPatch, ps: seq<IncrementalPatch>)
    ensures MergeForward(data, [p] + ps) == MergeForward(Merge(data, p), ps)
  {
    assert ([p] + ps)[1..] == ps;
  }

  /** Merged as they arrive, the patches restore the data exactly when none is swallowed by a later one. */
  lemma PatchesRestoreIff(data: Json, fragments: seq<Fragment>)
    ensures
      var (initial, patches) := ExtractAll(data, fragments);
      MergeForward(initial, patches) == data <==> NoneSwallowed(patches)
  {
    hide ExtractAll, FitBackward, MergeForward, MergeBackward, Swallows;
    var (initial, patches) := ExtractAll(data, fragments);
    BackwardRestores(data, fragments);
    if NoneSwallowed(patches) {
      ForwardFits(initial, patches);
    } else {
      var i, j :| 0 <= i < j < |patches| && Swallows(patches[j], patches[i]);
      SwallowedIsLost(initial, patches, i, j);
    }
  }

  /** A later fragment defers a field that the path of an earlier one goes through. */
  predicate TakesPathOf(later: Fragment, earlier: Fragment) {
    var (a, b) := (Steps(later.path), Steps(earlier.path));
    a < b && b[|a|].Key? && b[|a|].name in later.fields
  }

  lemma {:induction false} PatchesOfFragments(data: Json, fragments: seq<Fragment>)
    ensures
      var patches := ExtractAll(data, fragments).1;
      && |patches| == |fragments|
      && forall i :: 0 <= i < |fragments| ==>
           && patches[i].path == Steps(fragments[i].path) && patches[i].tag == fragments[i].tag
           && (patches[i].data.Obj? ==> forall k :: k in patches[i].data.fields ==> k in fragments[i].fields)
    decreases |fragments|
  {
    hide Steps, ToStep;
    if fragments != [] {
      var f := fragments[0];
      PatchesOfFragments(Extract(data, Steps(f.path), f.fields).0, fragments[1..]);
    }
  }

  /** The fragment finds a field that no earlier one has taken. */
  predicate Fruitful(data: Json, fragments: seq<Fragment>, i: nat)
    requires i < |fragments|
  {
    exists x :: x in fragments[i].fields && Untaken(data, fragments, i, Steps(fragments[i].path) + [Key(x)])
  }

  /** The data has the place, and none of the first i fragments takes it. */
  predicate Untaken(data: Json, fragments: seq<Fragment>, i: nat, place: seq<Step>)
    requires i <= |fragments|
  {
    Has(data, place) && forall k :: 0 <= k < i ==> !InFields(Steps(fragments[k].path), fragments[k].fields, place)
  }

  /** A patch brings what the data has, its fragment takes and no earlier one does. */
  lemma {:induction false} BringsIff(data: Json, fragments: seq<Fragment>, i: nat, place: seq<Step>)
    requires i < |fragments| == |ExtractAll(data, fragments).1|
    ensures Brings(ExtractAll(data, fragments).1[i], place)
       <==> Untaken(data, fragments, i, place) && InFields(Steps(fragments[i].path), fragments[i].fields, place)
    decreases i
  {
    hide Steps, Extract, Brings, InFields, Has;
    var f := fragments[0];
    var rest := Extract(data, Steps(f.path), f.fields).0;
    ExtractSplits(data, Steps(f.path), f.fields, f.tag, place);
    if i > 0 {
      BringsIff(rest, fragments[1..], i - 1, place);
      assert forall k :: 0 < k < |fragments| ==> fragments[k] == fragments[1..][k - 1];
      assert ExtractAll(data, fragments).1[i] == ExtractAll(rest, fragments[1..]).1[i - 1];
    }
  }

  lemma CarriesIffFruitful(data: Json, fragments: seq<Fragment>, i: nat)
    requires i < |fragments| == |ExtractAll(data, fragments).1|
    ensures Carries(ExtractAll(data, fragments).1[i]) <==> Fruitful(data, fragments, i)
  {
    hide Steps, ExtractAll, Brings, Untaken;
    PatchesOfFragments(data, fragments);
    var p, path := ExtractAll(data, fragments).1[i], Steps(fragments[i].path);
    forall x
      ensures p.data.Obj? && x in p.data.fields
         <==> x in fragments[i].fields && Untaken(data, fragments, i, path + [Key(x)])
    {
      BringsMemberIff(p, x);
      BringsIff(data, fragments, i, path + [Key(x)]);
    }
    if Carries(p) {
      var x :| x in p.data.fields;
      assert x in fragments[i].fields && Untaken(data, fragments, i, path + [Key(x)]);
    }
  }

  /** What a fragment's path goes through and a later one takes. */
  function Through(later: Fragment, earlier: Fragment): seq<Step>
    requires TakesPathOf(later, earlier)
  {
    Steps(earlier.path)[..|later.path| + 1]
  }

  lemma SwallowsIff(data: Json, fragments: seq<Fragment>, i: nat, j: nat)
    requires i < j < |fragments| == |ExtractAll(data, fragments).1|
    ensures var ps := ExtractAll(data, fragments).1;
      Swallows(ps[j], ps[i])
      <==> Fruitful(data, fragments, i) && TakesPathOf(fragments[j], fragments[i])
           && Untaken(data, fragments, j, Through(fragments[j], fragments[i]))
  {
    hide ExtractAll, Brings, Untaken, Fruitful, Carries, ToStep;
    PatchesOfFragments(data, fragments);
    CarriesIffFruitful(data, fragments, i);
    var q, path := ExtractAll(data, fragments).1[j], Steps(fragments[i].path);
    if q.path < path && path[|q.path|].Key? {
      var k := path[|q.path|].name;
      assert path[..|q.path| + 1] == q.path + [Key(k)];
      BringsMemberIff(q, k);
      BringsIff(data, fragments, j, q.path + [Key(k)]);
    }
  }

  /** If a fruitful fragment's path is taken later, the first to take it brings it back. */
  lemma {:induction false} Swallower(data: Json, fragments: seq<Fragment>, i: nat, j: nat) returns (first: nat)
    requires i < j < |fragments| == |ExtractAll(data, fragments).1|
    requires Fruitful(data, fragments, i) && TakesPathOf(fragments[j], fragments[i])
    ensures i < first <= j && Swallows(ExtractAll(data, fragments).1[first], ExtractAll(data, fragments).1[i])
    decreases j
  {
    hide ExtractAll, ToStep, Swallows;
    var path := Steps(fragments[i].path);
    var through := Through(fragments[j], fragments[i]);
    var x :| x in fragments[i].fields && Untaken(data, fragments, i, path + [Key(x)]);
    var place := path + [Key(x)];
    assert through <= place;
    HasAbove(data, place, through);
    if Untaken(data, fragments, j, through) {
      SwallowsIff(data, fragments, i, j);
      first := j;
    } else {
      var m :| 0 <= m < j && InFields(Steps(fragments[m].path), fragments[m].fields, through);
      assert InFields(Steps(fragments[m].path), fragments[m].fields, place);
      assert i < m;
      assert TakesPathOf(fragments[m], fragments[i]);
      first := Swallower(data, fragments, i, m);
    }
  }

  /** No fragment that finds anything has its path taken by a later one. */
  ghost predicate NoneTaken(data: Json, fragments: seq<Fragment>) {
    forall i, j :: 0 <= i < j < |fragments| && TakesPathOf(fragments[j], fragments[i]) ==> !Fruitful(data, fragments, i)
  }

  /**
   The same told by data and fragments alone: merged as they arrive, the patches restore the data
   exactly when no fragment that finds a field defers it below a field that a later one defers.
   */
  lemma ForwardRestoresIff(data: Json, fragments: seq<Fragment>)
    ensures
      var (initial, patches) := ExtractAll(data, fragments);
      MergeForward(initial, patches) == data <==> NoneTaken(data, fragments)
  {
    hide ExtractAll, MergeForward, Swallows, Fruitful, TakesPathOf;
    PatchesRestoreIff(data, fragments);
    PatchesOfFragments(data, fragments);
    var patches := ExtractAll(data, fragments).1;
    if NoneTaken(data, fragments) {
      forall i, j | 0 <= i < j < |patches|
        ensures !Swallows(patches[j], patches[i])
      {
        SwallowsIff(data, fragments, i, j);
      }
    } else {
      var i, j :| 0 <= i < j < |fragments| && TakesPathOf(fragments[j], fragments[i]) && Fruitful(data, fragments, i);
      var first := Swallower(data, fragments, i, j);
    }
  }

  /** So it does for any data when no fragment takes the path of an earlier one. */
  lemma ForwardRestores(data: Json, fragments: seq<Fragment>)
    requires forall i, j :: 0 <= i < j < |fragments| ==> !TakesPathOf(fragments[j], fragments[i])
    ensures var (initial, patches) := ExtractAll(data, fragments); MergeForward(initial, patches) == data
  {
    hide ExtractAll, MergeForward;
    ForwardRestoresIff(data, fragments);
  }

  lemma RootFragmentsRestore(data: Json, fragments: seq<Fragment>)
    requires forall f <- fragments :: f.path == []
    ensures var (initial, patches) := ExtractAll(data, fragments); MergeForward(initial, patches) == data
  {
    hide ExtractAll, MergeForward;
    forall i, j | 0 <= i < j < |fragments|
      ensures !TakesPathOf(fragments[j], fragments[i])
    {
      assert fragments[i] in fragments;
    }
    ForwardRestores(data, fragments);
  }

  /** A field deferred inside an object that is deferred afterwards is lost to a client merging in order. */
  lemma NestedFieldIsLost()
    ensures
      var data := Obj(map["user" := Obj(map["bio" := Null])]);
      var fragments := [Fragment(None, ["user"], ["bio"], false), Fragment(None, [], ["user"], false)];
      var (initial, patches) := ExtractAll(data, fragments);
      MergeForward(initial, patches) != data
  {
    var user := Obj(map["bio" := Null]);
    var data := Obj(map["user" := user]);
    var inner, outer := Fragment(None, ["user"], ["bio"], false), Fragment(None, [], ["user"], false);
    var fragments := [inner, outer];
    ForwardRestoresIff(data, fragments);
    assert ToStep("user") == Key("user") by { assert ParseDigits("user", 0) == None; }
    assert Steps(["user"]) == [Key("user")];
    var place := Steps(["user"]) + [Key("bio")];
    assert place[1..] == [Key("bio")];
    assert Lookup(data, place) == Lookup(user, [Key("bio")]) == Lookup(Null, []);
    assert "bio" in inner.fields && Untaken(data, fragments, 0, place);
    assert TakesPathOf(fragments[1], fragments[0]) && Fruitful(data, fragments, 0);
  }

  // ----- the stream -------------------------------------------------------------------

  function DataOf(response: Json): Json {
    if Child(response, Key("data")).Some? then Child(response, Key("data")).value else Null
  }

  function ExtractErrors(response: Json): seq<Json> {
    match Child(response, Key("errors"))
    case Some(Arr(items)) => items
    case _ => []
  }

  function Active(fragments: seq<Fragment>): (active: seq<Fragment>)
    ensures |active| <= |fragments|
  {
    if fragments == [] then []
    else (if fragments[0].disabled then [] else [fragments[0]]) + Active(fragments[1..])
  }

  datatype Completion = Done | Timeout | ChannelClosed

  /** The patches, one a part; `elapsed` is the clock before each, and past the limit one empty part ends the stream. */
  function Incremental(patches: seq<IncrementalPatch>, elapsed: seq<nat>, limit: nat): seq<Part>
    requires |elapsed| >= |patches|
    decreases |patches|
  {
    if patches == [] then []
    else if elapsed[0] > limit then [Subsequent([], false)]
    else [Subsequent([patches[0]], |patches| > 1)] + Incremental(patches[1..], elapsed[1..], limit)
  }

  predicate TimesOut(patches: seq<IncrementalPatch>, elapsed: seq<nat>, limit: nat)
    requires |elapsed| >= |patches|
  {
    exists i :: 0 <= i < |patches| && elapsed[i] > limit
  }

  /** What an open channel carries. */
  function Stream(response: Json, fragments: seq<Fragment>, elapsed: seq<nat>, limit: nat): seq<Part>
    requires |elapsed| >= |fragments|
  {
    var active := Active(fragments);
    if active == [] then [Initial(DataOf(response), ExtractErrors(response), false)]
    else
      var (initial, patches) := ExtractAll(DataOf(response), active);
      PatchesOfFragments(DataOf(response), active);
      [Initial(initial, ExtractErrors(response), true)] + Incremental(patches, elapsed, limit)
  }

  /** Every part announces another one, but for the last; and none waits for room in the channel. */
  lemma HasNextUntilLast(response: Json, fragments: seq<Fragment>, elapsed: seq<nat>, limit: nat)
    requires |elapsed| >= |fragments|
    ensures
      var parts := Stream(response, fragments, elapsed, limit);
      && 0 < |parts| < Capacity(fragments)
      && forall i :: 0 <= i < |parts| ==> (parts[i].hasNext <==> i < |parts| - 1)
  {
    hide ExtractAll;
    var active := Active(fragments);
    if active != [] {
      var patches := ExtractAll(DataOf(response), active).1;
      PatchesOfFragments(DataOf(response), active);
      IncrementalHasNext(patches, elapsed, limit);
    }
  }

  function Capacity(fragments: seq<Fragment>): nat {
    |fragments| + 2
  }

  lemma {:induction false} IncrementalHasNext(patches: seq<IncrementalPatch>, elapsed: seq<nat>, limit: nat)
    requires |elapsed| >= |patches|
    ensures
      var parts := Incremental(patches, elapsed, limit);
      && |parts| <= |patches| && (patches != [] ==> parts != [])
      && forall i :: 0 <= i < |parts| ==> (parts[i].hasNext <==> i < |parts| - 1)
    decreases |patches|
  {
    if patches != [] && elapsed[0] <= limit {
      IncrementalHasNext(patches[1..], elapsed[1..], limit);
    }
  }

  /** The patches a client has received. */
  function Received(parts: seq<Part>): seq<IncrementalPatch> {
    if parts == [] then []
    else (if parts[0].Subsequent? then parts[0].incremental else []) + Received(parts[1..])
  }

  lemma {:induction false} ReceivedIncremental(patches: seq<IncrementalPatch>, elapsed: seq<nat>, limit: nat)
    requires |elapsed| >= |patches|
    ensures Received(Incremental(patches, elapsed, limit)) <= patches
    ensures Received(Incremental(patches, elapsed, limit)) == patches <==> !TimesOut(patches, elapsed, limit)
    decreases |patches|
  {
    if patches != [] {
      var parts := Incremental(patches, elapsed, limit);
      if elapsed[0] > limit {
        assert parts[1..] == [];
        assert Received(parts) == [] + Received([]) == [];
      } else {
        ReceivedIncremental(patches[1..], elapsed[1..], limit);
        assert parts[1..] == Incremental(patches[1..], elapsed[1..], limit);
        assert Received(parts) == [patches[0]] + Received(parts[1..]);
        assert patches == [patches[0]] + patches[1..];
        if TimesOut(patches, elapsed, limit) {
          var i :| 0 <= i < |patches| && elapsed[i] > limit;
          assert elapsed[1..][i - 1] > limit;
        }
        if TimesOut(patches[1..], elapsed[1..], limit) {
          var i :| 0 <= i < |patches[1..]| && elapsed[1..][i] > limit;
          assert elapsed[i + 1] > limit;
        }
      }
    }
  }

  lemma ExtractNothing(data: Json)
    ensures ExtractAll(data, []) == (data, [])
  {
  }

  /** Without a timeout the client has everything: the parts of the stream restore the response's data. */
  lemma StreamRestores(response: Json, fragments: seq<Fragment>, elapsed: seq<nat>, limit: nat)
    requires |elapsed| >= |fragments|
    requires forall i :: 0 <= i < |fragments| ==> elapsed[i] <= limit
    ensures
      var parts := Stream(response, fragments, elapsed, limit);
      && parts != [] && parts[0].Initial?
      && MergeBackward(parts[0].data, Received(parts)) == DataOf(response)
      && (MergeForward(parts[0].data, Received(parts)) == DataOf(response)
          <==> NoneTaken(DataOf(response), Active(fragments)))
  {
    hide ExtractAll, Incremental, MergeBackward, MergeForward, FitBackward, NoneTaken;
    var active := Active(fragments);
    var parts := Stream(response, fragments, elapsed, limit);
    if active == [] {
      assert Received(parts) == [] + Received(parts[1..]) == [];
      BackwardRestores(DataOf(response), []);
      ForwardRestoresIff(DataOf(response), []);
      ExtractNothing(DataOf(response));
    } else {
      var (initial, patches) := ExtractAll(DataOf(response), active);
      PatchesOfFragments(DataOf(response), active);
      ReceivedIncremental(patches, elapsed, limit);
      assert parts[1..] == Incremental(patches, elapsed, limit);
      assert Received(parts) == [] + Received(parts[1..]) == patches;
      BackwardRestores(DataOf(response), active);
      ForwardRestoresIff(DataOf(response), active);
    }
  }

  // ----- the execution itself ---------------------------------------------------------

  /** What the receiver got before it went away after `openFor` parts, and how the call ended. */
  function Sent(parts: seq<Part>, openFor: nat): seq<Part> {
    if openFor < |parts| then parts[..openFor] else parts
  }

  /** The last part after a timeout is sent without looking at the answer. */
  function CompletionOf(parts: seq<Part>, timedOut: bool, openFor: nat): Completion {
    if openFor >= |parts| then if timedOut then Timeout else Done
    else if timedOut && openFor + 1 == |parts| then Timeout
    else ChannelClosed
  }

  class DeferredExecution {
    const totalTimeoutMs: nat
    const fragments: seq<Fragment>
    const capacity: nat
    var sent: seq<Part>

    constructor (totalTimeoutMs: nat, fragments: seq<Fragment>)
      ensures this.totalTimeoutMs == totalTimeoutMs && this.fragments == fragments
      ensures capacity == Capacity(fragments) && sent == []
    {
      this.totalTimeoutMs, this.fragments := totalTimeoutMs, fragments;
      capacity := |fragments| + 2;
      sent := [];
    }

    method Send(part: Part, openFor: nat) returns (ok: bool)
      modifies this
      ensures ok <==> |old(sent)| < openFor
      ensures sent == if ok then old(sent) + [part] else old(sent)
    {
      ok := |sent| < openFor;
      if ok {
        sent := sent + [part];
      }
    }

    /** `elapsed[i]` is the time since the start when patch i is about to be sent. */
    method Execute(fullResponse: Json, elapsed: seq<nat>, openFor: nat) returns (r: Completion)
      requires sent == [] && |elapsed| >= |fragments|
      modifies this
      ensures
        var parts := Stream(fullResponse, fragments, elapsed, totalTimeoutMs);
        var (_, patches) := ExtractAll(DataOf(fullResponse), Active(fragments));
        && |patches| <= |elapsed|
        && sent == Sent(parts, openFor)
        && r == CompletionOf(parts, TimesOut(patches, elapsed, totalTimeoutMs), openFor)
    {
      hide ExtractAll;
      var activeFragments := Active(fragments);
      var data := DataOf(fullResponse);
      var errors := ExtractErrors(fullResponse);
      PatchesOfFragments(data, activeFragments);
      ghost var parts := Stream(fullResponse, fragments, elapsed, totalTimeoutMs);
      if activeFragments == [] {
        ExtractNothing(data);
        var sentIt := Send(Initial(data, errors, false), openFor);
        return if sentIt then Done else ChannelClosed;
      }
      var initialData, patches := TakeOutAll(data, activeFragments);
      var ok := Send(Initial(initialData, errors, true), openFor);
      if !ok {
        IncrementalHasNext(patches, elapsed, totalTimeoutMs);
        return ChannelClosed;
      }
      r := SendPatches(patches, elapsed, openFor, parts[..1]);
      assert parts == parts[..1] + Incremental(patches, elapsed, totalTimeoutMs);
    }

    /** The loop over the fragments that builds the initial data and the patches. */
    static method TakeOutAll(data: Json, active: seq<Fragment>) returns (initialData: Json, patches: seq<IncrementalPatch>)
      ensures (initialData, patches) == ExtractAll(data, active)
    {
      hide Extract;
      initialData, patches := data, [];
      assert active[0..] == active;
      for i := 0 to |active|
        invariant ExtractAll(data, active).0 == ExtractAll(initialData, active[i..]).0
        invariant ExtractAll(data, active).1 == patches + ExtractAll(initialData, active[i..]).1
      {
        assert active[i..][0] == active[i] && active[i..][1..] == active[i + 1..];
        var f := active[i];
        var extracted;
        initialData, extracted := ExtractAndRemoveFields(initialData, Steps(f.path), f.fields);
        var patch := IncrementalPatch(extracted, Steps(f.path), f.tag);
        ghost var rest := ExtractAll(initialData, active[i + 1..]).1;
        assert patches + ([patch] + rest) == patches + [patch] + rest;
        patches := patches + [patch];
      }
      assert active[|active|..] == [] && patches + [] == patches;
      ExtractNothing(initialData);
    }

    /** The loop that sends them, `head` having been sent. */
    method SendPatches(patches: seq<IncrementalPatch>, elapsed: seq<nat>, openFor: nat, ghost head: seq<Part>)
      returns (r: Completion)
      requires |elapsed| >= |patches| && patches != [] && sent == head && |head| <= openFor
      modifies this
      ensures
        var parts := head + Incremental(patches, elapsed, totalTimeoutMs);
        sent == Sent(parts, openFor) && r == CompletionOf(parts, TimesOut(patches, elapsed, totalTimeoutMs), openFor)
    {
      hide Incremental;
      ghost var all := head + Incremental(patches, elapsed, totalTimeoutMs);
      assert patches[0..] == patches && elapsed[0..] == elapsed;
      NoneLeft(elapsed[|patches|..], totalTimeoutMs);
      for i := 0 to |patches|
        invariant |sent| <= openFor && all == sent + Incremental(patches[i..], elapsed[i..], totalTimeoutMs)
        invariant forall j :: 0 <= j < i ==> elapsed[j] <= totalTimeoutMs
      {
        IncrementalFrom(patches, elapsed, totalTimeoutMs, i);
        if elapsed[i] > totalTimeoutMs {
          var _ := Send(Subsequent([], false), openFor);
          return Timeout;
        }
        var isLast := i == |patches| - 1;
        var part := Subsequent([patches[i]], !isLast);
        ghost var before := sent;
        var ok := Send(part, openFor);
        ghost var rest := Incremental(patches[i + 1..], elapsed[i + 1..], totalTimeoutMs);
        assert all == before + ([part] + rest) == before + [part] + rest;
        if !ok {
          LateTail(patches[i + 1..], elapsed[i + 1..], totalTimeoutMs);
          assert TimesOut(patches, elapsed, totalTimeoutMs) ==> !isLast;
          return ChannelClosed;
        }
      }
      r := Done;
    }

    static lemma IncrementalFrom(patches: seq<IncrementalPatch>, elapsed: seq<nat>, limit: nat, i: nat)
      requires |elapsed| >= |patches| && i < |patches|
      ensures Incremental(patches[i..], elapsed[i..], limit)
           == if elapsed[i] > limit then [Subsequent([], false)]
              else [Subsequent([patches[i]], i < |patches| - 1)] + Incremental(patches[i + 1..], elapsed[i + 1..], limit)
    {
      assert patches[i..][1..] == patches[i + 1..] && elapsed[i..][1..] == elapsed[i + 1..];
    }

    static lemma NoneLeft(elapsed: seq<nat>, limit: nat)
      ensures Incremental([], elapsed, limit) == []
    {
    }

    static lemma LateTail(patches: seq<IncrementalPatch>, elapsed: seq<nat>, limit: nat)
      requires |elapsed| >= |patches|
      ensures patches != [] ==> Incremental(patches, elapsed, limit) != []
    {
    }

    /**
     Walks down to the target, moves the fields from it into the result, and leaves the
     changed target where it was.
     */
    static method ExtractAndRemoveFields(data: Json, path: seq<Step>, fields: seq<string>)
      returns (remaining: Json, extracted: Json)
      ensures (remaining, extracted) == Extract(data, path, fields)
    {
      var current := data;
      for i := 0 to |path|
        invariant Lookup(data, path) == Lookup(current, path[i..])
      {
        assert path[i..][0] == path[i] && path[i..][1..] == path[i + 1..];
        var child := Child(current, path[i]);
        if child.None? {
          return data, Null;
        }
        current := child.value;
      }
      assert path[|path|..] == [];
      var taken: map<string, Json> := map[];
      if !current.Obj? {
        return data, Obj(taken);
      }
      var left := current.fields;
      assert fields[..0] == [];
      for i := 0 to |fields|
        invariant taken == Pick(current.fields, fields[..i])
        invariant left == current.fields - Elements(fields[..i])
      {
        var field := fields[i];
        assert fields[..i + 1] == fields[..i] + [field];
        if field in left {
          taken := taken[field := left[field]];
          left := left - {field};
        }
      }
      assert fields[..|fields|] == fields;
      remaining, extracted := ReplaceAt(data, path, Obj(left)), Obj(taken);
    }
  }
}
