/**
 Field-level differences between two JSON values, for live query updates.  What is proved
 about them is told of paths as steps; a report has the path's text.
 */
module FieldDiff {
  import opened Wrappers
  import opened JsonTree
  import opened PathTexts

  /** A difference: where, what was there, and what is there now, null standing for nothing. */
  datatype FieldChange = FieldChange(path: seq<Step>, oldValue: Option<Json>, newValue: Json)

  predicate SameContainer(old_: Json, new_: Json) {
    (old_.Obj? && new_.Obj?) || (old_.Arr? && new_.Arr?)
  }

  /** The steps that lead into either of two containers of one kind. */
  function Steps(old_: Json, new_: Json): set<Step> {
    if old_.Obj? && new_.Obj? then set k | k in old_.fields.Keys + new_.fields.Keys :: Key(k)
    else if old_.Arr? && new_.Arr? then
      set i | 0 <= i < (if |old_.items| >= |new_.items| then |old_.items| else |new_.items|) :: Index(i)
    else {}
  }

  /** The changes between two values found at a path. */
  function Changes(old_: Json, new_: Json, path: seq<Step>, depth: nat, maxDepth: nat): set<FieldChange>
    decreases old_, 1
  {
    if depth >= maxDepth then {}
    else if SameContainer(old_, new_) then
      set step, c | step in Steps(old_, new_) && c in MemberChanges(old_, new_, step, path, depth, maxDepth) :: c
    else if old_ != new_ then {FieldChange(path, Some(old_), new_)}
    else {}
  }

  /** What one member contributes: its own changes or, when nothing finer is found, itself. */
  function MemberChanges(old_: Json, new_: Json, step: Step, path: seq<Step>, depth: nat, maxDepth: nat)
    : set<FieldChange>
    decreases old_, 0
  {
    var there := path + [step];
    match (Child(old_, step), Child(new_, step))
    case (Some(o), Some(n)) =>
      if o == n then {}
      else
        var nested := Changes(o, n, there, depth + 1, maxDepth);
        if nested == {} then {FieldChange(there, Some(o), n)} else nested
    case (None, Some(n)) => {FieldChange(there, None, n)}
    case (Some(o), None) => {FieldChange(there, Some(o), Null)}
    case (None, None) => {}
  }

  // ----- What is reported -------------------------------------------------------------

  /** Two containers of one kind are equal exactly when all their members are. */
  lemma EqualByMembers(old_: Json, new_: Json)
    requires SameContainer(old_, new_)
    ensures old_ == new_ <==> forall step <- Steps(old_, new_) :: Child(old_, step) == Child(new_, step)
  {
    if forall step <- Steps(old_, new_) :: Child(old_, step) == Child(new_, step) {
      if old_.Obj? {
        forall k | k in old_.fields.Keys + new_.fields.Keys
          ensures k in old_.fields && k in new_.fields && old_.fields[k] == new_.fields[k]
        {
          assert Key(k) in Steps(old_, new_);
        }
        assert old_.fields == new_.fields;
      } else {
        var shorter := if |old_.items| < |new_.items| then |old_.items| else |new_.items|;
        assert |old_.items| != |new_.items| ==> Index(shorter) in Steps(old_, new_);
        forall i | 0 <= i < |old_.items| || 0 <= i < |new_.items|
          ensures i < |old_.items| && i < |new_.items| && old_.items[i] == new_.items[i]
        {
          assert Index(i) in Steps(old_, new_);
        }
        assert old_.items == new_.items;
      }
    }
  }

  /** Nothing is reported exactly when nothing changed or the depth limit is reached. */
  lemma EmptyIffEqual(old_: Json, new_: Json, path: seq<Step>, depth: nat, maxDepth: nat)
    ensures Changes(old_, new_, path, depth, maxDepth) == {} <==> old_ == new_ || depth >= maxDepth
  {
    var cs := Changes(old_, new_, path, depth, maxDepth);
    if depth < maxDepth && SameContainer(old_, new_) {
      EqualByMembers(old_, new_);
      if old_ != new_ {
        var step :| step in Steps(old_, new_) && Child(old_, step) != Child(new_, step);
        var mine := MemberChanges(old_, new_, step, path, depth, maxDepth);
        assert mine != {};
        var c :| c in mine;
        assert c in cs;
      }
    }
  }

  /**
   The reference: a path is reported when the values there differ, every container above is of
   one kind on both sides, and the values are not two such containers unless the limit is reached.
   */
  predicate Reported(old_: Json, new_: Json, rest: seq<Step>, limit: nat)
    decreases |rest|
  {
    if rest == [] then old_ != new_ && (limit == 0 || !SameContainer(old_, new_))
    else
      && limit > 0
      && SameContainer(old_, new_)
      && match (Child(old_, rest[0]), Child(new_, rest[0]))
         case (Some(o), Some(n)) => Reported(o, n, rest[1..], limit - 1)
         case (None, None) => false
         case _ => |rest| == 1
  }

  /** The change a path stands for. */
  function ChangeAt(old_: Json, new_: Json, rest: seq<Step>, path: seq<Step>): FieldChange {
    var now := Lookup(new_, rest);
    FieldChange(path + rest, Lookup(old_, rest), if now.Some? then now.value else Null)
  }

  predicate Accounts(c: FieldChange, old_: Json, new_: Json, path: seq<Step>, limit: nat) {
    && path <= c.path
    && var rest := c.path[|path|..];
       Reported(old_, new_, rest, limit) && c == ChangeAt(old_, new_, rest, path)
  }

  /** The changes are those of the reference, no more and no fewer. */
  lemma {:induction false} ChangesExactly(
    old_: Json, new_: Json, path: seq<Step>, depth: nat, maxDepth: nat, c: FieldChange)
    requires depth < maxDepth
    ensures c in Changes(old_, new_, path, depth, maxDepth) <==> Accounts(c, old_, new_, path, maxDepth - depth)
    decreases old_
  {
    if SameContainer(old_, new_) {
      forall step | step in Steps(old_, new_)
        ensures c in MemberChanges(old_, new_, step, path, depth, maxDepth)
           <==> path + [step] <= c.path && Accounts(c, old_, new_, path, maxDepth - depth)
      {
        MemberExactly(old_, new_, path, depth, maxDepth, c, step);
      }
      if Accounts(c, old_, new_, path, maxDepth - depth) {
        var step := c.path[|path|];
        assert c.path[|path|..][0] == step;
        assert path + [step] <= c.path;
        assert step in Steps(old_, new_);
      }
    } else if Accounts(c, old_, new_, path, maxDepth - depth) {
      assert c.path[|path|..] == [];
      assert path + [] == path;
    } else {
      assert path[|path|..] == [];
      assert path + [] == path;
    }
  }

  lemma {:induction false} MemberExactly(
    old_: Json, new_: Json, path: seq<Step>, depth: nat, maxDepth: nat, c: FieldChange, step: Step)
    requires depth < maxDepth && SameContainer(old_, new_)
    ensures c in MemberChanges(old_, new_, step, path, depth, maxDepth)
       <==> path + [step] <= c.path && Accounts(c, old_, new_, path, maxDepth - depth)
    decreases old_, 0
  {
    var there := path + [step];
    if there <= c.path {
      var rest := c.path[|path|..];
      assert rest[0] == step && rest[1..] == c.path[|there|..];
      assert path + rest == there + rest[1..];
      assert rest == [step] <==> c.path == there;
      assert c.path == path + rest;
    }
    assert there[|path|..] == [step] && [step][1..] == [];
    match (Child(old_, step), Child(new_, step))
    case (Some(o), Some(n)) =>
      if depth + 1 < maxDepth {
        ChangesExactly(o, n, there, depth + 1, maxDepth, c);
        EmptyIffEqual(o, n, there, depth + 1, maxDepth);
      }
      if there <= c.path {
        var rest := c.path[|path|..];
        assert ChangeAt(old_, new_, rest, path) == ChangeAt(o, n, rest[1..], there);
        assert Reported(old_, new_, rest, maxDepth - depth) <==> Reported(o, n, rest[1..], maxDepth - depth - 1);
      }
    case _ =>
      LookupOne(old_, step);
      LookupOne(new_, step);
  }

  lemma LookupOne(v: Json, step: Step)
    ensures Lookup(v, [step]) == Child(v, step)
  {
    assert [step][1..] == [];
  }

  // ----- What a subscriber can rely on ------------------------------------------------

  /** A reported path has differing values, absent differing from present. */
  lemma {:induction false} ReportedDiffer(old_: Json, new_: Json, rest: seq<Step>, limit: nat)
    requires Reported(old_, new_, rest, limit)
    ensures Lookup(old_, rest) != Lookup(new_, rest) && |rest| <= limit
    decreases |rest|
  {
    if rest != [] {
      match (Child(old_, rest[0]), Child(new_, rest[0]))
      case (Some(o), Some(n)) => ReportedDiffer(o, n, rest[1..], limit - 1);
      case _ =>
    }
  }

  /** A report names the place: two containers of one kind are reported as such only at the limit. */
  lemma {:induction false} ReportedFinest(old_: Json, new_: Json, rest: seq<Step>, limit: nat)
    requires Reported(old_, new_, rest, limit)
    ensures match (Lookup(old_, rest), Lookup(new_, rest))
            case (Some(o), Some(n)) => SameContainer(o, n) ==> |rest| == limit
            case _ => true
    decreases |rest|
  {
    if rest != [] {
      match (Child(old_, rest[0]), Child(new_, rest[0]))
      case (Some(o), Some(n)) => ReportedFinest(o, n, rest[1..], limit - 1);
      case _ => assert [rest[0]] == rest;
    }
  }

  /** No reported path continues another. */
  lemma {:induction false} ReportedApart(old_: Json, new_: Json, a: seq<Step>, b: seq<Step>, limit: nat)
    requires Reported(old_, new_, a, limit) && Reported(old_, new_, b, limit) && a <= b
    ensures a == b
    decreases |a|
  {
    if a != [] {
      assert a[0] == b[0] && a[1..] <= b[1..];
      match (Child(old_, a[0]), Child(new_, a[0]))
      case (Some(o), Some(n)) => ReportedApart(o, n, a[1..], b[1..], limit - 1);
      case _ =>
    }
  }

  predicate Comparable(a: seq<Step>, b: seq<Step>) {
    a <= b || b <= a
  }

  /** Where the values differ, something on the way there, or below it, is reported. */
  lemma {:induction false} DifferenceIsReported(
    old_: Json, new_: Json, q: seq<Step>, path: seq<Step>, depth: nat, maxDepth: nat) returns (c: FieldChange)
    requires depth < maxDepth && Lookup(old_, q) != Lookup(new_, q)
    ensures c in Changes(old_, new_, path, depth, maxDepth) && Comparable(c.path, path + q)
    decreases |q|
  {
    if !SameContainer(old_, new_) {
      c := FieldChange(path, Some(old_), new_);
      assert c.path <= path + q;
    } else if q == [] {
      EmptyIffEqual(old_, new_, path, depth, maxDepth);
      c :| c in Changes(old_, new_, path, depth, maxDepth);
      ChangesExactly(old_, new_, path, depth, maxDepth, c);
      assert path + q == path;
    } else {
      var there := path + [q[0]];
      assert there + q[1..] == path + q && there <= path + q;
      var mine := MemberChanges(old_, new_, q[0], path, depth, maxDepth);
      assert q[0] in Steps(old_, new_);
      match (Child(old_, q[0]), Child(new_, q[0])) {
        case (Some(o), Some(n)) =>
          if depth + 1 < maxDepth {
            c := DifferenceIsReported(o, n, q[1..], there, depth + 1, maxDepth);
          } else {
            assert Changes(o, n, there, depth + 1, maxDepth) == {};
            c := FieldChange(there, Some(o), n);
          }
        case (Some(o), None) => c := FieldChange(there, Some(o), Null);
        case (None, Some(n)) => c := FieldChange(there, None, n);
      }
      assert c in mine;
    }
  }

  /** The change shows what is there on either side, and the two sides differ. */
  predicate Shows(c: FieldChange, old_: Json, new_: Json, path: seq<Step>) {
    && path <= c.path
    && var (was, now) := (Lookup(old_, c.path[|path|..]), Lookup(new_, c.path[|path|..]));
       was != now && c.oldValue == was && (now == Some(c.newValue) || (now == None && c.newValue == Null))
  }

  /**
   All of it for the list of changes: it is empty exactly when nothing changed, every entry shows
   two differing values, no entry's path continues another's, and no difference is missed.
   */
  lemma ChangesAreADiff(old_: Json, new_: Json, path: seq<Step>, depth: nat, maxDepth: nat)
    requires depth < maxDepth
    ensures
      var cs := Changes(old_, new_, path, depth, maxDepth);
      && (cs == {} <==> old_ == new_)
      && (forall c <- cs :: Shows(c, old_, new_, path))
      && (forall c <- cs, d <- cs :: c.path <= d.path ==> c == d)
      && (forall q :: Lookup(old_, q) != Lookup(new_, q) ==> exists c <- cs :: Comparable(c.path, path + q))
  {
    var cs := Changes(old_, new_, path, depth, maxDepth);
    EmptyIffEqual(old_, new_, path, depth, maxDepth);
    forall c | c in cs
      ensures Accounts(c, old_, new_, path, maxDepth - depth)
      ensures Shows(c, old_, new_, path)
    {
      ChangesExactly(old_, new_, path, depth, maxDepth, c);
      ReportedDiffer(old_, new_, c.path[|path|..], maxDepth - depth);
    }
    forall c, d | c in cs && d in cs && c.path <= d.path
      ensures c == d
    {
      assert c.path[|path|..] <= d.path[|path|..];
      ReportedApart(old_, new_, c.path[|path|..], d.path[|path|..], maxDepth - depth);
    }
    forall q | Lookup(old_, q) != Lookup(new_, q)
      ensures exists c <- cs :: Comparable(c.path, path + q)
    {
      var c := DifferenceIsReported(old_, new_, q, path, depth, maxDepth);
    }
  }

  // ----- Reports as text --------------------------------------------------------------

  /** At every depth names are plain or the odd one. */
  predicate NamesOk(v: Json, odd: string) {
    match v
    case Obj(fields) => forall k :: k in fields ==> NameOk(k, odd) && NamesOk(fields[k], odd)
    case Arr(items) => forall i :: 0 <= i < |items| ==> NamesOk(items[i], odd)
    case _ => true
  }

  lemma {:induction false} NamesOnPath(v: Json, path: seq<Step>, odd: string)
    requires NamesOk(v, odd) && Lookup(v, path).Some?
    ensures PathOk(path, odd)
    decreases |path|
  {
    if path != [] {
      NamesOnPath(Child(v, path[0]).value, path[1..], odd);
      forall i | 0 <= i < |path| && path[i].Key?
        ensures NameOk(path[i].name, odd)
      {
        if i > 0 {
          assert path[1..][i - 1] == path[i];
        }
      }
    }
  }

  /** No two changes are reported under one text. */
  ghost predicate OneTextEach(old_: Json, new_: Json, maxDepth: nat) {
    var cs := Changes(old_, new_, [], 0, maxDepth);
    forall c <- cs, d <- cs :: Text(c.path) == Text(d.path) ==> c == d
  }

  /** The changes between two values are all below names, all below positions, or one for the whole. */
  lemma StartAlike(old_: Json, new_: Json, maxDepth: nat, c: FieldChange)
    requires c in Changes(old_, new_, [], 0, maxDepth)
    ensures if SameContainer(old_, new_) then c.path != [] && (c.path[0].Key? <==> old_.Obj?) else c.path == []
  {
    ChangesExactly(old_, new_, [], 0, maxDepth, c);
    assert c.path[0..] == c.path;
  }

  lemma ChangePathOk(old_: Json, new_: Json, maxDepth: nat, odd: string, c: FieldChange)
    requires c in Changes(old_, new_, [], 0, maxDepth) && NamesOk(old_, odd) && NamesOk(new_, odd)
    ensures PathOk(c.path, odd)
  {
    hide NamesOk, PathOk, Changes;
    EmptyIffEqual(old_, new_, [], 0, maxDepth);
    ChangesExactly(old_, new_, [], 0, maxDepth, c);
    assert c.path[0..] == c.path;
    ReportedDiffer(old_, new_, c.path, maxDepth);
    if Lookup(old_, c.path).Some? {
      NamesOnPath(old_, c.path, odd);
    } else {
      NamesOnPath(new_, c.path, odd);
    }
  }

  /** With plain names, and one other that is not empty and reads as no path, every change has a text of its own. */
  lemma TextsDistinct(old_: Json, new_: Json, maxDepth: nat, odd: string)
    requires Sound(odd) && NamesOk(old_, odd) && NamesOk(new_, odd)
    ensures OneTextEach(old_, new_, maxDepth)
  {
    hide Changes, Text, NamesOk, PathOk, Sound;
    forall c, d | c in Changes(old_, new_, [], 0, maxDepth) && d in Changes(old_, new_, [], 0, maxDepth)
                  && Text(c.path) == Text(d.path)
      ensures c == d
    {
      StartAlike(old_, new_, maxDepth, c);
      StartAlike(old_, new_, maxDepth, d);
      ChangePathOk(old_, new_, maxDepth, odd, c);
      ChangePathOk(old_, new_, maxDepth, odd, d);
      if c.path != [] {
        TextsApart(c.path, d.path, odd);
      }
      SamePath(old_, new_, maxDepth, c, d);
    }
  }

  lemma SamePath(old_: Json, new_: Json, maxDepth: nat, c: FieldChange, d: FieldChange)
    requires c in Changes(old_, new_, [], 0, maxDepth) && d in Changes(old_, new_, [], 0, maxDepth) && c.path == d.path
    ensures c == d
  {
    hide Changes;
    EmptyIffEqual(old_, new_, [], 0, maxDepth);
    ChangesExactly(old_, new_, [], 0, maxDepth, c);
    ChangesExactly(old_, new_, [], 0, maxDepth, d);
  }

  /** A value with nothing but a leaf at the end of a path. */
  function Nest(path: seq<Step>, leaf: Json): Json
    decreases |path|
  {
    if path == [] then leaf
    else
      var inner := Nest(path[1..], leaf);
      match path[0]
      case Key(name) => Obj(map[name := inner])
      case Index(i) => Arr(seq(i, _ => Null) + [inner])
  }

  lemma {:induction false} NestReported(path: seq<Step>, limit: nat)
    requires |path| <= limit
    ensures Reported(Nest(path, Null), Nest(path, Bool(true)), path, limit)
    ensures Lookup(Nest(path, Null), path) == Some(Null) && Lookup(Nest(path, Bool(true)), path) == Some(Bool(true))
    decreases |path|
  {
    if path != [] {
      NestReported(path[1..], limit - 1);
      NestChild(path, Null);
      NestChild(path, Bool(true));
    }
  }

  lemma NestChild(path: seq<Step>, leaf: Json)
    requires path != []
    ensures Child(Nest(path, leaf), path[0]) == Some(Nest(path[1..], leaf))
    ensures if path[0].Key? then Nest(path, leaf).Obj? else Nest(path, leaf).Arr?
  {
  }

  lemma {:induction false} NestNames(path: seq<Step>, leaf: Json, odd: string)
    requires PathOk(path, odd) && !leaf.Obj? && !leaf.Arr?
    ensures NamesOk(Nest(path, leaf), odd)
    decreases |path|
  {
    if path != [] {
      NestNames(path[1..], leaf, odd);
    }
  }

  /** A value with a leaf at the end of each of two paths. */
  function Fork(p: seq<Step>, q: seq<Step>, leaf: Json): Json
    requires p != [] && q != [] && p[0].Key? && q[0].Key?
  {
    Obj(map[p[0].name := Nest(p[1..], leaf), q[0].name := Nest(q[1..], leaf)])
  }

  /** Both leaves are reported when they change. */
  lemma ForkReported(p: seq<Step>, q: seq<Step>, maxDepth: nat)
    requires p != [] && q != [] && p[0].Key? && q[0].Key? && p[0] != q[0] && |p| <= maxDepth && |q| <= maxDepth
    ensures
      var cs := Changes(Fork(p, q, Null), Fork(p, q, Bool(true)), [], 0, maxDepth);
      FieldChange(p, Some(Null), Bool(true)) in cs && FieldChange(q, Some(Null), Bool(true)) in cs
  {
    hide Nest, Changes;
    LegReported(p, q, p, maxDepth);
    LegReported(p, q, q, maxDepth);
  }

  lemma LegReported(p: seq<Step>, q: seq<Step>, path: seq<Step>, maxDepth: nat)
    requires p != [] && q != [] && p[0].Key? && q[0].Key? && p[0] != q[0]
    requires (path == p || path == q) && |path| <= maxDepth
    ensures FieldChange(path, Some(Null), Bool(true))
      in Changes(Fork(p, q, Null), Fork(p, q, Bool(true)), [], 0, maxDepth)
  {
    hide Nest, Changes;
    var (old_, new_) := (Fork(p, q, Null), Fork(p, q, Bool(true)));
    assert Child(old_, path[0]) == Some(Nest(path[1..], Null));
    assert Child(new_, path[0]) == Some(Nest(path[1..], Bool(true)));
    NestReported(path[1..], maxDepth - 1);
    assert Reported(old_, new_, path, maxDepth);
    assert path[0..] == path && [] + path == path;
    ChangesExactly(old_, new_, [], 0, maxDepth, FieldChange(path, Some(Null), Bool(true)));
  }

  lemma ForkNames(p: seq<Step>, q: seq<Step>, leaf: Json, odd: string)
    requires p != [] && q != [] && p[0].Key? && q[0].Key? && PathOk(p, odd) && PathOk(q, odd)
    requires !leaf.Obj? && !leaf.Arr?
    ensures NamesOk(Fork(p, q, leaf), odd)
  {
    hide Nest, NameOk;
    NestNames(p[1..], leaf, odd);
    NestNames(q[1..], leaf, odd);
  }

  /** Two values with plain names and one other, two of whose changes have one text. */
  ghost predicate Collide(old_: Json, new_: Json, maxDepth: nat, odd: string) {
    NamesOk(old_, odd) && NamesOk(new_, odd) && !OneTextEach(old_, new_, maxDepth)
  }

  /**
   Between values whose names are plain but for one, no two changes ever share a text exactly
   when that name is not empty and is not itself the text of a path.
   */
  lemma TextsDistinctIff(odd: string)
    ensures (forall old_, new_, maxDepth :: !Collide(old_, new_, maxDepth, odd)) <==> odd != "" && !Spelled(odd)
  {
    hide Text, NamesOk, OneTextEach, PathOk;
    if odd != "" && !Spelled(odd) {
      forall old_, new_, maxDepth
        ensures !Collide(old_, new_, maxDepth, odd)
      {
        if NamesOk(old_, odd) && NamesOk(new_, odd) {
          TextsDistinct(old_, new_, maxDepth, odd);
        }
      }
    } else {
      var p, q := ConfusedBy(odd);
      ForkNames(p, q, Null, odd);
      ForkNames(p, q, Bool(true), odd);
      ForkCollides(p, q);
      assert Collide(Fork(p, q, Null), Fork(p, q, Bool(true)), |p| + |q|, odd);
    }
  }

  lemma ForkCollides(p: seq<Step>, q: seq<Step>)
    requires p != [] && q != [] && p[0].Key? && q[0].Key? && p[0] != q[0] && Text(p) == Text(q)
    ensures !OneTextEach(Fork(p, q, Null), Fork(p, q, Bool(true)), |p| + |q|)
  {
    hide Changes, Fork, Text;
    ForkReported(p, q, |p| + |q|);
  }

  /** `a.b` as the name of a member and as the path of one. */
  lemma DottedNameCollides()
    ensures
      var (nested, dotted) := ([Key("a"), Key("b")], [Key("a.b")]);
      Text(nested) == Text(dotted) && !OneTextEach(Fork(nested, dotted, Null), Fork(nested, dotted, Bool(true)), 3)
  {
    hide Decimal;
    var nested: seq<Step>, dotted: seq<Step> := [Key("a"), Key("b")], [Key("a.b")];
    OneStepText("a");
    OneStepText("a.b");
    TextGrows([Key("a")], Key("b"));
    assert nested == [Key("a")] + [Key("b")];
    ForkCollides(nested, dotted);
  }

  /** With two other names, each of which would be harmless alone, changes can collide again. */
  lemma TwoOddNamesCollide()
    ensures
      var (p, q) := ([Key("x."), Key("a")], [Key("x"), Key(".a")]);
      && !OneTextEach(Fork(p, q, Null), Fork(p, q, Bool(true)), 4)
      && Sound("x.") && Sound(".a")
  {
    hide Spelled, Text;
    TwoOddNames();
    ForkCollides([Key("x."), Key("a")], [Key("x"), Key(".a")]);
  }

  // ----- The recursion with its result vector -----------------------------------------

  /** A change as it is reported. */
  datatype FieldReport = FieldReport(fieldPath: string, oldValue: Option<Json>, newValue: Json)

  function Report(c: FieldChange): FieldReport {
    FieldReport(Text(c.path), c.oldValue, c.newValue)
  }

  function Elements(changes: seq<FieldChange>): set<FieldChange> {
    set c | c in changes
  }

  ghost predicate NoTwoAtOnePath(changes: seq<FieldChange>) {
    forall i, j :: 0 <= i < j < |changes| ==> changes[i].path != changes[j].path
  }

  ghost predicate ReportsOf(reports: seq<FieldReport>, changes: seq<FieldChange>) {
    |reports| == |changes| && forall i :: 0 <= i < |changes| ==> reports[i] == Report(changes[i])
  }

  function ReportSet(cs: set<FieldChange>): set<FieldReport> {
    set c | c in cs :: Report(c)
  }

  /** The reports of a set of changes, one for each. */
  ghost predicate Tells(reports: seq<FieldReport>, cs: set<FieldChange>) {
    |reports| == |cs| && (set r | r in reports) == ReportSet(cs)
  }

  lemma {:induction false} ElementsCount(changes: seq<FieldChange>)
    requires NoTwoAtOnePath(changes)
    ensures |Elements(changes)| == |changes|
  {
    if changes == [] {
      assert Elements(changes) == {};
    } else {
      var front, last := changes[..|changes| - 1], changes[|changes| - 1];
      ElementsCount(front);
      assert changes == front + [last];
      assert Elements(changes) == Elements(front) + {last};
      assert last !in Elements(front);
    }
  }

  lemma ReportsTell(reports: seq<FieldReport>, changes: seq<FieldChange>)
    requires ReportsOf(reports, changes) && NoTwoAtOnePath(changes)
    ensures Tells(reports, Elements(changes))
  {
    hide Text;
    ElementsCount(changes);
    forall c | c in changes
      ensures Report(c) in reports
    {
      var i :| 0 <= i < |changes| && changes[i] == c;
      assert reports[i] == Report(c);
    }
  }

  /** The members of two objects in no particular order, those of two arrays by position; `at` is the path as steps. */
  method DetectFieldChanges(old_: Json, new_: Json, path: string, depth: nat, maxDepth: nat, ghost at: seq<Step>)
    returns (reports: seq<FieldReport>, ghost changes: seq<FieldChange>)
    requires path == Text(at)
    ensures Tells(reports, Changes(old_, new_, at, depth, maxDepth))
    ensures ReportsOf(reports, changes) && NoTwoAtOnePath(changes)
    ensures Elements(changes) == Changes(old_, new_, at, depth, maxDepth)
    decreases old_, 1
  {
    hide Tells, Changes;
    reports, changes := ReportMembers(old_, new_, path, depth, maxDepth, at);
    ReportsTell(reports, changes);
  }

  method ReportMembers(old_: Json, new_: Json, path: string, depth: nat, maxDepth: nat, ghost at: seq<Step>)
    returns (reports: seq<FieldReport>, ghost changes: seq<FieldChange>)
    requires path == Text(at)
    ensures ReportsOf(reports, changes) && NoTwoAtOnePath(changes)
    ensures Elements(changes) == Changes(old_, new_, at, depth, maxDepth)
    decreases old_, 0, 2
  {
    hide Text, Append;
    reports, changes := [], [];
    if depth >= maxDepth {
      return;
    }
    if old_.Obj? && new_.Obj? {
      var keys := old_.fields.Keys + new_.fields.Keys;
      ghost var done: set<Step> := {};
      while keys != {}
        invariant forall k :: k in keys <==> Key(k) in Steps(old_, new_) && Key(k) !in done
        invariant done <= Steps(old_, new_) && ReportsOf(reports, changes)
        invariant Collected(changes, old_, new_, done, at, depth, maxDepth)
        decreases |keys|
      {
        var k :| k in keys;
        keys := keys - {k};
        reports, changes := PushMember(reports, old_, new_, Key(k), path, depth, maxDepth, at, done, changes);
        done := done + {Key(k)};
      }
      assert done == Steps(old_, new_);
    } else if old_.Arr? && new_.Arr? {
      var maxLen := if |old_.items| >= |new_.items| then |old_.items| else |new_.items|;
      ghost var done: set<Step> := {};
      for i := 0 to maxLen
        invariant done == (set j | 0 <= j < i :: Index(j)) && ReportsOf(reports, changes)
        invariant Collected(changes, old_, new_, done, at, depth, maxDepth)
      {
        reports, changes := PushMember(reports, old_, new_, Index(i), path, depth, maxDepth, at, done, changes);
        done := done + {Index(i)};
      }
    } else if old_ != new_ {
      changes := [FieldChange(at, Some(old_), new_)];
      reports := [FieldReport(path, Some(old_), new_)];
    }
  }

  ghost predicate Collected(changes: seq<FieldChange>, old_: Json, new_: Json, done: set<Step>,
    path: seq<Step>, depth: nat, maxDepth: nat)
  {
    && NoTwoAtOnePath(changes)
    && (forall c <- changes :: path < c.path && c.path[|path|] in done)
    && Elements(changes) == set step, c | step in done && c in MemberChanges(old_, new_, step, path, depth, maxDepth) :: c
  }

  method PushMember(reports: seq<FieldReport>, old_: Json, new_: Json, step: Step, path: string, depth: nat,
    maxDepth: nat, ghost at: seq<Step>, ghost done: set<Step>, ghost changes: seq<FieldChange>)
    returns (moreReports: seq<FieldReport>, ghost more: seq<FieldChange>)
    requires depth < maxDepth && SameContainer(old_, new_) && step !in done && path == Text(at)
    requires Collected(changes, old_, new_, done, at, depth, maxDepth) && ReportsOf(reports, changes)
    ensures Collected(more, old_, new_, done + {step}, at, depth, maxDepth) && ReportsOf(moreReports, more)
    decreases old_, 0, 1
  {
    hide Changes, MemberChanges, Reported, Lookup, Steps, Text, Append;
    TextGrows(at, step);
    var mineReports;
    ghost var mine;
    mineReports, mine := MemberReports(old_, new_, step, Append(path, step), depth, maxDepth, at);
    forall c | c in mine
      ensures at < c.path && c.path[|at|] == step
    {
      assert c in Elements(mine);
      MemberExactly(old_, new_, at, depth, maxDepth, c, step);
    }
    more := changes + mine;
    moreReports := reports + mineReports;
    assert Elements(more) == Elements(changes) + Elements(mine);
  }

  /** What one member adds to the result. */
  method MemberReports(old_: Json, new_: Json, step: Step, fieldPath: string, depth: nat, maxDepth: nat,
    ghost at: seq<Step>)
    returns (reports: seq<FieldReport>, ghost changes: seq<FieldChange>)
    requires fieldPath == Text(at + [step])
    ensures ReportsOf(reports, changes) && NoTwoAtOnePath(changes)
    ensures Elements(changes) == MemberChanges(old_, new_, step, at, depth, maxDepth)
    decreases old_, 0, 0
  {
    hide Changes, Lookup, Text;
    ghost var there := at + [step];
    reports, changes := [], [];
    match (Child(old_, step), Child(new_, step)) {
      case (Some(o), Some(n)) =>
        if o != n {
          reports, changes := DetectFieldChanges(o, n, fieldPath, depth + 1, maxDepth, there);
          if reports == [] {
            changes := [FieldChange(there, Some(o), n)];
            reports := [FieldReport(fieldPath, Some(o), n)];
          } else {
            assert changes[0] in Elements(changes);
          }
        }
      case (None, Some(n)) =>
        changes := [FieldChange(there, None, n)];
        reports := [FieldReport(fieldPath, None, n)];
      case (Some(o), None) =>
        changes := [FieldChange(there, Some(o), Null)];
        reports := [FieldReport(fieldPath, Some(o), Null)];
      case (None, None) =>
    }
  }
}
