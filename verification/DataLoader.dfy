/**
 Entity loading: keys that ignore member order, and batches that answer each key as it
 would be answered alone.  A key is a representation's normal form, in which members are
 sorted at every depth; equal keys are loaded once.  The batcher makes one call for each
 type and deals the values out again by position.  The resolver behind it is arbitrary:
 what needs it to be lawful says so.
 */
module DataLoader {
  import opened Sets
  import opened Wrappers

  type Bytes = seq<bv8>

  /** A GraphQL value; an object keeps its members in order.  Equal numbers print alike. */
  datatype Value =
    | Null
    | Boolean(b: bool)
    | Number(n: int)
    | Str(s: string)
    | Enum(e: string)
    | List(items: seq<Value>)
    | Object(members: seq<(string, Value)>)
    | Binary(bytes: Bytes)

  datatype Normalized =
    | NullN
    | BooleanN(b: bool)
    | NumberN(text: string)
    | StrN(s: string)
    | EnumN(e: string)
    | ListN(items: seq<Normalized>)
    | ObjectN(entries: seq<(string, Normalized)>)
    | BinaryN(digest: Bytes)

  /** How numbers are printed and bytes are hashed. */
  datatype Printing = Printing(number: int -> string, digest: Bytes -> Bytes)

  /** Different numbers print differently and no two byte strings share a digest. */
  ghost predicate Faithful(p: Printing) {
    && (forall a, b :: p.number(a) == p.number(b) ==> a == b)
    && (forall a, b :: p.digest(a) == p.digest(b) ==> a == b)
  }

  predicate DistinctKeys<T>(entries: seq<(string, T)>) {
    forall i, j :: 0 <= i < j < |entries| ==> entries[i].0 != entries[j].0
  }

  /** Member names are distinct at every depth. */
  predicate WellFormed(v: Value) {
    match v
    case List(items) => forall i :: 0 <= i < |items| ==> WellFormed(items[i])
    case Object(members) => DistinctKeys(members) && forall i :: 0 <= i < |members| ==> WellFormed(members[i].1)
    case _ => true
  }

  // ----- sorting by key ---------------------------------------------------------------

  /** Strings in the order of their characters. */
  predicate Less(a: string, b: string)
    decreases |a|
  {
    b != "" && (a == "" || a[0] < b[0] || (a[0] == b[0] && Less(a[1..], b[1..])))
  }

  lemma {:induction false} LessIsStrict(a: string, b: string)
    ensures !(Less(a, b) && Less(b, a))
    ensures Less(a, b) || Less(b, a) <==> a != b
    decreases |a|
  {
    if a != "" && b != "" {
      LessIsStrict(a[1..], b[1..]);
      assert a == [a[0]] + a[1..] && b == [b[0]] + b[1..];
    }
  }

  lemma {:induction false} LessTransitive(a: string, b: string, c: string)
    requires Less(a, b) && Less(b, c)
    ensures Less(a, c)
    decreases |a|
  {
    if a != "" && a[0] == b[0] == c[0] {
      LessTransitive(a[1..], b[1..], c[1..]);
    }
  }

  function InsertByKey<T>(e: (string, T), sorted: seq<(string, T)>): (r: seq<(string, T)>)
    ensures |r| == |sorted| + 1
  {
    if sorted == [] || !Less(sorted[0].0, e.0) then [e] + sorted
    else [sorted[0]] + InsertByKey(e, sorted[1..])
  }

  function SortByKey<T>(entries: seq<(string, T)>): (sorted: seq<(string, T)>)
    ensures |sorted| == |entries|
  {
    if entries == [] then [] else InsertByKey(entries[0], SortByKey(entries[1..]))
  }

  ghost predicate Ascending<T>(entries: seq<(string, T)>) {
    forall i, j :: 0 <= i < j < |entries| ==> Less(entries[i].0, entries[j].0)
  }

  ghost function Entries<T(!new)>(entries: seq<(string, T)>): set<(string, T)> {
    set e | e in entries
  }

  lemma {:induction false} InsertKeepsOrder<T(!new)>(e: (string, T), sorted: seq<(string, T)>)
    requires Ascending(sorted) && forall x <- sorted :: x.0 != e.0
    ensures Ascending(InsertByKey(e, sorted)) && Entries(InsertByKey(e, sorted)) == Entries(sorted) + {e}
  {
    if sorted != [] {
      LessIsStrict(sorted[0].0, e.0);
      if Less(sorted[0].0, e.0) {
        InsertKeepsOrder(e, sorted[1..]);
        var r := InsertByKey(e, sorted[1..]);
        assert sorted == [sorted[0]] + sorted[1..];
        forall j | 0 <= j < |r|
          ensures Less(sorted[0].0, r[j].0)
        {
          assert r[j] in Entries(r);
        }
      } else {
        forall j | 0 <= j < |sorted|
          ensures Less(e.0, sorted[j].0)
        {
          if j > 0 {
            LessTransitive(e.0, sorted[0].0, sorted[j].0);
          }
        }
      }
    }
  }

  lemma {:induction false} SortOrders<T(!new)>(entries: seq<(string, T)>)
    requires DistinctKeys(entries)
    ensures Ascending(SortByKey(entries)) && Entries(SortByKey(entries)) == Entries(entries)
  {
    if entries != [] {
      var rest := entries[1..];
      SortOrders(rest);
      forall x | x in SortByKey(rest)
        ensures x.0 != entries[0].0
      {
        assert x in Entries(rest);
        var j :| 0 <= j < |rest| && rest[j] == x;
        assert entries[j + 1] == x;
      }
      InsertKeepsOrder(entries[0], SortByKey(rest));
      assert entries == [entries[0]] + rest;
    }
  }

  /** There is one ascending list of given entries: any sort by key finds the same. */
  lemma {:induction false} AscendingIsUnique<T(!new)>(a: seq<(string, T)>, b: seq<(string, T)>)
    requires Ascending(a) && Ascending(b) && Entries(a) == Entries(b)
    ensures a == b
  {
    assert (a != [] ==> a[0] in Entries(a)) && (b != [] ==> b[0] in Entries(b));
    if a != [] && b != [] {
      FirstIsLeast(a, b);
      FirstIsLeast(b, a);
      LessIsStrict(a[0].0, b[0].0);
      RestEntries(a);
      RestEntries(b);
      AscendingIsUnique(a[1..], b[1..]);
    }
  }

  lemma FirstIsLeast<T(!new)>(a: seq<(string, T)>, b: seq<(string, T)>)
    requires Ascending(a) && a != [] && b != [] && Entries(a) == Entries(b)
    ensures a[0] == b[0] || Less(a[0].0, b[0].0)
  {
    assert b[0] in Entries(a);
    var j :| 0 <= j < |a| && a[j] == b[0];
  }

  lemma RestEntries<T(!new)>(a: seq<(string, T)>)
    requires Ascending(a) && a != []
    ensures Entries(a[1..]) == Entries(a) - {a[0]}
  {
    assert a == [a[0]] + a[1..];
    LessIsStrict(a[0].0, a[0].0);
    assert a[0] !in a[1..];
  }

  // ----- keys -------------------------------------------------------------------------

  function Normalize(p: Printing, v: Value): Normalized {
    match v
    case Null => NullN
    case Boolean(b) => BooleanN(b)
    case Number(n) => NumberN(p.number(n))
    case Str(s) => StrN(s)
    case Enum(e) => EnumN(e)
    case List(items) => ListN(seq(|items|, i requires 0 <= i < |items| => Normalize(p, items[i])))
    case Object(members) =>
      ObjectN(SortByKey(seq(|members|, i requires 0 <= i < |members| => (members[i].0, Normalize(p, members[i].1)))))
    case Binary(bytes) => BinaryN(p.digest(bytes))
  }

  /** Equal but for the order of members, at every depth. */
  predicate SameUpToOrder(a: Value, b: Value) {
    match (a, b)
    case (List(xs), List(ys)) => |xs| == |ys| && forall i :: 0 <= i < |xs| ==> SameUpToOrder(xs[i], ys[i])
    case (Object(ms), Object(ns)) => |ms| == |ns| && forall i :: 0 <= i < |ms| ==> SameMember(ms[i], ns)
    case _ => a == b
  }

  predicate SameMember(m: (string, Value), ns: seq<(string, Value)>) {
    exists j :: 0 <= j < |ns| && m.0 == ns[j].0 && SameUpToOrder(m.1, ns[j].1)
  }

  function NormalizedMembers(p: Printing, members: seq<(string, Value)>): seq<(string, Normalized)> {
    seq(|members|, i requires 0 <= i < |members| => (members[i].0, Normalize(p, members[i].1)))
  }

  lemma {:induction false} EntriesCount<T(!new)>(entries: seq<(string, T)>)
    requires DistinctKeys(entries)
    ensures |Entries(entries)| == |entries|
  {
    if entries == [] {
      assert Entries(entries) == {};
    } else {
      var rest := entries[1..];
      EntriesCount(rest);
      assert entries == [entries[0]] + rest;
      assert entries[0] !in rest;
      assert Entries(entries) == {entries[0]} + Entries(rest);
    }
  }

  /** Sorted lists are equal exactly when the entries are. */
  lemma SortedSame<T(!new)>(a: seq<(string, T)>, b: seq<(string, T)>)
    requires DistinctKeys(a) && DistinctKeys(b)
    ensures SortByKey(a) == SortByKey(b) <==> |a| == |b| && Entries(a) <= Entries(b)
  {
    SortOrders(a);
    SortOrders(b);
    EntriesCount(a);
    EntriesCount(b);
    if |a| == |b| && Entries(a) <= Entries(b) {
      SubsetOfSameSize(Entries(a), Entries(b));
      AscendingIsUnique(SortByKey(a), SortByKey(b));
    }
  }

  /** Keys are canonical: two values normalise alike exactly when they differ in member order only. */
  lemma {:induction false} NormalizeIsCanonical(p: Printing, a: Value, b: Value)
    requires Faithful(p) && WellFormed(a) && WellFormed(b)
    ensures Normalize(p, a) == Normalize(p, b) <==> SameUpToOrder(a, b)
    decreases a
  {
    match (a, b)
    case (List(xs), List(ys)) =>
      if |xs| == |ys| {
        forall i | 0 <= i < |xs|
          ensures Normalize(p, xs[i]) == Normalize(p, ys[i]) <==> SameUpToOrder(xs[i], ys[i])
        {
          NormalizeIsCanonical(p, xs[i], ys[i]);
        }
        ListsAlike(p, xs, ys);
      }
    case (Object(ms), Object(ns)) =>
      forall i, j | 0 <= i < |ms| && 0 <= j < |ns|
        ensures Normalize(p, ms[i].1) == Normalize(p, ns[j].1) <==> SameUpToOrder(ms[i].1, ns[j].1)
      {
        NormalizeIsCanonical(p, ms[i].1, ns[j].1);
      }
      ObjectsAlike(p, ms, ns);
    case _ =>
  }

  lemma ListsAlike(p: Printing, xs: seq<Value>, ys: seq<Value>)
    requires |xs| == |ys|
    ensures Normalize(p, List(xs)) == Normalize(p, List(ys))
       <==> forall i :: 0 <= i < |xs| ==> Normalize(p, xs[i]) == Normalize(p, ys[i])
  {
    var a, b := Normalize(p, List(xs)).items, Normalize(p, List(ys)).items;
    assert |a| == |xs| && |b| == |ys|;
    assert forall i :: 0 <= i < |xs| ==> a[i] == Normalize(p, xs[i]) && b[i] == Normalize(p, ys[i]);
  }

  lemma ObjectsAlike(p: Printing, ms: seq<(string, Value)>, ns: seq<(string, Value)>)
    requires DistinctKeys(ms) && DistinctKeys(ns)
    requires forall i, j :: 0 <= i < |ms| && 0 <= j < |ns| ==>
      (Normalize(p, ms[i].1) == Normalize(p, ns[j].1) <==> SameUpToOrder(ms[i].1, ns[j].1))
    ensures Normalize(p, Object(ms)) == Normalize(p, Object(ns)) <==> SameUpToOrder(Object(ms), Object(ns))
  {
    hide Normalize, SortByKey;
    var a, b := NormalizedMembers(p, ms), NormalizedMembers(p, ns);
    SortedSame(a, b);
    MembersAlike(p, ms, ns);
    NormalizedObject(p, ms);
    NormalizedObject(p, ns);
    forall i | 0 <= i < |ms|
      ensures HasMatch(p, ms[i], ns) <==> SameMember(ms[i], ns)
    {
    }
  }

  lemma NormalizedObject(p: Printing, ms: seq<(string, Value)>)
    ensures Normalize(p, Object(ms)) == ObjectN(SortByKey(NormalizedMembers(p, ms)))
  {
  }

  /** The member normalises like one of that name among the others. */
  predicate HasMatch(p: Printing, m: (string, Value), ns: seq<(string, Value)>) {
    exists j :: 0 <= j < |ns| && m.0 == ns[j].0 && Normalize(p, m.1) == Normalize(p, ns[j].1)
  }

  predicate Alike(p: Printing, ms: seq<(string, Value)>, ns: seq<(string, Value)>) {
    forall i :: 0 <= i < |ms| ==> HasMatch(p, ms[i], ns)
  }

  lemma MembersAlike(p: Printing, ms: seq<(string, Value)>, ns: seq<(string, Value)>)
    ensures Entries(NormalizedMembers(p, ms)) <= Entries(NormalizedMembers(p, ns)) <==> Alike(p, ms, ns)
  {
    hide Normalize;
    var a, b := NormalizedMembers(p, ms), NormalizedMembers(p, ns);
    if Entries(a) <= Entries(b) {
      forall i | 0 <= i < |ms|
        ensures HasMatch(p, ms[i], ns)
      {
        assert a[i] in Entries(a);
        var j :| 0 <= j < |b| && b[j] == a[i];
      }
    }
    if Alike(p, ms, ns) {
      forall e | e in Entries(a)
        ensures e in Entries(b)
      {
        var i :| 0 <= i < |a| && a[i] == e;
        assert HasMatch(p, ms[i], ns);
        var j :| 0 <= j < |ns| && ms[i].0 == ns[j].0 && Normalize(p, ms[i].1) == Normalize(p, ns[j].1);
        assert b[j] == e;
      }
    }
  }

  // ----- loading ----------------------------------------------------------------------

  type Representation = seq<(string, Value)>

  datatype RepresentationKey = RepresentationKey(entityType: string, normalized: Normalized, representation: Representation)

  /** Keys are compared and hashed by type and normal form only. */
  datatype Identity = Identity(entityType: string, normalized: Normalized)

  type Config = nat

  /** One entity at a time, or several of a type at once. */
  datatype Resolver = Resolver(
    one: (Config, Representation) -> Result<Value, string>,
    batch: (Config, seq<Representation>) -> Result<seq<Value>, string>)

  function IdOf(k: RepresentationKey): Identity {
    Identity(k.entityType, k.normalized)
  }

  function NewKey(p: Printing, entityType: string, representation: Representation): RepresentationKey {
    RepresentationKey(entityType, Normalize(p, Object(representation)), representation)
  }

  predicate Answers(r: Resolver, configs: map<string, Config>, k: RepresentationKey, v: Value) {
    k.entityType in configs && r.one(configs[k.entityType], k.representation) == Ok(v)
  }

  predicate Resolvable(r: Resolver, configs: map<string, Config>, k: RepresentationKey) {
    k.entityType in configs && r.one(configs[k.entityType], k.representation).Ok?
  }

  /** The type is known and its resolver answers the representation by itself with the value. */
  predicate AnsweredAlone(r: Resolver, configs: map<string, Config>, entityType: string, repr: Representation, v: Value) {
    entityType in configs && r.one(configs[entityType], repr) == Ok(v)
  }

  predicate ResolvedAlone(r: Resolver, configs: map<string, Config>, entityType: string, repr: Representation) {
    entityType in configs && r.one(configs[entityType], repr).Ok?
  }

  predicate AllOk(r: Resolver, c: Config, reprs: seq<Representation>) {
    forall i :: 0 <= i < |reprs| ==> r.one(c, reprs[i]).Ok?
  }

  /** A batch answers exactly when each of its members would alone, and the same. */
  predicate BatchAgrees(r: Resolver, c: Config, reprs: seq<Representation>) {
    match r.batch(c, reprs)
    case Err(_) => !AllOk(r, c, reprs)
    case Ok(values) => |values| == |reprs| && forall i :: 0 <= i < |reprs| ==> r.one(c, reprs[i]) == Ok(values[i])
  }

  ghost predicate Pointwise(r: Resolver) {
    forall c, reprs :: BatchAgrees(r, c, reprs)
  }

  /** The answer does not depend on the order of members. */
  ghost predicate OrderBlind(r: Resolver) {
    forall c, a, b :: WellFormed(Object(a)) && WellFormed(Object(b)) && SameUpToOrder(Object(a), Object(b))
      ==> r.one(c, a) == r.one(c, b)
  }

  function OfType(keys: seq<RepresentationKey>, t: string): seq<RepresentationKey> {
    if keys == [] then []
    else (if keys[0].entityType == t then [keys[0]] else []) + OfType(keys[1..], t)
  }

  lemma {:induction false} OfTypeGrows(keys: seq<RepresentationKey>, k: RepresentationKey, t: string)
    ensures OfType(keys + [k], t) == OfType(keys, t) + if k.entityType == t then [k] else []
  {
    if keys == [] {
      assert keys + [k] == [k];
    } else {
      assert (keys + [k])[1..] == keys[1..] + [k];
      OfTypeGrows(keys[1..], k, t);
    }
  }

  lemma {:induction false} OfTypeHas(keys: seq<RepresentationKey>, t: string)
    ensures forall k :: k in OfType(keys, t) <==> k in keys && k.entityType == t
  {
    if keys != [] {
      OfTypeHas(keys[1..], t);
      assert keys == [keys[0]] + keys[1..];
    }
  }

  function Representations(group: seq<RepresentationKey>): (reprs: seq<Representation>)
    ensures |reprs| == |group| && forall i :: 0 <= i < |group| ==> reprs[i] == group[i].representation
  {
    seq(|group|, i requires 0 <= i < |group| => group[i].representation)
  }

  /** The one call made for a group; a group of one goes through the single form. */
  function Call(r: Resolver, c: Config, group: seq<RepresentationKey>): Result<seq<Value>, string> {
    if |group| == 1 then
      var value :- r.one(c, group[0].representation);
      Ok([value])
    else r.batch(c, Representations(group))
  }

  /** The type is known and the call gives one value for each key. */
  predicate GroupOk(r: Resolver, configs: map<string, Config>, group: seq<RepresentationKey>) {
    && group != [] && group[0].entityType in configs
    && var values := Call(r, configs[group[0].entityType], group);
       values.Ok? && |values.value| == |group|
  }

  /** The value at the place of the last key with that identity. */
  ghost predicate LastFor(group: seq<RepresentationKey>, values: seq<Value>, id: Identity, v: Value)
    requires |values| == |group|
  {
    exists j :: 0 <= j < |group| && IdOf(group[j]) == id && values[j] == v
      && forall i :: j < i < |group| ==> IdOf(group[i]) != id
  }

  /** What the call for the identity's type gives at its place. */
  ghost predicate Given(r: Resolver, configs: map<string, Config>, keys: seq<RepresentationKey>, id: Identity, v: Value) {
    var group := OfType(keys, id.entityType);
    GroupOk(r, configs, group) && LastFor(group, Call(r, configs[group[0].entityType], group).value, id, v)
  }

  /** What one of the equal keys gets when it is resolved alone. */
  ghost predicate AnswerOfSome(r: Resolver, configs: map<string, Config>, keys: seq<RepresentationKey>, id: Identity,
    v: Value)
  {
    exists k <- keys :: IdOf(k) == id && Answers(r, configs, k, v)
  }

  lemma PointwiseCall(r: Resolver, configs: map<string, Config>, group: seq<RepresentationKey>, t: string)
    requires Pointwise(r) && group != [] && forall k <- group :: k.entityType == t
    ensures GroupOk(r, configs, group) <==> forall k <- group :: Resolvable(r, configs, k)
    ensures GroupOk(r, configs, group) ==>
      forall i :: 0 <= i < |group| ==> Answers(r, configs, group[i], Call(r, configs[t], group).value[i])
  {
    assert forall i :: 0 <= i < |group| ==> group[i] in group;
    if t in configs && |group| > 1 {
      assert BatchAgrees(r, configs[t], Representations(group));
    }
  }

  /** With a pointwise resolver a load answers each key as it would be answered alone. */
  lemma PointwiseLoad(r: Resolver, configs: map<string, Config>, keys: seq<RepresentationKey>)
    requires Pointwise(r)
    ensures (forall k <- keys :: GroupOk(r, configs, OfType(keys, k.entityType)))
       <==> forall k <- keys :: Resolvable(r, configs, k)
    ensures forall id, v :: Given(r, configs, keys, id, v) ==> AnswerOfSome(r, configs, keys, id, v)
  {
    hide Pointwise, GroupOk, Resolvable, Call, Answers, IdOf, OfType;
    forall k | k in keys
      ensures var group := OfType(keys, k.entityType);
        k in group && (GroupOk(r, configs, group) <==> forall x <- group :: Resolvable(r, configs, x))
    {
      OfTypeHas(keys, k.entityType);
      PointwiseCall(r, configs, OfType(keys, k.entityType), k.entityType);
    }
    forall k, t | k in OfType(keys, t)
      ensures k in keys
    {
      OfTypeHas(keys, t);
    }
    forall id, v | Given(r, configs, keys, id, v)
      ensures AnswerOfSome(r, configs, keys, id, v)
    {
      GivenIsAnswer(r, configs, keys, id, v);
    }
  }

  lemma GivenIsAnswer(r: Resolver, configs: map<string, Config>, keys: seq<RepresentationKey>, id: Identity, v: Value)
    requires Pointwise(r) && Given(r, configs, keys, id, v)
    ensures AnswerOfSome(r, configs, keys, id, v)
  {
    hide Pointwise, Call, Answers, IdOf, OfType;
    var group := OfType(keys, id.entityType);
    assert group != [] by { NotEmpty(r, configs, group); }
    OfTypeHas(keys, id.entityType);
    assert group[0] in group;
    PointwiseCall(r, configs, group, id.entityType);
    var values := Call(r, configs[id.entityType], group).value;
    var j :| 0 <= j < |group| && IdOf(group[j]) == id && values[j] == v;
    assert group[j] in group && Answers(r, configs, group[j], v);
  }

  lemma NotEmpty(r: Resolver, configs: map<string, Config>, group: seq<RepresentationKey>)
    requires GroupOk(r, configs, group)
    ensures group != []
  {
  }

  class EntityBatcher {
    const resolver: Resolver
    const configs: map<string, Config>

    constructor (resolver: Resolver, configs: map<string, Config>)
      ensures this.resolver == resolver && this.configs == configs
    {
      this.resolver, this.configs := resolver, configs;
    }

    /** Keys grouped by type, each group resolved in one call, the values zipped back to their keys. */
    method Load(keys: seq<RepresentationKey>) returns (r: Result<map<Identity, Value>, string>)
      ensures r.Ok? <==> forall k <- keys :: GroupOk(resolver, configs, OfType(keys, k.entityType))
      ensures r.Ok? ==> forall k <- keys :: IdOf(k) in r.value
      ensures r.Ok? ==> forall id :: id in r.value ==> Given(resolver, configs, keys, id, r.value[id])
    {
      hide Given, IdOf, OfType, GroupOk;
      var results: map<Identity, Value> := map[];
      var grouped := Group(keys);
      var todo := grouped.Keys;
      while todo != {}
        invariant todo <= grouped.Keys
        invariant forall k <- keys :: k.entityType !in todo ==>
          IdOf(k) in results && GroupOk(resolver, configs, OfType(keys, k.entityType))
        invariant forall id :: id in results ==>
          id.entityType !in todo && Given(resolver, configs, keys, id, results[id])
        decreases |todo|
      {
        var t :| t in todo;
        todo := todo - {t};
        OfTypeHas(keys, t);
        assert grouped[t][0] in grouped[t];
        var answered := LoadGroup(keys, t, grouped[t], results);
        if answered.Err? {
          return answered;
        }
        results := answered.value;
      }
      r := Ok(results);
    }

    /** One type's keys are resolved and their values join the results. */
    method LoadGroup(ghost keys: seq<RepresentationKey>, t: string, group: seq<RepresentationKey>,
      results: map<Identity, Value>)
      returns (r: Result<map<Identity, Value>, string>)
      requires group == OfType(keys, t) != [] && forall k <- group :: k.entityType == t
      requires forall id :: id in results ==> id.entityType != t
      ensures r.Ok? <==> GroupOk(resolver, configs, group)
      ensures r.Ok? ==> forall id :: id in r.value <==> id in results || exists k <- group :: IdOf(k) == id
      ensures r.Ok? ==> forall k <- group :: IdOf(k) in r.value
      ensures r.Ok? ==> forall id :: id in results ==> r.value[id] == results[id]
      ensures r.Ok? ==> forall id :: id in r.value && id !in results ==>
        id.entityType == t && Given(resolver, configs, keys, id, r.value[id])
    {
      hide OfType, Call;
      assert group[0] in group;
      if t !in configs {
        return Err("Internal error: unknown entity type");
      }
      var resolved := ResolveGroup(configs[t], group);
      if resolved.Err? {
        return Err(resolved.error);
      }
      var more := Zip(group, resolved.value, results);
      forall id | id in more && id !in results
        ensures id.entityType == t && Given(resolver, configs, keys, id, more[id])
      {
        var k :| k in group && IdOf(k) == id;
      }
      r := Ok(more);
    }

    static method Group(keys: seq<RepresentationKey>) returns (grouped: map<string, seq<RepresentationKey>>)
      ensures forall t :: t in grouped ==> grouped[t] == OfType(keys, t) && grouped[t] != []
      ensures forall k <- keys :: k.entityType in grouped
    {
      grouped := map[];
      for i := 0 to |keys|
        invariant forall t :: t in grouped ==> grouped[t] == OfType(keys[..i], t) && grouped[t] != []
        invariant forall t :: t !in grouped ==> OfType(keys[..i], t) == []
      {
        var k := keys[i];
        assert keys[..i + 1] == keys[..i] + [k];
        forall t
          ensures OfType(keys[..i + 1], t) == OfType(keys[..i], t) + if k.entityType == t then [k] else []
        {
          OfTypeGrows(keys[..i], k, t);
        }
        var before := if k.entityType in grouped then grouped[k.entityType] else [];
        grouped := grouped[k.entityType := before + [k]];
      }
      assert keys[..|keys|] == keys;
      forall k | k in keys
        ensures k.entityType in grouped
      {
        OfTypeHas(keys, k.entityType);
      }
    }

    method ResolveGroup(config: Config, group: seq<RepresentationKey>) returns (r: Result<seq<Value>, string>)
      ensures r.Ok? <==> Call(resolver, config, group).Ok? && |Call(resolver, config, group).value| == |group|
      ensures r.Ok? ==> r == Call(resolver, config, group)
    {
      var representations := Representations(group);
      if |representations| == 1 {
        var value := resolver.one(config, representations[0]);
        return if value.Ok? then Ok([value.value]) else Err(value.error);
      }
      r := resolver.batch(config, representations);
      if r.Ok? && |r.value| != |group| {
        return Err("Internal error: batch resolver returned unexpected number of values");
      }
    }

    /** Values go to the keys at the same place of the group, a later equal key's over an earlier one's. */
    static method Zip(group: seq<RepresentationKey>, values: seq<Value>, results: map<Identity, Value>)
      returns (more: map<Identity, Value>)
      requires |values| == |group|
      requires forall k <- group :: IdOf(k) !in results
      ensures forall id :: id in more <==> id in results || exists k <- group :: IdOf(k) == id
      ensures forall id :: id in results ==> more[id] == results[id]
      ensures forall id :: id in more && id !in results ==> LastFor(group, values, id, more[id])
    {
      hide IdOf, LastFor;
      more := results;
      for i := 0 to |group|
        invariant forall id :: id in more <==> id in results || exists j :: 0 <= j < i && IdOf(group[j]) == id
        invariant forall id :: id in results ==> id in more && more[id] == results[id]
        invariant forall id :: id in more && id !in results ==> LastFor(group[..i], values[..i], id, more[id])
      {
        assert group[i] in group;
        assert group[..i + 1] == group[..i] + [group[i]] && values[..i + 1] == values[..i] + [values[i]];
        forall id | id in more && id !in results && id != IdOf(group[i])
          ensures LastFor(group[..i + 1], values[..i + 1], id, more[id])
        {
          LastStays(group[..i], values[..i], group[i], values[i], id, more[id]);
        }
        LastIsNew(group[..i], values[..i], group[i], values[i]);
        more := more[IdOf(group[i]) := values[i]];
      }
      assert group[..|group|] == group && values[..|group|] == values;
    }

    static lemma LastStays(group: seq<RepresentationKey>, values: seq<Value>, k: RepresentationKey, w: Value,
      id: Identity, v: Value)
      requires |values| == |group| && LastFor(group, values, id, v) && IdOf(k) != id
      ensures LastFor(group + [k], values + [w], id, v)
    {
      var j :| 0 <= j < |group| && IdOf(group[j]) == id && values[j] == v
        && forall i :: j < i < |group| ==> IdOf(group[i]) != id;
      assert (group + [k])[j] == group[j] && (values + [w])[j] == v;
    }

    static lemma LastIsNew(group: seq<RepresentationKey>, values: seq<Value>, k: RepresentationKey, w: Value)
      requires |values| == |group|
      ensures LastFor(group + [k], values + [w], IdOf(k), w)
    {
      assert (group + [k])[|group|] == k && (values + [w])[|group|] == w;
    }
  }

  /** A key built from its own representation. */
  predicate Proper(p: Printing, k: RepresentationKey) {
    k == NewKey(p, k.entityType, k.representation) && WellFormed(Object(k.representation))
  }

  /** Equal keys have representations that a resolver blind to member order answers alike. */
  lemma EqualKeysAnswerAlike(p: Printing, r: Resolver, a: RepresentationKey, b: RepresentationKey, c: Config)
    requires Faithful(p) && OrderBlind(r) && Proper(p, a) && Proper(p, b) && IdOf(a) == IdOf(b)
    ensures r.one(c, a.representation) == r.one(c, b.representation)
  {
    NormalizeIsCanonical(p, Object(a.representation), Object(b.representation));
  }

  const MAX_BATCH_SIZE := 500

  class EntityDataLoader {
    const batcher: EntityBatcher
    const printing: Printing

    constructor (batcher: EntityBatcher, printing: Printing)
      ensures this.batcher == batcher && this.printing == printing
    {
      this.batcher, this.printing := batcher, printing;
    }

    /** The type is known and its resolver answers each representation by itself. */
    predicate AllResolvable(entityType: string, representations: seq<Representation>) {
      forall i :: 0 <= i < |representations| ==>
        ResolvedAlone(batcher.resolver, batcher.configs, entityType, representations[i])
    }

    predicate SameKey(entityType: string, a: Representation, b: Representation) {
      IdOf(NewKey(printing, entityType, a)) == IdOf(NewKey(printing, entityType, b))
    }

    /** A resolver, hash and printing that let keys stand for their representations. */
    ghost predicate Lawful() {
      Faithful(printing) && Pointwise(batcher.resolver) && OrderBlind(batcher.resolver)
    }

    /**
     The answers come in the order asked, and representations with equal keys, which are loaded
     once, get one answer.  Under a lawful resolver each gets the answer it would get alone.
     */
    method LoadMany(entityType: string, representations: seq<Representation>) returns (r: Result<seq<Value>, string>)
      requires forall repr <- representations :: WellFormed(Object(repr))
      ensures |representations| > 500 ==> r.Err?
      ensures r.Ok? ==> |r.value| == |representations|
      ensures r.Ok? ==> forall i, j | 0 <= i < |representations| && 0 <= j < |representations| ::
        SameKey(entityType, representations[i], representations[j]) ==> r.value[i] == r.value[j]
      ensures Lawful() ==>
        (r.Ok? <==> |representations| <= 500 && AllResolvable(entityType, representations))
      ensures Lawful() && r.Ok? ==> forall i :: 0 <= i < |representations| ==>
        AnsweredAlone(batcher.resolver, batcher.configs, entityType, representations[i], r.value[i])
    {
      hide Normalize, WellFormed, Lawful;
      if |representations| > MAX_BATCH_SIZE {
        return Err("Batch size exceeds the maximum");
      }
      var keys := seq(|representations|, i requires 0 <= i < |representations| =>
        NewKey(printing, entityType, representations[i]));
      assert forall i :: 0 <= i < |keys| ==> keys[i] in keys;
      var values := LoadDistinct(keys);
      if values.Err? {
        if Lawful() {
          var k :| k in keys && !Resolvable(batcher.resolver, batcher.configs, k);
          var i :| 0 <= i < |keys| && keys[i] == k;
          assert keys[i].representation == representations[i];
        }
        return Err(values.error);
      }
      var ordered: seq<Value> := [];
      for i := 0 to |keys|
        invariant |ordered| == i
        invariant forall j :: 0 <= j < i ==> ordered[j] == values.value[IdOf(keys[j])]
      {
        ordered := ordered + [values.value[IdOf(keys[i])]];
      }
      r := Ok(ordered);
      forall i | 0 <= i < |representations| && Lawful()
        ensures AnsweredAlone(batcher.resolver, batcher.configs, entityType, representations[i], r.value[i])
      {
        var k := keys[i];
        assert k in keys && k.entityType == entityType && k.representation == representations[i];
        assert Answers(batcher.resolver, batcher.configs, k, values.value[IdOf(k)]);
      }
    }

    method LoadDistinct(keys: seq<RepresentationKey>) returns (r: Result<map<Identity, Value>, string>)
      requires forall k <- keys :: Proper(printing, k)
      ensures r.Ok? ==> forall k <- keys :: IdOf(k) in r.value
      ensures Lawful() ==> (r.Ok? <==> forall k <- keys :: Resolvable(batcher.resolver, batcher.configs, k))
      ensures Lawful() && r.Ok? ==> forall k <- keys ::
        Answers(batcher.resolver, batcher.configs, k, r.value[IdOf(k)])
    {
      hide Proper, Faithful, OrderBlind, Pointwise, Normalize, IdOf, Resolvable, Answers, AnswerOfSome, Given, OfType;
      hide GroupOk;
      var distinct := Distinct(keys);
      r := batcher.Load(distinct);
      forall k | k in keys && r.Ok?
        ensures IdOf(k) in r.value
      {
        assert HasIdentity(distinct, IdOf(k));
      }
      if Lawful() {
        PointwiseLoad(batcher.resolver, batcher.configs, distinct);
        forall k | k in keys && r.Ok?
          ensures Resolvable(batcher.resolver, batcher.configs, k)
          ensures Answers(batcher.resolver, batcher.configs, k, r.value[IdOf(k)])
        {
          FirstAnswers(keys, distinct, r.value, k);
        }
      }
    }

    lemma FirstAnswers(keys: seq<RepresentationKey>, distinct: seq<RepresentationKey>, values: map<Identity, Value>,
      k: RepresentationKey)
      requires Faithful(printing) && OrderBlind(batcher.resolver)
      requires (forall x <- keys :: Proper(printing, x)) && (forall x <- distinct :: x in keys) && k in keys
      requires IdOf(k) in values
      requires forall id :: id in values ==> AnswerOfSome(batcher.resolver, batcher.configs, distinct, id, values[id])
      ensures Resolvable(batcher.resolver, batcher.configs, k)
      ensures Answers(batcher.resolver, batcher.configs, k, values[IdOf(k)])
    {
      hide Proper, Faithful, OrderBlind;
      assert AnswerOfSome(batcher.resolver, batcher.configs, distinct, IdOf(k), values[IdOf(k)]);
      var first :| first in distinct && IdOf(first) == IdOf(k)
        && Answers(batcher.resolver, batcher.configs, first, values[IdOf(k)]);
      EqualKeysAnswerAlike(printing, batcher.resolver, k, first, batcher.configs[k.entityType]);
    }

    /** Of equal keys only the first is handed to the batcher. */
    static method Distinct(keys: seq<RepresentationKey>) returns (distinct: seq<RepresentationKey>)
      ensures forall k <- distinct :: k in keys
      ensures forall k <- keys :: HasIdentity(distinct, IdOf(k))
    {
      distinct := [];
      for i := 0 to |keys|
        invariant forall k <- distinct :: k in keys
        invariant forall j :: 0 <= j < i ==> HasIdentity(distinct, IdOf(keys[j]))
      {
        if !HasIdentity(distinct, IdOf(keys[i])) {
          Grows(distinct, keys[i]);
          distinct := distinct + [keys[i]];
        }
      }
    }

    static lemma Grows(keys: seq<RepresentationKey>, k: RepresentationKey)
      ensures HasIdentity(keys + [k], IdOf(k))
      ensures forall id :: HasIdentity(keys, id) ==> HasIdentity(keys + [k], id)
    {
      assert k in keys + [k];
      forall id | HasIdentity(keys, id)
        ensures HasIdentity(keys + [k], id)
      {
        var x :| x in keys && IdOf(x) == id;
        assert x in keys + [k];
      }
    }
  }

  predicate HasIdentity(keys: seq<RepresentationKey>, id: Identity) {
    exists k <- keys :: IdOf(k) == id
  }
}
