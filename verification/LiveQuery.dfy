/**
 The live query store: subscriptions, an index by trigger, an index by connection and the
 senders.  For every run it behaves as a store without indices that scans its subscriptions.
 */
module LiveQueries {
  import opened Sets
  import opened Wrappers
  import opened InvertedIndex

  datatype Event = Event(typeName: string, action: string)

  /** Times are in milliseconds; a TTL of 0 seconds never ends. */
  datatype Query = Query(id: string, connection: string, triggers: seq<string>, ttlSeconds: nat, createdAt: nat)

  type Sender = nat

  // ----- triggers ---------------------------------------------------------------------

  function Split(s: string): (parts: seq<string>)
    ensures parts != []
  {
    if s == "" then [""]
    else
      var rest := Split(s[1..]);
      if s[0] == '.' then [""] + rest else [[s[0]] + rest[0]] + rest[1..]
  }

  predicate Matches(e: Event, trigger: string) {
    var parts := Split(trigger);
    && |parts| == 2
    && (parts[0] == "*" || parts[0] == e.typeName)
    && (parts[1] == "*" || parts[1] == e.action)
  }

  predicate ShouldUpdate(q: Query, e: Event) {
    exists i :: 0 <= i < |q.triggers| && Matches(e, q.triggers[i])
  }

  /** The triggers looked up for an event. */
  function Patterns(e: Event): seq<string> {
    [e.typeName + "." + e.action, "*" + "." + e.action, e.typeName + "." + "*", "*" + "." + "*"]
  }

  predicate DotFree(s: string) {
    '.' !in s
  }

  lemma {:induction false} SplitJoin(a: string, b: string)
    ensures Split(a + "." + b) == Split(a) + Split(b)
  {
    var s := a + "." + b;
    if a == "" {
      assert s[1..] == b;
    } else {
      assert s[1..] == a[1..] + "." + b;
      SplitJoin(a[1..], b);
    }
  }

  lemma {:induction false} SplitPlain(s: string)
    ensures DotFree(s) <==> |Split(s)| == 1
    ensures DotFree(s) ==> Split(s) == [s]
  {
    if s != "" {
      SplitPlain(s[1..]);
      assert s == [s[0]] + s[1..];
    }
  }

  lemma {:induction false} SplitTwo(s: string)
    requires |Split(s)| == 2
    ensures s == Split(s)[0] + "." + Split(s)[1]
  {
    if s != "" {
      var rest := Split(s[1..]);
      if s[0] == '.' {
        SplitPlain(s[1..]);
      } else {
        SplitTwo(s[1..]);
      }
      assert s == [s[0]] + s[1..];
    }
  }

  /** A trigger that matches an event is always among the patterns looked up for it. */
  lemma MatchesIsPattern(e: Event, trigger: string)
    requires Matches(e, trigger)
    ensures trigger in Patterns(e)
  {
    SplitTwo(trigger);
    var parts := Split(trigger);
    assert trigger == parts[0] + "." + parts[1];
    assert Patterns(e)[0] == e.typeName + "." + e.action && Patterns(e)[1] == "*" + "." + e.action;
    assert Patterns(e)[2] == e.typeName + "." + "*" && Patterns(e)[3] == "*" + "." + "*";
  }

  /** The converse needs, and only needs, a type and an action without dots. */
  lemma PatternsMatchIff(e: Event)
    ensures (forall p <- Patterns(e) :: Matches(e, p)) <==> DotFree(e.typeName) && DotFree(e.action)
  {
    hide Split;
    SplitPlain(e.typeName);
    SplitPlain(e.action);
    SplitPlain("*");
    SplitJoin(e.typeName, e.action);
    SplitJoin("*", e.action);
    SplitJoin(e.typeName, "*");
    SplitJoin("*", "*");
    assert Patterns(e)[0] in Patterns(e);
  }

  // ----- the store --------------------------------------------------------------------

  datatype Config = Config(maxTotal: nat, maxPerConnection: nat)

  datatype State = State(queries: map<string, Query>, triggerIndex: Index, connectionIndex: Index, senders: map<string, Sender>)

  const EMPTY := State(map[], map[], map[], map[])

  datatype Outcome =
    | Registered
    | TooManyQueries(current: nat, max: nat)
    | TooManyQueriesPerConnection(current: nat, max: nat)
    | Unregistered(query: Option<Query>)
    | ConnectionGone(queries: set<Query>)
    | Pruned(ids: set<string>)
    | Affected(count: nat)

  datatype Kind = Trigger | Connection

  function Names(kind: Kind, q: Query): set<string> {
    if kind == Trigger then Elements(q.triggers) else {q.connection}
  }

  function Holders(kind: Kind, qs: map<string, Query>, name: string): set<string> {
    set id | id in qs && name in Names(kind, qs[id])
  }

  function AllNames(kind: Kind, qs: map<string, Query>): set<string> {
    set id, n | id in qs && n in Names(kind, qs[id]) :: n
  }

  /** The index a full scan of the subscriptions would build. */
  function Table(kind: Kind, qs: map<string, Query>): Index {
    map n | n in AllNames(kind, qs) :: Holders(kind, qs, n)
  }

  ghost predicate InStep(s: State) {
    && s.triggerIndex == Table(Trigger, s.queries)
    && s.connectionIndex == Table(Connection, s.queries)
    && s.senders.Keys == s.queries.Keys
    && forall id :: id in s.queries ==> s.queries[id].id == id
  }

  /** A limit of 0 per connection still lets each connection have one. */
  ghost predicate WithinLimits(cfg: Config, qs: map<string, Query>) {
    && |qs| <= cfg.maxTotal
    && forall c :: |Holders(Connection, qs, c)| <= if cfg.maxPerConnection > 0 then cfg.maxPerConnection else 1
  }

  function Refusal(s: State, cfg: Config, q: Query): Option<Outcome> {
    if |s.queries| >= cfg.maxTotal then Some(TooManyQueries(|s.queries|, cfg.maxTotal))
    else if q.connection in s.connectionIndex && |s.connectionIndex[q.connection]| >= cfg.maxPerConnection then
      Some(TooManyQueriesPerConnection(|s.connectionIndex[q.connection]|, cfg.maxPerConnection))
    else None
  }

  function Enter(s: State, q: Query, sender: Sender): State {
    State(s.queries[q.id := q], Link(s.triggerIndex, Names(Trigger, q), q.id),
          Link(s.connectionIndex, Names(Connection, q), q.id), s.senders[q.id := sender])
  }

  function Leave(s: State, id: string): State {
    if id !in s.queries then s
    else
      var q := s.queries[id];
      State(s.queries - {id}, Unlink(s.triggerIndex, Names(Trigger, q), id),
            Unlink(s.connectionIndex, Names(Connection, q), id), s.senders - {id})
  }

  /** Who is filed under a name by the subscriptions that go. */
  function Going(kind: Kind, qs: map<string, Query>, ids: set<string>, name: string): set<string> {
    set id | id in ids && id in qs && name in Names(kind, qs[id])
  }

  function Purge(kind: Kind, idx: Index, qs: map<string, Query>, ids: set<string>): Index {
    map n | n in idx && !(Going(kind, qs, ids, n) != {} && idx[n] - Going(kind, qs, ids, n) == {})
      :: idx[n] - Going(kind, qs, ids, n)
  }

  /** Subscriptions go, with their senders and with what their own triggers and connections account for. */
  function Depart(s: State, ids: set<string>): State {
    State(s.queries - ids, Purge(Trigger, s.triggerIndex, s.queries, ids),
          Purge(Connection, s.connectionIndex, s.queries, ids), s.senders - ids * s.queries.Keys)
  }

  /** The store without some subscriptions, with the indices of a full scan. */
  function Without(s: State, ids: set<string>): State {
    var left := s.queries - ids;
    State(left, Table(Trigger, left), Table(Connection, left), s.senders - ids)
  }

  predicate Expired(q: Query, now: nat) {
    q.ttlSeconds != 0 && now - q.createdAt >= q.ttlSeconds * 1000
  }

  function ExpiredIds(qs: map<string, Query>, now: nat): set<string> {
    set id | id in qs && Expired(qs[id], now)
  }

  function FoundUnder(idx: Index, patterns: seq<string>): set<string> {
    set p, id | p in patterns && id in Under(idx, p) :: id
  }

  function AffectedBy(idx: Index, e: Event): set<string> {
    FoundUnder(idx, Patterns(e))
  }

  function Selected(qs: map<string, Query>, e: Event): set<string> {
    set id | id in qs && ShouldUpdate(qs[id], e)
  }

  // ----- the indices stay those of a scan ---------------------------------------------

  lemma UnderTable(kind: Kind, qs: map<string, Query>)
    ensures NonEmpty(Table(kind, qs)) && forall n :: Under(Table(kind, qs), n) == Holders(kind, qs, n)
  {
    forall n
      ensures n in AllNames(kind, qs) <==> Holders(kind, qs, n) != {}
    {
      if n in AllNames(kind, qs) {
        var id :| id in qs && n in Names(kind, qs[id]);
        assert id in Holders(kind, qs, n);
      }
      if Holders(kind, qs, n) != {} {
        var id :| id in Holders(kind, qs, n);
        assert id in qs && n in Names(kind, qs[id]);
      }
    }
  }

  /**
   Registering keeps an index right exactly when the id is new or the subscription it
   replaces has no name that the new one lacks.
   */
  lemma LinkIsTableIff(kind: Kind, qs: map<string, Query>, q: Query, id: string)
    ensures Link(Table(kind, qs), Names(kind, q), id) == Table(kind, qs[id := q])
       <==> (id in qs ==> Names(kind, qs[id]) <= Names(kind, q))
  {
    hide Table, Link, Names, Under;
    var names, qs' := Names(kind, q), qs[id := q];
    var l, t := Link(Table(kind, qs), names, id), Table(kind, qs');
    UnderTable(kind, qs);
    UnderTable(kind, qs');
    forall n
      ensures NonEmpty(l) && Under(l, n) == if n in names then Holders(kind, qs, n) + {id} else Holders(kind, qs, n)
    {
      UnderLinked(Table(kind, qs), names, id, n);
    }
    if id in qs && !(Names(kind, qs[id]) <= names) {
      var n :| n in Names(kind, qs[id]) && n !in names;
      assert id in Under(l, n) && id !in Under(t, n);
    } else {
      forall n
        ensures Under(l, n) == Under(t, n)
      {
        assert Holders(kind, qs', n) == if n in names then Holders(kind, qs, n) + {id} else Holders(kind, qs, n);
      }
      UnderLinked(Table(kind, qs), names, id, "");
      SameIndex(l, t);
    }
  }

  lemma UnlinkIsTable(kind: Kind, qs: map<string, Query>, id: string)
    requires id in qs
    ensures Unlink(Table(kind, qs), Names(kind, qs[id]), id) == Table(kind, qs - {id})
  {
    hide Table, Unlink, Names, Under;
    var names, qs' := Names(kind, qs[id]), qs - {id};
    var u, t := Unlink(Table(kind, qs), names, id), Table(kind, qs');
    UnderTable(kind, qs);
    UnderTable(kind, qs');
    UnderLinked(Table(kind, qs), names, id, "");
    forall n
      ensures Under(u, n) == Under(t, n)
    {
      UnderLinked(Table(kind, qs), names, id, n);
      assert Holders(kind, qs', n) == if n in names then Holders(kind, qs, n) - {id} else Holders(kind, qs, n);
    }
    SameIndex(u, t);
  }

  /** An id not in use, or in use by a subscription of the same connection with fewer triggers. */
  predicate Fresh(qs: map<string, Query>, q: Query) {
    q.id in qs ==> Elements(qs[q.id].triggers) <= Elements(q.triggers) && qs[q.id].connection == q.connection
  }

  /** Registering leaves stale index entries exactly when the id is not fresh. */
  lemma EnterInStepIff(s: State, q: Query, sender: Sender)
    requires InStep(s)
    ensures InStep(Enter(s, q, sender)) <==> Fresh(s.queries, q)
  {
    LinkIsTableIff(Trigger, s.queries, q, q.id);
    LinkIsTableIff(Connection, s.queries, q, q.id);
  }

  lemma LeaveIsWithout(s: State, id: string)
    requires InStep(s)
    ensures Leave(s, id) == Without(s, {id}) && InStep(Leave(s, id))
  {
    if id in s.queries {
      UnlinkIsTable(Trigger, s.queries, id);
      UnlinkIsTable(Connection, s.queries, id);
    } else {
      assert s.queries - {id} == s.queries && s.senders - {id} == s.senders;
    }
  }

  lemma PurgeNothing(kind: Kind, idx: Index, qs: map<string, Query>)
    ensures Purge(kind, idx, qs, {}) == idx
  {
    forall n | n in idx
      ensures Going(kind, qs, {}, n) == {} && idx[n] - {} == idx[n]
    {
    }
  }

  lemma DepartNothing(s: State)
    ensures Depart(s, {}) == s
  {
    hide Purge;
    PurgeNothing(Trigger, s.triggerIndex, s.queries);
    PurgeNothing(Connection, s.connectionIndex, s.queries);
    assert s.queries - {} == s.queries && s.senders - {} == s.senders;
    assert {} * s.queries.Keys == {};
  }

  lemma PurgeOneMore(kind: Kind, idx: Index, qs: map<string, Query>, ids: set<string>, id: string)
    requires id in qs && id !in ids
    ensures Unlink(Purge(kind, idx, qs, ids), Names(kind, qs[id]), id) == Purge(kind, idx, qs, ids + {id})
  {
    hide Names;
    var u, t := Unlink(Purge(kind, idx, qs, ids), Names(kind, qs[id]), id), Purge(kind, idx, qs, ids + {id});
    forall n | n in idx
      ensures n in u <==> n in t
      ensures n in u ==> u[n] == t[n]
    {
      GoingOneMore(kind, qs, ids, id, n);
      var going := Going(kind, qs, ids, n);
      assert idx[n] - (going + {id}) == idx[n] - going - {id};
    }
  }

  lemma GoingOneMore(kind: Kind, qs: map<string, Query>, ids: set<string>, id: string, n: string)
    requires id in qs && id !in ids
    ensures Going(kind, qs, ids + {id}, n) == Going(kind, qs, ids, n) + if n in Names(kind, qs[id]) then {id} else {}
  {
  }

  lemma GoingSame(kind: Kind, qs: map<string, Query>, a: set<string>, b: set<string>, n: string)
    requires a * qs.Keys == b * qs.Keys
    ensures Going(kind, qs, a, n) == Going(kind, qs, b, n)
  {
    assert forall id :: id in qs ==> (id in a <==> id in a * qs.Keys) && (id in b <==> id in b * qs.Keys);
  }

  lemma PurgeSame(kind: Kind, idx: Index, qs: map<string, Query>, a: set<string>, b: set<string>)
    requires a * qs.Keys == b * qs.Keys
    ensures Purge(kind, idx, qs, a) == Purge(kind, idx, qs, b)
  {
    forall n | n in idx
      ensures Going(kind, qs, a, n) == Going(kind, qs, b, n)
    {
      GoingSame(kind, qs, a, b, n);
    }
  }

  /** Leaving one by one is leaving at once, in any order and whatever the indices hold. */
  lemma LeaveOneMore(s: State, ids: set<string>, id: string)
    requires id !in ids
    ensures Leave(Depart(s, ids), id) == Depart(s, ids + {id})
  {
    hide Purge, Unlink, Names;
    if id in s.queries {
      PurgeOneMore(Trigger, s.triggerIndex, s.queries, ids, id);
      PurgeOneMore(Connection, s.connectionIndex, s.queries, ids, id);
      assert (ids + {id}) * s.queries.Keys == ids * s.queries.Keys + {id};
      assert s.queries - ids - {id} == s.queries - (ids + {id});
      assert s.senders - ids * s.queries.Keys - {id} == s.senders - (ids + {id}) * s.queries.Keys;
    } else {
      assert (ids + {id}) * s.queries.Keys == ids * s.queries.Keys;
      PurgeSame(Trigger, s.triggerIndex, s.queries, ids, ids + {id});
      PurgeSame(Connection, s.connectionIndex, s.queries, ids, ids + {id});
      assert s.queries - (ids + {id}) == s.queries - ids;
    }
  }

  /** With right indices they stay right. */
  lemma {:induction false} DepartIsWithout(s: State, ids: set<string>)
    requires InStep(s)
    ensures Depart(s, ids) == Without(s, ids) && InStep(Depart(s, ids))
    decreases |ids|
  {
    hide Leave, Table, Depart, InStep;
    if ids == {} {
      DepartNothing(s);
      WithoutNothing(s);
    } else {
      var id :| id in ids;
      var others := ids - {id};
      DepartIsWithout(s, others);
      LeaveOneMore(s, others, id);
      LeaveIsWithout(Depart(s, others), id);
      assert others + {id} == ids;
      assert s.queries - others - {id} == s.queries - ids;
      assert s.senders - others - {id} == s.senders - ids;
    }
  }

  lemma WithoutNothing(s: State)
    requires InStep(s)
    ensures Without(s, {}) == s
  {
    hide Table;
    assert s.queries - {} == s.queries && s.senders - {} == s.senders;
  }

  // ----- what any registration keeps ----------------------------------------------------

  /** Every subscription is filed under each of its names; an index may file more. */
  ghost predicate FiledAll(kind: Kind, idx: Index, qs: map<string, Query>) {
    forall id, n :: id in qs && n in Names(kind, qs[id]) ==> id in Under(idx, n)
  }

  ghost predicate Complete(s: State) {
    && NonEmpty(s.triggerIndex) && NonEmpty(s.connectionIndex)
    && FiledAll(Trigger, s.triggerIndex, s.queries) && FiledAll(Connection, s.connectionIndex, s.queries)
    && forall id :: id in s.queries ==> s.queries[id].id == id
  }

  lemma InStepIsComplete(s: State)
    requires InStep(s)
    ensures Complete(s)
  {
    hide Table, Names, Under;
    UnderTable(Trigger, s.queries);
    UnderTable(Connection, s.queries);
    forall id, n | id in s.queries && n in Names(Trigger, s.queries[id])
      ensures id in Under(s.triggerIndex, n)
    {
      assert id in Holders(Trigger, s.queries, n);
    }
    forall id, n | id in s.queries && n in Names(Connection, s.queries[id])
      ensures id in Under(s.connectionIndex, n)
    {
      assert id in Holders(Connection, s.queries, n);
    }
  }

  lemma LinkKeepsFiled(kind: Kind, idx: Index, qs: map<string, Query>, q: Query)
    requires NonEmpty(idx) && FiledAll(kind, idx, qs)
    ensures NonEmpty(Link(idx, Names(kind, q), q.id)) && FiledAll(kind, Link(idx, Names(kind, q), q.id), qs[q.id := q])
  {
    hide Names, Link, Under, NonEmpty;
    var l, qs' := Link(idx, Names(kind, q), q.id), qs[q.id := q];
    UnderLinked(idx, Names(kind, q), q.id, "");
    forall id, n | id in qs' && n in Names(kind, qs'[id])
      ensures id in Under(l, n)
    {
      UnderLinked(idx, Names(kind, q), q.id, n);
    }
  }

  lemma UnlinkKeepsFiled(kind: Kind, idx: Index, qs: map<string, Query>, id: string)
    requires NonEmpty(idx) && FiledAll(kind, idx, qs) && id in qs
    ensures NonEmpty(Unlink(idx, Names(kind, qs[id]), id))
    ensures FiledAll(kind, Unlink(idx, Names(kind, qs[id]), id), qs - {id})
  {
    hide Names, Unlink, Under, NonEmpty;
    var names, left := Names(kind, qs[id]), qs - {id};
    UnderLinked(idx, names, id, "");
    forall other, n | other in left && n in Names(kind, left[other])
      ensures other in Under(Unlink(idx, names, id), n)
    {
      UnderLinked(idx, names, id, n);
    }
  }

  /** Registering keeps that for any id. */
  lemma EnterKeepsComplete(s: State, q: Query, sender: Sender)
    requires Complete(s)
    ensures Complete(Enter(s, q, sender))
  {
    hide Link, FiledAll, Names;
    LinkKeepsFiled(Trigger, s.triggerIndex, s.queries, q);
    LinkKeepsFiled(Connection, s.connectionIndex, s.queries, q);
  }

  lemma LeaveKeepsComplete(s: State, id: string)
    requires Complete(s)
    ensures Complete(Leave(s, id))
  {
    hide Unlink, FiledAll, Names;
    if id in s.queries {
      UnlinkKeepsFiled(Trigger, s.triggerIndex, s.queries, id);
      UnlinkKeepsFiled(Connection, s.connectionIndex, s.queries, id);
    }
  }

  lemma {:induction false} DepartKeepsComplete(s: State, ids: set<string>)
    requires Complete(s)
    ensures Complete(Depart(s, ids))
    decreases |ids|
  {
    hide Complete, Depart, Leave;
    if ids == {} {
      DepartNothing(s);
    } else {
      var id :| id in ids;
      DepartKeepsComplete(s, ids - {id});
      LeaveOneMore(s, ids - {id}, id);
      LeaveKeepsComplete(Depart(s, ids - {id}), id);
      assert ids - {id} + {id} == ids;
    }
  }

  /** The index finds every subscription that should update; right indices with plain names find no other. */
  lemma AffectedIsSelected(s: State, e: Event)
    requires Complete(s)
    ensures Selected(s.queries, e) <= AffectedBy(s.triggerIndex, e)
    ensures InStep(s) && DotFree(e.typeName) && DotFree(e.action)
      ==> AffectedBy(s.triggerIndex, e) == Selected(s.queries, e)
  {
    hide Patterns, Matches, Table;
    PatternsMatchIff(e);
    forall id | id in Selected(s.queries, e)
      ensures id in AffectedBy(s.triggerIndex, e)
    {
      var q := s.queries[id];
      var i :| 0 <= i < |q.triggers| && Matches(e, q.triggers[i]);
      MatchesIsPattern(e, q.triggers[i]);
      assert id in Under(s.triggerIndex, q.triggers[i]);
    }
    forall id | InStep(s) && id in AffectedBy(s.triggerIndex, e) && DotFree(e.typeName) && DotFree(e.action)
      ensures id in Selected(s.queries, e)
    {
      UnderTable(Trigger, s.queries);
      var p :| p in Patterns(e) && id in Under(s.triggerIndex, p);
      assert id in Holders(Trigger, s.queries, p);
    }
  }

  /** For some store an event with a dotted type or action is counted wrongly. */
  lemma DottedEventMiscounts(e: Event)
    requires !(DotFree(e.typeName) && DotFree(e.action))
    ensures exists s :: InStep(s) && AffectedBy(s.triggerIndex, e) != Selected(s.queries, e)
  {
    hide Patterns, Matches, Table;
    PatternsMatchIff(e);
    var p :| p in Patterns(e) && !Matches(e, p);
    var q := Query("id", "connection", [p], 0, 0);
    var qs := map["id" := q];
    var s := State(qs, Table(Trigger, qs), Table(Connection, qs), map["id" := 0]);
    UnderTable(Trigger, qs);
    assert q.triggers[0] == p;
    assert "id" in Under(s.triggerIndex, p) && "id" in AffectedBy(s.triggerIndex, e);
    assert "id" !in Selected(qs, e);
    assert InStep(s);
  }

  // ----- runs, beside a store that scans ----------------------------------------------

  datatype Op =
    | Register(query: Query, sender: Sender)
    | Unregister(id: string)
    | UnregisterConnection(connection: string)
    | PruneExpired(now: nat)
    | Invalidate(event: Event)

  function QueriesOf(qs: map<string, Query>, ids: set<string>): set<Query> {
    set id | id in ids && id in qs :: qs[id]
  }

  function QuerySet(l: seq<Query>): set<Query> {
    set q | q in l
  }

  lemma QuerySetGrows(l: seq<Query>, q: Query)
    ensures QuerySet(l + [q]) == QuerySet(l) + {q}
  {
  }

  function Step(s: State, cfg: Config, op: Op): (State, Outcome) {
    match op
    case Register(q, sender) =>
      var refusal := Refusal(s, cfg, q);
      if refusal.Some? then (s, refusal.value) else (Enter(s, q, sender), Registered)
    case Unregister(id) => (Leave(s, id), Unregistered(if id in s.queries then Some(s.queries[id]) else None))
    case UnregisterConnection(c) =>
      var ids := Under(s.connectionIndex, c);
      (Depart(s, ids), ConnectionGone(QueriesOf(s.queries, ids)))
    case PruneExpired(now) =>
      var ids := ExpiredIds(s.queries, now);
      (Depart(s, ids), Pruned(ids))
    case Invalidate(e) => (s, Affected(|AffectedBy(s.triggerIndex, e)|))
  }

  /** The reference: subscriptions only, everything found by looking at all of them. */
  function ScanStep(qs: map<string, Query>, cfg: Config, op: Op): (map<string, Query>, Outcome) {
    match op
    case Register(q, _) =>
      var mine := set id | id in qs && qs[id].connection == q.connection;
      if |qs| >= cfg.maxTotal then (qs, TooManyQueries(|qs|, cfg.maxTotal))
      else if mine != {} && |mine| >= cfg.maxPerConnection then
        (qs, TooManyQueriesPerConnection(|mine|, cfg.maxPerConnection))
      else (qs[q.id := q], Registered)
    case Unregister(id) => (qs - {id}, Unregistered(if id in qs then Some(qs[id]) else None))
    case UnregisterConnection(c) =>
      var mine := set id | id in qs && qs[id].connection == c;
      (qs - mine, ConnectionGone(set id | id in mine :: qs[id]))
    case PruneExpired(now) =>
      var expired := set id | id in qs && Expired(qs[id], now);
      (qs - expired, Pruned(expired))
    case Invalidate(e) => (qs, Affected(|set id | id in qs && ShouldUpdate(qs[id], e)|))
  }

  /** Ids are fresh when registered, and events carry plain names. */
  predicate Plain(qs: map<string, Query>, op: Op) {
    match op
    case Register(q, _) => Fresh(qs, q)
    case Invalidate(e) => DotFree(e.typeName) && DotFree(e.action)
    case _ => true
  }

  /** The indices stay right, the limits hold, and the state and the answer are the scan's. */
  ghost predicate LikeScan(s: State, cfg: Config, op: Op) {
    match Step(s, cfg, op)
    case (s', outcome) =>
      InStep(s') && WithinLimits(cfg, s'.queries) && (s'.queries, outcome) == ScanStep(s.queries, cfg, op)
  }

  lemma StepIsScan(s: State, cfg: Config, op: Op)
    requires InStep(s) && WithinLimits(cfg, s.queries) && Plain(s.queries, op)
    ensures LikeScan(s, cfg, op)
  {
    hide Table, Link, Unlink, Under, Fresh, WithinLimits, LikeScan;
    match op
    case Register(q, sender) => RegisterIsScan(s, cfg, q, sender);
    case Unregister(id) => UnregisterIsScan(s, cfg, id);
    case UnregisterConnection(c) => ConnectionIsScan(s, cfg, c);
    case PruneExpired(now) => PruneIsScan(s, cfg, now);
    case Invalidate(e) => InvalidateIsScan(s, cfg, e);
  }

  lemma RegisterIsScan(s: State, cfg: Config, q: Query, sender: Sender)
    requires InStep(s) && WithinLimits(cfg, s.queries) && Fresh(s.queries, q)
    ensures LikeScan(s, cfg, Register(q, sender))
  {
    hide Table, Link, Under, InStep, Fresh, WithinLimits;
    RefusalIsScan(s, cfg, q);
    if Refusal(s, cfg, q).None? {
      EnterInStepIff(s, q, sender);
      InStepIsComplete(s);
      EnterWithinLimits(s, cfg, q);
    }
  }

  lemma UnregisterIsScan(s: State, cfg: Config, id: string)
    requires InStep(s) && WithinLimits(cfg, s.queries)
    ensures LikeScan(s, cfg, Unregister(id))
  {
    hide Table, Leave, InStep, WithinLimits;
    LeaveIsWithout(s, id);
    FewerWithinLimits(cfg, s.queries, {id});
  }

  lemma ConnectionIsScan(s: State, cfg: Config, c: string)
    requires InStep(s) && WithinLimits(cfg, s.queries)
    ensures LikeScan(s, cfg, UnregisterConnection(c))
  {
    hide InStep, Under, WithinLimits, Depart;
    var mine := set id | id in s.queries && s.queries[id].connection == c;
    ConnectionHolders(s, c);
    DepartIsWithout(s, mine);
    FewerWithinLimits(cfg, s.queries, mine);
    assert QueriesOf(s.queries, mine) == set id | id in mine :: s.queries[id];
  }

  lemma ConnectionHolders(s: State, c: string)
    requires InStep(s)
    ensures Under(s.connectionIndex, c) == set id | id in s.queries && s.queries[id].connection == c
  {
    hide Table;
    UnderTable(Connection, s.queries);
  }

  lemma PruneIsScan(s: State, cfg: Config, now: nat)
    requires InStep(s) && WithinLimits(cfg, s.queries)
    ensures LikeScan(s, cfg, PruneExpired(now))
  {
    hide InStep, WithinLimits, Depart;
    DepartIsWithout(s, ExpiredIds(s.queries, now));
    FewerWithinLimits(cfg, s.queries, ExpiredIds(s.queries, now));
  }

  lemma InvalidateIsScan(s: State, cfg: Config, e: Event)
    requires InStep(s) && WithinLimits(cfg, s.queries) && DotFree(e.typeName) && DotFree(e.action)
    ensures LikeScan(s, cfg, Invalidate(e))
  {
    hide InStep, WithinLimits, DotFree, ShouldUpdate, AffectedBy;
    InStepIsComplete(s);
    AffectedIsSelected(s, e);
  }

  lemma RefusalIsScan(s: State, cfg: Config, q: Query)
    requires InStep(s)
    ensures Refusal(s, cfg, q) == var r := ScanStep(s.queries, cfg, Register(q, 0)).1; if r.Registered? then None else Some(r)
  {
    hide Table;
    ConnectionHolders(s, q.connection);
    UnderTable(Connection, s.queries);
  }

  /** An admitted registration keeps both limits, whatever its id and whatever stale entries there are. */
  lemma EnterWithinLimits(s: State, cfg: Config, q: Query)
    requires Complete(s) && WithinLimits(cfg, s.queries) && Refusal(s, cfg, q).None?
    ensures WithinLimits(cfg, s.queries[q.id := q])
  {
    hide Holders;
    var qs' := s.queries[q.id := q];
    forall c
      ensures |Holders(Connection, qs', c)|
           <= if cfg.maxPerConnection > 0 then cfg.maxPerConnection else 1
    {
      HoldersAfter(s, q, c);
      SubsetSize(Holders(Connection, s.queries, c), Under(s.connectionIndex, c));
      SubsetSize(Holders(Connection, qs', c),
                 Holders(Connection, s.queries, c) + if c == q.connection then {q.id} else {});
    }
  }

  lemma HoldersAfter(s: State, q: Query, c: string)
    requires Complete(s)
    ensures Holders(Connection, s.queries, c) <= Under(s.connectionIndex, c)
    ensures Holders(Connection, s.queries[q.id := q], c)
         <= Holders(Connection, s.queries, c) + if c == q.connection then {q.id} else {}
  {
  }

  lemma FewerWithinLimits(cfg: Config, qs: map<string, Query>, ids: set<string>)
    requires WithinLimits(cfg, qs)
    ensures WithinLimits(cfg, qs - ids)
  {
    SubsetSize((qs - ids).Keys, qs.Keys);
    forall c
      ensures |Holders(Connection, qs - ids, c)| <= |Holders(Connection, qs, c)|
    {
      SubsetSize(Holders(Connection, qs - ids, c), Holders(Connection, qs, c));
    }
  }

  function Run(s: State, cfg: Config, ops: seq<Op>): (State, seq<Outcome>)
    decreases |ops|
  {
    if ops == [] then (s, [])
    else
      var (s1, outcome) := Step(s, cfg, ops[0]);
      var (s2, outcomes) := Run(s1, cfg, ops[1..]);
      (s2, [outcome] + outcomes)
  }

  function ScanRun(qs: map<string, Query>, cfg: Config, ops: seq<Op>): (map<string, Query>, seq<Outcome>)
    decreases |ops|
  {
    if ops == [] then (qs, [])
    else
      var (qs1, outcome) := ScanStep(qs, cfg, ops[0]);
      var (qs2, outcomes) := ScanRun(qs1, cfg, ops[1..]);
      (qs2, [outcome] + outcomes)
  }

  predicate PlainRun(qs: map<string, Query>, cfg: Config, ops: seq<Op>)
    decreases |ops|
  {
    ops == [] || (Plain(qs, ops[0]) && PlainRun(ScanStep(qs, cfg, ops[0]).0, cfg, ops[1..]))
  }

  /** Every run answers as the scanning store would, with right indices and both limits kept. */
  lemma {:induction false} RunIsScan(s: State, cfg: Config, ops: seq<Op>)
    requires InStep(s) && WithinLimits(cfg, s.queries) && PlainRun(s.queries, cfg, ops)
    ensures InStep(Run(s, cfg, ops).0) && WithinLimits(cfg, Run(s, cfg, ops).0.queries)
    ensures (Run(s, cfg, ops).0.queries, Run(s, cfg, ops).1) == ScanRun(s.queries, cfg, ops)
    decreases |ops|
  {
    hide InStep, WithinLimits, Step, ScanStep;
    if ops != [] {
      StepIsScan(s, cfg, ops[0]);
      assert LikeScan(s, cfg, ops[0]);
      RunIsScan(Step(s, cfg, ops[0]).0, cfg, ops[1..]);
    }
  }

  /** The empty store starts such runs. */
  lemma EmptyInStep(cfg: Config)
    ensures InStep(EMPTY) && WithinLimits(cfg, EMPTY.queries)
  {
    assert forall c :: Holders(Connection, map[], c) == {};
  }

  /** Every step keeps the indices complete and both limits, for any ids and events. */
  lemma StepKeepsLimits(s: State, cfg: Config, op: Op)
    requires Complete(s) && WithinLimits(cfg, s.queries)
    ensures Complete(Step(s, cfg, op).0) && WithinLimits(cfg, Step(s, cfg, op).0.queries)
  {
    hide Complete, WithinLimits, Link, Unlink, Names, Purge, AffectedBy;
    match op
    case Register(q, sender) =>
      if Refusal(s, cfg, q).None? {
        EnterKeepsComplete(s, q, sender);
        EnterWithinLimits(s, cfg, q);
      }
    case Unregister(id) =>
      LeaveKeepsComplete(s, id);
      FewerWithinLimits(cfg, s.queries, {id});
    case UnregisterConnection(c) =>
      DepartKeepsComplete(s, Under(s.connectionIndex, c));
      FewerWithinLimits(cfg, s.queries, Under(s.connectionIndex, c));
    case PruneExpired(now) =>
      DepartKeepsComplete(s, ExpiredIds(s.queries, now));
      FewerWithinLimits(cfg, s.queries, ExpiredIds(s.queries, now));
    case Invalidate(e) =>
  }

  lemma {:induction false} RunKeepsLimits(s: State, cfg: Config, ops: seq<Op>)
    requires Complete(s) && WithinLimits(cfg, s.queries)
    ensures Complete(Run(s, cfg, ops).0) && WithinLimits(cfg, Run(s, cfg, ops).0.queries)
    decreases |ops|
  {
    hide Complete, WithinLimits, Step;
    if ops != [] {
      StepKeepsLimits(s, cfg, ops[0]);
      RunKeepsLimits(Step(s, cfg, ops[0]).0, cfg, ops[1..]);
    }
  }

  /** After any run both limits hold, and an event counts no fewer subscriptions than a scan would select. */
  lemma NoneMissed(cfg: Config, ops: seq<Op>, e: Event)
    ensures var s := Run(EMPTY, cfg, ops).0;
      && WithinLimits(cfg, s.queries)
      && Selected(s.queries, e) <= AffectedBy(s.triggerIndex, e)
      && Step(s, cfg, Invalidate(e)).1.count >= |Selected(s.queries, e)|
  {
    hide Complete, WithinLimits, Run, Selected, AffectedBy, InStep;
    EmptyInStep(cfg);
    InStepIsComplete(EMPTY);
    RunKeepsLimits(EMPTY, cfg, ops);
    var s := Run(EMPTY, cfg, ops).0;
    AffectedIsSelected(s, e);
    SubsetSize(Selected(s.queries, e), AffectedBy(s.triggerIndex, e));
  }

  /**
   The per-connection limit itself is kept by every run, of any ids, exactly when it is positive,
   or nothing is admitted at all: a limit of 0 lets each connection have one.
   */
  lemma ConnectionLimitIff(cfg: Config)
    ensures (forall ops, c :: LimitKept(cfg, Run(EMPTY, cfg, ops).0.queries, c))
       <==> cfg.maxPerConnection > 0 || cfg.maxTotal == 0
  {
    hide Run, InStep;
    if cfg.maxPerConnection > 0 || cfg.maxTotal == 0 {
      forall ops, c
        ensures LimitKept(cfg, Run(EMPTY, cfg, ops).0.queries, c)
      {
        NoneMissed(cfg, ops, Event("", ""));
        if cfg.maxTotal == 0 {
          assert Run(EMPTY, cfg, ops).0.queries == map[];
          assert Holders(Connection, map[], c) == {};
        }
      }
    } else {
      OneTooMany(cfg);
    }
  }

  ghost predicate LimitKept(cfg: Config, qs: map<string, Query>, c: string) {
    |Holders(Connection, qs, c)| <= cfg.maxPerConnection
  }

  lemma OneTooMany(cfg: Config)
    requires cfg.maxPerConnection == 0 && cfg.maxTotal > 0
    ensures exists ops, c :: !LimitKept(cfg, Run(EMPTY, cfg, ops).0.queries, c)
  {
    hide Link, Table;
    var q := Query("id", "c", [], 0, 0);
    var ops, qs := [Register(q, 0)], map["id" := q];
    assert ops[1..] == [];
    assert Step(EMPTY, cfg, ops[0]).0.queries == qs;
    assert Run(EMPTY, cfg, ops).0 == Run(Step(EMPTY, cfg, ops[0]).0, cfg, []).0 == Step(EMPTY, cfg, ops[0]).0;
    assert Holders(Connection, qs, "c") == {"id"};
    assert !LimitKept(cfg, Run(EMPTY, cfg, ops).0.queries, "c");
  }

  /** Pruning takes those with a lifetime whose seconds are over, and no other. */
  lemma PrunedIff(s: State, cfg: Config, now: nat, id: string)
    ensures
      var (s', outcome) := Step(s, cfg, PruneExpired(now));
      && outcome.Pruned?
      && (id in outcome.ids
          <==> id in s.queries && s.queries[id].ttlSeconds > 0
               && now >= s.queries[id].createdAt + 1000 * s.queries[id].ttlSeconds)
      && (id in s'.queries <==> id in s.queries && id !in outcome.ids)
      && (id in s'.queries ==> s'.queries[id] == s.queries[id])
  {
    hide Purge;
  }

  /** Every subscription has the sender it was registered with. */
  ghost predicate Together(s: State, ops: seq<Op>) {
    forall id :: id in s.queries ==>
      id in s.senders && s.queries[id].id == id && Register(s.queries[id], s.senders[id]) in ops
  }

  lemma StepKeepsTogether(s: State, cfg: Config, op: Op, ops: seq<Op>)
    requires Together(s, ops) && op in ops
    ensures Together(Step(s, cfg, op).0, ops)
  {
    hide Link, Unlink, Purge, Names, AffectedBy;
  }

  lemma {:induction false} RunKeepsTogether(s: State, cfg: Config, left: seq<Op>, ops: seq<Op>)
    requires Together(s, ops) && forall op <- left :: op in ops
    ensures Together(Run(s, cfg, left).0, ops)
    decreases |left|
  {
    hide Step, Together;
    if left != [] {
      assert left[0] in left && forall op <- left[1..] :: op in left;
      StepKeepsTogether(s, cfg, left[0], ops);
      RunKeepsTogether(Step(s, cfg, left[0]).0, cfg, left[1..], ops);
    }
  }

  /** After any run each subscription is there with a sender that came with it in one registration. */
  lemma SenderCameWithQuery(cfg: Config, ops: seq<Op>, id: string)
    ensures
      var s := Run(EMPTY, cfg, ops).0;
      id in s.queries ==> id in s.senders && Register(s.queries[id], s.senders[id]) in ops
  {
    hide Run;
    RunKeepsTogether(EMPTY, cfg, ops, ops);
  }

  /** An admitted registration is there with its sender, in place of any of that id, and no other changes. */
  lemma RegisteredAs(s: State, cfg: Config, q: Query, sender: Sender)
    ensures
      var (s', outcome) := Step(s, cfg, Register(q, sender));
      && (outcome == Registered ==> s'.queries == s.queries[q.id := q] && s'.senders == s.senders[q.id := sender])
      && (outcome != Registered ==> s' == s)
      && (|s.queries| >= cfg.maxTotal ==> outcome == TooManyQueries(|s.queries|, cfg.maxTotal))
  {
    hide Link;
  }

  // ----- the store itself -------------------------------------------------------------

  class LiveQueryStore {
    const config: Config
    var queries: map<string, Query>
    var triggerIndex: Index
    var connectionIndex: Index
    var updateSenders: map<string, Sender>

    ghost function Abs(): State
      reads this
    {
      State(queries, triggerIndex, connectionIndex, updateSenders)
    }

    ghost predicate Valid()
      reads this
    {
      InStep(Abs())
    }

    constructor (config: Config)
      ensures this.config == config && Abs() == EMPTY && Valid()
    {
      this.config := config;
      queries, triggerIndex, connectionIndex, updateSenders := map[], map[], map[], map[];
      new;
      EmptyInStep(config);
    }

    /** An id already in use is not refused; it may leave the indices with stale entries. */
    method Register(query: Query, sender: Sender) returns (r: Outcome)
      modifies this
      ensures (Abs(), r) == Step(old(Abs()), config, Op.Register(query, sender))
      ensures old(Valid()) ==> (Valid() <==> r != Registered || Fresh(old(queries), query))
    {
      hide Link, Table, Fresh, InStep;
      ghost var s := Abs();
      if InStep(s) {
        EnterInStepIff(s, query, sender);
      }
      if |queries| >= config.maxTotal {
        return TooManyQueries(|queries|, config.maxTotal);
      }
      if query.connection in connectionIndex {
        var mine := connectionIndex[query.connection];
        if |mine| >= config.maxPerConnection {
          return TooManyQueriesPerConnection(|mine|, config.maxPerConnection);
        }
      }
      var id := query.id;
      queries := queries[id := query];
      triggerIndex := LinkTriggers(triggerIndex, query.triggers, id);
      connectionIndex := PutIn(connectionIndex, query.connection, id);
      updateSenders := updateSenders[id := sender];
      r := Registered;
    }

    method Unregister(id: string) returns (query: Option<Query>)
      modifies this
      ensures (Abs(), Unregistered(query)) == Step(old(Abs()), config, Op.Unregister(id))
      ensures old(Valid()) ==> Valid() && Abs() == Without(old(Abs()), {id})
    {
      hide Unlink, Table, InStep, Without;
      ghost var s := Abs();
      if InStep(s) {
        LeaveIsWithout(s, id);
      }
      if id !in queries {
        return None;
      }
      var q := queries[id];
      queries := queries - {id};
      triggerIndex := UnlinkTriggers(triggerIndex, q.triggers, id);
      LinkNone(connectionIndex, id);
      UnlinkOneMore(connectionIndex, {}, q.connection, id);
      assert {} + {q.connection} == {q.connection};
      connectionIndex := TakeOut(connectionIndex, q.connection, id);
      updateSenders := updateSenders - {id};
      query := Some(q);
    }

    static method LinkTriggers(idx: Index, triggers: seq<string>, id: string) returns (idx': Index)
      ensures idx' == Link(idx, Elements(triggers), id)
    {
      hide Link, Under;
      idx' := idx;
      LinkNone(idx, id);
      assert Elements(triggers[..0]) == {};
      for i := 0 to |triggers|
        invariant idx' == Link(idx, Elements(triggers[..i]), id)
      {
        LinkOneMore(idx, Elements(triggers[..i]), triggers[i], id);
        assert Elements(triggers[..i + 1]) == Elements(triggers[..i]) + {triggers[i]};
        idx' := idx'[triggers[i] := Under(idx', triggers[i]) + {id}];
      }
      assert triggers[..|triggers|] == triggers;
    }

    static method UnlinkTriggers(idx: Index, triggers: seq<string>, id: string) returns (idx': Index)
      ensures idx' == Unlink(idx, Elements(triggers), id)
    {
      hide Unlink;
      idx' := idx;
      LinkNone(idx, id);
      assert Elements(triggers[..0]) == {};
      for i := 0 to |triggers|
        invariant idx' == Unlink(idx, Elements(triggers[..i]), id)
      {
        UnlinkOneMore(idx, Elements(triggers[..i]), triggers[i], id);
        assert Elements(triggers[..i + 1]) == Elements(triggers[..i]) + {triggers[i]};
        idx' := TakeOut(idx', triggers[i], id);
      }
      assert triggers[..|triggers|] == triggers;
    }

    static method PutIn(idx: Index, name: string, id: string) returns (idx': Index)
      ensures idx' == Link(idx, {name}, id)
    {
      hide Link;
      LinkNone(idx, id);
      LinkOneMore(idx, {}, name, id);
      assert {} + {name} == {name};
      idx' := idx[name := Under(idx, name) + {id}];
    }

    /** Takes an id from under one name, and the name with its last id. */
    static method TakeOut(idx: Index, name: string, id: string) returns (idx': Index)
      ensures idx' == if name !in idx then idx
                      else if idx[name] - {id} == {} then idx - {name}
                      else idx[name := idx[name] - {id}]
    {
      idx' := idx;
      if name in idx {
        var ids := idx[name] - {id};
        idx' := if ids == {} then idx - {name} else idx[name := ids];
      }
    }

    /**
     The ids the index has for the connection leave one by one.  With right indices these are
     the connection's subscriptions, each returned once.
     */
    method UnregisterConnection(connection: string) returns (gone: seq<Query>)
      modifies this
      ensures (Abs(), ConnectionGone(QuerySet(gone))) == Step(old(Abs()), config, Op.UnregisterConnection(connection))
      ensures old(Valid()) ==> Valid() && |gone| == |Under(old(connectionIndex), connection)|
    {
      hide InStep, Table, QueriesOf, QuerySet, Under, Depart;
      ghost var s := Abs();
      if InStep(s) {
        ConnectionHolders(s, connection);
        DepartIsWithout(s, Under(connectionIndex, connection));
      }
      gone := UnregisterEach(Under(connectionIndex, connection));
    }

    method PruneExpired(now: nat) returns (expired: set<string>)
      modifies this
      ensures (Abs(), Pruned(expired)) == Step(old(Abs()), config, Op.PruneExpired(now))
      ensures old(Valid()) ==> Valid()
    {
      hide InStep, Table, Depart, ExpiredIds;
      ghost var s := Abs();
      expired := ExpiredIds(queries, now);
      if InStep(s) {
        DepartIsWithout(s, expired);
      }
      var _ := UnregisterEach(expired);
    }

    /** The loop over ids, in any order; those in use are returned with their subscriptions. */
    method UnregisterEach(ids: set<string>) returns (gone: seq<Query>)
      modifies this
      ensures Abs() == Depart(old(Abs()), ids)
      ensures QuerySet(gone) == QueriesOf(old(queries), ids)
      ensures ids <= old(queries).Keys ==> |gone| == |ids|
    {
      hide InStep, QueriesOf, QuerySet, Depart, Leave;
      gone := [];
      ghost var s := Abs();
      var left := ids;
      ghost var done: set<string> := {};
      NoneLeft(s);
      while left != {}
        invariant left <= ids && done == ids - left && Abs() == Depart(s, done)
        invariant QuerySet(gone) == QueriesOf(s.queries, done)
        invariant ids <= s.queries.Keys ==> |gone| == |ids| - |left|
        decreases |left|
      {
        var id :| id in left;
        OneMoreLeaves(s, done, id);
        var query := Unregister(id);
        if query.Some? {
          QuerySetGrows(gone, query.value);
          gone := gone + [query.value];
        }
        left := left - {id};
        done := done + {id};
      }
      assert done == ids;
    }

    static lemma NoneLeft(s: State)
      ensures Depart(s, {}) == s && QuerySet([]) == {} == QueriesOf(s.queries, {})
    {
      DepartNothing(s);
    }

    /** One more id: who leaves, and the subscription it has, if any. */
    static lemma OneMoreLeaves(s: State, done: set<string>, id: string)
      requires id !in done
      ensures Depart(s, done + {id}) == Leave(Depart(s, done), id)
      ensures (id in Depart(s, done).queries <==> id in s.queries)
      ensures id in s.queries ==> Depart(s, done).queries[id] == s.queries[id]
      ensures QueriesOf(s.queries, done + {id})
           == QueriesOf(s.queries, done) + if id in s.queries then {s.queries[id]} else {}
    {
      hide Leave, Purge;
      LeaveOneMore(s, done, id);
    }

    /** How many subscriptions an event reaches; the store itself does not change. */
    method Invalidate(event: Event) returns (affectedCount: nat)
      ensures Affected(affectedCount) == Step(Abs(), config, Op.Invalidate(event)).1
      ensures Complete(Abs()) ==> affectedCount >= |Selected(queries, event)|
      ensures Valid() && DotFree(event.typeName) && DotFree(event.action)
        ==> affectedCount == |Selected(queries, event)|
    {
      hide InStep, Complete, Matches, FoundUnder, Under, Patterns, Selected;
      if Complete(Abs()) {
        AffectedIsSelected(Abs(), event);
        SubsetSize(Selected(queries, event), AffectedBy(triggerIndex, event));
      }
      if InStep(Abs()) {
        InStepIsComplete(Abs());
        AffectedIsSelected(Abs(), event);
      }
      NoneFound(triggerIndex);
      var patterns := Patterns(event);
      var affected: set<string> := {};
      for i := 0 to |patterns|
        invariant affected == FoundUnder(triggerIndex, patterns[..i])
      {
        assert patterns[..i + 1] == patterns[..i] + [patterns[i]];
        OneMoreFound(triggerIndex, patterns[..i], patterns[i]);
        affected := affected + Under(triggerIndex, patterns[i]);
      }
      assert patterns[..|patterns|] == patterns;
      affectedCount := |affected|;
    }

    static lemma NoneFound(idx: Index)
      ensures FoundUnder(idx, []) == {}
    {
    }

    static lemma OneMoreFound(idx: Index, patterns: seq<string>, p: string)
      ensures FoundUnder(idx, patterns + [p]) == FoundUnder(idx, patterns) + Under(idx, p)
    {
    }
  }
}
