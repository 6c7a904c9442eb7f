/**
 Per-user cost budgets over fixed windows, and what they imply for every sliding
 interval.  Time is a number passed in, never decreasing from call to call.
 */
module CostBudget {
  import opened Sets

  const U64: nat := 0x1_0000_0000_0000_0000
  const MAX_ENTRIES: nat := 50_000

  datatype Config = Config(userCostBudget: nat, budgetWindow: nat)

  datatype UserBudget = UserBudget(spent: nat, windowStart: nat)

  datatype Outcome = Accepted | OverBudget | CapacityExceeded

  type Budgets = map<string, UserBudget>

  // ----- what one call does -----

  function Since(now: nat, start: nat): nat {
    if now >= start then now - start else 0
  }

  /** Entries no older than `age`. */
  function Retain(m: Budgets, now: nat, age: nat): (m': Budgets)
    ensures forall u :: u in m' <==> u in m && Since(now, m[u].windowStart) <= age
    ensures forall u :: u in m' ==> m'[u] == m[u]
    ensures |m'| <= |m|
  {
    var m' := map u | u in m && Since(now, m[u].windowStart) <= age :: m[u];
    assert m'.Keys <= m.Keys;
    SubsetSize(m'.Keys, m.Keys);
    m'
  }

  /** Room for a user: already tracked, or below capacity, expired entries evicted first if need be. */
  function MakeRoom(c: Config, m: Budgets, user: string, now: nat): Budgets {
    if |m| >= MAX_ENTRIES && user !in m then Retain(m, now, c.budgetWindow) else m
  }

  /** The user's entry as this call sees it: fresh when absent or expired. */
  function Entry(c: Config, m: Budgets, user: string, now: nat): UserBudget {
    if user in m && Since(now, m[user].windowStart) <= c.budgetWindow then m[user] else UserBudget(0, now)
  }

  function Add64(a: nat, b: nat): nat {
    (a + b) % U64
  }

  function Check(c: Config, m: Budgets, user: string, cost: nat, now: nat): (Budgets, Outcome) {
    var room := MakeRoom(c, m, user, now);
    if |room| >= MAX_ENTRIES && user !in room then (room, CapacityExceeded)
    else
      var b := Entry(c, room, user, now);
      var spent := Add64(b.spent, cost);
      if spent > c.userCostBudget then (room[user := b], OverBudget)
      else (room[user := b.(spent := spent)], Accepted)
  }

  class QueryCostAnalyzer {
    const config: Config
    var userBudgets: Budgets

    constructor (config: Config)
      ensures this.config == config && userBudgets == map[]
    {
      this.config := config;
      userBudgets := map[];
    }

    method CheckUserBudget(userId: string, queryCost: nat, now: nat) returns (r: Outcome)
      requires queryCost < U64
      modifies this
      ensures (userBudgets, r) == Check(config, old(userBudgets), userId, queryCost, now)
    {
      hide Retain, Since, MakeRoom, Add64;
      Makes(config, userBudgets, userId, now);
      ghost var room := MakeRoom(config, userBudgets, userId, now);
      if |userBudgets| >= MAX_ENTRIES && userId !in userBudgets {
        userBudgets := Retain(userBudgets, now, config.budgetWindow);
        if |userBudgets| >= MAX_ENTRIES {
          return CapacityExceeded;
        }
      }
      var budget := if userId in userBudgets then userBudgets[userId] else UserBudget(0, now);
      if Since(now, budget.windowStart) > config.budgetWindow {
        budget := UserBudget(0, now);
      }
      userBudgets := userBudgets[userId := budget];
      if Add64(budget.spent, queryCost) > config.userCostBudget {
        return OverBudget;
      }
      Updated(room, userId, budget, budget.(spent := Add64(budget.spent, queryCost)));
      budget := budget.(spent := Add64(budget.spent, queryCost));
      userBudgets := userBudgets[userId := budget];
      r := Accepted;
    }

    static lemma Makes(c: Config, m: Budgets, user: string, now: nat)
      ensures MakeRoom(c, m, user, now)
           == if |m| >= MAX_ENTRIES && user !in m then Retain(m, now, c.budgetWindow) else m
    {
      hide Retain;
    }

    static lemma Updated(m: Budgets, user: string, a: UserBudget, b: UserBudget)
      ensures m[user := a][user := b] == m[user := b]
    {
    }

    method CleanupExpiredBudgets(now: nat)
      modifies this
      ensures userBudgets == Retain(old(userBudgets), now, config.budgetWindow * 2)
    {
      userBudgets := Retain(userBudgets, now, config.budgetWindow * 2);
    }
  }

  // ----- runs -----

  datatype Op = Charge(user: string, cost: nat, at: nat) | Cleanup(at: nat)

  /** An accepted charge. */
  datatype Event = Event(user: string, cost: nat, at: nat)

  datatype State = State(budgets: Budgets, log: seq<Event>, now: nat)

  const START := State(map[], [], 0)

  function Do(c: Config, s: State, op: Op): State {
    match op
    case Charge(user, cost, at) =>
      var (m, outcome) := Check(c, s.budgets, user, cost, at);
      State(m, if outcome == Accepted then s.log + [Event(user, cost, at)] else s.log, at)
    case Cleanup(at) => State(Retain(s.budgets, at, c.budgetWindow * 2), s.log, at)
  }

  /** The clock does not go back, and no 64-bit sum can wrap. */
  ghost predicate Possible(c: Config, s: State, op: Op) {
    s.now <= op.at && (op.Charge? ==> c.userCostBudget + op.cost < U64)
  }

  ghost predicate IsRun(c: Config, s: State, ops: seq<Op>)
    decreases |ops|
  {
    ops == [] || (Possible(c, s, ops[0]) && IsRun(c, Do(c, s, ops[0]), ops[1..]))
  }

  function After(c: Config, s: State, ops: seq<Op>): State
    decreases |ops|
  {
    if ops == [] then s else After(c, Do(c, s, ops[0]), ops[1..])
  }

  /** The cost accepted for one user between two times, both included. */
  function Total(log: seq<Event>, user: string, from: nat, to: nat): nat {
    if log == [] then 0
    else
      var e := log[|log| - 1];
      Total(log[..|log| - 1], user, from, to) + if e.user == user && from <= e.at <= to then e.cost else 0
  }

  lemma TotalAppend(log: seq<Event>, e: Event, user: string, from: nat, to: nat)
    ensures Total(log + [e], user, from, to)
         == Total(log, user, from, to) + if e.user == user && from <= e.at <= to then e.cost else 0
  {
    assert (log + [e])[..|log|] == log;
  }

  // ----- what every step keeps -----

  /** Every entry counts exactly what its window accepted; a user without one has no charge at this instant. */
  ghost predicate Inv(c: Config, s: State) {
    && |s.budgets| <= MAX_ENTRIES
    && (forall u :: u in s.budgets ==> EntryOk(c, s, u, s.budgets[u]))
    && (forall i :: 0 <= i < |s.log| ==> s.log[i].at <= s.now)
    && (forall i :: 0 <= i < |s.log| && s.log[i].user !in s.budgets ==> s.log[i].at < s.now)
  }

  ghost predicate EntryOk(c: Config, s: State, u: string, b: UserBudget) {
    && b.windowStart <= s.now && b.spent <= c.userCostBudget
    && (forall i :: 0 <= i < |s.log| && s.log[i].user == u ==> s.log[i].at <= b.windowStart + c.budgetWindow)
    && (forall to :: to >= s.now ==> Total(s.log, u, b.windowStart, to) == b.spent)
  }

  lemma {:induction false} NothingIn(log: seq<Event>, user: string, from: nat, to: nat)
    requires forall i :: 0 <= i < |log| && log[i].user == user ==> log[i].at < from || to < log[i].at
    ensures Total(log, user, from, to) == 0
  {
    if log != [] {
      NothingIn(log[..|log| - 1], user, from, to);
    }
  }

  lemma RetainKeepsInv(c: Config, s: State, m: Budgets, at: nat, age: nat)
    requires Inv(c, s) && s.now <= at && age >= c.budgetWindow && m == Retain(s.budgets, at, age)
    ensures Inv(c, State(m, s.log, at))
  {
    var s' := State(m, s.log, at);
    forall u | u in m
      ensures EntryOk(c, s', u, m[u])
    {
      assert EntryOk(c, s, u, s.budgets[u]);
    }
    forall i | 0 <= i < |s.log| && s.log[i].user !in m
      ensures s.log[i].at < at
    {
      var u := s.log[i].user;
      if u in s.budgets {
        assert EntryOk(c, s, u, s.budgets[u]);
      }
    }
  }

  lemma TimePasses(c: Config, s: State, at: nat)
    requires Inv(c, s) && s.now <= at
    ensures Inv(c, s.(now := at))
  {
    forall u | u in s.budgets
      ensures EntryOk(c, s.(now := at), u, s.budgets[u])
    {
      assert EntryOk(c, s, u, s.budgets[u]);
    }
  }

  /** The entry a call works on satisfies the invariant too. */
  lemma EntryIsOk(c: Config, s: State, user: string)
    requires Inv(c, s)
    ensures EntryOk(c, s, user, Entry(c, s.budgets, user, s.now))
  {
    if user in s.budgets {
      assert EntryOk(c, s, user, s.budgets[user]);
    }
    var b := Entry(c, s.budgets, user, s.now);
    if b == UserBudget(0, s.now) {
      forall to | to >= s.now
        ensures Total(s.log, user, s.now, to) == 0
      {
        if !(user in s.budgets && Since(s.now, s.budgets[user].windowStart) <= c.budgetWindow) {
          NothingIn(s.log, user, s.now, to);
        }
      }
    }
  }

  /** The state once room has been made for a user and the time has come. */
  function Ready(c: Config, s: State, user: string, at: nat): State {
    State(MakeRoom(c, s.budgets, user, at), s.log, at)
  }

  lemma ReadyKeepsInv(c: Config, s: State, user: string, at: nat)
    requires Inv(c, s) && s.now <= at
    ensures Inv(c, Ready(c, s, user, at))
  {
    hide EntryOk, Retain, Inv;
    var room := MakeRoom(c, s.budgets, user, at);
    if room == s.budgets {
      TimePasses(c, s, at);
    } else {
      RetainKeepsInv(c, s, room, at, c.budgetWindow);
    }
  }

  /** A charge on the state made ready for it. */
  function Charged(c: Config, s: State, user: string, cost: nat): State {
    var b := Entry(c, s.budgets, user, s.now);
    if |s.budgets| >= MAX_ENTRIES && user !in s.budgets then s
    else if b.spent + cost > c.userCostBudget then s.(budgets := s.budgets[user := b])
    else State(s.budgets[user := b.(spent := b.spent + cost)], s.log + [Event(user, cost, s.now)], s.now)
  }

  lemma ChargeIsCharged(c: Config, s: State, user: string, cost: nat, at: nat)
    requires Inv(c, s) && s.now <= at && c.userCostBudget + cost < U64
    ensures Do(c, s, Charge(user, cost, at)) == Charged(c, Ready(c, s, user, at), user, cost)
  {
    hide EntryOk, Retain;
    ReadyKeepsInv(c, s, user, at);
    EntryIsOk(c, Ready(c, s, user, at), user);
    SpentBounded(c, Ready(c, s, user, at), user);
  }

  lemma SpentBounded(c: Config, s: State, user: string)
    requires Inv(c, s)
    ensures Entry(c, s.budgets, user, s.now).spent <= c.userCostBudget
  {
    if user in s.budgets {
      assert EntryOk(c, s, user, s.budgets[user]);
    }
  }

  lemma StepKeepsInv(c: Config, s: State, op: Op)
    requires Inv(c, s) && Possible(c, s, op)
    ensures Inv(c, Do(c, s, op))
  {
    hide EntryOk, Retain, Inv, Charged, Ready;
    match op
    case Cleanup(at) => RetainKeepsInv(c, s, Retain(s.budgets, at, c.budgetWindow * 2), at, c.budgetWindow * 2);
    case Charge(user, cost, at) =>
      ChargeIsCharged(c, s, user, cost, at);
      ReadyKeepsInv(c, s, user, at);
      ChargeKeepsInv(c, Ready(c, s, user, at), user, cost);
  }

  lemma ChargeKeepsInv(c: Config, s: State, user: string, cost: nat)
    requires Inv(c, s)
    ensures Inv(c, Charged(c, s, user, cost))
  {
    hide EntryOk, Total;
    var s' := Charged(c, s, user, cost);
    EntryIsOk(c, s, user);
    EntryNow(c, s, user);
    forall u | u in s'.budgets
      ensures EntryOk(c, s', u, s'.budgets[u])
    {
      if s' != s {
        OneEntryKept(c, s, user, cost, u);
      }
    }
  }

  lemma EntryNow(c: Config, s: State, user: string)
    requires Inv(c, s)
    ensures Entry(c, s.budgets, user, s.now).windowStart <= s.now
  {
    if user in s.budgets {
      assert EntryOk(c, s, user, s.budgets[user]);
    }
  }

  lemma OneEntryKept(c: Config, s: State, user: string, cost: nat, u: string)
    requires Inv(c, s) && u in Charged(c, s, user, cost).budgets
    requires |s.budgets| < MAX_ENTRIES || user in s.budgets
    ensures EntryOk(c, Charged(c, s, user, cost), u, Charged(c, s, user, cost).budgets[u])
  {
    var s', e := Charged(c, s, user, cost), Event(user, cost, s.now);
    EntryIsOk(c, s, user);
    var b := if u == user then Entry(c, s.budgets, user, s.now) else s.budgets[u];
    assert EntryOk(c, s, u, b);
    if s'.log != s.log {
      forall to | to >= s.now
        ensures Total(s'.log, u, b.windowStart, to) == s'.budgets[u].spent
      {
        TotalAppend(s.log, e, u, b.windowStart, to);
      }
    }
  }

  // ----- the interval bound -----

  /**
   How the charges accepted in [from, from + window] relate to the user's entry:
   all in the current window; or a full window and a second one that began in the
   interval; or the interval is over.
   */
  ghost predicate Spread(c: Config, s: State, user: string, from: nat) {
    var a := Total(s.log, user, from, from + c.budgetWindow);
    a == 0
    || (s.now >= from
        && ((user !in s.budgets && a <= c.userCostBudget)
            || (user in s.budgets && a <= s.budgets[user].spent)
            || (user in s.budgets && s.budgets[user].windowStart >= from && a <= c.userCostBudget + s.budgets[user].spent)
            || (s.now > from + c.budgetWindow && a <= 2 * c.userCostBudget)))
  }

  lemma StepKeepsSpread(c: Config, s: State, op: Op, user: string, from: nat)
    requires Inv(c, s) && Possible(c, s, op) && Spread(c, s, user, from)
    ensures Spread(c, Do(c, s, op), user, from)
  {
    hide EntryOk, Inv, Charged, Ready, Spread;
    match op
    case Cleanup(at) => RetainKeepsSpread(c, s, Retain(s.budgets, at, c.budgetWindow * 2), at, c.budgetWindow * 2, user, from);
    case Charge(u, cost, at) =>
      ChargeIsCharged(c, s, u, cost, at);
      ReadyKeepsInv(c, s, u, at);
      ReadyKeepsSpread(c, s, u, at, user, from);
      ChargeKeepsSpread(c, Ready(c, s, u, at), u, cost, user, from);
  }

  lemma RetainKeepsSpread(c: Config, s: State, m: Budgets, at: nat, age: nat, user: string, from: nat)
    requires Inv(c, s) && s.now <= at && age >= c.budgetWindow && m == Retain(s.budgets, at, age)
    requires Spread(c, s, user, from)
    ensures Spread(c, State(m, s.log, at), user, from)
  {
    hide Total, Retain;
    if user in s.budgets {
      assert EntryOk(c, s, user, s.budgets[user]);
    }
  }

  lemma ReadyKeepsSpread(c: Config, s: State, u: string, at: nat, user: string, from: nat)
    requires Inv(c, s) && s.now <= at && Spread(c, s, user, from)
    ensures Spread(c, Ready(c, s, u, at), user, from)
  {
    hide Total, Retain, EntryOk;
    if Ready(c, s, u, at).budgets != s.budgets {
      RetainKeepsSpread(c, s, Ready(c, s, u, at).budgets, at, c.budgetWindow, user, from);
    }
  }

  lemma ChargeKeepsSpread(c: Config, s: State, u: string, cost: nat, user: string, from: nat)
    requires Inv(c, s) && Spread(c, s, user, from)
    ensures Spread(c, Charged(c, s, u, cost), user, from)
  {
    hide Total;
    if user in s.budgets {
      assert EntryOk(c, s, user, s.budgets[user]);
    }
    TotalAppend(s.log, Event(u, cost, s.now), user, from, from + c.budgetWindow);
  }

  lemma {:induction false} RunKeeps(c: Config, s: State, ops: seq<Op>, user: string, from: nat)
    requires Inv(c, s) && IsRun(c, s, ops) && Spread(c, s, user, from)
    ensures Inv(c, After(c, s, ops)) && Spread(c, After(c, s, ops), user, from)
    decreases |ops|
  {
    if ops != [] {
      StepKeepsInv(c, s, ops[0]);
      StepKeepsSpread(c, s, ops[0], user, from);
      RunKeeps(c, Do(c, s, ops[0]), ops[1..], user, from);
    }
  }

  /** No interval as long as the window, wherever it lies, sees more than twice the budget accepted for one user. */
  lemma IntervalBound(c: Config, ops: seq<Op>, user: string, from: nat)
    requires IsRun(c, START, ops)
    ensures Total(After(c, START, ops).log, user, from, from + c.budgetWindow) <= 2 * c.userCostBudget
  {
    RunKeeps(c, START, ops, user, from);
    var s := After(c, START, ops);
    if user in s.budgets {
      assert EntryOk(c, s, user, s.budgets[user]);
    }
  }

  /** The map of budgets never holds more than its capacity, whatever the clock and the costs. */
  lemma {:induction false} CapacityBound(c: Config, s: State, ops: seq<Op>)
    requires |s.budgets| <= MAX_ENTRIES
    ensures |After(c, s, ops).budgets| <= MAX_ENTRIES
    decreases |ops|
  {
    hide Retain;
    if ops != [] {
      CapacityBound(c, Do(c, s, ops[0]), ops[1..]);
    }
  }

  /**
   Cleaning up is not noticed: a later call by any user, on a map no larger than its capacity,
   gets the answer and the entry it would have got, unless it would have been refused for capacity.
   */
  lemma CleanupUnnoticed(c: Config, m: Budgets, at: nat, user: string, cost: nat, now: nat)
    requires |m| <= MAX_ENTRIES && at <= now
    ensures
      var (b, r) := Check(c, m, user, cost, now);
      var (b', r') := Check(c, Retain(m, at, c.budgetWindow * 2), user, cost, now);
      r != CapacityExceeded ==> r' == r && user in b' && user in b && b'[user] == b[user]
  {
    hide Retain, MakeRoom, Entry;
    RoomAfterCleanup(c, m, at, user, now);
  }

  lemma RoomAfterCleanup(c: Config, m: Budgets, at: nat, user: string, now: nat)
    requires |m| <= MAX_ENTRIES && at <= now
    ensures
      var room := MakeRoom(c, m, user, now);
      var room' := MakeRoom(c, Retain(m, at, c.budgetWindow * 2), user, now);
      && (|room| < MAX_ENTRIES || user in room ==> |room'| < MAX_ENTRIES || user in room')
      && Entry(c, room', user, now) == Entry(c, room, user, now)
  {
    hide Retain;
    var m' := Retain(m, at, c.budgetWindow * 2);
    if user in m && user !in m' {
      assert m'.Keys <= m.Keys - {user};
      SubsetSize(m'.Keys, m.Keys - {user});
    }
    if user !in m {
      var room, room' := Retain(m, now, c.budgetWindow), Retain(m', now, c.budgetWindow);
      assert room'.Keys <= room.Keys;
      SubsetSize(room'.Keys, room.Keys);
    }
  }

  // ----- refusals -----

  /** The users whose window is not over. */
  function Current(c: Config, m: Budgets, now: nat): set<string> {
    set u | u in m && (now >= m[u].windowStart ==> now - m[u].windowStart <= c.budgetWindow)
  }

  /** A call is refused for capacity exactly when its user has no entry and 50,000 others are in their window. */
  lemma CapacityRefusalIff(c: Config, m: Budgets, user: string, cost: nat, now: nat)
    ensures Check(c, m, user, cost, now).1 == CapacityExceeded <==> user !in m && |Current(c, m, now)| >= 50_000
  {
    hide Retain, Entry, Add64;
    SubsetSize(Current(c, m, now), m.Keys);
    var kept := Retain(m, now, c.budgetWindow);
    assert kept.Keys == Current(c, m, now);
  }

  /** Calls with a clock that does not go back. */
  predicate Timely(from: nat, ops: seq<Op>)
    decreases |ops|
  {
    ops == [] || (from <= ops[0].at && Timely(ops[0].at, ops[1..]))
  }

  /** Even with sums that wrap, an entry counts no more than its window accepted. */
  ghost predicate CountedAtMost(s: State, u: string, b: UserBudget) {
    b.windowStart <= s.now && forall to :: to >= s.now ==> b.spent <= Total(s.log, u, b.windowStart, to)
  }

  ghost predicate AllCountedAtMost(s: State) {
    forall u :: u in s.budgets ==> CountedAtMost(s, u, s.budgets[u])
  }

  lemma StepCountsAtMost(c: Config, s: State, op: Op)
    requires AllCountedAtMost(s) && s.now <= op.at
    ensures AllCountedAtMost(Do(c, s, op))
  {
    hide Retain, Total;
    if op.Charge? {
      ChargeCountsAtMost(c, s, op.user, op.cost, op.at);
    }
  }

  lemma ChargeCountsAtMost(c: Config, s: State, user: string, cost: nat, at: nat)
    requires AllCountedAtMost(s) && s.now <= at
    ensures AllCountedAtMost(Do(c, s, Charge(user, cost, at)))
  {
    hide Retain, Total;
    var s', e := Do(c, s, Charge(user, cost, at)), Event(user, cost, at);
    forall u | u in s'.budgets
      ensures CountedAtMost(s', u, s'.budgets[u])
    {
      forall to | to >= at
        ensures s'.budgets[u].spent <= Total(s'.log, u, s'.budgets[u].windowStart, to)
      {
        TotalAppend(s.log, e, u, s'.budgets[u].windowStart, to);
        assert u in s.budgets ==> CountedAtMost(s, u, s.budgets[u]);
      }
    }
  }

  lemma {:induction false} RunCountsAtMost(c: Config, s: State, ops: seq<Op>)
    requires AllCountedAtMost(s) && Timely(s.now, ops)
    ensures AllCountedAtMost(After(c, s, ops))
    decreases |ops|
  {
    hide AllCountedAtMost, Check, Retain;
    if ops != [] {
      StepCountsAtMost(c, s, ops[0]);
      RunCountsAtMost(c, Do(c, s, ops[0]), ops[1..]);
    }
  }

  /**
   A charge is refused for its budget only when the last window's accepted charges leave no room
   for it, whatever sums have wrapped.
   */
  lemma RefusalJustified(c: Config, ops: seq<Op>, user: string, cost: nat, at: nat)
    requires Timely(0, ops) && After(c, START, ops).now <= at
    ensures var s := After(c, START, ops);
      Check(c, s.budgets, user, cost, at).1 == OverBudget ==>
        Total(s.log, user, Since(at, c.budgetWindow), at) + cost > c.userCostBudget
  {
    hide Retain, Total, After;
    RunCountsAtMost(c, START, ops);
    var s := After(c, START, ops);
    var b := Entry(c, MakeRoom(c, s.budgets, user, at), user, at);
    TotalMonotone(s.log, user, b.windowStart, Since(at, c.budgetWindow), at);
    assert user in s.budgets ==> CountedAtMost(s, user, s.budgets[user]);
  }

  lemma {:induction false} TotalMonotone(log: seq<Event>, user: string, from: nat, from': nat, to: nat)
    requires from' <= from
    ensures Total(log, user, from, to) <= Total(log, user, from', to)
  {
    if log != [] {
      TotalMonotone(log[..|log| - 1], user, from, from', to);
    }
  }

  /** The bound is reached: a full budget at a window's last instant and another one instant later. */
  lemma BoundIsTight(c: Config)
    requires c.budgetWindow >= 1 && 2 * c.userCostBudget < U64
    ensures var w := c.budgetWindow;
      var ops := [Charge("u", 0, 0), Charge("u", c.userCostBudget, w), Charge("u", c.userCostBudget, w + 1)];
      IsRun(c, START, ops) && Total(After(c, START, ops).log, "u", w, w + w) == 2 * c.userCostBudget
  {
    var w, b := c.budgetWindow, c.userCostBudget;
    var e0, e1, e2 := Event("u", 0, 0), Event("u", b, w), Event("u", b, w + 1);
    var s1 := State(map["u" := UserBudget(0, 0)], [e0], 0);
    var s2 := State(map["u" := UserBudget(b, 0)], [e0, e1], w);
    var s3 := State(map["u" := UserBudget(b, w + 1)], [e0, e1, e2], w + 1);
    assert Do(c, START, Charge("u", 0, 0)) == s1;
    assert Do(c, s1, Charge("u", b, w)) == s2 by {
      assert [e0] + [e1] == [e0, e1];
    }
    assert Do(c, s2, Charge("u", b, w + 1)) == s3 by {
      assert [e0, e1] + [e2] == [e0, e1, e2];
    }
    ThreeSteps(c, START, Charge("u", 0, 0), Charge("u", b, w), Charge("u", b, w + 1));
    TotalAppend([], e0, "u", w, w + w);
    TotalAppend([e0], e1, "u", w, w + w);
    TotalAppend([e0, e1], e2, "u", w, w + w);
    assert [] + [e0] == [e0] && [e0] + [e1] == [e0, e1] && [e0, e1] + [e2] == [e0, e1, e2];
  }

  lemma ThreeSteps(c: Config, s: State, a: Op, b: Op, d: Op)
    ensures var s1 := Do(c, s, a);
      var s2 := Do(c, s1, b);
      (IsRun(c, s, [a, b, d]) <==> Possible(c, s, a) && Possible(c, s1, b) && Possible(c, s2, d))
      && After(c, s, [a, b, d]) == Do(c, s2, d)
  {
    hide Do, Possible;
    assert [a, b, d][1..] == [b, d] && [b, d][1..] == [d] && [d][1..] == [];
    var s1 := Do(c, s, a);
    var s2 := Do(c, s1, b);
    assert After(c, s2, [d]) == After(c, Do(c, s2, d), []) == Do(c, s2, d);
    assert IsRun(c, s2, [d]) <==> Possible(c, s2, d);
  }

  /** A tracked user is let over the budget exactly when the 64-bit sum wraps round. */
  lemma OverspendsIffWraps(c: Config, m: Budgets, user: string, cost: nat, now: nat)
    requires user in m && m[user].spent <= c.userCostBudget < U64 && cost < U64
    ensures var spent := Entry(c, m, user, now).spent;
      Check(c, m, user, cost, now).1 == Accepted && spent + cost > c.userCostBudget <==> spent + cost >= U64
  {
    var spent := Entry(c, m, user, now).spent;
    if spent + cost >= U64 {
      assert (spent + cost) % U64 == spent + cost - U64;
    }
  }

  // ----- when the bound holds ---------------------------------------------------------

  /** Calls with a clock that does not go back and costs up to `most`. */
  predicate Paced(from: nat, ops: seq<Op>, most: nat)
    decreases |ops|
  {
    ops == []
    || (from <= ops[0].at && (ops[0].Charge? ==> ops[0].cost <= most) && Paced(ops[0].at, ops[1..], most))
  }

  lemma {:induction false} PacedIsRun(c: Config, s: State, ops: seq<Op>, most: nat)
    requires Paced(s.now, ops, most) && c.userCostBudget + most < U64
    ensures IsRun(c, s, ops)
    decreases |ops|
  {
    hide Check, Retain;
    if ops != [] {
      PacedIsRun(c, Do(c, s, ops[0]), ops[1..], most);
    }
  }

  ghost predicate BoundHolds(c: Config, ops: seq<Op>, user: string, from: nat) {
    Total(After(c, START, ops).log, user, from, from + c.budgetWindow) <= 2 * c.userCostBudget
  }

  /** One user, tracked since time 0, with what is on the account and what has been accepted. */
  ghost predicate Tracked(c: Config, s: State, spent: nat, total: nat) {
    && s.budgets == map["u" := UserBudget(spent, 0)] && s.now == 0
    && Total(s.log, "u", 0, 0 + c.budgetWindow) == total
  }

  lemma ChargeTracked(c: Config, s: State, spent: nat, total: nat, cost: nat)
    requires Tracked(c, s, spent, total) && (spent + cost) % U64 <= c.userCostBudget
    ensures Tracked(c, Do(c, s, Charge("u", cost, 0)), (spent + cost) % U64, total + cost)
  {
    hide Retain, Total;
    TotalAppend(s.log, Event("u", cost, 0), "u", 0, 0 + c.budgetWindow);
  }

  /** Charges of at most `most` fill the account up to the budget. */
  lemma {:induction false} FillUp(c: Config, s: State, spent: nat, total: nat, most: nat) returns (ops: seq<Op>)
    requires Tracked(c, s, spent, total) && spent <= c.userCostBudget < U64 && most >= 1
    ensures Paced(0, ops, most) && forall i :: 0 <= i < |ops| ==> ops[i].at == 0
    ensures Tracked(c, After(c, s, ops), c.userCostBudget, total + c.userCostBudget - spent)
    decreases c.userCostBudget - spent
  {
    hide Tracked, Check;
    if spent == c.userCostBudget {
      ops := [];
    } else {
      var gap := c.userCostBudget - spent;
      var cost := if gap <= most then gap else most;
      ChargeTracked(c, s, spent, total, cost);
      var rest := FillUp(c, Do(c, s, Charge("u", cost, 0)), spent + cost, total + cost, most);
      ops := [Charge("u", cost, 0)] + rest;
      assert ops[1..] == rest;
    }
  }

  lemma {:induction false} Joined(c: Config, s: State, a: seq<Op>, b: seq<Op>, from: nat, most: nat)
    requires Paced(from, a, most) && (forall i :: 0 <= i < |a| ==> a[i].at == from) && Paced(from, b, most)
    ensures Paced(from, a + b, most) && After(c, s, a + b) == After(c, After(c, s, a), b)
    decreases |a|
  {
    hide Do;
    if a == [] {
      assert a + b == b;
    } else {
      assert (a + b)[1..] == a[1..] + b;
      Joined(c, Do(c, s, a[0]), a[1..], b, from, most);
    }
  }

  /** With a cost whose sum with the budget passes 64 bits, one window accepts a whole 2^64 more than the budget. */
  lemma WrappingBreaksBound(c: Config, most: nat) returns (ops: seq<Op>)
    requires c.userCostBudget < U64 && most < U64 && c.userCostBudget + most >= U64
    ensures Paced(0, ops, most) && !BoundHolds(c, ops, "u", 0)
  {
    hide Tracked, Check, Total, After, Paced;
    var b, start, wrap := c.userCostBudget, [Charge("u", 0, 0)], [Charge("u", most, 0)];
    var s0 := After(c, START, start);
    FirstCharge(c, most);
    var fill := FillUp(c, s0, 0, 0, most);
    var s1 := After(c, s0, fill);
    OneCharge(c, s1, most, most);
    ChargeTracked(c, s1, b, b, most);
    assert (b + most) % U64 == b + most - U64;
    var s2 := After(c, s1, wrap);
    var again := FillUp(c, s2, b + most - U64, b + most, most);
    Joined(c, s1, wrap, again, 0, most);
    Joined(c, s0, fill, wrap + again, 0, most);
    Joined(c, START, start, fill + (wrap + again), 0, most);
    ops := start + (fill + (wrap + again));
    TrackedTotal(c, After(c, START, ops), b, b + most + b - (b + most - U64));
  }

  lemma FirstCharge(c: Config, most: nat)
    ensures Paced(0, [Charge("u", 0, 0)], most) && Tracked(c, After(c, START, [Charge("u", 0, 0)]), 0, 0)
  {
    OneCharge(c, START, 0, most);
    var e := Event("u", 0, 0);
    TotalAppend([], e, "u", 0, 0 + c.budgetWindow);
    assert [] + [e] == [e];
  }

  lemma OneCharge(c: Config, s: State, cost: nat, most: nat)
    requires cost <= most
    ensures Paced(0, [Charge("u", cost, 0)], most) && After(c, s, [Charge("u", cost, 0)]) == Do(c, s, Charge("u", cost, 0))
  {
    hide Do;
    assert [Charge("u", cost, 0)][1..] == [];
    assert After(c, Do(c, s, Charge("u", cost, 0)), []) == Do(c, s, Charge("u", cost, 0));
  }

  lemma TrackedTotal(c: Config, s: State, spent: nat, total: nat)
    requires Tracked(c, s, spent, total)
    ensures Total(s.log, "u", 0, 0 + c.budgetWindow) == total
  {
  }

  /** For costs up to a given one, the bound holds in every run iff that cost and the budget fit 64 bits together. */
  lemma IntervalBoundIff(c: Config, most: nat)
    requires c.userCostBudget < U64 && most < U64
    ensures (forall ops, user, from :: Paced(0, ops, most) ==> BoundHolds(c, ops, user, from))
       <==> c.userCostBudget + most < U64
  {
    hide Paced, BoundHolds;
    if c.userCostBudget + most < U64 {
      forall ops, user, from | Paced(0, ops, most)
        ensures BoundHolds(c, ops, user, from)
      {
        PacedBound(c, ops, most, user, from);
      }
    } else {
      var ops := WrappingBreaksBound(c, most);
    }
  }

  lemma PacedBound(c: Config, ops: seq<Op>, most: nat, user: string, from: nat)
    requires Paced(0, ops, most) && c.userCostBudget + most < U64
    ensures BoundHolds(c, ops, user, from)
  {
    PacedIsRun(c, START, ops, most);
    IntervalBound(c, ops, user, from);
  }
}
