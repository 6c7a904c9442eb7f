/**
 The circuit breaker: three states, four counters, and what every sequential run of
 calls with a non-decreasing clock keeps.  Times are milliseconds; the recovery
 timeout is a duration in nanoseconds.  Counters are 32 bits wide and wrap.  The
 counters are compared with a history of all calls: failures in a row while closed,
 and calls, admissions and successes of the current half-open episode.
 */
module CircuitBreakers {

  const U32: nat := 0x1_0000_0000
  const NANOS_PER_MILLI: nat := 1_000_000

  datatype Phase = Closed | Open | HalfOpen

  /** A 32-bit number. */
  type u32 = x: int | 0 <= x < 0x1_0000_0000

  datatype Config = Config(failureThreshold: u32, recoveryTimeout: nat, halfOpenMaxRequests: u32) {
    /** A threshold of 0 acts as 1. */
    function Threshold(): nat {
      if failureThreshold == 0 then 1 else failureThreshold
    }
  }

  datatype Breaker = Breaker(phase: Phase, failures: nat, openedAt: nat, requests: nat, successes: nat)

  const NEW := Breaker(Closed, 0, 0, 0, 0)

  datatype Op =
    | Allow(at: nat)
    | Observe(at: nat)
    | Success(at: nat)
    | Failure(at: nat)
    | Reset(at: nat)

  // ----- what one call does -----

  predicate Elapsed(c: Config, since: nat, now: nat) {
    (if now >= since then now - since else 0) * NANOS_PER_MILLI >= c.recoveryTimeout
  }

  function MaybeHalfOpen(c: Config, b: Breaker, now: nat): Breaker {
    if b.phase == Open && Elapsed(c, b.openedAt, now) then b.(phase := HalfOpen, requests := 0, successes := 0) else b
  }

  function OpenAt(b: Breaker, now: nat): Breaker {
    b.(phase := Open, openedAt := now, requests := 0, successes := 0)
  }

  function Close(b: Breaker): Breaker {
    b.(phase := Closed, failures := 0, requests := 0, successes := 0)
  }

  /** The state after a call, and whether it let a request through. Counters are 32-bit. */
  function Do(c: Config, b: Breaker, op: Op): (Breaker, bool) {
    match op
    case Observe(at) => (MaybeHalfOpen(c, b, at), false)
    case Allow(at) => (
      var b' := MaybeHalfOpen(c, b, at);
      match b'.phase
      case Closed => (b', true)
      case Open => (b', false)
      case HalfOpen => (b'.(requests := (b'.requests + 1) % U32), b'.requests < c.halfOpenMaxRequests))
    case Success(_) => (
      match b.phase
      case HalfOpen =>
        (if b.successes + 1 >= c.halfOpenMaxRequests then Close(b) else b.(successes := (b.successes + 1) % U32), false)
      case _ => (b.(failures := 0), false))
    case Failure(at) => (
      match b.phase
      case Closed =>
        var b' := b.(failures := (b.failures + 1) % U32);
        (if b.failures + 1 >= c.failureThreshold then OpenAt(b', at) else b', false)
      case HalfOpen => (OpenAt(b, at), false)
      case Open => (b, false))
    case Reset(_) => (Close(b), false)
  }

  class CircuitBreaker {
    const config: Config
    var state: Phase
    var failureCount: nat
    var openedAt: nat
    var halfOpenRequests: nat
    var halfOpenSuccesses: nat

    ghost function Abs(): Breaker
      reads this
    {
      Breaker(state, failureCount, openedAt, halfOpenRequests, halfOpenSuccesses)
    }

    constructor (config: Config)
      ensures this.config == config && Abs() == NEW
    {
      this.config := config;
      state, failureCount, openedAt, halfOpenRequests, halfOpenSuccesses := Closed, 0, 0, 0, 0;
    }

    method State(now: nat) returns (s: Phase)
      modifies this
      ensures Abs() == Do(config, old(Abs()), Observe(now)).0 && s == state
    {
      MaybeTransitionToHalfOpen(now);
      s := state;
    }

    method AllowRequest(now: nat) returns (ok: bool)
      modifies this
      ensures (Abs(), ok) == Do(config, old(Abs()), Allow(now))
    {
      MaybeTransitionToHalfOpen(now);
      match state
      case Closed => ok := true;
      case Open => ok := false;
      case HalfOpen =>
        var current := halfOpenRequests;
        halfOpenRequests := (halfOpenRequests + 1) % U32;
        ok := current < config.halfOpenMaxRequests;
    }

    method RecordSuccess(now: nat)
      modifies this
      ensures Abs() == Do(config, old(Abs()), Success(now)).0
    {
      match state
      case Closed => failureCount := 0;
      case HalfOpen =>
        var successes := halfOpenSuccesses + 1;
        halfOpenSuccesses := (halfOpenSuccesses + 1) % U32;
        if successes >= config.halfOpenMaxRequests {
          CloseNow();
        }
      case Open => failureCount := 0;
    }

    method RecordFailure(now: nat)
      modifies this
      ensures Abs() == Do(config, old(Abs()), Failure(now)).0
    {
      match state
      case Closed =>
        var failures := failureCount + 1;
        failureCount := (failureCount + 1) % U32;
        if failures >= config.failureThreshold {
          OpenNow(now);
        }
      case HalfOpen => OpenNow(now);
      case Open =>
    }

    method ForceReset(now: nat)
      modifies this
      ensures Abs() == Do(config, old(Abs()), Reset(now)).0
    {
      CloseNow();
    }

    method OpenNow(now: nat)
      modifies this
      ensures Abs() == OpenAt(old(Abs()), now)
    {
      state := Open;
      openedAt := now;
      halfOpenRequests, halfOpenSuccesses := 0, 0;
    }

    method CloseNow()
      modifies this
      ensures Abs() == Close(old(Abs()))
    {
      state := Closed;
      failureCount, halfOpenRequests, halfOpenSuccesses := 0, 0, 0;
    }

    method MaybeTransitionToHalfOpen(now: nat)
      modifies this
      ensures Abs() == MaybeHalfOpen(config, old(Abs()), now)
    {
      if state != Open {
        return;
      }
      var elapsed := if now >= openedAt then now - openedAt else 0;
      if elapsed * NANOS_PER_MILLI >= config.recoveryTimeout {
        state := HalfOpen;
        halfOpenRequests, halfOpenSuccesses := 0, 0;
      }
    }
  }

  // ----- runs and their history -----

  datatype Entry = Entry(op: Op, before: Phase, after: Phase, admitted: bool)

  datatype Run = Run(breaker: Breaker, log: seq<Entry>)

  function Next(c: Config, r: Run, op: Op): Run {
    var (b, admitted) := Do(c, r.breaker, op);
    Run(b, r.log + [Entry(op, r.breaker.phase, b.phase, admitted)])
  }

  function Exec(c: Config, r: Run, ops: seq<Op>): Run
    decreases |ops|
  {
    if ops == [] then r else Exec(c, Next(c, r, ops[0]), ops[1..])
  }

  const START := Run(NEW, [])

  /** Failures recorded while closed since the last success, close or reset, read off the history. */
  function Streak(log: seq<Entry>): nat {
    if log == [] then 0
    else
      var e, rest := log[|log| - 1], log[..|log| - 1];
      if e.op.Reset? || (e.op.Success? && e.before == Closed) || (e.after == Closed && e.before != Closed) then 0
      else Streak(rest) + if e.op.Failure? && e.before == Closed then 1 else 0
  }

  /** What an entry is counted as. */
  datatype Mark = Called | Admitted | Succeeded | Failed

  predicate Bears(e: Entry, mark: Mark) {
    match mark
    case Called => e.op.Allow?
    case Admitted => e.admitted
    case Succeeded => e.op.Success?
    case Failed => e.op.Failure?
  }

  /** How many entries of the current half-open episode bear a mark, the entry that began it included. */
  function InEpisode(log: seq<Entry>, mark: Mark): nat {
    if log == [] || log[|log| - 1].after != HalfOpen then 0
    else
      var e, rest := log[|log| - 1], log[..|log| - 1];
      (if Bears(e, mark) then 1 else 0) + if e.before == HalfOpen then InEpisode(rest, mark) else 0
  }

  /** Of n calls counted modulo 2^32, the first `max` of every round are let through. */
  function LetThrough(n: nat, max: nat): nat {
    if n == 0 then 0 else LetThrough(n - 1, max) + if (n - 1) % U32 < max then 1 else 0
  }

  ghost predicate Inv(c: Config, r: Run) {
    var b := r.breaker;
    && (r.log != [] ==> r.log[|r.log| - 1].after == b.phase)
    && (r.log == [] ==> b.phase == Closed)
    && match b.phase
       case Closed => b.failures == Streak(r.log) < c.Threshold()
       case Open => true
       case HalfOpen =>
         && b.requests == InEpisode(r.log, Called) % U32
         && InEpisode(r.log, Admitted) == LetThrough(InEpisode(r.log, Called), c.halfOpenMaxRequests)
         && b.successes == InEpisode(r.log, Succeeded)
         && (b.successes == 0 || b.successes < c.halfOpenMaxRequests)
         && InEpisode(r.log, Failed) == 0
  }

  lemma EpisodeAppend(log: seq<Entry>, e: Entry, mark: Mark)
    ensures InEpisode(log + [e], mark)
         == if e.after != HalfOpen then 0
            else (if Bears(e, mark) then 1 else 0) + if e.before == HalfOpen then InEpisode(log, mark) else 0
  {
    assert (log + [e])[..|log|] == log;
  }

  lemma StreakAppend(log: seq<Entry>, e: Entry)
    ensures Streak(log + [e])
         == if e.op.Reset? || (e.op.Success? && e.before == Closed) || (e.after == Closed && e.before != Closed) then 0
            else Streak(log) + if e.op.Failure? && e.before == Closed then 1 else 0
  {
    assert (log + [e])[..|log|] == log;
  }

  lemma StepKeepsInv(c: Config, r: Run, op: Op)
    requires Inv(c, r)
    ensures Inv(c, Next(c, r, op))
  {
    hide Inv, Next;
    if op.Allow? {
      AllowKeepsInv(c, r, op);
    } else {
      OtherKeepsInv(c, r, op);
    }
  }

  lemma AllowKeepsInv(c: Config, r: Run, op: Op)
    requires Inv(c, r) && op.Allow?
    ensures Inv(c, Next(c, r, op))
  {
    hide InEpisode, Streak, LetThrough, Elapsed;
    var e := Next(c, r, op).log[|r.log|];
    StreakAppend(r.log, e);
    EpisodeAppend(r.log, e, Called);
    EpisodeAppend(r.log, e, Admitted);
    EpisodeAppend(r.log, e, Succeeded);
    EpisodeAppend(r.log, e, Failed);
    LetThroughNext(if e.before == HalfOpen then InEpisode(r.log, Called) else 0, c.halfOpenMaxRequests);
  }

  lemma OtherKeepsInv(c: Config, r: Run, op: Op)
    requires Inv(c, r) && !op.Allow?
    ensures Inv(c, Next(c, r, op))
  {
    hide InEpisode, Streak, LetThrough, Elapsed;
    var e := Next(c, r, op).log[|r.log|];
    StreakAppend(r.log, e);
    EpisodeAppend(r.log, e, Called);
    EpisodeAppend(r.log, e, Admitted);
    EpisodeAppend(r.log, e, Succeeded);
    EpisodeAppend(r.log, e, Failed);
    LetThroughNext(0, c.halfOpenMaxRequests);
  }

  lemma LetThroughNext(n: nat, max: nat)
    ensures LetThrough(0, max) == 0
    ensures LetThrough(n + 1, max) == LetThrough(n, max) + if n % U32 < max then 1 else 0
  {
  }

  lemma StartInv(c: Config)
    ensures Inv(c, START)
  {
  }

  lemma {:induction false} ExecKeepsInv(c: Config, r: Run, ops: seq<Op>)
    requires Inv(c, r)
    ensures Inv(c, Exec(c, r, ops))
    decreases |ops|
  {
    if ops != [] {
      StepKeepsInv(c, r, ops[0]);
      ExecKeepsInv(c, Next(c, r, ops[0]), ops[1..]);
    }
  }

  // ----- the guarantees -----

  /** Closed: the counter is the number of consecutive failures, and below the threshold. */
  lemma ClosedCountsFailures(c: Config, ops: seq<Op>)
    requires Exec(c, START, ops).breaker.phase == Closed
    ensures var r := Exec(c, START, ops);
      r.breaker.failures == Streak(r.log) < c.Threshold()
  {
    ExecKeepsInv(c, START, ops);
  }

  /** Half open: the calls let through are exactly the first ones, as long as fewer than 2^32 have come. */
  lemma EpisodeAdmissions(c: Config, ops: seq<Op>)
    requires Exec(c, START, ops).breaker.phase == HalfOpen
    ensures var log := Exec(c, START, ops).log;
      var calls := InEpisode(log, Called);
      && (InEpisode(log, Admitted) <= c.halfOpenMaxRequests <==> calls <= U32 || c.halfOpenMaxRequests == 0)
      && (calls <= U32 ==>
            InEpisode(log, Admitted) == if calls <= c.halfOpenMaxRequests then calls else c.halfOpenMaxRequests)
  {
    ExecKeepsInv(c, START, ops);
    LetThroughBound(InEpisode(Exec(c, START, ops).log, Called), c.halfOpenMaxRequests);
  }

  lemma {:induction false} LetThroughBound(n: nat, max: nat)
    requires max < U32
    ensures n <= U32 ==> LetThrough(n, max) == if n <= max then n else max
    ensures n > U32 && max > 0 ==> LetThrough(n, max) > max
    ensures max == 0 ==> LetThrough(n, max) == 0
  {
    if n > 0 {
      LetThroughBound(n - 1, max);
    }
  }

  /** How a half-open episode ends in recovery, read off any entry of the history. */
  ghost predicate ClosesWell(c: Config, log: seq<Entry>, i: nat)
    requires i < |log|
  {
    log[i].before == HalfOpen && log[i].after == Closed && !log[i].op.Reset? ==>
      && log[i].op.Success?
      && InEpisode(log[..i], Succeeded) + 1 == (if c.halfOpenMaxRequests == 0 then 1 else c.halfOpenMaxRequests)
      && InEpisode(log[..i], Failed) == 0
  }

  ghost predicate AllCloseWell(c: Config, log: seq<Entry>) {
    forall i :: 0 <= i < |log| ==> ClosesWell(c, log, i)
  }

  lemma {:induction false} RecoveryKept(c: Config, r: Run, ops: seq<Op>)
    requires Inv(c, r) && AllCloseWell(c, r.log)
    ensures AllCloseWell(c, Exec(c, r, ops).log)
    decreases |ops|
  {
    if ops != [] {
      var r' := Next(c, r, ops[0]);
      StepKeepsInv(c, r, ops[0]);
      forall i | 0 <= i < |r'.log|
        ensures ClosesWell(c, r'.log, i)
      {
        if i < |r.log| {
          assert ClosesWell(c, r.log, i) && r'.log[..i] == r.log[..i];
        } else {
          assert r'.log[..i] == r.log;
        }
      }
      RecoveryKept(c, r', ops[1..]);
    }
  }

  /** Without a reset the circuit closes again only after that many successes and no failure in the episode. */
  lemma RecoveryNeedsSuccesses(c: Config, ops: seq<Op>, i: nat)
    requires i < |Exec(c, START, ops).log|
    ensures ClosesWell(c, Exec(c, START, ops).log, i)
  {
    RecoveryKept(c, START, ops);
  }

  ghost predicate Ordered(from: nat, ops: seq<Op>)
    decreases |ops|
  {
    ops == [] || (from <= ops[0].at && Ordered(ops[0].at, ops[1..]))
  }

  /** Still open since then, or the recovery timeout has passed. */
  ghost predicate HeldBack(c: Config, b: Breaker, since: nat, now: nat) {
    (b.phase == Open && b.openedAt == since) || (since <= now && Elapsed(c, since, now))
  }

  lemma {:induction false} HeldBackThroughout(c: Config, r: Run, ops: seq<Op>, since: nat, now: nat)
    requires HeldBack(c, r.breaker, since, now) && since <= now && Ordered(now, ops)
    requires forall i :: 0 <= i < |ops| ==> !ops[i].Reset?
    ensures var log := Exec(c, r, ops).log;
      |log| == |r.log| + |ops| && r.log <= log
      && forall i :: |r.log| <= i < |log| && log[i].admitted ==> Elapsed(c, since, log[i].op.at)
    decreases |ops|
  {
    if ops != [] {
      var r' := Next(c, r, ops[0]);
      assert r'.log[..|r.log|] == r.log;
      HeldBackThroughout(c, r', ops[1..], since, ops[0].at);
    }
  }

  /**
   After the failure that opens the circuit, no request of any later call is let
   through before the recovery timeout, unless the breaker is reset.
   */
  lemma NothingBeforeTimeout(c: Config, ops: seq<Op>, at: nat, later: seq<Op>)
    requires Ordered(at, later) && forall i :: 0 <= i < |later| ==> !later[i].Reset?
    requires var r := Exec(c, START, ops);
      r.breaker.phase != Open && Next(c, r, Failure(at)).breaker.phase == Open
    ensures var r := Next(c, Exec(c, START, ops), Failure(at));
      var log := Exec(c, r, later).log;
      forall i :: |r.log| <= i < |log| && log[i].admitted ==> Elapsed(c, at, log[i].op.at)
  {
    HeldBackThroughout(c, Next(c, Exec(c, START, ops), Failure(at)), later, at, at);
  }

  /** The failure that opens the circuit is the threshold-th in a row, or any one of a half-open episode. */
  lemma OpensAtThreshold(c: Config, ops: seq<Op>, at: nat)
    requires Exec(c, START, ops).breaker.phase != Open
    ensures var r := Exec(c, START, ops);
      Next(c, r, Failure(at)).breaker.phase == Open
      <==> r.breaker.phase == HalfOpen || Streak(r.log) + 1 == c.Threshold()
  {
    hide Streak, InEpisode, LetThrough, Exec;
    StartInv(c);
    ExecKeepsInv(c, START, ops);
  }

  // ----- exactly when -------------------------------------------------------------------

  /**
   After any run a request is let through exactly when the circuit is closed; or open, with the
   recovery timeout over and a limit that admits one; or half open, with fewer calls in the
   episode than the limit, counted modulo 2^32.
   */
  lemma AdmittedIff(c: Config, ops: seq<Op>, at: nat)
    ensures
      var r := Exec(c, START, ops);
      var elapsed := if at >= r.breaker.openedAt then at - r.breaker.openedAt else 0;
      var after := Next(c, r, Allow(at));
      && |after.log| == |r.log| + 1
      && (after.log[|r.log|].admitted
          <==> match r.breaker.phase
               case Closed => true
               case Open => elapsed * 1_000_000 >= c.recoveryTimeout && c.halfOpenMaxRequests > 0
               case HalfOpen => InEpisode(r.log, Called) % 0x1_0000_0000 < c.halfOpenMaxRequests)
      && (r.breaker.phase == Open ==>
            after.breaker.phase == if elapsed * 1_000_000 >= c.recoveryTimeout then HalfOpen else Open)
      && (r.breaker.phase != Open ==> after.breaker.phase == r.breaker.phase)
  {
    hide Exec, InEpisode, Streak, LetThrough;
    StartInv(c);
    ExecKeepsInv(c, START, ops);
  }

  /** While open, the circuit counts its timeout from the last failure that opened it. */
  function LastOpened(log: seq<Entry>): nat {
    if log == [] then 0
    else
      var e := log[|log| - 1];
      if e.before != Open && e.after == Open then e.op.at else LastOpened(log[..|log| - 1])
  }

  lemma {:induction false} OpenedKept(c: Config, r: Run, ops: seq<Op>)
    requires r.breaker.phase == Open ==> r.breaker.openedAt == LastOpened(r.log)
    ensures var f := Exec(c, r, ops); f.breaker.phase == Open ==> f.breaker.openedAt == LastOpened(f.log)
    decreases |ops|
  {
    hide Elapsed;
    if ops != [] {
      var r' := Next(c, r, ops[0]);
      assert r'.log[..|r.log|] == r.log;
      OpenedKept(c, r', ops[1..]);
    }
  }

  lemma OpenSinceFailure(c: Config, ops: seq<Op>)
    requires Exec(c, START, ops).breaker.phase == Open
    ensures var r := Exec(c, START, ops); r.breaker.openedAt == LastOpened(r.log)
  {
    OpenedKept(c, START, ops);
  }

  /** In a half-open episode a success closes the circuit exactly when it is the last of the required number. */
  lemma ClosesIff(c: Config, ops: seq<Op>, at: nat)
    requires Exec(c, START, ops).breaker.phase == HalfOpen
    ensures
      var r := Exec(c, START, ops);
      Next(c, r, Success(at)).breaker.phase
      == if InEpisode(r.log, Succeeded) + 1 >= c.halfOpenMaxRequests then Closed else HalfOpen
  {
    hide Exec, InEpisode, Streak, LetThrough;
    StartInv(c);
    ExecKeepsInv(c, START, ops);
  }

  /** Looking at the state turns an open circuit half open exactly when the timeout is over, and changes nothing else. */
  lemma ObservedIff(c: Config, b: Breaker, at: nat)
    ensures
      var b' := Do(c, b, Observe(at)).0;
      var over := b.phase == Open && (if at >= b.openedAt then at - b.openedAt else 0) * 1_000_000 >= c.recoveryTimeout;
      b' == if over then b.(phase := HalfOpen, requests := 0, successes := 0) else b
  {
  }

  /** After a reset requests are let through again, and the failures of before do not count. */
  lemma ResetAdmits(c: Config, ops: seq<Op>, at: nat, later: nat)
    ensures
      var r := Next(c, Exec(c, START, ops), Reset(at));
      && r.breaker.phase == Closed && r.breaker.failures == Streak(r.log) == 0
      && Next(c, r, Allow(later)).log[|r.log|].admitted
  {
    hide Exec, InEpisode, LetThrough;
    var r := Exec(c, START, ops);
    StreakAppend(r.log, Next(c, r, Reset(at)).log[|r.log|]);
  }

  // ----- calls whose outcome is never recorded ------------------------------------------

  predicate Unrecorded(ops: seq<Op>) {
    forall i :: 0 <= i < |ops| ==> ops[i].Allow? || ops[i].Observe?
  }

  function AllowsIn(ops: seq<Op>): nat {
    if ops == [] then 0 else (if ops[0].Allow? then 1 else 0) + AllowsIn(ops[1..])
  }

  /** The i-th of some calls passes, in an episode of n calls before them. */
  predicate Passes(c: Config, n: nat, ops: seq<Op>, i: nat)
    requires i < |ops|
  {
    ops[i].Allow? && (n + AllowsIn(ops[..i])) % U32 < c.halfOpenMaxRequests
  }

  lemma CountWraps(n: nat)
    ensures (n % U32 + 1) % U32 == (n + 1) % U32
  {
  }

  lemma NextUnrecorded(c: Config, r: Run, op: Op, n: nat)
    requires r.breaker.phase == HalfOpen && (op.Allow? || op.Observe?) && r.breaker.requests == n % U32
    ensures var r' := Next(c, r, op);
      && r'.breaker.phase == HalfOpen && r'.breaker.requests == (if op.Allow? then n + 1 else n) % U32
      && |r'.log| == |r.log| + 1 && r.log <= r'.log
      && (r'.log[|r.log|].admitted <==> op.Allow? && n % U32 < c.halfOpenMaxRequests)
  {
    CountWraps(n);
  }

  lemma PassesLater(c: Config, n: nat, ops: seq<Op>, i: nat)
    requires 0 < i < |ops|
    ensures Passes(c, n, ops, i) <==> Passes(c, if ops[0].Allow? then n + 1 else n, ops[1..], i - 1)
  {
    assert ops[1..][..i - 1] == ops[..i][1..] && ops[1..][i - 1] == ops[i];
  }

  lemma PassesFirst(c: Config, n: nat, ops: seq<Op>)
    requires ops != []
    ensures Passes(c, n, ops, 0) <==> ops[0].Allow? && n % U32 < c.halfOpenMaxRequests
  {
    assert ops[..0] == [];
  }

  /** Which calls are let through while nothing is recorded; the circuit stays half open, however long that lasts. */
  lemma {:induction false} UnrecordedEpisode(c: Config, r: Run, ops: seq<Op>, n: nat)
    requires r.breaker.phase == HalfOpen && Unrecorded(ops) && r.breaker.requests == n % U32
    ensures
      var f := Exec(c, r, ops);
      && f.breaker.phase == HalfOpen && |f.log| == |r.log| + |ops| && r.log <= f.log
      && forall i :: |r.log| <= i < |f.log| ==> (f.log[i].admitted <==> Passes(c, n, ops, i - |r.log|))
    decreases |ops|
  {
    hide Passes, Next;
    if ops != [] {
      var r', n' := Next(c, r, ops[0]), if ops[0].Allow? then n + 1 else n;
      NextUnrecorded(c, r, ops[0], n);
      UnrecordedEpisode(c, r', ops[1..], n');
      var f := Exec(c, r, ops);
      assert f == Exec(c, r', ops[1..]);
      assert r'.log[|r.log|] == f.log[|r.log|];
      PassesFirst(c, n, ops);
      forall i | |r.log| <= i < |f.log|
        ensures f.log[i].admitted <==> Passes(c, n, ops, i - |r.log|)
      {
        if i > |r.log| {
          PassesLater(c, n, ops, i - |r.log|);
        }
      }
    }
  }

  /**
   Once an episode has let through its limit, no later call passes, at any time, until one is
   recorded or the breaker is reset; only the 2^32-th call of the episode lets the count start again.
   */
  lemma UnrecordedRefuses(c: Config, ops: seq<Op>, later: seq<Op>)
    requires Exec(c, START, ops).breaker.phase == HalfOpen && Unrecorded(later)
    requires InEpisode(Exec(c, START, ops).log, Called) >= c.halfOpenMaxRequests
    requires InEpisode(Exec(c, START, ops).log, Called) + AllowsIn(later) <= U32
    ensures
      var r := Exec(c, START, ops);
      var f := Exec(c, r, later);
      && f.breaker.phase == HalfOpen && |f.log| == |r.log| + |later|
      && forall i :: |r.log| <= i < |f.log| ==> !f.log[i].admitted
  {
    hide Exec, InEpisode, Streak, LetThrough;
    StartInv(c);
    ExecKeepsInv(c, START, ops);
    var r := Exec(c, START, ops);
    var n := InEpisode(r.log, Called);
    UnrecordedEpisode(c, r, later, n);
    forall i | 0 <= i < |later|
      ensures !Passes(c, n, later, i)
    {
      if later[i].Allow? {
        AllowsBefore(later, i);
      }
    }
  }

  lemma {:induction false} AllowsBefore(ops: seq<Op>, i: nat)
    requires i < |ops| && ops[i].Allow?
    ensures AllowsIn(ops[..i]) < AllowsIn(ops)
  {
    if i > 0 {
      assert ops[..i][1..] == ops[1..][..i - 1];
      AllowsBefore(ops[1..], i - 1);
    }
  }
}
