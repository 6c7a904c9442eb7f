/**
 Certificate rotation behind a double-checked lock, as the steps of any number of
 tasks interleaved with a clock.  A task can also be cancelled wherever it waits, and
 the certificate authority can be asked for certificates by others at any time.
 */
module SvidRotation {
  import opened Wrappers

  const NANOS: nat := 1_000_000_000

  /** Times are in nanoseconds; the configured lifetime is in seconds. */
  datatype Config = Config(ttlSecs: nat)

  datatype Svid = Svid(serial: nat, issuedAt: nat, expiresAt: nat) {
    predicate IsValid(now: nat) {
      now < expiresAt
    }

    /** Past half of its lifetime, in whole seconds; subtraction saturates. */
    predicate ShouldRenew(now: nat) {
      var lifetime := Minus(expiresAt / NANOS, issuedAt / NANOS);
      var elapsed := Minus(now / NANOS, issuedAt / NANOS);
      elapsed >= lifetime / 2
    }
  }

  function Minus(a: nat, b: nat): nat {
    if a >= b then a - b else 0
  }

  /** Asked for by `get_svid`, or forced by `rotate`. */
  datatype Kind = Get | Force

  /** Where a task stands. */
  datatype Pc =
    | Reading                                      // fast path, expiry not yet looked at
    | ReadingRenewal(seen: Svid)                   // fast path, renewal not yet looked at
    | Waiting(kind: Kind)                          // for the rotation lock
    | Rechecking                                   // lock held, expiry not yet looked at
    | RecheckingRenewal                            // lock held, renewal not yet looked at
    | Minting(kind: Kind, decided: nat)            // lock held, decided to rotate
    | Signing(kind: Kind, decided: nat, serial: nat)
    | Signed(kind: Kind, decided: nat, svid: Svid)
    | Finished                                     // stored, lock still held

  /** A certificate, on whose request it was issued, and when that was decided. */
  datatype Rotation = Rotation(svid: Svid, kind: Kind, decided: nat)

  /** A rotation whose certificate has been signed, and how many certificates had become current by then. */
  datatype Issuance = Issuance(rotation: Rotation, behind: nat)

  datatype State = State(
    clock: nat,
    nextSerial: nat,
    current: Svid,
    lock: Option<nat>,
    tasks: map<nat, Pc>,
    log: seq<Rotation>,          // those whose certificate became current
    issued: seq<Issuance>,       // those whose certificate was signed
    lost: set<nat>)              // serials of the signed ones that a cancelled task did not store

  datatype Step =
    | Tick(dt: nat)
    | CallGet(t: nat)
    | CallRotate(t: nat)
    | IssueElsewhere
    | Look(t: nat)          // one look at the current certificate: expiry, then renewal
    | Acquire(t: nat)
    | TakeSerial(t: nat)
    | SignOk(t: nat)
    | SignFail(t: nat)
    | Store(t: nat)
    | Release(t: nat)
    | Cancel(t: nat)

  function Issue(c: Config, serial: nat, now: nat): Svid {
    Svid(serial, now, now + c.ttlSecs * NANOS)
  }

  /** The provider is created with one certificate, serial 1. */
  function Initial(c: Config, now: nat): State {
    var svid := Issue(c, 1, now);
    State(now, 2, svid, None, map[], [Rotation(svid, Force, now)], [], {})
  }

  predicate InSection(pc: Pc) {
    !pc.Reading? && !pc.ReadingRenewal? && !pc.Waiting?
  }

  /** A task that leaves gives back the lock if it has it. */
  function Leave(s: State, t: nat): State
    requires t in s.tasks
  {
    s.(tasks := s.tasks - {t}, lock := if InSection(s.tasks[t]) then None else s.lock)
  }

  function At(s: State, t: nat, pc: Pc): State {
    s.(tasks := s.tasks[t := pc])
  }

  predicate Enabled(s: State, step: Step) {
    match step
    case Tick(_) => true
    case IssueElsewhere => true
    case CallGet(t) => t !in s.tasks
    case CallRotate(t) => t !in s.tasks
    case Look(t) =>
      t in s.tasks
      && (s.tasks[t].Reading? || s.tasks[t].ReadingRenewal? || s.tasks[t].Rechecking? || s.tasks[t].RecheckingRenewal?)
    case Acquire(t) => t in s.tasks && s.tasks[t].Waiting? && s.lock.None?
    case TakeSerial(t) => t in s.tasks && s.tasks[t].Minting?
    case SignOk(t) => t in s.tasks && s.tasks[t].Signing?
    case SignFail(t) => t in s.tasks && s.tasks[t].Signing?
    case Store(t) => t in s.tasks && s.tasks[t].Signed?
    case Release(t) => t in s.tasks && s.tasks[t].Finished?
    case Cancel(t) => t in s.tasks
  }

  function Do(c: Config, s: State, step: Step): State
    requires Enabled(s, step)
  {
    match step
    case Tick(dt) => s.(clock := s.clock + dt)
    case IssueElsewhere => s.(nextSerial := s.nextSerial + 1)
    case CallGet(t) => At(s, t, Reading)
    case CallRotate(t) => At(s, t, Waiting(Force))
    case Look(t) => (
      match s.tasks[t]
      case Reading => At(s, t, if s.current.IsValid(s.clock) then ReadingRenewal(s.current) else Waiting(Get))
      case ReadingRenewal(seen) => if seen.ShouldRenew(s.clock) then At(s, t, Waiting(Get)) else Leave(s, t)
      case Rechecking => At(s, t, if s.current.IsValid(s.clock) then RecheckingRenewal else Minting(Get, s.clock))
      case _ => if s.current.ShouldRenew(s.clock) then At(s, t, Minting(Get, s.clock)) else Leave(s, t))
    case Acquire(t) =>
      At(s.(lock := Some(t)), t, if s.tasks[t].kind == Get then Rechecking else Minting(Force, s.clock))
    case TakeSerial(t) =>
      At(s.(nextSerial := s.nextSerial + 1), t, Signing(s.tasks[t].kind, s.tasks[t].decided, s.nextSerial))
    case SignOk(t) =>
      var pc := s.tasks[t];
      var svid := Issue(c, pc.serial, s.clock);
      At(s.(issued := s.issued + [Issuance(Rotation(svid, pc.kind, pc.decided), |s.log|)]), t,
         Signed(pc.kind, pc.decided, svid))
    case SignFail(t) => Leave(s, t)
    case Store(t) =>
      var pc := s.tasks[t];
      At(s.(current := pc.svid, log := s.log + [Rotation(pc.svid, pc.kind, pc.decided)]), t, Finished)
    case Release(t) => Leave(s, t)
    case Cancel(t) =>
      var lost := if s.tasks[t].Signed? then {s.tasks[t].svid.serial} else {};
      Leave(s.(lost := s.lost + lost), t)
  }

  // ----- what every step keeps -----

  /** The reason for a `get_svid` rotation. */
  predicate Stale(svid: Svid, at: nat) {
    !svid.IsValid(at) || svid.ShouldRenew(at)
  }

  /** The decision was taken while the current certificate was current, and for `get_svid` because it was stale. */
  ghost predicate DecisionOk(s: State, kind: Kind, decided: nat) {
    s.current.issuedAt <= decided <= s.clock && (kind == Get ==> Stale(s.current, decided))
  }

  /** Nothing has been signed since. */
  ghost predicate LatestDecision(s: State, decided: nat) {
    forall i :: 0 <= i < |s.issued| ==> s.issued[i].rotation.svid.issuedAt <= decided
  }

  /** What the lock holder knows of the current certificate, which nobody else can replace. */
  ghost predicate HolderOk(c: Config, s: State, pc: Pc) {
    match pc
    case Minting(kind, decided) => DecisionOk(s, kind, decided) && LatestDecision(s, decided)
    case Signing(kind, decided, serial) =>
      DecisionOk(s, kind, decided) && LatestDecision(s, decided) && s.current.serial < serial < s.nextSerial
    case Signed(kind, decided, svid) =>
      DecisionOk(s, kind, decided) && decided <= svid.issuedAt <= s.clock
      && s.current.serial < svid.serial < s.nextSerial && svid == Issue(c, svid.serial, svid.issuedAt)
    case _ => true
  }

  /** Each certificate follows its predecessor: later serial, not earlier, and no sooner than `get_svid` may. */
  ghost predicate Follows(c: Config, prev: Rotation, next: Rotation) {
    && prev.svid.serial < next.svid.serial
    && prev.svid.issuedAt <= next.decided <= next.svid.issuedAt
    && (next.kind == Get ==> Stale(prev.svid, next.decided))
  }

  ghost predicate LogOk(c: Config, log: seq<Rotation>) {
    && log != []
    && (forall i :: 0 <= i < |log| ==> log[i].svid == Issue(c, log[i].svid.serial, log[i].svid.issuedAt))
    && (forall i, j :: 0 <= i && j == i + 1 && j < |log| ==> Follows(c, log[i], log[j]))
  }

  ghost predicate LogInv(c: Config, s: State) {
    && LogOk(c, s.log) && s.current == s.log[|s.log| - 1].svid
    && s.current.serial < s.nextSerial && s.current.issuedAt <= s.clock
  }

  ghost predicate LockInv(s: State) {
    && (forall t :: t in s.tasks ==> (InSection(s.tasks[t]) <==> s.lock == Some(t)))
    && (s.lock.Some? ==> s.lock.value in s.tasks)
  }

  ghost predicate HolderInv(c: Config, s: State) {
    forall t :: t in s.tasks ==> HolderOk(c, s, s.tasks[t])
  }

  /** A signed certificate became current, was lost, or is in the hands of the lock holder. */
  ghost predicate Accounted(s: State, r: Rotation) {
    || r.svid.serial in s.lost
    || r in s.log
    || (s.lock.Some? && s.lock.value in s.tasks && s.tasks[s.lock.value] == Signed(r.kind, r.decided, r.svid))
  }

  /** When a certificate was signed, those signed before were current or lost, and it was decided on after them. */
  ghost predicate After(s: State, e: Issuance, earlier: Issuance) {
    && earlier.rotation.svid.issuedAt <= e.rotation.decided
    && (earlier.rotation.svid.serial in s.lost || (e.behind <= |s.log| && earlier.rotation in s.log[..e.behind]))
  }

  /** For `get_svid` the certificate current when it was decided was stale. */
  ghost predicate IssuedOk(s: State, e: Issuance) {
    && 1 <= e.behind <= |s.log|
    && e.rotation.svid.issuedAt <= s.clock
    && s.log[e.behind - 1].svid.issuedAt <= e.rotation.decided
    && (e.rotation.kind == Get ==> Stale(s.log[e.behind - 1].svid, e.rotation.decided))
  }

  ghost predicate IssuedInv(s: State) {
    && (forall i :: 0 <= i < |s.issued| ==> IssuedOk(s, s.issued[i]) && Accounted(s, s.issued[i].rotation))
    && (forall i, j :: 0 <= i < j < |s.issued| ==> After(s, s.issued[j], s.issued[i]))
  }

  ghost predicate Inv(c: Config, s: State) {
    LogInv(c, s) && LockInv(s) && HolderInv(c, s) && IssuedInv(s)
  }

  // ----- one lemma for each kind of step -----

  /** The steps at which nothing is signed, stored or lost. */
  predicate Quiet(s: State, step: Step) {
    && !step.Store? && !step.SignOk?
    && (step.Cancel? && step.t in s.tasks ==> !s.tasks[step.t].Signed?)
  }

  lemma LockKept(c: Config, s: State, step: Step)
    requires LockInv(s) && Enabled(s, step)
    ensures LockInv(Do(c, s, step))
  {
    hide Issue;
  }

  lemma QuietKeepsLog(c: Config, s: State, step: Step)
    requires LogInv(c, s) && Enabled(s, step) && Quiet(s, step)
    ensures LogInv(c, Do(c, s, step))
    ensures var s' := Do(c, s, step);
      s'.log == s.log && s'.current == s.current && s'.issued == s.issued && s'.lost == s.lost
      && s'.clock >= s.clock && s'.nextSerial >= s.nextSerial
  {
    hide LogOk, Issue;
  }

  /** What a holder knows stays true while nothing is signed or stored. */
  lemma HolderStays(c: Config, s: State, s': State, pc: Pc)
    requires HolderOk(c, s, pc)
    requires s'.current == s.current && s'.issued == s.issued && s'.clock >= s.clock && s'.nextSerial >= s.nextSerial
    ensures HolderOk(c, s', pc)
  {
    hide Stale, Issue;
  }

  lemma QuietKeepsHolders(c: Config, s: State, step: Step)
    requires LogInv(c, s) && HolderInv(c, s) && IssuedInv(s) && Enabled(s, step) && Quiet(s, step)
    ensures HolderInv(c, Do(c, s, step))
  {
    hide LogOk, Issue, HolderOk, Accounted, After, Quiet;
    var s' := Do(c, s, step);
    QuietKeepsLog(c, s, step);
    forall t | t in s'.tasks
      ensures HolderOk(c, s', s'.tasks[t])
    {
      if t in s.tasks && s'.tasks[t] == s.tasks[t] {
        HolderStays(c, s, s', s.tasks[t]);
      } else {
        NewPlaceOk(c, s, step, t);
      }
    }
  }

  /** The place a quiet step puts a task in. */
  lemma NewPlaceOk(c: Config, s: State, step: Step, t: nat)
    requires LogInv(c, s) && HolderInv(c, s) && IssuedInv(s) && Enabled(s, step) && Quiet(s, step)
    requires t in Do(c, s, step).tasks && !(t in s.tasks && Do(c, s, step).tasks[t] == s.tasks[t])
    ensures HolderOk(c, Do(c, s, step), Do(c, s, step).tasks[t])
  {
    hide LogOk, Issue, Accounted, After;
    assert t in s.tasks ==> HolderOk(c, s, s.tasks[t]);
    assert forall i :: 0 <= i < |s.issued| ==> IssuedOk(s, s.issued[i]);
  }

  lemma QuietKeepsIssued(c: Config, s: State, step: Step)
    requires Inv(c, s) && Enabled(s, step) && Quiet(s, step)
    ensures IssuedInv(Do(c, s, step))
  {
    hide LogOk, Issue, HolderOk, Stale, Quiet;
    var s' := Do(c, s, step);
    QuietKeepsLog(c, s, step);
    forall i | 0 <= i < |s.issued|
      ensures IssuedOk(s', s.issued[i]) && Accounted(s', s.issued[i].rotation)
    {
      assert IssuedOk(s, s.issued[i]);
      AccountedStays(c, s, step, s.issued[i].rotation);
    }
    forall i, j | 0 <= i < j < |s.issued|
      ensures After(s', s.issued[j], s.issued[i])
    {
      assert After(s, s.issued[j], s.issued[i]);
    }
  }

  lemma AccountedStays(c: Config, s: State, step: Step, r: Rotation)
    requires LockInv(s) && Enabled(s, step) && Quiet(s, step) && Accounted(s, r)
    ensures Accounted(Do(c, s, step), r)
  {
    hide Issue;
  }

  lemma SignKeepsInv(c: Config, s: State, t: nat)
    requires Inv(c, s) && Enabled(s, SignOk(t))
    ensures Inv(c, Do(c, s, SignOk(t)))
  {
    hide Stale;
    var s' := Do(c, s, SignOk(t));
    LockKept(c, s, SignOk(t));
    assert HolderOk(c, s, s.tasks[t]) && s.lock == Some(t);
    var pc := s.tasks[t];
    var e := Issuance(Rotation(Issue(c, pc.serial, s.clock), pc.kind, pc.decided), |s.log|);
    assert s'.issued == s.issued + [e];
    assert s'.tasks[t] == Signed(pc.kind, pc.decided, e.rotation.svid);
    forall u | u in s'.tasks
      ensures HolderOk(c, s', s'.tasks[u])
    {
      if u != t {
        assert HolderOk(c, s, s.tasks[u]) && !InSection(s.tasks[u]);
      }
    }
    assert IssuedOk(s', e) && Accounted(s', e.rotation);
    forall i | 0 <= i < |s.issued|
      ensures IssuedOk(s', s.issued[i]) && Accounted(s', s.issued[i].rotation) && After(s', e, s.issued[i])
    {
      assert IssuedOk(s, s.issued[i]) && Accounted(s, s.issued[i].rotation);
      assert s'.log[..e.behind] == s.log;
    }
    forall i, j | 0 <= i < j < |s.issued|
      ensures After(s', s.issued[j], s.issued[i])
    {
      assert After(s, s.issued[j], s.issued[i]);
    }
  }

  lemma StoreKeepsInv(c: Config, s: State, t: nat)
    requires Inv(c, s) && Enabled(s, Store(t))
    ensures Inv(c, Do(c, s, Store(t)))
  {
    hide Stale;
    var s' := Do(c, s, Store(t));
    LockKept(c, s, Store(t));
    assert HolderOk(c, s, s.tasks[t]) && s.lock == Some(t);
    StoreKeepsLog(c, s, t);
    forall u | u in s'.tasks
      ensures HolderOk(c, s', s'.tasks[u])
    {
      if u != t {
        assert !InSection(s.tasks[u]);
      }
    }
    forall i | 0 <= i < |s.issued|
      ensures IssuedOk(s', s.issued[i]) && Accounted(s', s.issued[i].rotation)
    {
      assert IssuedOk(s, s.issued[i]) && Accounted(s, s.issued[i].rotation);
      assert s'.log[|s.log|] == Rotation(s.tasks[t].svid, s.tasks[t].kind, s.tasks[t].decided);
    }
    LogGrowsKeepsOrder(s, s');
  }

  lemma StoreKeepsLog(c: Config, s: State, t: nat)
    requires LogInv(c, s) && HolderInv(c, s) && Enabled(s, Store(t))
    ensures LogInv(c, Do(c, s, Store(t)))
  {
    hide Stale;
    assert HolderOk(c, s, s.tasks[t]);
  }

  lemma LogGrowsKeepsOrder(s: State, s': State)
    requires s'.issued == s.issued && s.lost <= s'.lost && s.log <= s'.log
    requires forall i, j :: 0 <= i < j < |s.issued| ==> After(s, s.issued[j], s.issued[i])
    ensures forall i, j :: 0 <= i < j < |s'.issued| ==> After(s', s'.issued[j], s'.issued[i])
  {
    forall i, j | 0 <= i < j < |s.issued|
      ensures After(s', s.issued[j], s.issued[i])
    {
      assert After(s, s.issued[j], s.issued[i]);
      if s.issued[j].behind <= |s.log| {
        assert s'.log[..s.issued[j].behind] == s.log[..s.issued[j].behind];
      }
    }
  }

  /** A task cancelled with a signed certificate loses it. */
  lemma LoseKeepsInv(c: Config, s: State, t: nat)
    requires Inv(c, s) && Enabled(s, Cancel(t)) && s.tasks[t].Signed?
    ensures Inv(c, Do(c, s, Cancel(t)))
  {
    hide LogOk, Stale, Issue;
    var s' := Do(c, s, Cancel(t));
    LockKept(c, s, Cancel(t));
    assert s.lock == Some(t);
    forall u | u in s'.tasks
      ensures HolderOk(c, s', s'.tasks[u])
    {
      HolderStays(c, s, s', s.tasks[u]);
    }
    forall i | 0 <= i < |s.issued|
      ensures IssuedOk(s', s.issued[i]) && Accounted(s', s.issued[i].rotation)
    {
      assert IssuedOk(s, s.issued[i]) && Accounted(s, s.issued[i].rotation);
    }
    LogGrowsKeepsOrder(s, s');
  }

  lemma StepKeepsInv(c: Config, s: State, step: Step)
    requires Inv(c, s) && Enabled(s, step)
    ensures Inv(c, Do(c, s, step))
  {
    hide Do, LogInv, LockInv, HolderInv, IssuedInv;
    if Quiet(s, step) {
      LockKept(c, s, step);
      QuietKeepsLog(c, s, step);
      QuietKeepsHolders(c, s, step);
      QuietKeepsIssued(c, s, step);
    } else if step.SignOk? {
      SignKeepsInv(c, s, step.t);
    } else if step.Store? {
      StoreKeepsInv(c, s, step.t);
    } else {
      LoseKeepsInv(c, s, step.t);
    }
  }

  /** The state after a run, if each of its steps was possible. */
  function Run(c: Config, s: State, steps: seq<Step>): Option<State>
    decreases |steps|
  {
    if steps == [] then Some(s)
    else if !Enabled(s, steps[0]) then None
    else Run(c, Do(c, s, steps[0]), steps[1..])
  }

  lemma {:induction false} RunKeepsInv(c: Config, s: State, steps: seq<Step>)
    requires Inv(c, s)
    ensures Run(c, s, steps).Some? ==> Inv(c, Run(c, s, steps).value)
    decreases |steps|
  {
    if steps != [] && Enabled(s, steps[0]) {
      StepKeepsInv(c, s, steps[0]);
      RunKeepsInv(c, Do(c, s, steps[0]), steps[1..]);
    }
  }

  // ----- the guarantees, over every run -----

  /** Half of the lifetime, in whole seconds: the least distance between `get_svid` rotations. */
  function HalfLife(c: Config): nat {
    c.ttlSecs / 2
  }

  /** A certificate is stale no sooner than half its lifetime after its issue. */
  lemma StaleIsOld(c: Config, svid: Svid, at: nat)
    requires svid == Issue(c, svid.serial, svid.issuedAt) && svid.issuedAt <= at
    ensures Stale(svid, at) <==> at / NANOS >= svid.issuedAt / NANOS + HalfLife(c)
  {
    SecondsAdd(svid.issuedAt, c.ttlSecs);
    assert svid.expiresAt / NANOS == svid.issuedAt / NANOS + c.ttlSecs;
    if at >= svid.expiresAt {
      assert at / NANOS >= svid.expiresAt / NANOS;
    }
  }

  lemma SecondsAdd(t: nat, secs: nat)
    ensures (t + secs * NANOS) / NANOS == t / NANOS + secs
  {
  }

  lemma {:induction false} LogOrdered(c: Config, log: seq<Rotation>, i: nat, j: nat)
    requires LogOk(c, log) && i < j < |log|
    ensures log[i].svid.serial < log[j].svid.serial
    ensures log[i].svid.issuedAt <= log[j].decided <= log[j].svid.issuedAt
    ensures log[j].kind == Get ==> log[j].decided / NANOS >= log[i].svid.issuedAt / NANOS + HalfLife(c)
    decreases j
  {
    var k := j - 1;
    assert Follows(c, log[k], log[j]);
    if i < k {
      LogOrdered(c, log, i, k);
    }
    StaleIsOld(c, log[k].svid, log[j].decided);
  }

  /**
   In every run, whatever the interleaving: serials of stored certificates strictly
   increase, and a certificate stored by `get_svid` was decided on at least half a
   lifetime after the issue of every earlier one.
   */
  lemma RotationSpacing(c: Config, now: nat, steps: seq<Step>, i: nat, j: nat)
    requires Run(c, Initial(c, now), steps).Some?
    requires i < j < |Run(c, Initial(c, now), steps).value.log|
    ensures var log := Run(c, Initial(c, now), steps).value.log;
      && log[i].svid.serial < log[j].svid.serial
      && (log[j].kind == Get ==>
            log[j].svid.issuedAt / NANOS >= log[j].decided / NANOS >= log[i].svid.issuedAt / NANOS + HalfLife(c))
  {
    RunKeepsInv(c, Initial(c, now), steps);
    LogOrdered(c, Run(c, Initial(c, now), steps).value.log, i, j);
  }

  function GetsIn(log: seq<Rotation>, from: nat): nat
    requires from <= |log|
    decreases |log| - from
  {
    if from == |log| then 0 else (if log[from].kind == Get then 1 else 0) + GetsIn(log, from + 1)
  }

  lemma {:induction false} GetsSpread(c: Config, log: seq<Rotation>, from: nat)
    requires LogOk(c, log) && from < |log|
    ensures log[from].svid.issuedAt / NANOS + HalfLife(c) * GetsIn(log, from + 1) <= log[|log| - 1].svid.issuedAt / NANOS
    decreases |log| - from
  {
    hide LogOk, HalfLife;
    if from + 1 < |log| {
      GetsSpread(c, log, from + 1);
      LogOrdered(c, log, from, from + 1);
      var next := log[from + 1];
      Seconds(log[from].svid.issuedAt, next.decided, next.svid.issuedAt);
      OneMoreGet(HalfLife(c), GetsIn(log, from + 2));
    }
  }

  lemma Seconds(a: nat, b: nat, d: nat)
    requires a <= b <= d
    ensures a / NANOS <= b / NANOS <= d / NANOS
  {
  }

  lemma OneMoreGet(half: nat, n: nat)
    ensures half * (1 + n) == half + half * n && half * (0 + n) == half * n
  {
  }

  /** So in any run `get_svid` rotates at most once per half-life, however many tasks call it. */
  lemma RotationRate(c: Config, now: nat, steps: seq<Step>)
    requires Run(c, Initial(c, now), steps).Some?
    ensures var s := Run(c, Initial(c, now), steps).value;
      HalfLife(c) * GetsIn(s.log, 0) <= s.clock / NANOS - now / NANOS
  {
    RunKeepsInv(c, Initial(c, now), steps);
    LogStarts(c, Initial(c, now), steps);
    var s := Run(c, Initial(c, now), steps).value;
    GetsSpread(c, s.log, 0);
    assert s.current.issuedAt / NANOS <= s.clock / NANOS;
  }

  lemma {:induction false} LogStarts(c: Config, s: State, steps: seq<Step>)
    requires s.log != [] && Run(c, s, steps).Some?
    ensures s.log <= Run(c, s, steps).value.log
    decreases |steps|
  {
    if steps != [] {
      LogStarts(c, Do(c, s, steps[0]), steps[1..]);
    }
  }

  /** The rotation lock excludes: at most one task is between acquiring and releasing it. */
  lemma OneRotationAtATime(c: Config, now: nat, steps: seq<Step>, t: nat, u: nat)
    requires Run(c, Initial(c, now), steps).Some?
    requires var s := Run(c, Initial(c, now), steps).value;
      t in s.tasks && u in s.tasks && InSection(s.tasks[t]) && InSection(s.tasks[u])
    ensures t == u
  {
    RunKeepsInv(c, Initial(c, now), steps);
  }

  // ----- certificates that were signed but not stored ---------------------------------

  /** A signed certificate is half a lifetime away from an earlier one. */
  predicate Apart(c: Config, earlier: Issuance, later: Issuance) {
    later.rotation.decided / NANOS >= earlier.rotation.svid.issuedAt / NANOS + HalfLife(c)
  }

  /**
   In every run a certificate signed for `get_svid` was decided on at least half a lifetime after
   the issue of every one that was current by then, and of every one signed earlier that a
   cancelled task did not lose.
   */
  lemma IssuanceSpacing(c: Config, now: nat, steps: seq<Step>, j: nat)
    requires Run(c, Initial(c, now), steps).Some?
    requires j < |Run(c, Initial(c, now), steps).value.issued|
    requires Run(c, Initial(c, now), steps).value.issued[j].rotation.kind == Get
    ensures
      var s := Run(c, Initial(c, now), steps).value;
      var e := s.issued[j];
      && e.behind <= |s.log|
      && (forall k :: 0 <= k < e.behind ==>
            e.rotation.decided / NANOS >= s.log[k].svid.issuedAt / NANOS + HalfLife(c))
      && forall i :: 0 <= i < j && s.issued[i].rotation.svid.serial !in s.lost ==> Apart(c, s.issued[i], e)
  {
    hide LockInv, HolderInv, Accounted, LogOk;
    RunKeepsInv(c, Initial(c, now), steps);
    var s := Run(c, Initial(c, now), steps).value;
    var e := s.issued[j];
    assert IssuedOk(s, e);
    forall k | 0 <= k < e.behind
      ensures e.rotation.decided / NANOS >= s.log[k].svid.issuedAt / NANOS + HalfLife(c)
    {
      BehindIsOld(c, s, e, k);
    }
    forall i | 0 <= i < j && s.issued[i].rotation.svid.serial !in s.lost
      ensures Apart(c, s.issued[i], e)
    {
      assert After(s, e, s.issued[i]);
      var k :| 0 <= k < e.behind && s.log[..e.behind][k] == s.issued[i].rotation;
    }
  }

  lemma BehindIsOld(c: Config, s: State, e: Issuance, k: nat)
    requires LogInv(c, s) && IssuedOk(s, e) && e.rotation.kind == Get && k < e.behind
    ensures e.rotation.decided / NANOS >= s.log[k].svid.issuedAt / NANOS + HalfLife(c)
  {
    var last := e.behind - 1;
    StaleIsOld(c, s.log[last].svid, e.rotation.decided);
    if k < last {
      LogOrdered(c, s.log, k, last);
      assert s.log[k].svid.issuedAt / NANOS <= s.log[last].svid.issuedAt / NANOS;
    }
  }

  /** Some run of `get_svid` calls signs two certificates closer than that. */
  ghost predicate CloserIn(c: Config, steps: seq<Step>) {
    && Run(c, Initial(c, 0), steps).Some?
    && var issued := Run(c, Initial(c, 0), steps).value.issued;
       exists i, j :: 0 <= i < j < |issued| && issued[j].rotation.kind == Get && !Apart(c, issued[i], issued[j])
  }

  /** The steps of a call that finds the certificate expired, up to its signature. */
  function CallAndSign(t: nat): seq<Step> {
    [CallGet(t), Look(t), Acquire(t), Look(t), TakeSerial(t), SignOk(t)]
  }

  lemma CallSigns(c: Config, s: State, t: nat)
    requires t !in s.tasks && s.lock.None? && !s.current.IsValid(s.clock)
    ensures
      var r := Rotation(Issue(c, s.nextSerial, s.clock), Get, s.clock);
      Run(c, s, CallAndSign(t)) == Some(State(s.clock, s.nextSerial + 1, s.current, Some(t),
        s.tasks[t := Signed(Get, s.clock, r.svid)], s.log, s.issued + [Issuance(r, |s.log|)], s.lost))
  {
    hide Issue, Run, Do, Enabled;
    assert CallAndSign(t) == [CallGet(t), Look(t), Acquire(t)] + [Look(t), TakeSerial(t), SignOk(t)];
    CallWaits(c, s, t);
    RunJoined(c, s, [CallGet(t), Look(t), Acquire(t)], [Look(t), TakeSerial(t), SignOk(t)]);
    RecheckSigns(c, At(s.(lock := Some(t)), t, Rechecking), t);
    assert s.tasks[t := Rechecking][t := Signed(Get, s.clock, Issue(c, s.nextSerial, s.clock))]
        == s.tasks[t := Signed(Get, s.clock, Issue(c, s.nextSerial, s.clock))];
  }

  lemma CallWaits(c: Config, s: State, t: nat)
    requires t !in s.tasks && s.lock.None? && !s.current.IsValid(s.clock)
    ensures Run(c, s, [CallGet(t), Look(t), Acquire(t)]) == Some(At(s.(lock := Some(t)), t, Rechecking))
  {
    var s1 := At(s, t, Reading);
    var s2 := At(s1, t, Waiting(Get));
    assert [CallGet(t), Look(t), Acquire(t)][1..] == [Look(t), Acquire(t)] && [Look(t), Acquire(t)][1..] == [Acquire(t)];
    assert Do(c, s, CallGet(t)) == s1 && Do(c, s1, Look(t)) == s2;
    OneStep(c, s, [CallGet(t), Look(t), Acquire(t)]);
    OneStep(c, s1, [Look(t), Acquire(t)]);
    OneStep(c, s2, [Acquire(t)]);
    assert Do(c, s2, Acquire(t)).tasks == s.tasks[t := Rechecking];
    assert [Acquire(t)][1..] == [];
  }

  lemma RecheckSigns(c: Config, s: State, t: nat)
    requires t in s.tasks && s.tasks[t] == Rechecking && !s.current.IsValid(s.clock)
    ensures
      var r := Rotation(Issue(c, s.nextSerial, s.clock), Get, s.clock);
      Run(c, s, [Look(t), TakeSerial(t), SignOk(t)])
      == Some(At(s.(nextSerial := s.nextSerial + 1, issued := s.issued + [Issuance(r, |s.log|)]), t,
                 Signed(Get, s.clock, r.svid)))
  {
    hide Issue;
    var s1 := At(s, t, Minting(Get, s.clock));
    var s2 := At(s1.(nextSerial := s.nextSerial + 1), t, Signing(Get, s.clock, s.nextSerial));
    assert [Look(t), TakeSerial(t), SignOk(t)][1..] == [TakeSerial(t), SignOk(t)];
    assert [TakeSerial(t), SignOk(t)][1..] == [SignOk(t)] && [SignOk(t)][1..] == [];
    assert Do(c, s, Look(t)) == s1 && Do(c, s1, TakeSerial(t)) == s2;
    OneStep(c, s, [Look(t), TakeSerial(t), SignOk(t)]);
    OneStep(c, s1, [TakeSerial(t), SignOk(t)]);
    OneStep(c, s2, [SignOk(t)]);
    var svid := Issue(c, s.nextSerial, s.clock);
    assert s2.tasks[t := Signed(Get, s.clock, svid)] == s.tasks[t := Signed(Get, s.clock, svid)];
  }

  lemma OneStep(c: Config, s: State, steps: seq<Step>)
    requires steps != [] && Enabled(s, steps[0])
    ensures Run(c, s, steps) == Run(c, Do(c, s, steps[0]), steps[1..])
  {
  }

  lemma {:induction false} RunJoined(c: Config, s: State, a: seq<Step>, b: seq<Step>)
    requires Run(c, s, a).Some?
    ensures Run(c, s, a + b) == Run(c, Run(c, s, a).value, b)
    decreases |a|
  {
    hide Do, Enabled;
    if a == [] {
      assert a + b == b;
    } else {
      assert (a + b)[1..] == a[1..] + b && (a + b)[0] == a[0];
      RunJoined(c, Do(c, s, a[0]), a[1..], b);
    }
  }

  /** A call cancelled between signing and storing, and another call at the same instant. */
  lemma CancelledCallRepeats(c: Config)
    ensures
      var steps := [Tick(c.ttlSecs * NANOS)] + (CallAndSign(1) + ([Cancel(1)] + CallAndSign(2)));
      var at := c.ttlSecs * NANOS;
      && Run(c, Initial(c, 0), steps).Some?
      && Run(c, Initial(c, 0), steps).value.issued
         == [Issuance(Rotation(Issue(c, 2, at), Get, at), 1), Issuance(Rotation(Issue(c, 3, at), Get, at), 1)]
  {
    hide Do, Enabled, Issue, Run;
    var at := c.ttlSecs * NANOS;
    var s0 := Initial(c, 0);
    FirstIssued(c);
    var s1 := s0.(clock := at);
    Ticked(c, s0, at);
    RunJoined(c, s0, [Tick(at)], CallAndSign(1) + ([Cancel(1)] + CallAndSign(2)));
    CallSigns(c, s1, 1);
    var s2 := Run(c, s1, CallAndSign(1)).value;
    RunJoined(c, s1, CallAndSign(1), [Cancel(1)] + CallAndSign(2));
    var s3 := s2.(tasks := s2.tasks - {1}, lock := None, lost := s2.lost + {2});
    IssueSerial(c, 2, at);
    Cancelled(c, s2, 1, 2);
    RunJoined(c, s2, [Cancel(1)], CallAndSign(2));
    CallSigns(c, s3, 2);
  }

  lemma IssueSerial(c: Config, serial: nat, now: nat)
    ensures Issue(c, serial, now).serial == serial
  {
  }

  lemma FirstIssued(c: Config)
    ensures var s := Initial(c, 0);
      s.tasks == map[] && s.lock == None && s.clock == 0 && s.current.expiresAt == c.ttlSecs * NANOS
      && s.nextSerial == 2 && |s.log| == 1 && s.issued == [] && s.lost == {}
  {
  }

  lemma Ticked(c: Config, s: State, dt: nat)
    ensures Run(c, s, [Tick(dt)]) == Some(s.(clock := s.clock + dt))
  {
    assert [Tick(dt)][1..] == [];
  }

  lemma Cancelled(c: Config, s: State, t: nat, serial: nat)
    requires t in s.tasks && s.tasks[t].Signed? && s.tasks[t].svid.serial == serial
    ensures Run(c, s, [Cancel(t)]) == Some(s.(tasks := s.tasks - {t}, lock := None, lost := s.lost + {serial}))
  {
    assert [Cancel(t)][1..] == [];
  }

  /** Cancelled calls can bring two signatures closer than half a lifetime exactly when that is not zero seconds. */
  lemma CloserIff(c: Config)
    ensures (exists steps :: CloserIn(c, steps)) <==> HalfLife(c) > 0
  {
    hide Run, LockInv, HolderInv, LogInv;
    if HalfLife(c) > 0 {
      CancelledCallRepeats(c);
      var steps := [Tick(c.ttlSecs * NANOS)] + (CallAndSign(1) + ([Cancel(1)] + CallAndSign(2)));
      var issued := Run(c, Initial(c, 0), steps).value.issued;
      assert !Apart(c, issued[0], issued[1]);
      assert CloserIn(c, steps);
    } else {
      forall steps
        ensures !CloserIn(c, steps)
      {
        RunKeepsInv(c, Initial(c, 0), steps);
        if Run(c, Initial(c, 0), steps).Some? {
          var s := Run(c, Initial(c, 0), steps).value;
          forall i, j | 0 <= i < j < |s.issued|
            ensures Apart(c, s.issued[i], s.issued[j])
          {
            assert After(s, s.issued[j], s.issued[i]);
          }
        }
      }
    }
  }

  /** No step cancels a task that holds a signed certificate. */
  ghost predicate NoneLost(c: Config, s: State, steps: seq<Step>)
    decreases |steps|
  {
    steps == [] || !Enabled(s, steps[0])
    || (!(steps[0].Cancel? && s.tasks[steps[0].t].Signed?) && NoneLost(c, Do(c, s, steps[0]), steps[1..]))
  }

  lemma {:induction false} LostIff(c: Config, s: State, steps: seq<Step>)
    requires Run(c, s, steps).Some? && s.lost == {}
    ensures Run(c, s, steps).value.lost == {} <==> NoneLost(c, s, steps)
    decreases |steps|
  {
    if steps != [] {
      var s' := Do(c, s, steps[0]);
      if s'.lost == {} {
        LostIff(c, s', steps[1..]);
      } else {
        LostStays(c, s', steps[1..]);
      }
    }
  }

  lemma {:induction false} LostStays(c: Config, s: State, steps: seq<Step>)
    requires Run(c, s, steps).Some?
    ensures s.lost <= Run(c, s, steps).value.lost
    decreases |steps|
  {
    if steps != [] {
      LostStays(c, Do(c, s, steps[0]), steps[1..]);
    }
  }

  /** So without such a cancellation all that is signed for `get_svid` is half a lifetime after all signed before. */
  lemma NoneLostSpacing(c: Config, now: nat, steps: seq<Step>, i: nat, j: nat)
    requires Run(c, Initial(c, now), steps).Some? && NoneLost(c, Initial(c, now), steps)
    requires i < j < |Run(c, Initial(c, now), steps).value.issued|
    requires Run(c, Initial(c, now), steps).value.issued[j].rotation.kind == Get
    ensures var issued := Run(c, Initial(c, now), steps).value.issued; Apart(c, issued[i], issued[j])
  {
    hide Run, NoneLost, Apart, Do, Enabled;
    LostIff(c, Initial(c, now), steps);
    IssuanceSpacing(c, now, steps, j);
  }

  // ----- after a loss -------------------------------------------------------------------

  /** When a caller decided to rotate, if it has. */
  function DecidedBy(pc: Pc): Option<nat> {
    match pc
    case Minting(_, decided) => Some(decided)
    case Signing(_, decided, _) => Some(decided)
    case Signed(_, decided, _) => Some(decided)
    case _ => None
  }

  /** What was signed since some state was decided on since, and so is what is about to be. */
  ghost predicate Since(from: State, s: State) {
    && from.log <= s.log && from.issued <= s.issued && from.clock <= s.clock
    && (forall j :: |from.issued| <= j < |s.issued| ==>
          s.issued[j].rotation.decided >= from.clock && s.issued[j].behind >= |from.log|)
    && forall t :: t in s.tasks && DecidedBy(s.tasks[t]).Some? ==> DecidedBy(s.tasks[t]).value >= from.clock
  }

  lemma StepKeepsSince(c: Config, from: State, s: State, step: Step)
    requires Since(from, s) && Enabled(s, step)
    ensures Since(from, Do(c, s, step))
  {
    hide Issue;
  }

  lemma {:induction false} RunKeepsSince(c: Config, from: State, s: State, steps: seq<Step>)
    requires Since(from, s) && Run(c, s, steps).Some?
    ensures Since(from, Run(c, s, steps).value)
    decreases |steps|
  {
    hide Since, Do, Enabled;
    if steps != [] {
      StepKeepsSince(c, from, s, steps[0]);
      RunKeepsSince(c, from, Do(c, s, steps[0]), steps[1..]);
    }
  }

  /** Going on from a state, `get_svid` signs a certificate closer than half a lifetime after a given one. */
  ghost predicate CloserAfter(c: Config, s: State, lost: Svid, steps: seq<Step>) {
    && Run(c, s, steps).Some?
    && var issued := Run(c, s, steps).value.issued;
       exists j :: |s.issued| <= j < |issued| && issued[j].rotation.kind == Get
         && issued[j].rotation.decided / NANOS < lost.issuedAt / NANOS + HalfLife(c)
  }

  lemma OnlyIfEarly(c: Config, s: State, lost: Svid, steps: seq<Step>)
    requires Inv(c, s) && s.lock.None? && CloserAfter(c, s, lost, steps)
    ensures s.clock / NANOS < lost.issuedAt / NANOS + HalfLife(c)
    ensures s.current.issuedAt / NANOS < lost.issuedAt / NANOS
  {
    hide Run, HolderInv, LogOk, Accounted, After;
    var f := Run(c, s, steps).value;
    assert Since(s, s);
    RunKeepsInv(c, s, steps);
    RunKeepsSince(c, s, s, steps);
    var j :| |s.issued| <= j < |f.issued| && f.issued[j].rotation.kind == Get
      && f.issued[j].rotation.decided / NANOS < lost.issuedAt / NANOS + HalfLife(c);
    assert IssuedOk(f, f.issued[j]);
    LogStarted(c, s);
    BehindIsOld(c, f, f.issued[j], |s.log| - 1);
    assert f.log[|s.log| - 1] == s.log[|s.log| - 1];
    assert s.clock / NANOS <= f.issued[j].rotation.decided / NANOS;
  }

  lemma LogStarted(c: Config, s: State)
    requires LogInv(c, s)
    ensures s.log != [] && s.current == s.log[|s.log| - 1].svid
  {
  }

  /** A call that finds the certificate due for renewal, up to its signature. */
  function RenewAndSign(t: nat): seq<Step> {
    [CallGet(t), Look(t), Look(t), Acquire(t)] + [Look(t), Look(t), TakeSerial(t), SignOk(t)]
  }

  lemma RenewWaits(c: Config, s: State, t: nat)
    requires t !in s.tasks && s.lock.None? && s.current.IsValid(s.clock) && s.current.ShouldRenew(s.clock)
    ensures Run(c, s, [CallGet(t), Look(t), Look(t), Acquire(t)]) == Some(At(s.(lock := Some(t)), t, Rechecking))
  {
    var s1 := At(s, t, Reading);
    var s2 := At(s1, t, ReadingRenewal(s.current));
    var s3 := At(s2, t, Waiting(Get));
    var steps := [CallGet(t), Look(t), Look(t), Acquire(t)];
    assert steps[1..] == [Look(t), Look(t), Acquire(t)] && steps[1..][1..] == [Look(t), Acquire(t)];
    assert [Look(t), Acquire(t)][1..] == [Acquire(t)] && [Acquire(t)][1..] == [];
    assert Do(c, s, CallGet(t)) == s1 && Do(c, s1, Look(t)) == s2 && Do(c, s2, Look(t)) == s3;
    OneStep(c, s, steps);
    OneStep(c, s1, [Look(t), Look(t), Acquire(t)]);
    OneStep(c, s2, [Look(t), Acquire(t)]);
    OneStep(c, s3, [Acquire(t)]);
    assert Do(c, s3, Acquire(t)).tasks == s.tasks[t := Rechecking];
  }

  lemma RenewSigns(c: Config, s: State, t: nat)
    requires t in s.tasks && s.tasks[t] == Rechecking && s.current.IsValid(s.clock) && s.current.ShouldRenew(s.clock)
    ensures
      var r := Rotation(Issue(c, s.nextSerial, s.clock), Get, s.clock);
      var after := Run(c, s, [Look(t), Look(t), TakeSerial(t), SignOk(t)]);
      after.Some? && after.value.issued == s.issued + [Issuance(r, |s.log|)]
  {
    hide Issue;
    var s1 := At(s, t, RecheckingRenewal);
    var s2 := At(s1, t, Minting(Get, s.clock));
    var s3 := At(s2.(nextSerial := s.nextSerial + 1), t, Signing(Get, s.clock, s.nextSerial));
    var steps := [Look(t), Look(t), TakeSerial(t), SignOk(t)];
    assert steps[1..] == [Look(t), TakeSerial(t), SignOk(t)] && steps[1..][1..] == [TakeSerial(t), SignOk(t)];
    assert [TakeSerial(t), SignOk(t)][1..] == [SignOk(t)] && [SignOk(t)][1..] == [];
    assert Do(c, s, Look(t)) == s1 && Do(c, s1, Look(t)) == s2 && Do(c, s2, TakeSerial(t)) == s3;
    OneStep(c, s, steps);
    OneStep(c, s1, [Look(t), TakeSerial(t), SignOk(t)]);
    OneStep(c, s2, [TakeSerial(t), SignOk(t)]);
    OneStep(c, s3, [SignOk(t)]);
  }

  /** A call on a stale certificate signs a new one at once. */
  lemma StaleCallSigns(c: Config, s: State, t: nat) returns (steps: seq<Step>)
    requires t !in s.tasks && s.lock.None? && Stale(s.current, s.clock)
    ensures Run(c, s, steps).Some?
    ensures Run(c, s, steps).value.issued
         == s.issued + [Issuance(Rotation(Issue(c, s.nextSerial, s.clock), Get, s.clock), |s.log|)]
  {
    hide Run, Issue;
    if s.current.IsValid(s.clock) {
      RenewWaits(c, s, t);
      var s1 := At(s.(lock := Some(t)), t, Rechecking);
      RenewSigns(c, s1, t);
      RunJoined(c, s, [CallGet(t), Look(t), Look(t), Acquire(t)], [Look(t), Look(t), TakeSerial(t), SignOk(t)]);
      steps := RenewAndSign(t);
    } else {
      CallSigns(c, s, t);
      steps := CallAndSign(t);
    }
  }

  lemma IfEarly(c: Config, s: State, lost: Svid, t: nat) returns (steps: seq<Step>)
    requires Inv(c, s) && s.lock.None? && t !in s.tasks
    requires s.clock / NANOS < lost.issuedAt / NANOS + HalfLife(c)
    requires s.current.issuedAt / NANOS < lost.issuedAt / NANOS
    ensures CloserAfter(c, s, lost, steps)
  {
    hide Run, Stale, LogOk, HolderInv, IssuedInv;
    var due := (s.current.issuedAt / NANOS + HalfLife(c)) * NANOS;
    var wait := if Stale(s.current, s.clock) then 0 else due - s.clock;
    CurrentIssued(c, s);
    StaleIsOld(c, s.current, s.clock);
    DueLater(s.clock, s.current.issuedAt / NANOS + HalfLife(c));
    var s1 := s.(clock := s.clock + wait);
    StaleIsOld(c, s.current, s1.clock);
    Ticked(c, s, wait);
    var more := StaleCallSigns(c, s1, t);
    RunJoined(c, s, [Tick(wait)], more);
    steps := [Tick(wait)] + more;
    assert Run(c, s, steps).value.issued[|s.issued|].rotation.decided == s1.clock;
  }

  lemma CurrentIssued(c: Config, s: State)
    requires LogInv(c, s)
    ensures s.current == Issue(c, s.current.serial, s.current.issuedAt) && s.current.issuedAt <= s.clock
  {
  }

  lemma DueLater(now: nat, secs: nat)
    ensures now / NANOS < secs ==> now < secs * NANOS
    ensures secs * NANOS / NANOS == secs
  {
  }

  /**
   A call cancelled with its certificate signed can be followed by a closer signature exactly when
   half a lifetime has not passed since that certificate's issue, and the current certificate is
   older than it, in whole seconds; for one signed for `get_svid` it always is.
   */
  lemma LossContinuesIff(c: Config, s: State, t: nat)
    requires Inv(c, s) && t in s.tasks && s.tasks[t].Signed?
    ensures
      var lost := s.tasks[t].svid;
      var early := s.clock / NANOS < lost.issuedAt / NANOS + HalfLife(c);
      && ((exists steps :: CloserAfter(c, Do(c, s, Cancel(t)), lost, steps))
          <==> early && s.current.issuedAt / NANOS < lost.issuedAt / NANOS)
      && (s.tasks[t].kind == Get && early ==> s.current.issuedAt / NANOS < lost.issuedAt / NANOS)
  {
    hide CloserAfter, HolderInv, IssuedInv, LogInv, LogOk, Stale;
    var lost, s' := s.tasks[t].svid, Do(c, s, Cancel(t));
    StepKeepsInv(c, s, Cancel(t));
    assert s'.lock.None? && t !in s'.tasks && s'.current == s.current && s'.clock == s.clock;
    if s.clock / NANOS < lost.issuedAt / NANOS + HalfLife(c) && s.current.issuedAt / NANOS < lost.issuedAt / NANOS {
      var steps := IfEarly(c, s', lost, t);
    }
    forall steps | CloserAfter(c, s', lost, steps)
      ensures s.clock / NANOS < lost.issuedAt / NANOS + HalfLife(c)
      ensures s.current.issuedAt / NANOS < lost.issuedAt / NANOS
    {
      OnlyIfEarly(c, s', lost, steps);
    }
    if s.tasks[t].kind == Get && s.clock / NANOS < lost.issuedAt / NANOS + HalfLife(c) {
      SignedLater(c, s, t);
    }
  }

  lemma SignedLater(c: Config, s: State, t: nat)
    requires Inv(c, s) && t in s.tasks && s.tasks[t].Signed? && s.tasks[t].kind == Get
    requires s.clock / NANOS < s.tasks[t].svid.issuedAt / NANOS + HalfLife(c)
    ensures s.current.issuedAt / NANOS < s.tasks[t].svid.issuedAt / NANOS
  {
    hide LogOk, IssuedInv;
    assert HolderOk(c, s, s.tasks[t]);
    CurrentIssued(c, s);
    StaleIsOld(c, s.current, s.tasks[t].decided);
    assert s.tasks[t].decided / NANOS <= s.tasks[t].svid.issuedAt / NANOS <= s.clock / NANOS;
  }
}
