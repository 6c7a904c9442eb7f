/**
 What a call for a certificate comes to: a forced one always makes a certificate and makes it
 current, and ends otherwise only when signing fails or it is cancelled; one of `get_svid` that
 ends without either has found a certificate that is not stale.
 */
module RotationCalls {
  import opened Wrappers
  import opened SvidRotation

  // ----- one call without interruption --------------------------------------------------

  /** A forced call with nobody else about. */
  function ForcedCall(t: nat): seq<Step> {
    [CallRotate(t), Acquire(t), TakeSerial(t), SignOk(t), Store(t), Release(t)]
  }

  /** From any state with the lock free it makes one new certificate current, stale or not as the old one is. */
  lemma ForcedCallRotates(c: Config, s: State, t: nat)
    requires t !in s.tasks && s.lock.None?
    ensures
      var made := Rotation(Svid(s.nextSerial, s.clock, s.clock + c.ttlSecs * 1_000_000_000), Force, s.clock);
      var after := Run(c, s, ForcedCall(t));
      && after.Some?
      && after.value.log == s.log + [made] && after.value.issued == s.issued + [Issuance(made, |s.log|)]
      && after.value.current == made.svid && after.value.nextSerial == s.nextSerial + 1
      && after.value.lock.None? && after.value.tasks == s.tasks && after.value.lost == s.lost
      && after.value.clock == s.clock
  {
    hide Run;
    var s2 := Do(c, Do(c, s, CallRotate(t)), Acquire(t));
    var first, last := [CallRotate(t), Acquire(t)], [TakeSerial(t), SignOk(t), Store(t), Release(t)];
    assert ForcedCall(t) == first + last;
    ForcedStart(c, s, t);
    RunJoined(c, s, first, last);
    ForcedRest(c, At(s.(lock := Some(t)), t, Minting(Force, s.clock)), t);
    assert s.tasks[t := Minting(Force, s.clock)] - {t} == s.tasks;
  }

  lemma ForcedStart(c: Config, s: State, t: nat)
    requires t !in s.tasks && s.lock.None?
    ensures Run(c, s, [CallRotate(t), Acquire(t)]) == Some(At(s.(lock := Some(t)), t, Minting(Force, s.clock)))
  {
    var s1 := At(s, t, Waiting(Force));
    assert [CallRotate(t), Acquire(t)][1..] == [Acquire(t)] && [Acquire(t)][1..] == [];
    assert Do(c, s, CallRotate(t)) == s1;
    OneStep(c, s, [CallRotate(t), Acquire(t)]);
    OneStep(c, s1, [Acquire(t)]);
    assert Do(c, s1, Acquire(t)).tasks == s.tasks[t := Minting(Force, s.clock)];
  }

  lemma ForcedRest(c: Config, s: State, t: nat)
    requires t in s.tasks && s.tasks[t] == Minting(Force, s.clock)
    ensures
      var made := Rotation(Svid(s.nextSerial, s.clock, s.clock + c.ttlSecs * 1_000_000_000), Force, s.clock);
      Run(c, s, [TakeSerial(t), SignOk(t), Store(t), Release(t)])
      == Some(State(s.clock, s.nextSerial + 1, made.svid, None, s.tasks - {t}, s.log + [made],
                    s.issued + [Issuance(made, |s.log|)], s.lost))
  {
    var made := Rotation(Svid(s.nextSerial, s.clock, s.clock + c.ttlSecs * 1_000_000_000), Force, s.clock);
    var s1 := At(s.(nextSerial := s.nextSerial + 1), t, Signing(Force, s.clock, s.nextSerial));
    var s2 := At(s1.(issued := s.issued + [Issuance(made, |s.log|)]), t, Signed(Force, s.clock, made.svid));
    var s3 := At(s2.(current := made.svid, log := s.log + [made]), t, Finished);
    var steps := [TakeSerial(t), SignOk(t), Store(t), Release(t)];
    assert steps[1..] == [SignOk(t), Store(t), Release(t)] && steps[1..][1..] == [Store(t), Release(t)];
    assert [Store(t), Release(t)][1..] == [Release(t)] && [Release(t)][1..] == [];
    assert Do(c, s, TakeSerial(t)) == s1 && Do(c, s1, SignOk(t)) == s2 && Do(c, s2, Store(t)) == s3;
    OneStep(c, s, steps);
    OneStep(c, s1, [SignOk(t), Store(t), Release(t)]);
    OneStep(c, s2, [Store(t), Release(t)]);
    OneStep(c, s3, [Release(t)]);
    assert s3.tasks - {t} == s.tasks - {t};
  }

  // ----- how calls end, among any others ------------------------------------------------

  /** Where the call still has its certificate to make current, for one of either kind. */
  predicate Open(s: State, t: nat, kind: Kind) {
    t in s.tasks
    && match s.tasks[t]
       case Reading => kind == Get
       case ReadingRenewal(_) => kind == Get
       case Waiting(k) => kind == k
       case Rechecking => kind == Get
       case RecheckingRenewal => kind == Get
       case Minting(k, _) => kind == k
       case Signing(k, _, _) => kind == k
       case Signed(k, _, _) => kind == k
       case Finished => false
  }

  /** The step makes the call's certificate current. */
  ghost predicate MakesCurrent(c: Config, s: State, step: Step, t: nat, kind: Kind)
    requires Enabled(s, step)
  {
    && step == Store(t)
    && exists r: Rotation :: r.kind == kind && Do(c, s, step).log == s.log + [r] && Do(c, s, step).current == r.svid
  }

  predicate Interrupts(step: Step, t: nat) {
    step == SignFail(t) || step == Cancel(t)
  }

  /** Some certificate that has been current is, by whole seconds, not half way through its life. */
  ghost predicate FreshAt(c: Config, s: State, at: nat) {
    exists i :: 0 <= i < |s.log| && at / 1_000_000_000 < s.log[i].svid.issuedAt / 1_000_000_000 + c.ttlSecs / 2
  }

  /** A call that looks at a certificate before deciding looks at one that has been current. */
  ghost predicate SeenOk(s: State) {
    forall t :: t in s.tasks && s.tasks[t].ReadingRenewal? ==>
      exists i :: 0 <= i < |s.log| && s.log[i].svid == s.tasks[t].seen
  }

  lemma StepKeepsSeen(c: Config, s: State, step: Step)
    requires LogInv(c, s) && SeenOk(s) && Enabled(s, step)
    ensures SeenOk(Do(c, s, step))
  {
    hide LogOk, Issue;
    var s' := Do(c, s, step);
    assert s.log <= s'.log;
    forall t | t in s'.tasks && s'.tasks[t].ReadingRenewal?
      ensures exists i :: 0 <= i < |s'.log| && s'.log[i].svid == s'.tasks[t].seen
    {
      if t in s.tasks && s.tasks[t] == s'.tasks[t] {
        var i :| 0 <= i < |s.log| && s.log[i].svid == s.tasks[t].seen;
        assert s'.log[i] == s.log[i];
      } else {
        CurrentLast(c, s);
        assert s'.log[|s.log| - 1] == s.log[|s.log| - 1];
      }
    }
  }

  lemma CurrentLast(c: Config, s: State)
    requires LogInv(c, s)
    ensures s.log != [] && s.log[|s.log| - 1].svid == s.current
  {
  }

  /** A forced call goes on, makes its certificate current, or is interrupted. */
  lemma ForceStep(c: Config, s: State, step: Step, t: nat)
    requires Open(s, t, Force) && Enabled(s, step)
    ensures Open(Do(c, s, step), t, Force) || MakesCurrent(c, s, step, t, Force) || Interrupts(step, t)
  {
    hide Issue;
    if step == Store(t) {
      var r := Rotation(s.tasks[t].svid, Force, s.tasks[t].decided);
      assert Do(c, s, step).log == s.log + [r];
    }
  }

  /** So does one of `get_svid`, or it ends at the sight of a certificate that is not stale. */
  lemma GetStep(c: Config, s: State, step: Step, t: nat)
    requires LogInv(c, s) && SeenOk(s) && Open(s, t, Get) && Enabled(s, step)
    ensures Open(Do(c, s, step), t, Get) || MakesCurrent(c, s, step, t, Get) || Interrupts(step, t)
            || (step == Look(t) && FreshAt(c, s, s.clock))
  {
    hide Issue, LogInv, LogOk;
    if step == Store(t) {
      var r := Rotation(s.tasks[t].svid, Get, s.tasks[t].decided);
      assert Do(c, s, step).log == s.log + [r];
    }
    if step == Look(t) && !Open(Do(c, s, step), t, Get) {
      CurrentLast(c, s);
      var seen := if s.tasks[t].ReadingRenewal? then s.tasks[t].seen else s.current;
      assert !seen.ShouldRenew(s.clock);
      var i :| 0 <= i < |s.log| && s.log[i].svid == seen;
      NotStale(c, s, i);
    }
  }

  lemma NotStale(c: Config, s: State, i: nat)
    requires LogInv(c, s) && i < |s.log| && !s.log[i].svid.ShouldRenew(s.clock)
    ensures s.clock / 1_000_000_000 < s.log[i].svid.issuedAt / 1_000_000_000 + c.ttlSecs / 2
  {
    hide LogOk;
    var svid := s.log[i].svid;
    LoggedIssue(c, s, i);
    if Stale(svid, s.clock) {
      SecondsAdd(svid.issuedAt, c.ttlSecs);
    }
    StaleIsOld(c, svid, s.clock);
  }

  lemma LoggedIssue(c: Config, s: State, i: nat)
    requires LogInv(c, s) && i < |s.log|
    ensures s.log[i].svid == Issue(c, s.log[i].svid.serial, s.log[i].svid.issuedAt) && s.log[i].svid.issuedAt <= s.clock
  {
    if i < |s.log| - 1 {
      LogOrdered(c, s.log, i, |s.log| - 1);
    }
  }

  /** How a call can end in a run: the step at which it does. */
  ghost predicate Ends(c: Config, s: State, steps: seq<Step>, k: nat, t: nat, kind: Kind)
    requires k < |steps|
  {
    Run(c, s, steps[..k]).Some?
    && var before := Run(c, s, steps[..k]).value;
       && Open(before, t, kind) && Enabled(before, steps[k])
       && (MakesCurrent(c, before, steps[k], t, kind) || Interrupts(steps[k], t)
           || (kind == Get && steps[k] == Look(t) && FreshAt(c, before, before.clock)))
  }

  lemma RunFirst(c: Config, s: State, steps: seq<Step>, k: nat)
    requires 0 < k <= |steps| && Enabled(s, steps[0])
    ensures Run(c, s, steps[..k]) == Run(c, Do(c, s, steps[0]), steps[1..][..k - 1])
  {
    assert steps[..k][1..] == steps[1..][..k - 1];
  }

  /** In every run a call that is over has ended in one of these ways. */
  lemma {:induction false} CallEnds(c: Config, s: State, steps: seq<Step>, t: nat, kind: Kind) returns (k: nat)
    requires Inv(c, s) && SeenOk(s) && Open(s, t, kind)
    requires Run(c, s, steps).Some? && !Open(Run(c, s, steps).value, t, kind)
    ensures k < |steps| && Ends(c, s, steps, k, t, kind)
    decreases |steps|
  {
    hide Inv, Do, Enabled, Open, MakesCurrent, FreshAt, SeenOk, Interrupts;
    var s' := Do(c, s, steps[0]);
    InvLog(c, s);
    StepKeepsInv(c, s, steps[0]);
    StepKeepsSeen(c, s, steps[0]);
    if kind == Get {
      GetStep(c, s, steps[0], t);
    } else {
      ForceStep(c, s, steps[0], t);
    }
    if Open(s', t, kind) {
      var rest := CallEnds(c, s', steps[1..], t, kind);
      k := rest + 1;
      RunFirst(c, s, steps, k);
    } else {
      k := 0;
      assert steps[..0] == [];
    }
  }

  lemma InvLog(c: Config, s: State)
    requires Inv(c, s)
    ensures LogInv(c, s)
  {
  }

  lemma Started(c: Config, now: nat)
    ensures Inv(c, Initial(c, now)) && SeenOk(Initial(c, now))
  {
  }

  lemma {:induction false} RunKeepsSeen(c: Config, s: State, steps: seq<Step>)
    requires Inv(c, s) && SeenOk(s) && Run(c, s, steps).Some?
    ensures SeenOk(Run(c, s, steps).value)
    decreases |steps|
  {
    hide Inv, Do, Enabled, SeenOk;
    if steps != [] {
      InvLog(c, s);
      StepKeepsInv(c, s, steps[0]);
      StepKeepsSeen(c, s, steps[0]);
      RunKeepsSeen(c, Do(c, s, steps[0]), steps[1..]);
    }
  }

  /**
   A forced call begun at any point of any run is over only once its certificate has become
   current, or signing has failed, or it has been cancelled.
   */
  lemma ForcedCallEnds(c: Config, now: nat, before: seq<Step>, t: nat, after: seq<Step>) returns (k: nat)
    requires Run(c, Initial(c, now), before).Some? && t !in Run(c, Initial(c, now), before).value.tasks
    requires var s := Do(c, Run(c, Initial(c, now), before).value, CallRotate(t));
      Run(c, s, after).Some? && t !in Run(c, s, after).value.tasks
    ensures
      var s := Do(c, Run(c, Initial(c, now), before).value, CallRotate(t));
      k < |after| && Ends(c, s, after, k, t, Force)
  {
    hide Run, Inv, SeenOk, Ends;
    var s0 := Run(c, Initial(c, now), before).value;
    Started(c, now);
    RunKeepsInv(c, Initial(c, now), before);
    RunKeepsSeen(c, Initial(c, now), before);
    InvLog(c, s0);
    StepKeepsInv(c, s0, CallRotate(t));
    StepKeepsSeen(c, s0, CallRotate(t));
    k := CallEnds(c, Do(c, s0, CallRotate(t)), after, t, Force);
  }

  /** One of `get_svid`, also when it has seen a certificate less than half way through its life. */
  lemma GetCallEnds(c: Config, now: nat, before: seq<Step>, t: nat, after: seq<Step>) returns (k: nat)
    requires Run(c, Initial(c, now), before).Some? && t !in Run(c, Initial(c, now), before).value.tasks
    requires var s := Do(c, Run(c, Initial(c, now), before).value, CallGet(t));
      Run(c, s, after).Some? && t !in Run(c, s, after).value.tasks
    ensures
      var s := Do(c, Run(c, Initial(c, now), before).value, CallGet(t));
      k < |after| && Ends(c, s, after, k, t, Get)
  {
    hide Run, Inv, SeenOk, Ends;
    var s0 := Run(c, Initial(c, now), before).value;
    Started(c, now);
    RunKeepsInv(c, Initial(c, now), before);
    RunKeepsSeen(c, Initial(c, now), before);
    InvLog(c, s0);
    StepKeepsInv(c, s0, CallGet(t));
    StepKeepsSeen(c, s0, CallGet(t));
    k := CallEnds(c, Do(c, s0, CallGet(t)), after, t, Get);
  }
}
