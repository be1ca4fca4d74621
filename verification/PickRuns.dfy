/** libsrc/get_pick.c: PickV from packet to packet, and from the trigger to the decision. */
module PickRuns {
  import opened MovingAverage
  import opened PickMachine
  import opened PickInvariants
  import opened PickHistory
  import Reals

  /** The state after a packet, whatever the state before it. */
  ghost function RunFrom(s: State, ins: seq<Input>, c: Config): (r: State)
    requires StateInv(s, c)
    ensures StateInv(r, c)
  {
    if |ins| == 0 then s
    else
      var r := RunFrom(s, ins[..|ins| - 1], c);
      var i := ins[|ins| - 1];
      SampleInv(r, i.x, i.t, i.mb, c);
      Sample(r, i.x, i.t, i.mb, c).0
  }

  ghost function EventsFrom(s: State, ins: seq<Input>, c: Config): seq<Event>
    requires StateInv(s, c)
  {
    if |ins| == 0 then []
    else
      var r := RunFrom(s, ins[..|ins| - 1], c);
      var i := ins[|ins| - 1];
      SampleInv(r, i.x, i.t, i.mb, c);
      EventsFrom(s, ins[..|ins| - 1], c) + [Sample(r, i.x, i.t, i.mb, c).1]
  }

  /** Packets can be cut anywhere: the run over the whole signal goes through the packet ends. */
  lemma {:induction false} PacketsJoin(a: seq<Input>, b: seq<Input>, c: Config)
    requires c.Valid()
    ensures Run(a + b, c) == RunFrom(Run(a, c), b, c)
    decreases |b|
  {
    hide Sample, StateInv;
    if |b| == 0 {
      assert a + b == a;
    } else {
      PacketsJoin(a, b[..|b| - 1], c);
      assert (a + b)[..|a + b| - 1] == a + b[..|b| - 1];
    }
  }

  /** The events of a packet are those that the whole signal has at the same samples. */
  lemma {:induction false} EventsJoin(a: seq<Input>, b: seq<Input>, k: nat, c: Config)
    requires c.Valid() && k < |b|
    ensures |EventsFrom(Run(a, c), b, c)| == |b|
    ensures EventsFrom(Run(a, c), b, c)[k] == EventOf(a + b[..k], b[k], c)
    decreases |b|
  {
    hide Sample, StateInv;
    var front := b[..|b| - 1];
    EventCount(Run(a, c), b, c);
    EventCount(Run(a, c), front, c);
    if k < |front| {
      EventsJoin(a, front, k, c);
      assert front[..k] == b[..k];
    } else {
      PacketsJoin(a, front, c);
    }
  }

  lemma {:induction false} EventCount(s: State, ins: seq<Input>, c: Config)
    requires StateInv(s, c)
    ensures |EventsFrom(s, ins, c)| == |ins|
    decreases |ins|
  {
    hide Sample, StateInv;
    if |ins| > 0 {
      EventCount(s, ins[..|ins| - 1], c);
    }
  }

  /** Past Phase 3 and not yet decided. */
  ghost predicate Waiting(s: State) {
    s.a.status == 2 && s.p.ph.phase3 && !s.p.cal
  }

  /** How many samples in all are waited for. */
  ghost function WaitLimit(c: Config): int { Reals.Trunc(c.fs * 3.0 + 0.01) }

  lemma WaitStep(s: State, i: Input, c: Config)
    requires StateInv(s, c) && Waiting(s) && i.mb == MbOk
    ensures s.a.ctr < c.L || s.a.cyc > 0
    ensures s.p.ph.phase3 ==> s.p.cyc.mdfCnt > 0
    ensures var (r, e) := Sample(s, i.x, i.t, i.mb, c);
      if s.p.wait + 1 < WaitLimit(c) then e == Quiet && Waiting(r) && r.p.wait == s.p.wait + 1
      else r.a.status == 3 && Decides(e)
  {
    InvReady(s, c);
    hide AvgStep, StateInv, CycleStep, CountMwp;
  }

  lemma {:induction false} WaitRun(s: State, ins: seq<Input>, c: Config)
    requires StateInv(s, c) && Waiting(s) && s.p.wait + |ins| < WaitLimit(c)
    requires forall k :: 0 <= k < |ins| ==> ins[k].mb == MbOk
    ensures var r := RunFrom(s, ins, c); Waiting(r) && r.p.wait == s.p.wait + |ins|
    ensures |EventsFrom(s, ins, c)| == |ins| && forall k :: 0 <= k < |ins| ==> EventsFrom(s, ins, c)[k] == Quiet
    decreases |ins|
  {
    hide Sample, StateInv, Waiting, WaitLimit;
    EventCount(s, ins, c);
    if |ins| > 0 {
      var front := ins[..|ins| - 1];
      WaitRun(s, front, c);
      WaitStep(RunFrom(s, front, c), ins[|ins| - 1], c);
    }
  }

  lemma RunFromNothing(s: State, ins: seq<Input>, c: Config)
    requires StateInv(s, c) && ins == []
    ensures RunFrom(s, ins, c) == s && EventsFrom(s, ins, c) == []
  {}

  predicate Decides(e: Event) { e.Declared? || e.Rejected? }

  // ----- the wait starts at zero

  /** The reset of a failed candidate leaves the wait counter alone, but then nothing has been waited. */
  ghost predicate NothingWaited(s: State) {
    s.a.status <= 2 && !s.p.ph.phase3 ==> s.p.wait == 0
  }

  lemma NothingWaitedStep(s: State, i: Input, c: Config)
    requires StateInv(s, c) && NothingWaited(s)
    ensures s.a.ctr < c.L || s.a.cyc > 0
    ensures s.p.ph.phase3 ==> s.p.cyc.mdfCnt > 0
    ensures var r := Sample(s, i.x, i.t, i.mb, c).0;
      NothingWaited(r) && (s.a.status <= 2 && !s.p.ph.phase3 && r.a.status == 2 ==> r.p.wait == 0)
  {
    InvReady(s, c);
    hide AvgStep, CycleStep, CountMwp, PhaseStep, Triggers, OnsetAfter, SenseOf, StillWaiting, Strength, Threshold;
    hide AvgInv, CycleInv, PhaseInv, OscInv, OnsetInv, Frequency;
  }

  lemma {:induction false} RunWaitedNothing(ins: seq<Input>, c: Config)
    requires c.Valid()
    ensures NothingWaited(Run(ins, c))
  {
    hide Sample, StateInv;
    if |ins| > 0 {
      var i := ins[|ins| - 1];
      RunWaitedNothing(ins[..|ins| - 1], c);
      NothingWaitedStep(Run(ins[..|ins| - 1], c), i, c);
    }
  }

  /** How many samples follow the one that passes Phase 3. */
  ghost function WaitLength(c: Config): (w: nat)
    ensures w >= 1
  {
    if WaitLimit(c) < 1 then 1 else WaitLimit(c)
  }

  /** Phase 3 was still to be passed before sample `i`, and is passed after it. */
  ghost predicate PassesPhase3(pre: seq<Input>, i: Input, c: Config)
    requires c.Valid()
  {
    !Run(pre, c).p.ph.phase3 && Waiting(Run(pre + [i], c))
  }

  /** Over any signal: from the sample `i` that passes Phase 3 on, and while nothing points to a
      calibration, the pick is declared or rejected on the sample that completes three seconds, and not
      before. */
  lemma {:induction false} DecidedAfterPhase3(pre: seq<Input>, i: Input, ins: seq<Input>, c: Config)
    requires c.Valid() && |ins| == WaitLength(c) && forall k :: 0 <= k < |ins| ==> ins[k].mb == MbOk
    ensures PassesPhase3(pre, i, c) ==>
      var events := EventsFrom(Run(pre + [i], c), ins, c); var last := |ins| - 1;
      |events| == |ins| && Decides(events[last]) && forall k :: 0 <= k < last ==> events[k] == Quiet
  {
    var all := pre + [i];
    assert all[..|all| - 1] == pre && all[|all| - 1] == i;
    RunWaitedNothing(pre, c);
    NothingWaitedStep(Run(pre, c), i, c);
    StatusBefore(Run(pre, c), i, c);
    hide Sample, StateInv, WaitLimit, Waiting;
    if PassesPhase3(pre, i, c) {
      var s, front := Run(all, c), ins[..|ins| - 1];
      EventCount(s, ins, c);
      if front == [] {
        RunFromNothing(s, front, c);
      } else {
        WaitRun(s, front, c);
      }
      WaitStep(RunFrom(s, front, c), ins[|ins| - 1], c);
    }
  }

  /** A station that is picked does not pass Phase 3. */
  lemma StatusBefore(s: State, i: Input, c: Config)
    requires StateInv(s, c)
    ensures s.a.ctr < c.L || s.a.cyc > 0
    ensures s.p.ph.phase3 ==> s.p.cyc.mdfCnt > 0
    ensures Sample(s, i.x, i.t, i.mb, c).0.a.status == 2 ==> s.a.status <= 2
  {
    InvReady(s, c);
    hide AvgStep, CycleStep, CountMwp, Phases, Strength, Threshold, StillWaiting;
    hide AvgInv, CycleInv, PhaseInv, OscInv, OnsetInv;
  }

  // ----- from the trigger to the decision

  /** A candidate not under suspicion fails, or is still tested, or has passed Phase 3. */
  lemma TestedFurther(s: State, i: Input, c: Config)
    requires StateInv(s, c) && !s.p.ph.phase3 && !s.p.cal && i.mb == MbOk
    ensures s.a.ctr < c.L || s.a.cyc > 0
    ensures s.p.ph.phase3 ==> s.p.cyc.mdfCnt > 0
    ensures var r := Sample(s, i.x, i.t, i.mb, c).0; r.p.ph.phase1 ==> Undecided(r) || Waiting(r)
  {
    InvReady(s, c);
    SampleInv(s, i.x, i.t, i.mb, c);
    hide AvgStep, CycleStep, CountMwp, PhaseStep, Triggers, OnsetAfter, SenseOf, Frequency;
    hide AvgInv, CycleInv, PhaseInv, OscInv, OnsetInv;
  }

  /** Sample `n` decides, or leaves no candidate. */
  ghost predicate SettledAt(ins: seq<Input>, n: nat, c: Config)
    requires c.Valid()
  {
    n < |ins| && (Decides(EventOf(ins[..n], ins[n], c)) || !Run(ins[..n + 1], c).p.ph.phase1)
  }

  lemma NoCandidate(ins: seq<Input>, c: Config)
    requires c.Valid() && !Run(ins, c).p.ph.phase1
    ensures !Run(ins, c).p.ph.phase3 && !Run(ins, c).p.cal
  {}

  /** The first sample, counted from the trigger, after which the candidate is no longer under test. */
  lemma {:induction false} TestsEnd(ins: seq<Input>, from: nat, c: Config) returns (m: nat)
    requires c.Valid() && from + 15 * c.N <= |ins|
    ensures from < m <= from + 15 * c.N && !Undecided(Run(ins[..m], c))
    ensures forall n :: from < n < m ==> Undecided(Run(ins[..n], c))
  {
    hide Undecided, Run;
    m := from + 1;
    while m < from + 15 * c.N && Undecided(Run(ins[..m], c))
      invariant from < m <= from + 15 * c.N
      invariant forall n :: from < n < m ==> Undecided(Run(ins[..n], c))
    {
      m := m + 1;
    }
    if Undecided(Run(ins[..m], c)) {
      forall n | from < n <= m
        ensures Undecided(Run(ins[..m][..n], c))
      {
        assert ins[..m][..n] == ins[..n];
      }
      DecidedInTime(ins[..m], from, c);
    }
  }

  /** Over any signal that shows no calibration: at most 15 N samples and three seconds after the trigger
      the pick has been declared or rejected, or the candidate reset. */
  lemma {:induction false} TriggerIsSettled(ins: seq<Input>, from: nat, c: Config)
    requires c.Valid() && from + 15 * c.N + WaitLength(c) <= |ins|
    requires !Run(ins[..from], c).p.ph.phase1 && forall n :: from <= n < |ins| ==> ins[n].mb == MbOk
    ensures exists n :: from <= n < from + 15 * c.N + WaitLength(c) && SettledAt(ins, n, c)
  {
    hide Sample, StateInv, WaitLength, Undecided, PassesPhase3, Run, SettledAt, Decides;
    var m := TestsEnd(ins, from, c);
    assert ins[..m] == ins[..m - 1] + [ins[m - 1]];
    TestsEndStep(ins[..m - 1], ins[m - 1], c);
    if PassesPhase3(ins[..m - 1], ins[m - 1], c) {
      SettledByWait(ins, m, c);
      assert SettledAt(ins, m + WaitLength(c) - 1, c);
    } else {
      SettledByReset(ins, m - 1, c);
      assert SettledAt(ins, m - 1, c);
    }
  }

  lemma SettledByReset(ins: seq<Input>, n: nat, c: Config)
    requires c.Valid() && n < |ins| && !Run(ins[..n + 1], c).p.ph.phase1
    ensures SettledAt(ins, n, c)
  {
    hide Run;
  }

  /** The sample that ends the tests leaves no candidate, or one that has passed Phase 3. */
  lemma TestsEndStep(pre: seq<Input>, i: Input, c: Config)
    requires c.Valid() && i.mb == MbOk
    ensures var s, r := Run(pre, c), Run(pre + [i], c);
      (s.p.ph.phase1 ==> Undecided(s)) && r.p.ph.phase1 && !Undecided(r) ==> PassesPhase3(pre, i, c)
  {
    hide Sample, StateInv;
    assert (pre + [i])[..|pre|] == pre;
    var s := Run(pre, c);
    if !s.p.ph.phase1 {
      NoCandidate(pre, c);
    }
    if s.p.ph.phase1 ==> Undecided(s) {
      TestedFurther(s, i, c);
    }
  }

  lemma SettledByWait(ins: seq<Input>, m: nat, c: Config)
    requires c.Valid() && 0 < m && m + WaitLength(c) <= |ins| && forall n :: m <= n < |ins| ==> ins[n].mb == MbOk
    ensures PassesPhase3(ins[..m - 1], ins[m - 1], c) ==> SettledAt(ins, m + WaitLength(c) - 1, c)
  {
    hide *;
    var w := WaitLength(c);
    var b := ins[m..m + w];
    assert ins[..m - 1] + [ins[m - 1]] == ins[..m];
    if PassesPhase3(ins[..m - 1], ins[m - 1], c) {
      DecidedAfterPhase3(ins[..m - 1], ins[m - 1], b, c);
      assert Decides(EventsFrom(Run(ins[..m], c), b, c)[w - 1]);
      EventsJoin(ins[..m], b, w - 1, c);
      assert ins[..m] + b[..w - 1] == ins[..m + w - 1] && b[w - 1] == ins[m + w - 1];
      DecidedSettles(ins, m + w - 1, c);
    }
  }

  lemma DecidedSettles(ins: seq<Input>, n: nat, c: Config)
    requires c.Valid() && n < |ins|
    ensures Decides(EventOf(ins[..n], ins[n], c)) ==> SettledAt(ins, n, c)
  {
    hide Run, EventOf;
  }
}
