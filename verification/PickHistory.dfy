/** Whole runs of the picker: a trigger is decided in time, and every pick is witnessed by the samples
    since its trigger. */
module PickHistory {
  import opened MovingAverage
  import opened PickMachine
  import opened PickInvariants

  datatype Input = Input(x: int, t: real, mb: MbOutcome)

  /** The state after a signal, from a cleared station. */
  ghost function Run(ins: seq<Input>, c: Config): (s: State)
    requires c.Valid()
    ensures StateInv(s, c)
    ensures (s.a.ctr < c.L || s.a.cyc > 0) && (s.p.ph.phase3 ==> s.p.cyc.mdfCnt >= 6)
  {
    if |ins| == 0 then
      InvReady(INITIAL, c);
      INITIAL
    else
      var s := Run(ins[..|ins| - 1], c);
      var i := ins[|ins| - 1];
      SampleInv(s, i.x, i.t, i.mb, c);
      InvReady(Sample(s, i.x, i.t, i.mb, c).0, c);
      Sample(s, i.x, i.t, i.mb, c).0
  }

  /** What sample number |ins| of a signal makes happen. */
  ghost function EventOf(ins: seq<Input>, i: Input, c: Config): Event
    requires c.Valid()
  {
    Sample(Run(ins, c), i.x, i.t, i.mb, c).1
  }

  // ----- decisions in bounded time

  /** Triggered, not yet past Phase 3, and not under suspicion of being a calibration. */
  ghost predicate Undecided(s: State) {
    s.a.status == 2 && s.p.ph.phase1 && !s.p.ph.phase3 && !s.p.cal
  }

  lemma PhasesAge(p: Picker, a: Averages, t: real, c: Config)
    requires Booked(p, a.mdfNew, c) && !p.cal && !p.ph.phase3
    ensures var q := Phases(p, a, t, c).ph;
      q.phase1 && !q.phase3 ==> Age(q) == (if p.ph.phase1 then Age(p.ph) else 0) + 1
  {
    hide Triggers, SenseOf, OnsetAfter, PhaseStep;
    if p.ph.phase1 || Triggers(p, a) {
      PhaseStepInv(p.ph.(phase1 := true), SenseOf(p, a, t, c.fs), c.N, Slow(c.fs));
    }
  }

  /** An undecided state is one sample older than the undecided state before it, or brand new. */
  lemma UndecidedAge(s: State, x: int, t: real, mb: MbOutcome, c: Config)
    requires StateInv(s, c)
    ensures s.a.ctr < c.L || s.a.cyc > 0
    ensures s.p.ph.phase3 ==> s.p.cyc.mdfCnt > 0
    ensures var r := Sample(s, x, t, mb, c).0;
      Undecided(r) ==> Age(r.p.ph) == if Undecided(s) then Age(s.p.ph) + 1 else 1
  {
    InvReady(s, c);
    var a := AvgStep(s.a, x, c);
    var p := Bookkeep(s.p, a, mb, c);
    BookkeepInv(s.p, a, mb, c);
    hide AvgStep, Restarts, Phases, Declare, CycleStep, CountMwp, Age, Turns, AvgInv;
    if a.status == 2 && !Restarts(s.p, a, t, mb, c) && !p.cal && !p.ph.phase3 {
      PhasesAge(p, a, t, c);
    }
  }

  /** However the signal goes on, a trigger is undecided for fewer than 15 N consecutive samples:
      after that it has passed Phase 3, been reset, or been put aside as a calibration. */
  lemma {:induction false} DecidedInTime(ins: seq<Input>, from: nat, c: Config)
    requires c.Valid() && from < |ins|
    requires forall n :: from < n <= |ins| ==> Undecided(Run(ins[..n], c))
    ensures |ins| - from <= Age(Run(ins, c).p.ph) <= 15 * c.N - 1
    decreases |ins|
  {
    hide Undecided, Age, StateInv, Sample;
    assert ins[..|ins|] == ins;
    var front, i := ins[..|ins| - 1], ins[|ins| - 1];
    UndecidedAge(Run(front, c), i.x, i.t, i.mb, c);
    UndecidedBound(Run(ins, c), c);
    if from < |front| {
      forall n | from < n <= |front|
        ensures Undecided(Run(front[..n], c))
      {
        assert front[..n] == ins[..n];
      }
      assert Undecided(Run(ins[..|front|], c));
      DecidedInTime(front, from, c);
    } else if Undecided(Run(front, c)) {
      UndecidedBound(Run(front, c), c);
    }
  }

  lemma UndecidedBound(s: State, c: Config)
    requires StateInv(s, c) && Undecided(s)
    ensures 0 <= Age(s.p.ph) <= 15 * c.N - 1
  {
    AgeBound(s.p.ph, c.N);
  }

  // ----- the witness of a pick

  ghost function Hits(h: seq<Sense>): int {
    if |h| == 0 then 0 else Hits(h[..|h| - 1]) + if h[|h| - 1].trig then 1 else 0
  }

  ghost function Misses(h: seq<Sense>): int { |h| - Hits(h) }

  /** At no miss were there more misses than hits. */
  ghost predicate Leading(h: seq<Sense>) {
    forall n :: 0 <= n <= |h| ==> Misses(h[..n]) <= Hits(h[..n])
  }

  ghost predicate AnyBig(h: seq<Sense>) {
    exists i :: 0 <= i < |h| && h[i].big
  }

  /** The sign of the last sample over the trigger, and how often it reversed along the way. */
  ghost function Track(h: seq<Sense>, start: bool): (bool, int) {
    if |h| == 0 then (start, 0)
    else
      var (neg, n) := Track(h[..|h| - 1], start);
      var o := h[|h| - 1];
      if !o.trig then (neg, n) else (o.neg, if neg != o.neg then n + 1 else n)
  }

  ghost function Reversals(h: seq<Sense>, start: bool): int { Track(h, start).1 }

  /** The samples of Phase 2 and those of Phase 3; the sample that passes Phase 2 is in both. */
  datatype Witness = Witness(h2: seq<Sense>, h3: seq<Sense>)

  ghost predicate PassedTwo(h2: seq<Sense>, N: int) {
    1 <= |h2| <= 3 * N && Hits(h2) >= N && Leading(h2) && AnyBig(h2)
  }

  ghost predicate WitnessInv(w: Witness, h: Phase, N: int) {
    if !h.phase1 then w == Witness([], [])
    else if !h.phase2 then
      |w.h2| == h.p2cnt && w.h3 == [] && h.hit == Hits(w.h2) && Leading(w.h2) && (h.test2 <==> AnyBig(w.h2))
    else
      && |w.h2| == h.p2cnt && |w.h3| == h.p3cnt && PassedTwo(w.h2, N)
      && h.hit == Hits(w.h3) && h.numOsc == Reversals(w.h3, w.h2[|w.h2| - 1].neg)
      && (!h.phase3 ==> h.lastNeg == Track(w.h3, w.h2[|w.h2| - 1].neg).0)
  }

  ghost function WitnessNext(w: Witness, h: Phase, k: Phase, o: Sense): Witness {
    if !k.phase1 then Witness([], [])
    else Witness(if h.phase2 then w.h2 else w.h2 + [o], if k.phase2 then w.h3 + [o] else [])
  }

  lemma HitsOne(h: seq<Sense>, o: Sense)
    ensures Hits(h + [o]) == Hits(h) + if o.trig then 1 else 0
  {
    assert (h + [o])[..|h|] == h;
  }

  lemma TrackOne(h: seq<Sense>, o: Sense, start: bool)
    ensures var (neg, n) := Track(h, start);
      Track(h + [o], start) == if !o.trig then (neg, n) else (o.neg, if neg != o.neg then n + 1 else n)
  {
    assert (h + [o])[..|h|] == h;
  }

  lemma LeadingOne(h: seq<Sense>, o: Sense)
    requires Leading(h) && Misses(h + [o]) <= Hits(h + [o])
    ensures Leading(h + [o])
  {
    var g := h + [o];
    forall n | 0 <= n <= |g|
      ensures Misses(g[..n]) <= Hits(g[..n])
    {
      if n <= |h| {
        assert g[..n] == h[..n];
      } else {
        assert g[..n] == g;
      }
    }
  }

  lemma BigOne(h: seq<Sense>, o: Sense)
    ensures AnyBig(h + [o]) <==> AnyBig(h) || o.big
  {
    var g := h + [o];
    if AnyBig(h) {
      var i :| 0 <= i < |h| && h[i].big;
      assert g[i].big;
    }
    assert g[|h|] == o;
    if AnyBig(g) && !o.big {
      var i :| 0 <= i < |g| && g[i].big;
      assert h[i].big;
    }
  }

  /** A Phase 2 sample extends the witness. */
  lemma WitnessTwo(w: Witness, h: Phase, o: Sense, N: int)
    requires N >= 1 && PhaseInv(h, N) && h.phase1 && !h.phase2
    requires |w.h2| == h.p2cnt && h.hit == Hits(w.h2) && Leading(w.h2) && (h.test2 <==> AnyBig(w.h2))
    ensures var j := Phase2(h, o, N);
      && (j.phase1 && !j.phase2 ==> WitnessInv(Witness(w.h2 + [o], []), j, N))
      && (j.phase2 ==> |w.h2| + 1 == j.p2cnt && PassedTwo(w.h2 + [o], N) && j.p3cnt == j.hit == j.numOsc == 0 && j.lastNeg == o.neg)
  {
    HitsOne(w.h2, o);
    BigOne(w.h2, o);
    Phase2Inv(h, o, N);
    hide Hits, AnyBig, Leading;
    if Misses(w.h2 + [o]) <= Hits(w.h2 + [o]) {
      LeadingOne(w.h2, o);
    }
  }

  /** A Phase 3 sample extends the witness. */
  lemma WitnessThree(w: Witness, j: Phase, o: Sense, N: int, slow: int)
    requires N >= 1 && Phase3Entry(j, N) && |w.h2| == j.p2cnt && |w.h3| == j.p3cnt && PassedTwo(w.h2, N)
    requires var start := w.h2[|w.h2| - 1].neg;
      j.hit == Hits(w.h3) && Track(w.h3, start) == (j.lastNeg, j.numOsc)
    ensures var k := Phase3(j, o, N, slow); k.phase1 ==> WitnessInv(Witness(w.h2, w.h3 + [o]), k, N)
  {
    HitsOne(w.h3, o);
    TrackOne(w.h3, o, w.h2[|w.h2| - 1].neg);
    hide Hits, Track, PassedTwo;
  }

  lemma WitnessStep(w: Witness, h: Phase, o: Sense, N: int, slow: int)
    requires N >= 1 && PhaseInv(h, N) && h.phase1 && !h.phase3
    requires WitnessInv(w, h, N)
    ensures var k := PhaseStep(h, o, N, slow); WitnessInv(WitnessNext(w, h, k, o), k, N)
  {
    hide Phase2, Phase3, Hits, Leading, AnyBig, PassedTwo, Track;
    if h.phase2 {
      WitnessThree(w, h, o, N, slow);
      Phase3Inv(h, o, N, slow);
    } else {
      WitnessTwo(w, h, o, N);
      Phase2Inv(h, o, N);
      var j := Phase2(h, o, N);
      if j.phase2 {
        var v := Witness(w.h2 + [o], []);
        NothingTracked(o.neg);
        WitnessThree(v, j, o, N, slow);
        Phase3Inv(j, o, N, slow);
      }
    }
  }

  lemma NothingTracked(start: bool)
    ensures Hits([]) == 0 && Track([], start) == (start, 0)
  {}

  /** The sense of a sample that reaches the phase tests. */
  ghost function SenseAt(s: State, i: Input, c: Config): Sense
    requires c.Valid() && (s.a.ctr < c.L || s.a.cyc > 0)
  {
    var a := AvgStep(s.a, i.x, c);
    SenseOf(Bookkeep(s.p, a, i.mb, c), a, i.t, c.fs)
  }

  /** The phase tests ran on this sample: neither waiting nor done before it, nor a calibration. */
  ghost predicate Tested(s: State, r: State) {
    r.p.ph.phase1 && !r.p.cal && !s.p.ph.phase3
  }

  ghost function WitnessAfter(w: Witness, s: State, r: State, o: Sense): Witness {
    if !r.p.ph.phase1 then Witness([], [])
    else if Tested(s, r) then WitnessNext(w, s.p.ph, r.p.ph, o)
    else w
  }

  lemma EvaluateWitness(p: Picker, a: Averages, t: real, c: Config, w: Witness)
    requires Booked(p, a.mdfNew, c) && 2 <= a.status <= 3 && (a.status == 3 && p.ph.phase1 ==> p.ph.phase3)
    requires WitnessInv(w, p.ph, c.N)
    ensures p.ph.phase3 ==> p.cyc.mdfCnt > 0
    ensures var r := Evaluate(p, a, t, c).0;
      && (p.cal || p.ph.phase3 || a.status == 3 ==> r.p.ph == p.ph || !r.p.ph.phase1)
      && (!p.cal && !p.ph.phase3 ==>
            WitnessInv(if r.p.ph.phase1 then WitnessNext(w, p.ph, r.p.ph, SenseOf(p, a, t, c.fs)) else Witness([], []), r.p.ph, c.N))
      && (r.p.cal ==> p.cal)
      && (p.ph.phase2 && r.p.ph.phase1 ==> r.p.ph.phase2)
  {
    CountAtPhase3(p, a.mdfNew, c);
    hide Triggers, SenseOf, PhaseStep, OnsetAfter, WitnessInv, Strength, Threshold, StillWaiting, Frequency;
    if !p.cal && a.status == 2 && !p.ph.phase3 {
      PhasesWitness(p, a, t, c, w);
    } else if !p.cal && !p.ph.phase3 {
      EmptyWitness(p.ph, c.N);
    }
  }

  lemma EmptyWitness(h: Phase, N: int)
    requires !h.phase1
    ensures WitnessInv(Witness([], []), h, N)
  {}

  lemma PhasesWitness(p: Picker, a: Averages, t: real, c: Config, w: Witness)
    requires Booked(p, a.mdfNew, c) && !p.cal && !p.ph.phase3 && WitnessInv(w, p.ph, c.N)
    ensures var q := Phases(p, a, t, c);
      && WitnessInv(if q.ph.phase1 then WitnessNext(w, p.ph, q.ph, SenseOf(p, a, t, c.fs)) else Witness([], []), q.ph, c.N)
      && (p.ph.phase2 && q.ph.phase1 ==> q.ph.phase2)
  {
    hide Triggers, SenseOf, PhaseStep, OnsetAfter, Frequency, WitnessInv;
    if p.ph.phase1 || Triggers(p, a) {
      var h := p.ph.(phase1 := true);
      FreshWitness(w, p.ph, c.N);
      var o := SenseOf(p, a, t, c.fs);
      WitnessStep(w, h, o, c.N, Slow(c.fs));
      StaysInPhase3(h, o, c.N, Slow(c.fs));
      var k := PhaseStep(h, o, c.N, Slow(c.fs));
      if !k.phase1 {
        EmptyWitness(ResetPicker(p.(ph := k, trig := false)).ph, c.N);
      }
    } else {
      EmptyWitness(p.ph, c.N);
    }
  }

  lemma StaysInPhase3(h: Phase, o: Sense, N: int, slow: int)
    ensures var k := PhaseStep(h, o, N, slow); h.phase2 && k.phase1 ==> k.phase2
  {}

  lemma FreshWitness(w: Witness, h: Phase, N: int)
    requires N >= 1 && PhaseInv(h, N) && WitnessInv(w, h, N)
    ensures WitnessInv(w, h.(phase1 := true), N)
  {
    if !h.phase1 {
      NothingTracked(false);
      assert !AnyBig([]);
      assert Leading([]);
    }
  }

  ghost function Senses(ins: seq<Input>, c: Config): (o: seq<Sense>)
    requires c.Valid()
    ensures |o| == |ins|
  {
    if |ins| == 0 then []
    else
      var front := ins[..|ins| - 1];
      Senses(front, c) + [SenseAt(Run(front, c), ins[|ins| - 1], c)]
  }

  /** The witness kept along a run, and the sample it starts at. */
  ghost function WitnessOf(ins: seq<Input>, c: Config): Witness
    requires c.Valid()
  {
    if |ins| == 0 then Witness([], [])
    else
      var front := ins[..|ins| - 1];
      WitnessAfter(WitnessOf(front, c), Run(front, c), Run(ins, c), SenseAt(Run(front, c), ins[|ins| - 1], c))
  }

  ghost function TriggerSample(ins: seq<Input>, c: Config): nat
    requires c.Valid()
  {
    if |ins| == 0 then 0
    else
      var front := ins[..|ins| - 1];
      if Run(front, c).p.ph.phase1 then TriggerSample(front, c) else |front|
  }

  /** The witness is cut out of the run: Phase 2 from sample `from` on, Phase 3 from Phase 2's last. */
  ghost predicate CutOut(w: Witness, all: seq<Sense>, from: nat) {
    var last := from + |w.h2| - 1;
    && w.h2 != [] && last < |all| && w.h2 == all[from..last + 1]
    && last + |w.h3| <= |all| && w.h3 == all[last..last + |w.h3|]
  }

  ghost predicate RunInv(w: Witness, s: State, all: seq<Sense>, from: nat, c: Config) {
    && WitnessInv(w, s.p.ph, c.N)
    && (s.p.ph.phase1 ==> CutOut(w, all, from))
    && (Undecided(s) ==> |all| == from + Age(s.p.ph))
  }

  /** A sample outside the phase tests changes nothing in the witness, or drops it. */
  lemma SampleWitness(s: State, i: Input, c: Config, w: Witness)
    requires StateInv(s, c) && WitnessInv(w, s.p.ph, c.N)
    ensures s.a.ctr < c.L || s.a.cyc > 0
    ensures s.p.ph.phase3 ==> s.p.cyc.mdfCnt > 0
    ensures var r := Sample(s, i.x, i.t, i.mb, c).0;
      && WitnessInv(WitnessAfter(w, s, r, SenseAt(s, i, c)), r.p.ph, c.N)
      && (r.p.ph.phase1 && !Tested(s, r) ==> r.p.ph == s.p.ph)
      && (Undecided(r) ==> Tested(s, r) && (s.p.ph.phase1 ==> Undecided(s)))
      && (Tested(s, r) && s.p.ph.phase1 ==> Undecided(s))
      && (Tested(s, r) && s.p.ph.phase2 ==> r.p.ph.phase2)
  {
    InvReady(s, c);
    var a := AvgStep(s.a, i.x, c);
    AvgStepInv(s.a, i.x, c);
    var p := Bookkeep(s.p, a, i.mb, c);
    BookkeepInv(s.p, a, i.mb, c);
    hide AvgStep, Restarts, CycleStep, CountMwp, Turns, AvgInv, WitnessInv, Evaluate, WitnessNext, SenseOf;
    hide PhaseInv, OscInv, CycleInv, OnsetInv, Booked;
    EmptyWitness(NO_PHASE, c.N);
    if a.status >= 2 && !Restarts(s.p, a, i.t, i.mb, c) {
      EvaluateWitness(p, a, i.t, c, w);
    }
  }

  lemma CutOutExtends(w: Witness, all: seq<Sense>, from: nat, o: Sense)
    requires CutOut(w, all, from)
    ensures CutOut(w, all + [o], from)
  {
    var last := from + |w.h2| - 1;
    assert (all + [o])[from..last + 1] == all[from..last + 1];
    assert (all + [o])[last..last + |w.h3|] == all[last..last + |w.h3|];
  }

  lemma SliceGrows<T>(all: seq<T>, o: T, i: nat)
    requires i <= |all|
    ensures (all + [o])[i..|all| + 1] == all[i..|all|] + [o]
  {}

  lemma CutOutTwo(w: Witness, all: seq<Sense>, from: nat, o: Sense, passes: bool)
    requires from + |w.h2| == |all| && (w.h2 == [] || CutOut(w, all, from)) && w.h3 == []
    ensures CutOut(Witness(w.h2 + [o], if passes then [o] else []), all + [o], from)
  {
    SliceGrows(all, o, from);
    SliceGrows(all, o, |all|);
    assert w.h2 == all[from..|all|];
  }

  lemma CutOutThree(w: Witness, all: seq<Sense>, from: nat, o: Sense)
    requires CutOut(w, all, from) && |all| == from + |w.h2| + |w.h3| - 1
    ensures CutOut(Witness(w.h2, w.h3 + [o]), all + [o], from)
  {
    var last := from + |w.h2| - 1;
    SliceGrows(all, o, last);
    assert (all + [o])[from..last + 1] == all[from..last + 1];
  }

  /** How much of the signal the witness takes up before a tested sample. */
  ghost predicate ReachesEnd(w: Witness, h: Phase, all: seq<Sense>, from: nat) {
    if !h.phase1 then w == Witness([], [])
    else CutOut(w, all, from) && |all| == from + |w.h2| + if h.phase2 then |w.h3| - 1 else 0
  }

  lemma TestedCut(w: Witness, h: Phase, k: Phase, all: seq<Sense>, from: nat, o: Sense)
    requires k.phase1 && (h.phase2 ==> h.phase1 && k.phase2) && (!h.phase2 ==> w.h3 == [])
    requires ReachesEnd(w, h, all, from)
    ensures CutOut(WitnessNext(w, h, k, o), all + [o], if h.phase1 then from else |all|)
  {
    hide CutOut;
    if h.phase2 {
      CutOutThree(w, all, from, o);
    } else {
      CutOutTwo(w, all, if h.phase1 then from else |all|, o, k.phase2);
      assert w.h3 + [o] == [o];
    }
  }

  lemma WitnessReachesEnd(w: Witness, s: State, all: seq<Sense>, from: nat, c: Config)
    requires PhaseInv(s.p.ph, c.N) && RunInv(w, s, all, from, c) && (s.p.ph.phase1 ==> Undecided(s))
    ensures ReachesEnd(w, s.p.ph, all, from) && (!s.p.ph.phase2 ==> w.h3 == [])
    ensures s.p.ph.phase2 ==> s.p.ph.phase1
  {
    hide CutOut, PassedTwo, Hits, Leading, AnyBig, Track;
  }

  lemma RunInvStep(w: Witness, s: State, all: seq<Sense>, from: nat, i: Input, c: Config)
    requires StateInv(s, c) && RunInv(w, s, all, from, c)
    ensures s.a.ctr < c.L || s.a.cyc > 0
    ensures s.p.ph.phase3 ==> s.p.cyc.mdfCnt > 0
    ensures var r, o := Sample(s, i.x, i.t, i.mb, c).0, SenseAt(s, i, c);
      RunInv(WitnessAfter(w, s, r, o), r, all + [o], if s.p.ph.phase1 then from else |all|, c)
  {
    SampleInv(s, i.x, i.t, i.mb, c);
    SampleWitness(s, i, c, w);
    UndecidedAge(s, i.x, i.t, i.mb, c);
    hide Sample, SenseAt, StateInv, WitnessInv, WitnessNext, CutOut, ReachesEnd, Age;
    var r, o := Sample(s, i.x, i.t, i.mb, c).0, SenseAt(s, i, c);
    if Tested(s, r) {
      WitnessReachesEnd(w, s, all, from, c);
      TestedCut(w, s.p.ph, r.p.ph, all, from, o);
    } else if r.p.ph.phase1 {
      CutOutExtends(w, all, from, o);
    }
  }

  /** Along every run. */
  lemma {:induction false} RunWitnessed(ins: seq<Input>, c: Config)
    requires c.Valid()
    ensures RunInv(WitnessOf(ins, c), Run(ins, c), Senses(ins, c), TriggerSample(ins, c), c)
  {
    hide Sample, SenseAt, StateInv, WitnessAfter, RunInv;
    if |ins| == 0 {
      EmptyRun(c);
    } else {
      var front := ins[..|ins| - 1];
      RunWitnessed(front, c);
      RunInvStep(WitnessOf(front, c), Run(front, c), Senses(front, c), TriggerSample(front, c), ins[|ins| - 1], c);
    }
  }

  lemma EmptyRun(c: Config)
    requires c.Valid()
    ensures RunInv(Witness([], []), INITIAL, [], 0, c)
  {}

  lemma DeclaredAfterPhase3(s: State, i: Input, c: Config)
    requires StateInv(s, c) && (s.a.ctr < c.L || s.a.cyc > 0) && (s.p.ph.phase3 ==> s.p.cyc.mdfCnt > 0)
    ensures var e := Sample(s, i.x, i.t, i.mb, c).1;
      e.Declared? ==> s.p.ph.phase3 && e.freq == s.p.on.freq && (e.strength > c.snLocal || e.freq < c.minFLocal)
  {
    hide AvgStep, CycleStep, Restarts, StateInv, Phases, Strength, Threshold, StillWaiting, Turns;
  }

  /** Every pick is witnessed by consecutive samples of the signal: at most 3 N of Phase 2 with at
      least N trigger hits, never more misses than hits and one sample over the amplitude threshold,
      then at most 12 N of Phase 3 with six reversals of sign among the trigger hits.  Its frequency
      is at least 3 fs / (8 N), and it is strong or low-pitched. */
  lemma {:induction false} PickIsWitnessed(ins: seq<Input>, i: Input, c: Config)
    requires c.Valid()
    ensures var w, e := WitnessOf(ins, c), EventOf(ins, i, c);
      e.Declared? ==>
        && PassedTwo(w.h2, c.N)
        && |w.h3| <= 12 * c.N && Reversals(w.h3, w.h2[|w.h2| - 1].neg) == 6
        && CutOut(w, Senses(ins, c), TriggerSample(ins, c))
        && e.freq >= LowestFrequency(c) && (e.strength > c.snLocal || e.freq < c.minFLocal)
  {
    hide Run, WitnessOf, Senses, TriggerSample;
    hide Sample, SenseAt, WitnessAfter, PassedTwo, Track, CutOut, StateInv, RunInv, LowestFrequency;
    RunWitnessed(ins, c);
    DeclaredAfterPhase3(Run(ins, c), i, c);
    if EventOf(ins, i, c).Declared? {
      PassedThree(WitnessOf(ins, c), Run(ins, c), Senses(ins, c), TriggerSample(ins, c), c);
    }
  }

  lemma PassedThree(w: Witness, s: State, all: seq<Sense>, from: nat, c: Config)
    requires StateInv(s, c) && RunInv(w, s, all, from, c) && s.p.ph.phase3
    ensures PassedTwo(w.h2, c.N) && |w.h3| <= 12 * c.N && Reversals(w.h3, w.h2[|w.h2| - 1].neg) == 6
    ensures CutOut(w, all, from) && s.p.on.freq >= LowestFrequency(c)
  {
    hide PassedTwo, Track, CutOut, OscInv, CycleInv, AvgInv, LowestFrequency;
  }
}
