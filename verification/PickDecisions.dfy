/** libsrc/get_pick.c: what PickV decides, in terms of the signal and of what happened since the trigger. */
module PickDecisions {
  import Reals
  import opened MovingAverage
  import opened PickMachine
  import opened PickInvariants
  import opened PickHistory
  import PickAverages
  import PickRuns

  // ----- one sample

  /** The difference has another sign than the one before. */
  predicate Turned(s: State, i: Input) { (i.x - s.a.sampOld < 0) != (s.a.mdfOld < 0) }

  lemma Frame(a: Averages, x: int, c: Config)
    requires c.L > 1 && (a.ctr < c.L || a.cyc > 0)
    ensures var b := AvgStep(a, x, c);
      && b.mdfNew == x - a.sampOld && b.mdfOld == a.mdfOld && b.sampNew == x
      && (if a.status == 1 then 1 <= b.status <= 2 else b.status == a.status)
  {}

  /** The picker's half of a sample that is neither idle nor starts the station over. */
  ghost predicate Step(p: Picker, a: Averages, t: real, r: State, c: Config)
    requires c.fs > 0.0 && (p.ph.phase3 ==> p.cyc.mdfCnt > 0)
  {
    && r.a == a.(status := r.a.status, mdfOld := a.mdfNew)
    && if p.cal || a.status == 3 then r.p == p && r.a.status == a.status
       else if p.ph.phase3 then
         || (r.p == p.(wait := p.wait + 1) && r.a.status == a.status)
         || (r.p == Declare(p.(wait := p.wait + 1), c).0 && r.a.status == 3)
       else r.p == Phases(p, a, t, c) && r.a.status == a.status
  }

  lemma SampleIs(s: State, i: Input, c: Config)
    requires StateInv(s, c)
    ensures s.a.ctr < c.L || s.a.cyc > 0
    ensures s.p.ph.phase3 ==> s.p.cyc.mdfCnt > 0
    ensures var (r, e) := Sample(s, i.x, i.t, i.mb, c); var a := AvgStep(s.a, i.x, c);
      if a.status < 2 then
        r.a.status < 2 && r.p == s.p && e.Quiet? && !r.p.ph.phase1 && r.p.cyc.perCyc == 0 && r.p.cyc.running == 0
      else if Restarts(s.p, a, i.t, i.mb, c) then
        e.Restarted? && !r.p.ph.phase1 && r.a == CLEARED && r.p.cyc.perCyc == 0 && r.p.cyc.running == 0
      else !e.Restarted? && r.a.status >= 2 && Step(Bookkeep(s.p, a, i.mb, c), a, i.t, r, c)
  {
    InvReady(s, c);
    Frame(s.a, i.x, c);
    hide AvgStep, Phases, Declare, StillWaiting, AvgInv, PhaseInv, OscInv, CycleStep, CountMwp, Restarts;
    var a := AvgStep(s.a, i.x, c);
    if a.status >= 2 {
      BookkeepInv(s.p, a, i.mb, c);
    }
  }

  /** The half-cycle in progress goes on, or a new one begins. */
  lemma CycleIs(s: State, i: Input, c: Config)
    requires StateInv(s, c)
    ensures s.a.ctr < c.L || s.a.cyc > 0
    ensures s.p.ph.phase3 ==> s.p.cyc.mdfCnt > 0
    ensures var (r, e) := Sample(s, i.x, i.t, i.mb, c); var y, z := s.p.cyc, r.p.cyc;
      if e.Restarted? || r.a.status < 2 then z.perCyc == 0 && z.running == 0
      else if !Turned(s, i) && y.perCyc + 1 < c.N then
        z.perCyc == y.perCyc + 1 && z.running == y.running + (i.x - s.a.sampOld)
      else z.perCyc == 0 && z.running == i.x - s.a.sampOld
  {
    SampleIs(s, i, c);
    Frame(s.a, i.x, c);
    hide Sample, AvgStep, Phases, Strength, Threshold, AvgInv, OnsetInv, PhaseInv, OscInv, CountMwp, Restarts;
    PhasesCycle(Bookkeep(s.p, AvgStep(s.a, i.x, c), i.mb, c), AvgStep(s.a, i.x, c), i.t, c);
  }

  lemma PhasesCycle(p: Picker, a: Averages, t: real, c: Config)
    requires c.fs > 0.0
    ensures var q := Phases(p, a, t, c);
      q.cyc.perCyc == p.cyc.perCyc && q.cyc.running == p.cyc.running && (q.ph.phase1 ==> q.cyc == p.cyc)
  {
    hide Triggers, SenseOf, PhaseStep, OnsetAfter, Frequency;
  }

  /** The half-cycles booked since the trigger. */
  lemma BookingIs(s: State, i: Input, c: Config)
    requires StateInv(s, c)
    ensures s.a.ctr < c.L || s.a.cyc > 0
    ensures s.p.ph.phase3 ==> s.p.cyc.mdfCnt > 0
    ensures var (r, e) := Sample(s, i.x, i.t, i.mb, c); var y, z := s.p.cyc, r.p.cyc;
      r.p.ph.phase1 ==>
        if s.p.ph.phase1 && Turned(s, i) then z.mdfTotal == y.mdfTotal + AbsInt(y.running) && z.mdfCnt == y.mdfCnt + 1
        else if s.p.ph.phase1 then z.mdfTotal == y.mdfTotal && z.mdfCnt == y.mdfCnt
        else z.mdfTotal == 0 && z.mdfCnt == 0
  {
    SampleIs(s, i, c);
    Frame(s.a, i.x, c);
    hide Sample, AvgStep, Phases, Strength, Threshold, AvgInv, PhaseInv, OscInv, CountMwp, Restarts, AbsInt;
    PhasesCycle(Bookkeep(s.p, AvgStep(s.a, i.x, c), i.mb, c), AvgStep(s.a, i.x, c), i.t, c);
  }

  /** Whether the Mwp counter still runs. */
  predicate Counting(ctr: int, c: Config) { 0 < ctr <= Reals.Trunc(c.fs * c.mwpSeconds as real + 0.001) }

  /** What the trigger saves, and what Phase 3 measures. */
  lemma OnsetIs(s: State, i: Input, c: Config)
    requires StateInv(s, c)
    ensures s.a.ctr < c.L || s.a.cyc > 0
    ensures s.p.ph.phase3 ==> s.p.cyc.mdfCnt > 0
    ensures var (r, e) := Sample(s, i.x, i.t, i.mb, c); var o, n := s.p.on, r.p.on;
      r.p.ph.phase1 ==>
        if s.p.ph.phase1 then
          && n.ltaOrig == o.ltaOrig && n.trigTime == o.trigTime && (r.a.status == 2 ==> n.mdfOrig == o.mdfOrig)
          && n.mwpCtr == (if Counting(o.mwpCtr, c) then o.mwpCtr + 1 else o.mwpCtr)
        else
          && n.ltaOrig == r.a.ltaThresh && n.mdfOrig == r.a.mdfThresh
          && n.trigTime == i.t - r.p.cyc.perCyc as real / c.fs
          && n.mwpCtr == if r.p.cyc.perCyc == 0 then 1 else r.p.cyc.perCyc
  {
    SampleIs(s, i, c);
    Frame(s.a, i.x, c);
    hide Sample, AvgStep, Strength, Threshold, AvgInv, PhaseInv, OscInv, CycleStep, Phases, Restarts;
    var a := AvgStep(s.a, i.x, c);
    BookkeepInv(s.p, a, i.mb, c);
    PhasesOnset(Bookkeep(s.p, a, i.mb, c), a, i.t, c);
    PhasesCycle(Bookkeep(s.p, a, i.mb, c), a, i.t, c);
  }

  lemma PhasesOnset(p: Picker, a: Averages, t: real, c: Config)
    requires c.fs > 0.0 && (p.ph.phase1 && !p.ph.phase3 && !p.cal ==> p.on.mwpCtr >= 1)
    ensures var q := Phases(p, a, t, c);
      q.ph.phase1 && !p.ph.phase3 && !p.cal ==>
        if p.ph.phase1 then
          && q.on.ltaOrig == p.on.ltaOrig && q.on.trigTime == p.on.trigTime && q.on.mdfOrig == p.on.mdfOrig
          && q.on.mwpCtr == p.on.mwpCtr
        else
          && q.on.ltaOrig == a.ltaThresh && q.on.mdfOrig == a.mdfThresh
          && q.on.trigTime == t - p.cyc.perCyc as real / c.fs
          && q.on.mwpCtr == if p.cyc.perCyc == 0 then 1 else p.cyc.perCyc
  {
    hide Triggers, SenseOf, PhaseStep, Frequency;
  }

  /** The frequency is measured when Phase 3 is passed: six half-cycles over the samples counted. */
  lemma FrequencyIs(s: State, i: Input, c: Config)
    requires StateInv(s, c)
    ensures s.a.ctr < c.L || s.a.cyc > 0
    ensures s.p.ph.phase3 ==> s.p.cyc.mdfCnt > 0
    ensures var r := Sample(s, i.x, i.t, i.mb, c).0;
      r.p.ph.phase3 ==>
        if s.p.ph.phase3 then r.p.on.freq == s.p.on.freq
        else r.p.on.mwpCtr >= 1 && r.p.on.freq == 6.0 * c.fs / r.p.on.mwpCtr as real
  {
    SampleIs(s, i, c);
    Frame(s.a, i.x, c);
    hide Sample, AvgStep, Strength, Threshold, AvgInv, PhaseInv, OscInv, CycleStep, Phases, Restarts, CycleInv;
    var a := AvgStep(s.a, i.x, c);
    BookkeepInv(s.p, a, i.mb, c);
    PhasesFrequency(Bookkeep(s.p, a, i.mb, c), a, i.t, c);
  }

  lemma PhasesFrequency(p: Picker, a: Averages, t: real, c: Config)
    requires c.fs > 0.0 && (p.ph.phase1 && !p.ph.phase3 && !p.cal ==> p.on.mwpCtr >= 1)
    requires p.cyc.perCyc >= 0
    ensures var q := Phases(p, a, t, c);
      q.ph.phase3 && !p.ph.phase3 && !p.cal ==> q.on.mwpCtr >= 1 && q.on.freq == 6.0 * c.fs / q.on.mwpCtr as real
  {
    hide Triggers, SenseOf, PhaseStep;
    var m := Phases(p, a, t, c).on.mwpCtr;
    if m >= 1 {
      SixOver(m as real, c.fs);
    }
  }

  lemma SixOver(m: real, fs: real)
    requires m > 0.0 && fs > 0.0
    ensures m / fs / 6.0 != 0.0 && 1.0 / (m / fs / 6.0) == 6.0 * fs / m
  {
    var q := m / fs;
    assert q * fs == m;
    assert q != 0.0;
    var f, g := 1.0 / (q / 6.0), 6.0 * fs / m;
    assert f * q == 6.0 && g * m == 6.0 * fs;
    assert f * m == 6.0 * fs;
    Reals.ProductZero(f - g, m, (f - g) * m);
  }

  // ----- what a run remembers

  /** The signal since the last start, as far as it counts for the next sample: the difference to come, ... */
  ghost function Difference(ins: seq<Input>, x: int, c: Config): int
    requires c.Valid()
  {
    x - LastSample(PickAverages.SinceRestart(ins, c))
  }

  /** ... and whether it has another sign than the last. */
  ghost predicate Turns(ins: seq<Input>, x: int, c: Config)
    requires c.Valid()
  {
    (Difference(ins, x, c) < 0) != (LastDifference(PickAverages.SinceRestart(ins, c)) < 0)
  }

  /** The differences of the half-cycle in progress, as long as the averages are known; a zero stands for what
      went before. */
  ghost function OpenOf(ins: seq<Input>, c: Config): seq<int>
    requires c.Valid()
  {
    if |ins| == 0 then [0]
    else
      var front, i := ins[..|ins| - 1], ins[|ins| - 1];
      if |PickAverages.SinceRestart(ins, c)| <= c.L then [0]
      else if !Turns(front, i.x, c) && |OpenOf(front, c)| < c.N then OpenOf(front, c) + [Difference(front, i.x, c)]
      else [Difference(front, i.x, c)]
  }

  /** The half-cycles booked since the trigger ... */
  ghost function BookedOf(ins: seq<Input>, c: Config): seq<int>
    requires c.Valid()
    decreases |ins|, 0
  {
    if |ins| == 0 || !Run(ins, c).p.ph.phase1 || !Run(ins[..|ins| - 1], c).p.ph.phase1 then []
    else BookedWith(ins[..|ins| - 1], ins[|ins| - 1].x, c)
  }

  /** ... and what the next sample books, by changing the sign. */
  ghost function BookedWith(ins: seq<Input>, x: int, c: Config): seq<int>
    requires c.Valid()
    decreases |ins|, 1
  {
    BookedOf(ins, c) + if Turns(ins, x, c) then [AbsInt(Sum(OpenOf(ins, c)))] else []
  }

  /** What the trigger saved: both thresholds, the time at which the half-cycle began, how many samples it then
      had, and the number of the sample. */
  datatype Saved = Saved(mdf: real, lta: real, time: real, lead: int, at: nat)

  ghost function SavedOf(ins: seq<Input>, c: Config): Saved
    requires c.Valid()
  {
    if |ins| == 0 then Saved(0.0, 0.0, 0.0, 1, 0)
    else
      var front, i := ins[..|ins| - 1], ins[|ins| - 1];
      if Run(front, c).p.ph.phase1 then SavedOf(front, c)
      else
        var a, m := Run(ins, c).a, |OpenOf(ins, c)| - 1;
        Saved(a.mdfThresh, a.ltaThresh, i.t - m as real / c.fs, if m == 0 then 1 else m, |front|)
  }

  /** The samples from the beginning of the triggering half-cycle to sample `n`, as far as they are counted. */
  ghost function Length(v: Saved, n: nat, c: Config): int {
    var all, most := v.lead + (n - 1 - v.at), Reals.Trunc(c.fs * c.mwpSeconds as real + 0.001) + 1;
    if v.lead >= most then v.lead else if all < most then all else most
  }

  /** Six half-cycles in the samples up to the one that passed Phase 3. */
  ghost function FrequencyOf(ins: seq<Input>, c: Config): real
    requires c.Valid()
  {
    if |ins| == 0 then 0.0
    else if Run(ins[..|ins| - 1], c).p.ph.phase3 then FrequencyOf(ins[..|ins| - 1], c)
    else
      var m := Length(SavedOf(ins, c), |ins|, c);
      if m == 0 then 0.0 else 6.0 * c.fs / m as real
  }

  ghost predicate Remembers(ins: seq<Input>, c: Config)
    requires c.Valid()
  {
    var s, v := Run(ins, c), SavedOf(ins, c);
    && |OpenOf(ins, c)| == s.p.cyc.perCyc + 1 && s.p.cyc.running == Sum(OpenOf(ins, c))
    && (s.p.ph.phase1 ==>
          && v.at < |ins| && v.lead >= 1
          && s.p.cyc.mdfTotal == Sum(BookedOf(ins, c)) && s.p.cyc.mdfCnt == |BookedOf(ins, c)|
          && s.p.on.ltaOrig == v.lta && s.p.on.trigTime == v.time && s.p.on.mwpCtr == Length(v, |ins|, c)
          && (s.a.status == 2 ==> s.p.on.mdfOrig == v.mdf))
    && (s.p.ph.phase3 ==> s.p.on.freq == FrequencyOf(ins, c))
  }

  lemma HeardIs(ins: seq<Input>, c: Config)
    requires c.Valid()
    ensures var s, xs := Run(ins, c), PickAverages.SinceRestart(ins, c);
      && s.a.sampOld == LastSample(xs) && s.a.mdfOld == LastDifference(xs) && (s.a.status == 1 <==> |xs| <= c.L)
      && 1 <= s.a.status <= 3
  {
    PickAverages.RunIsBooked(ins, c);
    assert StateInv(Run(ins, c), c);
    hide Run, BooksOf, PickAverages.SinceRestart, AvgInv, CycleInv, PhaseInv, OscInv, OnsetInv;
    hide Sum, Offsets, Excess, Place;
  }

  lemma RunLast(ins: seq<Input>, c: Config)
    requires c.Valid() && |ins| > 0
    ensures var front, i := ins[..|ins| - 1], ins[|ins| - 1]; var s := Run(front, c);
      StateInv(s, c) && Run(ins, c) == Sample(s, i.x, i.t, i.mb, c).0
  {
    hide Sample, StateInv;
  }

  lemma HeardStep(ins: seq<Input>, c: Config)
    requires c.Valid() && |ins| > 0
    ensures var front, i := ins[..|ins| - 1], ins[|ins| - 1];
      && (Turned(Run(front, c), i) <==> Turns(front, i.x, c))
      && i.x - Run(front, c).a.sampOld == Difference(front, i.x, c)
      && (EventOf(front, i, c).Restarted? || Run(ins, c).a.status < 2 <==> |PickAverages.SinceRestart(ins, c)| <= c.L)
  {
    HeardIs(ins[..|ins| - 1], c);
    HeardIs(ins, c);
    hide Run, EventOf;
  }

  lemma RememberedCycle(ins: seq<Input>, c: Config)
    requires c.Valid() && |ins| > 0
    ensures var s := Run(ins, c); Remembers(ins[..|ins| - 1], c) ==>
      |OpenOf(ins, c)| == s.p.cyc.perCyc + 1 && s.p.cyc.running == Sum(OpenOf(ins, c))
  {
    var front, i := ins[..|ins| - 1], ins[|ins| - 1];
    HeardStep(ins, c);
    CycleIs(Run(front, c), i, c);
    SumOne(OpenOf(front, c), Difference(front, i.x, c));
    SumOne([], 0);
    SumOne([], Difference(front, i.x, c));
    assert [0] == [] + [0];
    hide Sample, Sum, StateInv, PickAverages.SinceRestart, Turns, Turned, Difference;
  }

  lemma RememberedBooking(ins: seq<Input>, c: Config)
    requires c.Valid() && |ins| > 0
    ensures var s := Run(ins, c);
      Remembers(ins[..|ins| - 1], c) && s.p.ph.phase1 ==>
        s.p.cyc.mdfTotal == Sum(BookedOf(ins, c)) && s.p.cyc.mdfCnt == |BookedOf(ins, c)|
  {
    hide Run, Sample, Sum, StateInv, OpenOf, AbsInt, Turns, Turned, Difference, SavedOf, FrequencyOf, Length;
    var front, i := ins[..|ins| - 1], ins[|ins| - 1];
    RunLast(ins, c);
    HeardStep(ins, c);
    BookingIs(Run(front, c), i, c);
    SumOne(BookedOf(front, c), AbsInt(Sum(OpenOf(front, c))));
    SumOne([], 0);
    assert BookedOf(front, c) + [] == BookedOf(front, c);
  }

  lemma LengthGrows(v: Saved, n: nat, c: Config)
    ensures v.lead >= 1 && v.at < n ==>
      Length(v, n + 1, c) == if Counting(Length(v, n, c), c) then Length(v, n, c) + 1 else Length(v, n, c)
    ensures v.at + 1 == n ==> Length(v, n, c) == v.lead
  {
    hide Reals.Trunc;
  }

  lemma RememberedOnset(ins: seq<Input>, c: Config)
    requires c.Valid() && |ins| > 0
    ensures var s, v := Run(ins, c), SavedOf(ins, c);
      Remembers(ins[..|ins| - 1], c) && |OpenOf(ins, c)| == s.p.cyc.perCyc + 1 && s.p.ph.phase1 ==>
        && v.at < |ins| && v.lead >= 1 && s.p.on.ltaOrig == v.lta && s.p.on.trigTime == v.time
        && s.p.on.mwpCtr == Length(v, |ins|, c) && (s.a.status == 2 ==> s.p.on.mdfOrig == v.mdf)
  {
    hide Run, Sample, Sum, StateInv, OpenOf, BookedOf, Length, Counting, FrequencyOf;
    var front, i := ins[..|ins| - 1], ins[|ins| - 1];
    RunLast(ins, c);
    PhasesNest(Run(ins, c), c);
    OnsetIs(Run(front, c), i, c);
    StatusStays(Run(front, c), i, c);
    var v := SavedOf(ins, c);
    if Run(front, c).p.ph.phase1 {
      LengthGrows(v, |front|, c);
    } else {
      LengthGrows(v, |ins|, c);
    }
  }

  /** A picked station stays picked until it is started over. */
  lemma StatusStays(s: State, i: Input, c: Config)
    requires StateInv(s, c)
    ensures s.a.ctr < c.L || s.a.cyc > 0
    ensures s.p.ph.phase3 ==> s.p.cyc.mdfCnt > 0
    ensures var r := Sample(s, i.x, i.t, i.mb, c).0;
      r.p.ph.phase1 && r.a.status == 2 && s.p.ph.phase1 ==> s.a.status == 2
  {
    SampleIs(s, i, c);
    Frame(s.a, i.x, c);
    hide Sample, AvgStep, Phases, Declare, Restarts, AvgInv, PhaseInv, OscInv, CycleInv, OnsetInv, Bookkeep;
  }

  lemma RememberedFrequency(ins: seq<Input>, c: Config)
    requires c.Valid() && |ins| > 0
    ensures var s := Run(ins, c);
      && Remembers(ins[..|ins| - 1], c) && s.p.ph.phase3
      && (s.p.ph.phase1 ==> s.p.on.mwpCtr == Length(SavedOf(ins, c), |ins|, c)) ==>
        s.p.on.freq == FrequencyOf(ins, c)
  {
    hide Run, Sample, Sum, StateInv, OpenOf, BookedOf, SavedOf, Length;
    var front, i := ins[..|ins| - 1], ins[|ins| - 1];
    RunLast(ins, c);
    FrequencyIs(Run(front, c), i, c);
    PhasesNest(Run(ins, c), c);
  }

  lemma PhasesNest(s: State, c: Config)
    requires StateInv(s, c)
    ensures (s.p.ph.phase3 ==> s.p.ph.phase1) && s.p.cyc.perCyc >= 0
  {}

  /** Over any run the counters of the picker are those of the samples since the trigger. */
  lemma {:induction false} RunRemembers(ins: seq<Input>, c: Config)
    requires c.Valid()
    ensures Remembers(ins, c)
  {
    if |ins| == 0 {
      SumOne([], 0);
      assert [0] == [] + [0];
    } else {
      RunRemembers(ins[..|ins| - 1], c);
      assert Remembers(ins, c) by {
        hide Run, OpenOf, BookedOf, SavedOf, Length, FrequencyOf;
        RememberedCycle(ins, c);
        RememberedBooking(ins, c);
        RememberedOnset(ins, c);
        RememberedFrequency(ins, c);
      }
    }
  }

  // ----- the decision

  /** Mean half-cycle over the threshold saved at the trigger; a threshold near zero counts as one. */
  ghost function StrengthOf(booked: seq<int>, saved: real): real
    requires |booked| > 0
  {
    Sum(booked) as real / |booked| as real / (if -0.0001 < saved < 0.0001 then 1.0 else saved)
  }

  lemma DecisionAt(s: State, i: Input, c: Config)
    requires StateInv(s, c)
    ensures s.a.ctr < c.L || s.a.cyc > 0
    ensures s.p.ph.phase3 ==> s.p.cyc.mdfCnt > 0
    ensures var e := Sample(s, i.x, i.t, i.mb, c).1;
      e.Declared? || e.Rejected? ==>
        var total := s.p.cyc.mdfTotal + if Turned(s, i) then AbsInt(s.p.cyc.running) else 0;
        var n := s.p.cyc.mdfCnt + if Turned(s, i) then 1 else 0;
        && s.p.ph.phase1 && s.p.ph.phase3 && s.a.status == 2 && n > 0
        && var m := if -0.0001 < s.p.on.mdfOrig < 0.0001 then 1.0 else s.p.on.mdfOrig;
          var st := total as real / n as real / m;
          e == if st > c.snLocal || s.p.on.freq < c.minFLocal then Declared(st, s.p.on.freq) else Rejected
  {
    InvReady(s, c);
    Frame(s.a, i.x, c);
    PhasesNest(s, c);
    hide AvgStep, StateInv, Phases, StillWaiting, AbsInt, CountMwp, Reals.Trunc, Expired;
    CountKept(s.p.on, c);
  }

  lemma CountKept(on: Onset, c: Config)
    ensures var n := CountMwp(on, c); n == on.(mwpCtr := n.mwpCtr)
  {}

  /** Over any run: a pick that is decided is declared if and only if the half-cycles booked since the trigger
      are strong or the frequency is low, and rejected otherwise. */
  lemma DecisionIs(ins: seq<Input>, i: Input, c: Config)
    requires c.Valid()
    ensures var e := EventOf(ins, i, c); var booked, f := BookedWith(ins, i.x, c), FrequencyOf(ins, c);
      e.Declared? || e.Rejected? ==>
        && |booked| > 0
        && var st := StrengthOf(booked, SavedOf(ins, c).mdf);
          e == if st > c.snLocal || f < c.minFLocal then Declared(st, f) else Rejected
  {
    hide Run, Sample, Sum, StateInv, OpenOf, AbsInt, Turns, Turned, Difference, SavedOf, FrequencyOf, Length, BookedOf;
    var s := Run(ins, c);
    RunRemembers(ins, c);
    HeardNext(ins, i, c);
    DecisionAt(s, i, c);
    SumOne(BookedOf(ins, c), AbsInt(Sum(OpenOf(ins, c))));
    assert BookedOf(ins, c) + [] == BookedOf(ins, c);
  }

  lemma HeardNext(ins: seq<Input>, i: Input, c: Config)
    requires c.Valid()
    ensures StateInv(Run(ins, c), c) && (Turned(Run(ins, c), i) <==> Turns(ins, i.x, c))
    ensures i.x - Run(ins, c).a.sampOld == Difference(ins, i.x, c)
  {
    HeardIs(ins, c);
    hide Run;
  }

  /** From the sample `i` that passes Phase 3 on, and while nothing points to a calibration: the sample that
      completes three seconds declares the pick if and only if it is strong or low-pitched then, and rejects it
      otherwise; the samples before it are quiet. */
  lemma DeclaredIff(pre: seq<Input>, i: Input, ins: seq<Input>, c: Config)
    requires c.Valid() && |ins| == PickRuns.WaitLength(c) && forall k :: 0 <= k < |ins| ==> ins[k].mb == MbOk
    ensures PickRuns.PassesPhase3(pre, i, c) ==>
      var last := |ins| - 1; var all := pre + [i] + ins[..last];
      var booked, f := BookedWith(all, ins[last].x, c), FrequencyOf(all, c);
      && (forall k :: 0 <= k < last ==> EventOf(pre + [i] + ins[..k], ins[k], c) == Quiet)
      && |booked| > 0
      && var st := StrengthOf(booked, SavedOf(all, c).mdf);
        EventOf(all, ins[last], c) == if st > c.snLocal || f < c.minFLocal then Declared(st, f) else Rejected
  {
    hide *;
    var last := |ins| - 1;
    PickRuns.DecidedAfterPhase3(pre, i, ins, c);
    if PickRuns.PassesPhase3(pre, i, c) {
      forall k | 0 <= k < |ins|
        ensures PickRuns.EventsFrom(Run(pre + [i], c), ins, c)[k] == EventOf(pre + [i] + ins[..k], ins[k], c)
      {
        PickRuns.EventsJoin(pre + [i], ins, k, c);
      }
      DecidesIs(EventOf(pre + [i] + ins[..last], ins[last], c));
      DecisionIs(pre + [i] + ins[..last], ins[last], c);
    }
  }

  lemma DecidesIs(e: Event)
    ensures PickRuns.Decides(e) <==> e.Declared? || e.Rejected?
  {}

  // ----- the tests

  /** The two ways to fail Phase 2 with the samples `g`, and to pass it. */
  ghost predicate Fails2(g: seq<Sense>, N: int) {
    |g| > 3 * N || (|g| > 0 && !g[|g| - 1].trig && Misses(g) > Hits(g))
  }

  ghost predicate Passes2(g: seq<Sense>, N: int) { Hits(g) >= N && AnyBig(g) }

  /** The two ways to fail Phase 3, and to pass it; `start` is the sign with which Phase 2 was passed. */
  ghost predicate Fails3(g: seq<Sense>, start: bool, N: int, fs: real) {
    |g| > 12 * N || (Passes3(g, start) && Misses(g) > Hits(g) && Misses(g) > Reals.Trunc(4.0 * fs))
  }

  ghost predicate Passes3(g: seq<Sense>, start: bool) {
    |g| > 0 && g[|g| - 1].trig && Reversals(g, start) >= 6
  }

  /** What the tests make of a candidate with the history `w` and the new sample `o`: the phases it is in
      afterwards, phase 1 being lost when it fails. */
  ghost predicate Judged(w: Witness, inPhase3: bool, o: Sense, k: Phase, N: int, fs: real) {
    var g := w.h2 + [o];
    if !inPhase3 && Fails2(g, N) then !k.phase1
    else if !inPhase3 && !Passes2(g, N) then k.phase1 && !k.phase2
    else
      var h := if inPhase3 then w.h3 + [o] else [o];
      var start := if inPhase3 && |w.h2| > 0 then w.h2[|w.h2| - 1].neg else o.neg;
      if Fails3(h, start, N, fs) then !k.phase1 else k.phase1 && k.phase2 && (k.phase3 <==> Passes3(h, start))
  }

  lemma StepIsJudged(w: Witness, h: Phase, o: Sense, N: int, fs: real)
    requires N >= 1 && PhaseInv(h, N) && h.phase1 && !h.phase3 && WitnessInv(w, h, N)
    ensures Judged(w, h.phase2, o, PhaseStep(h, o, N, Slow(fs)), N, fs)
  {
    if h.phase2 {
      JudgedThree(w.h3, h, o, w.h2[|w.h2| - 1].neg, N, fs);
    } else {
      JudgedTwo(w.h2, h, o, N);
      var j := Phase2(h, o, N);
      if j.phase2 {
        Phase2Inv(h, o, N);
        NothingTracked(o.neg);
        assert [] + [o] == [o];
        JudgedThree([], j, o, o.neg, N, fs);
      }
    }
    hide Phase2, Phase3, Fails2, Passes2, Fails3, Passes3, Hits, Misses, AnyBig, Track;
  }

  lemma JudgedTwo(g: seq<Sense>, h: Phase, o: Sense, N: int)
    requires N >= 1 && PhaseInv(h, N) && h.phase1 && !h.phase2
    requires |g| == h.p2cnt && h.hit == Hits(g) && (h.test2 <==> AnyBig(g))
    ensures var j := Phase2(h, o, N);
      if Fails2(g + [o], N) then !j.phase1 && !j.phase2 else j.phase1 && (j.phase2 <==> Passes2(g + [o], N))
  {
    HitsOne(g, o);
    BigOne(g, o);
    hide Hits, AnyBig;
  }

  lemma JudgedThree(g: seq<Sense>, j: Phase, o: Sense, start: bool, N: int, fs: real)
    requires N >= 1 && Phase3Entry(j, N) && |g| == j.p3cnt && j.hit == Hits(g)
    requires Track(g, start) == (j.lastNeg, j.numOsc)
    ensures var k := Phase3(j, o, N, Slow(fs));
      if Fails3(g + [o], start, N, fs) then !k.phase1
      else k.phase1 && k.phase2 && (k.phase3 <==> Passes3(g + [o], start))
  {
    HitsOne(g, o);
    TrackOne(g, o, start);
    hide Hits, Track;
  }

  /** The sample is tested: the averages are known, Phase 3 has not been passed, and nothing points to a
      calibration. */
  ghost predicate UnderTest(ins: seq<Input>, i: Input, c: Config)
    requires c.Valid()
  {
    var s := Run(ins, c);
    && !EventOf(ins, i, c).Restarted? && Run(ins + [i], c).a.status == 2 && !s.p.ph.phase3
    && !s.p.cal && !(Turns(ins, i.x, c) && s.p.ph.phase1 && i.mb == MbCal)
  }

  lemma TestsAt(s: State, i: Input, c: Config)
    requires StateInv(s, c)
    ensures s.a.ctr < c.L || s.a.cyc > 0
    ensures s.p.ph.phase3 ==> s.p.cyc.mdfCnt > 0
    ensures var (r, e) := Sample(s, i.x, i.t, i.mb, c); var o := SenseAt(s, i, c); var h := s.p.ph.(phase1 := true);
      && !e.Restarted? && r.a.status == 2 && !s.p.ph.phase3
      && !s.p.cal && !(Turned(s, i) && s.p.ph.phase1 && i.mb == MbCal) ==>
        var k := PhaseStep(h, o, c.N, Slow(c.fs));
        if !s.p.ph.phase1 && !o.trig then !r.p.ph.phase1
        else (k.phase1 <==> r.p.ph.phase1) && (k.phase1 ==> r.p.ph == k)
  {
    SampleIs(s, i, c);
    Frame(s.a, i.x, c);
    hide Sample, AvgStep, Restarts, AvgInv, PhaseInv, OscInv, CycleInv, OnsetInv, CycleStep, CountMwp;
    hide PhaseStep, OnsetAfter, Triggers, Frequency, Declare;
  }

  /** Over any run: a tested sample triggers, fails, goes on or passes exactly as the samples since the trigger
      call for. */
  lemma TestedIff(ins: seq<Input>, i: Input, c: Config)
    requires c.Valid()
    ensures var s, k, o := Run(ins, c).p.ph, Run(ins + [i], c).p.ph, SenseAt(Run(ins, c), i, c); UnderTest(ins, i, c) ==>
      if !s.phase1 && !o.trig then !k.phase1 else Judged(WitnessOf(ins, c), s.phase2, o, k, c.N, c.fs)
  {
    hide Run, Sample, SenseAt, StateInv, WitnessOf, Senses, TriggerSample, Turns, Turned;
    hide CutOut, WitnessInv, PhaseStep, Judged, PhaseInv;
    assert (ins + [i])[..|ins|] == ins;
    var s := Run(ins, c);
    RunLast(ins + [i], c);
    HeardNext(ins, i, c);
    RunWitnessed(ins, c);
    TestsAt(s, i, c);
    var h, o, w := s.p.ph.(phase1 := true), SenseAt(s, i, c), WitnessOf(ins, c);
    PhaseOf(s, w, c);
    if UnderTest(ins, i, c) && (s.p.ph.phase1 || o.trig) {
      StepIsJudged(w, h, o, c.N, c.fs);
      JudgedAlike(w, h.phase2, o, PhaseStep(h, o, c.N, Slow(c.fs)), Run(ins + [i], c).p.ph, c.N, c.fs);
    }
  }

  lemma JudgedAlike(w: Witness, inPhase3: bool, o: Sense, k: Phase, r: Phase, N: int, fs: real)
    requires Judged(w, inPhase3, o, k, N, fs) && (k.phase1 <==> r.phase1) && (k.phase1 ==> r == k)
    ensures Judged(w, inPhase3, o, r, N, fs)
  {
    hide Fails2, Passes2, Fails3, Passes3;
  }

  lemma PhaseOf(s: State, w: Witness, c: Config)
    requires StateInv(s, c) && WitnessInv(w, s.p.ph, c.N)
    ensures var h := s.p.ph.(phase1 := true); PhaseInv(h, c.N) && WitnessInv(w, h, c.N)
  {
    FreshWitness(w, s.p.ph, c.N);
    hide AvgInv, CycleInv, OscInv, OnsetInv, WitnessInv;
  }

  /** What a sample looks like to the tests: the half-cycle in progress against the threshold, saved at the
      trigger once there is one, its sign, and the sample against the amplitude threshold. */
  lemma SenseIs(ins: seq<Input>, i: Input, c: Config)
    requires c.Valid()
    ensures var s, a, o := Run(ins, c), Run(ins + [i], c).a, SenseAt(Run(ins, c), i, c); UnderTest(ins, i, c) ==>
      var half, v := Sum(OpenOf(ins + [i], c)) as real, SavedOf(ins, c);
      var mdf, lta := if s.p.ph.phase1 then v.mdf else a.mdfThresh, if s.p.ph.phase1 then v.lta else a.ltaThresh;
      && (o.trig <==> half >= mdf || -half >= mdf) && (o.neg <==> half < 0.0)
      && (s.p.ph.phase1 || o.trig ==> (o.big <==> i.x as real - a.aveLDC > lta || a.aveLDC - i.x as real > lta))
  {
    hide Run, Sample, SenseAt, StateInv, OpenOf, SavedOf, BookedOf, Length, FrequencyOf, Sum, Turns, Turned;
    assert (ins + [i])[..|ins|] == ins;
    RunLast(ins + [i], c);
    HeardNext(ins, i, c);
    RunRemembers(ins, c);
    RunRemembers(ins + [i], c);
    StatusStays(Run(ins, c), i, c);
    SenseRaw(Run(ins, c), i, c);
  }

  lemma SenseRaw(s: State, i: Input, c: Config)
    requires StateInv(s, c)
    ensures s.a.ctr < c.L || s.a.cyc > 0
    ensures s.p.ph.phase3 ==> s.p.cyc.mdfCnt > 0
    ensures var (r, e) := Sample(s, i.x, i.t, i.mb, c); var o := SenseAt(s, i, c);
      !e.Restarted? && r.a.status == 2 && !s.p.ph.phase3 ==>
        var half, a := r.p.cyc.running as real, r.a;
        var mdf := if s.p.ph.phase1 then s.p.on.mdfOrig else a.mdfThresh;
        var lta := if s.p.ph.phase1 then s.p.on.ltaOrig else a.ltaThresh;
        && (s.p.ph.phase1 ==> s.a.status == 2)
        && (o.trig <==> half >= mdf || -half >= mdf) && (o.neg <==> half < 0.0)
        && (s.p.ph.phase1 || o.trig ==> (o.big <==> i.x as real - a.aveLDC > lta || a.aveLDC - i.x as real > lta))
  {
    SampleIs(s, i, c);
    Frame(s.a, i.x, c);
    PhasesNest(s, c);
    var a := AvgStep(s.a, i.x, c);
    PhasesCycle(Bookkeep(s.p, a, i.mb, c), a, i.t, c);
    CountKept(s.p.on, c);
    hide Sample, AvgStep, Restarts, AvgInv, PhaseInv, OscInv, CycleInv, OnsetInv, CycleStep, CountMwp, Phases, Declare;
  }

  // ----- starting over, and calibrations

  /** The station starts over when it has been picked long enough, counted from the beginning of the triggering
      half-cycle or from zero once the pick was rejected, or when a calibration is over; and then only. */
  lemma RestartsIff(ins: seq<Input>, i: Input, c: Config)
    requires c.Valid()
    ensures var s := Run(ins, c); var since := i.t - if s.p.ph.phase1 then SavedOf(ins, c).time else 0.0;
      EventOf(ins, i, c).Restarted? <==>
        || (s.a.status == 3 && since >= c.mwpSeconds as real && since >= c.lgSeconds as real)
        || (Turns(ins, i.x, c) && s.p.ph.phase1 && i.mb == MbCalOver)
    ensures EventOf(ins, i, c).Restarted? ==>
      var r := Run(ins + [i], c); r.a == CLEARED && r.p == IDLE.(on := NO_ONSET.(freq := r.p.on.freq))
  {
    hide Run, Sample, StateInv, OpenOf, SavedOf, BookedOf, Length, FrequencyOf, Sum, Turns, Turned;
    assert (ins + [i])[..|ins|] == ins;
    RunLast(ins + [i], c);
    HeardNext(ins, i, c);
    RunRemembers(ins, c);
    RestartsAt(Run(ins, c), i, c);
  }

  lemma RestartsAt(s: State, i: Input, c: Config)
    requires StateInv(s, c)
    ensures s.a.ctr < c.L || s.a.cyc > 0
    ensures s.p.ph.phase3 ==> s.p.cyc.mdfCnt > 0
    ensures var (r, e) := Sample(s, i.x, i.t, i.mb, c);
      var since := i.t - if s.p.ph.phase1 then s.p.on.trigTime else 0.0;
      && (e.Restarted? <==>
            || (s.a.status == 3 && since >= c.mwpSeconds as real && since >= c.lgSeconds as real)
            || (Turned(s, i) && s.p.ph.phase1 && i.mb == MbCalOver))
      && (e.Restarted? ==> r.a == CLEARED && r.p == IDLE.(on := NO_ONSET.(freq := r.p.on.freq)))
  {
    InvReady(s, c);
    Frame(s.a, i.x, c);
    hide AvgStep, Phases, Declare, StillWaiting, AvgInv, PhaseInv, OscInv, CycleInv, CycleStep, CountMwp;
  }

  /** A calibration seen at a change of sign puts the candidate aside until the station starts over: its phases
      stay as they are, and nothing is declared or rejected. */
  lemma CalibrationHolds(ins: seq<Input>, i: Input, c: Config)
    requires c.Valid()
    ensures var s, r := Run(ins, c), Run(ins + [i], c); !EventOf(ins, i, c).Restarted? ==>
      && (r.p.cal <==> s.p.cal || (Turns(ins, i.x, c) && s.p.ph.phase1 && i.mb == MbCal))
      && (r.p.cal ==> r.p.ph == s.p.ph && EventOf(ins, i, c) == Quiet)
  {
    hide Run, Sample, StateInv, Turns, Turned;
    assert (ins + [i])[..|ins|] == ins;
    RunLast(ins + [i], c);
    HeardNext(ins, i, c);
    CalibrationAt(Run(ins, c), i, c);
  }

  lemma CalibrationAt(s: State, i: Input, c: Config)
    requires StateInv(s, c)
    ensures s.a.ctr < c.L || s.a.cyc > 0
    ensures s.p.ph.phase3 ==> s.p.cyc.mdfCnt > 0
    ensures var (r, e) := Sample(s, i.x, i.t, i.mb, c);
      !e.Restarted? ==>
        && (r.p.cal <==> s.p.cal || (Turned(s, i) && s.p.ph.phase1 && i.mb == MbCal))
        && (r.p.cal ==> r.p.ph == s.p.ph && e == Quiet)
  {
    InvReady(s, c);
    Frame(s.a, i.x, c);
    hide AvgStep, StillWaiting, AvgInv, PhaseInv, OscInv, CycleInv, CycleStep, CountMwp, PhaseStep;
    hide Triggers, SenseOf, OnsetAfter, Frequency, Strength, Threshold, Expired;
  }
}
