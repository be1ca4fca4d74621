/** What every sample of the picker keeps, and how long a trigger can stay undecided. */
module PickInvariants {
  import Reals
  import opened MovingAverage
  import opened PickMachine

  ghost predicate PhaseInv(h: Phase, N: int) {
    && (h.phase3 ==> h.phase2) && (h.phase2 ==> h.phase1)
    && 0 <= h.hit && 0 <= h.mis && 0 <= h.p2cnt <= 3 * N && 0 <= h.p3cnt <= 12 * N
    && (!h.phase1 ==> h.hit == h.mis == h.p2cnt == h.p3cnt == 0 && !h.test1 && !h.test2)
    && (h.phase1 && !h.phase2 ==> h.hit + h.mis == h.p2cnt && h.p3cnt == 0 && h.mis <= h.hit
                                  && (h.test1 <==> h.hit >= N) && !(h.test1 && h.test2))
    && (h.phase2 ==> h.hit + h.mis == h.p3cnt && h.p3cnt >= 1 && h.p2cnt >= 1 && 0 <= h.numOsc)
    && (h.phase2 && !h.phase3 ==> h.numOsc < 6)
    && (h.phase3 ==> h.numOsc == 6)
  }

  /** Samples since the trigger, the triggering one included. */
  ghost function Age(h: Phase): int {
    if h.phase2 then h.p2cnt + h.p3cnt - 1 else h.p2cnt
  }

  /** Reversals that the half-cycle count has to cover: those seen, and the one in progress. */
  ghost function Owed(h: Phase, neg: bool): int {
    if h.phase2 then h.numOsc + if !h.phase3 && neg != h.lastNeg then 1 else 0 else 0
  }

  lemma Phase2Inv(h: Phase, o: Sense, N: int)
    requires N >= 1 && PhaseInv(h, N) && h.phase1 && !h.phase2
    ensures var j := Phase2(h, o, N);
      if j.phase2 then
        j == Phase(true, true, false, true, true, 0, 0, h.p2cnt + 1, 0, 0, o.neg) && h.p2cnt + 1 <= 3 * N
      else PhaseInv(j, N) && (j.phase1 ==> j.p2cnt == h.p2cnt + 1) && !j.phase3
  {}

  /** Phase 3 from where it starts or from a sample before. */
  ghost predicate Phase3Entry(j: Phase, N: int) {
    && j.phase1 && j.phase2 && !j.phase3 && 0 <= j.hit && 0 <= j.mis && j.hit + j.mis == j.p3cnt
    && 1 <= j.p2cnt <= 3 * N && 0 <= j.p3cnt <= 12 * N && 0 <= j.numOsc < 6
  }

  lemma Phase3Inv(j: Phase, o: Sense, N: int, slow: int)
    requires N >= 1 && Phase3Entry(j, N)
    ensures var k := Phase3(j, o, N, slow);
      && PhaseInv(k, N)
      && (k.phase1 ==> k.phase2 && k.p2cnt == j.p2cnt && k.p3cnt == j.p3cnt + 1)
      && (k.phase1 ==> Owed(k, o.neg) <= Owed(j, o.neg))
  {}

  /** One sample of the phase tests: the counters match, and the age grows by exactly one. */
  lemma PhaseStepInv(h: Phase, o: Sense, N: int, slow: int)
    requires N >= 1 && PhaseInv(h, N) && h.phase1 && !h.phase3
    ensures var k := PhaseStep(h, o, N, slow);
      && PhaseInv(k, N)
      && (k.phase1 ==> Age(k) == Age(h) + 1)
      && (k.phase1 ==> Owed(k, o.neg) <= Owed(h, o.neg))
  {
    hide Phase2, Phase3;
    if h.phase2 {
      Phase3Inv(h, o, N, slow);
    } else {
      Phase2Inv(h, o, N);
      var j := Phase2(h, o, N);
      if j.phase2 {
        Phase3Inv(j, o, N, slow);
      }
    }
  }

  lemma AgeBound(h: Phase, N: int)
    requires N >= 1 && PhaseInv(h, N) && h.phase1
    ensures 0 <= Age(h) <= 15 * N - 1
  {}

  ghost predicate CycleInv(y: Cycle, mdfOld: int, phase1: bool, N: int) {
    && 0 <= y.perCyc < N && 0 <= y.mdfCnt
    && (y.running == 0 || SameSign(y.running, mdfOld))
    && (phase1 ==> SameSign(y.running, mdfOld))
  }

  lemma CycleStepInv(y: Cycle, a: Averages, book: bool, N: int)
    requires N >= 1 && CycleInv(y, a.mdfOld, book, N)
    ensures var z := CycleStep(y, a, book, N);
      && CycleInv(z, a.mdfNew, true, N)
      && (book ==> z.mdfCnt == y.mdfCnt + (if Turns(a) then 1 else 0)
                   && (Turns(a) <==> (z.running < 0) != (y.running < 0)))
  {}

  /** The number of half-cycles booked covers the reversals, so it is at least 6 once Phase 3 is
      passed. */
  ghost predicate OscInv(h: Phase, y: Cycle) {
    y.mdfCnt >= Owed(h, y.running < 0)
  }

  /** A larger count covers the reversal that a change of sign adds. */
  lemma OscCycle(h: Phase, y: Cycle, z: Cycle, N: int)
    requires PhaseInv(h, N) && OscInv(h, y)
    requires z.mdfCnt == y.mdfCnt + (if (z.running < 0) != (y.running < 0) then 1 else 0)
    ensures OscInv(h, z)
  {}

  ghost function LowestFrequency(c: Config): real
    requires c.Valid()
  {
    3.0 * c.fs / (8 * c.N) as real
  }

  /** Nothing saved; a frequency may be left from an earlier candidate. */
  ghost predicate Blank(on: Onset) { on == NO_ONSET.(freq := on.freq) }

  ghost predicate OnsetInv(p: Picker, c: Config)
    requires c.Valid()
  {
    && (!p.ph.phase1 ==> Blank(p.on) && !p.cal && p.cyc.mdfCnt == 0 && p.cyc.mdfTotal == 0)
    && (p.ph.phase1 && !p.ph.phase3 && !p.cal ==> 1 <= p.on.mwpCtr <= c.N - 1 + Age(p.ph))
    && (p.ph.phase3 ==> p.on.freq >= LowestFrequency(c))
    && p.on.mwpCtr >= 0
  }

  ghost predicate StateInv(s: State, c: Config) {
    && c.Valid() && AvgInv(s.a, c) && 1 <= s.a.status <= 3
    && (s.a.status == 1 ==> s.p == IDLE.(on := s.p.on) && Blank(s.p.on))
    && (s.a.status == 3 && s.p.ph.phase1 ==> s.p.ph.phase3)
    && (s.p.trig ==> s.p.ph.phase3)
    && CycleInv(s.p.cyc, s.a.mdfOld, s.p.ph.phase1, c.N)
    && PhaseInv(s.p.ph, c.N) && OscInv(s.p.ph, s.p.cyc) && OnsetInv(s.p, c)
  }

  lemma InvReady(s: State, c: Config)
    requires StateInv(s, c)
    ensures s.a.ctr < c.L || s.a.cyc > 0
    ensures s.p.ph.phase3 ==> s.p.cyc.mdfCnt >= 6
  {}

  /** The frequency measured over at most 16 N samples. */
  lemma FrequencyBound(m: int, c: Config)
    requires c.Valid() && 1 <= m <= 16 * c.N
    ensures Frequency(m, c.fs) >= LowestFrequency(c)
  {
    var period := m as real / c.fs / 6.0;
    assert m as real / c.fs * c.fs == m as real;
    FrequencyProduct(m as real, c.fs, m as real / c.fs, c.N as real);
  }

  lemma FrequencyProduct(m: real, fs: real, q: real, n: real)
    requires fs > 0.0 && n > 0.0 && 0.0 < m <= 16.0 * n && q * fs == m
    ensures q / 6.0 != 0.0 && 1.0 / (q / 6.0) >= 3.0 * fs / (8.0 * n)
  {
    assert q > 0.0 by {
      if q <= 0.0 {
        Reals.MulNonNegative(-q, fs);
      }
    }
    var f, g := 1.0 / (q / 6.0), 3.0 * fs / (8.0 * n);
    assert f * q == 6.0 && g * (8.0 * n) == 3.0 * fs;
  }

  // ----- one sample

  /** The picker after the half-cycle bookkeeping, `mdfNew` being the difference just booked. */
  ghost predicate Booked(p: Picker, mdfNew: int, c: Config) {
    && c.Valid()
    && CycleInv(p.cyc, mdfNew, true, c.N) && PhaseInv(p.ph, c.N) && OscInv(p.ph, p.cyc)
    && (!p.ph.phase1 ==> Blank(p.on) && !p.cal && p.cyc.mdfCnt == 0 && p.cyc.mdfTotal == 0)
    && (p.ph.phase1 && !p.ph.phase3 && !p.cal ==> 1 <= p.on.mwpCtr <= c.N + Age(p.ph))
    && (p.ph.phase3 ==> p.on.freq >= LowestFrequency(c))
    && p.on.mwpCtr >= 0
  }

  lemma BookkeepInv(p: Picker, a: Averages, mb: MbOutcome, c: Config)
    requires c.Valid() && OnsetInv(p, c) && CycleInv(p.cyc, a.mdfOld, p.ph.phase1, c.N)
    requires PhaseInv(p.ph, c.N) && OscInv(p.ph, p.cyc)
    ensures Booked(Bookkeep(p, a, mb, c), a.mdfNew, c)
  {
    hide CycleStep, Turns, LowestFrequency, Reals.Trunc;
    CycleStepInv(p.cyc, a, p.ph.phase1, c.N);
    var z := CycleStep(p.cyc, a, p.ph.phase1, c.N);
    if p.ph.phase1 {
      OscCycle(p.ph, p.cyc, z, c.N);
    } else {
      NotBooked(p.cyc, a, c.N);
    }
  }

  lemma NotBooked(y: Cycle, a: Averages, N: int)
    ensures var z := CycleStep(y, a, false, N); z.mdfCnt == y.mdfCnt && z.mdfTotal == y.mdfTotal
  {}

  /** What the phase tests make of a booked picker. */
  ghost predicate Settled(q: Picker, mdfNew: int, c: Config) {
    && c.Valid() && (q.trig ==> q.ph.phase3)
    && CycleInv(q.cyc, mdfNew, q.ph.phase1, c.N) && PhaseInv(q.ph, c.N) && OscInv(q.ph, q.cyc) && OnsetInv(q, c)
  }

  lemma ResetSettled(p: Picker, mdfNew: int, c: Config)
    requires c.Valid() && CycleInv(p.cyc, mdfNew, true, c.N) && !p.trig
    ensures Settled(ResetPicker(p), mdfNew, c)
  {}

  lemma PhasesInv(p: Picker, a: Averages, t: real, c: Config)
    requires Booked(p, a.mdfNew, c) && !p.cal && !p.ph.phase3
    ensures Settled(Phases(p, a, t, c), a.mdfNew, c)
  {
    hide Triggers, SenseOf, PhaseStep, LowestFrequency, Settled;
    if !p.ph.phase1 && !Triggers(p, a) {
      Untriggered(p, a.mdfNew, c);
    } else {
      var o := SenseOf(p, a, t, c.fs);
      assert o.neg == (p.cyc.running < 0) by { NegOf(p, a, t, c.fs); }
      var h := p.ph.(phase1 := true);
      var on := OnsetAfter(p, a, t, c.fs);
      PhaseStepInv(h, o, c.N, Slow(c.fs));
      PhasesSettled(p, h, PhaseStep(h, o, c.N, Slow(c.fs)), on, a.mdfNew, c);
    }
  }

  lemma NegOf(p: Picker, a: Averages, t: real, fs: real)
    requires fs > 0.0
    ensures SenseOf(p, a, t, fs).neg == (p.cyc.running < 0)
  {}

  lemma Untriggered(p: Picker, mdfNew: int, c: Config)
    requires Booked(p, mdfNew, c) && !p.ph.phase1
    ensures Settled(p.(trig := false), mdfNew, c)
  {}

  /** The last step of Phases, from the result `k` of the phase tests. */
  lemma PhasesSettled(p: Picker, h: Phase, k: Phase, on: Onset, mdfNew: int, c: Config)
    requires Booked(p, mdfNew, c) && !p.cal && PhaseInv(h, c.N) && h.phase1 && !h.phase3 && PhaseInv(k, c.N)
    requires OscInv(h, p.cyc) && 1 <= on.mwpCtr <= c.N + Age(h)
    requires k.phase1 ==> Age(k) == Age(h) + 1 && Owed(k, p.cyc.running < 0) <= Owed(h, p.cyc.running < 0)
    ensures !k.phase1 ==> Settled(ResetPicker(p.(ph := k, trig := false)), mdfNew, c)
    ensures k.phase1 && !k.phase3 ==> Settled(p.(ph := k, on := on, trig := false), mdfNew, c)
    ensures k.phase3 ==> Settled(p.(ph := k, on := on.(mwpCtr := on.mwpCtr, freq := Frequency(on.mwpCtr, c.fs)), trig := true), mdfNew, c)
  {
    hide Frequency;
    if !k.phase1 {
      ResetSettled(p.(ph := k, trig := false), mdfNew, c);
    } else if k.phase3 {
      AgeBound(k, c.N);
      FrequencyBound(on.mwpCtr, c);
    }
  }

  /** The state at the end of a sample: the new difference becomes the old one. */
  ghost predicate EndInv(r: State, c: Config) {
    StateInv(r.(a := r.a.(mdfOld := r.a.mdfNew)), c)
  }

  lemma SettledEnds(q: Picker, a: Averages, status: int, c: Config)
    requires Settled(q, a.mdfNew, c) && AvgInv(a, c) && 2 <= a.status <= 3 && 2 <= status <= 3
    requires status == 3 && q.ph.phase1 ==> q.ph.phase3
    ensures EndInv(State(a.(status := status), q), c)
  {
    hide PhaseInv, OscInv, CycleInv, OnsetInv;
  }

  lemma EvaluateInv(p: Picker, a: Averages, t: real, c: Config)
    requires Booked(p, a.mdfNew, c) && AvgInv(a, c) && 2 <= a.status <= 3
    requires (p.trig ==> p.ph.phase3) && (a.status == 3 && p.ph.phase1 ==> p.ph.phase3)
    ensures p.ph.phase3 ==> p.cyc.mdfCnt > 0
    ensures EndInv(Evaluate(p, a, t, c).0, c)
  {
    assert p.ph.phase3 ==> p.cyc.mdfCnt > 0 by { CountAtPhase3(p, a.mdfNew, c); }
    hide Declare, Phases, StillWaiting, EndInv, Settled, Booked, AvgInv;
    if p.cal || a.status == 3 {
      SettledEnds(p, a, a.status, c);
    } else if p.ph.phase3 {
      var q := p.(wait := p.wait + 1);
      if StillWaiting(p, c) {
        SettledEnds(q, a, a.status, c);
      } else {
        SettledEnds(Declare(q, c).0, a, 3, c);
      }
    } else {
      PhasesInv(p, a, t, c);
      SettledEnds(Phases(p, a, t, c), a, a.status, c);
    }
  }

  lemma CountAtPhase3(p: Picker, mdfNew: int, c: Config)
    requires Booked(p, mdfNew, c)
    ensures p.ph.phase3 ==> p.cyc.mdfCnt >= 6
  {}

  /** Every sample keeps every invariant, whatever the calibration test reports. */
  lemma SampleInv(s: State, x: int, t: real, mb: MbOutcome, c: Config)
    requires StateInv(s, c)
    ensures s.a.ctr < c.L || s.a.cyc > 0
    ensures s.p.ph.phase3 ==> s.p.cyc.mdfCnt > 0
    ensures StateInv(Sample(s, x, t, mb, c).0, c)
  {
    var a := AvgStep(s.a, x, c);
    AvgStepInv(s.a, x, c);
    hide AvgStep, AvgInv, Evaluate, Restarts, Booked, OscInv, PhaseInv, CycleInv, OnsetInv, Age;
    assert s.p.ph.phase3 ==> s.p.cyc.mdfCnt > 0 by { InvReady(s, c); }
    if a.status < 2 {
      IdleEnds(a, s.p.on, c);
    } else if Restarts(s.p, a, t, mb, c) {
      IdleEnds(CLEARED, NO_ONSET.(freq := s.p.on.freq), c);
    } else {
      BookkeepInv(s.p, a, mb, c);
      EvaluateInv(Bookkeep(s.p, a, mb, c), a, t, c);
    }
  }

  lemma IdleEnds(a: Averages, on: Onset, c: Config)
    requires c.Valid() && AvgInv(a, c) && a.status == 1 && Blank(on)
    ensures EndInv(State(a, IDLE.(on := on)), c)
  {}
}
