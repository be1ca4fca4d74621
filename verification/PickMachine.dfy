/** libsrc/get_pick.c: PickV, the Veith picker, one filtered sample at a time (real-time path). */
module PickMachine {
  import Reals
  import opened MovingAverage

  /** The running half-cycle, and the sum and number of those booked since Phase 1. */
  datatype Cycle = Cycle(perCyc: int, running: int, mdfTotal: int, mdfCnt: int)

  datatype Phase = Phase(
    phase1: bool, phase2: bool, phase3: bool, test1: bool, test2: bool,
    hit: int, mis: int, p2cnt: int, p3cnt: int, numOsc: int, lastNeg: bool)

  /** What Phase 1 saved, and what was measured since. */
  datatype Onset = Onset(mdfOrig: real, ltaOrig: real, trigTime: real, mwpCtr: int, freq: real, strength: real)

  datatype Picker = Picker(cyc: Cycle, ph: Phase, on: Onset, trig: bool, wait: int, cal: bool)

  datatype State = State(a: Averages, p: Picker)

  /** What GetMbMl reports at a change of sign: nothing, a sine-wave calibration, or its end. */
  datatype MbOutcome = MbOk | MbCal | MbCalOver

  datatype Event = Quiet | Declared(strength: real, freq: real) | Rejected | Restarted

  /** One sample as the phases see it: over the trigger, negative, over the amplitude threshold. */
  datatype Sense = Sense(trig: bool, neg: bool, big: bool)

  const NO_PHASE := Phase(false, false, false, false, false, 0, 0, 0, 0, 0, false)
  const NO_ONSET := Onset(0.0, 0.0, 0.0, 0, 0.0, 0.0)
  const IDLE := Picker(Cycle(0, 0, 0, 0), NO_PHASE, NO_ONSET, false, 0, false)
  const INITIAL := State(CLEARED, IDLE)

  /** The phase part of Reset(): the oscillation counter and the last sign stay. */
  function Fail(h: Phase): Phase {
    NO_PHASE.(numOsc := h.numOsc, lastNeg := h.lastNeg)
  }

  /** Reset() */
  function ResetPicker(p: Picker): Picker {
    Picker(p.cyc.(mdfTotal := 0, mdfCnt := 0), Fail(p.ph), NO_ONSET, p.trig, p.wait, false)
  }

  /** InitVar(): everything but the frequency last measured. */
  function Initialised(p: Picker): State {
    State(CLEARED, IDLE.(on := NO_ONSET.(freq := p.on.freq)))
  }

  predicate Turns(a: Averages) { !SameSign(a.mdfOld, a.mdfNew) }

  /** Adds the difference to the running half-cycle, or starts a new one; `book` when Phase 1 is on. */
  function CycleStep(y: Cycle, a: Averages, book: bool, N: int): Cycle {
    if Turns(a) then
      if book then Cycle(0, a.mdfNew, y.mdfTotal + AbsInt(y.running), y.mdfCnt + 1)
      else y.(perCyc := 0, running := a.mdfNew)
    else if y.perCyc + 1 < N then y.(perCyc := y.perCyc + 1, running := y.running + a.mdfNew)
    else y.(perCyc := 0, running := a.mdfNew)
  }

  function CountHit(h: Phase, o: Sense): Phase {
    if o.trig then h.(hit := h.hit + 1) else h.(mis := h.mis + 1)
  }

  /** Phase 2 on one sample; phase2 is set in the result when it passed. */
  function Phase2(h: Phase, o: Sense, N: int): Phase {
    if h.p2cnt + 1 > 3 * N then Fail(h)
    else
      var k := CountHit(h.(p2cnt := h.p2cnt + 1), o);
      if !o.trig && k.mis > k.hit then Fail(k)
      else
        var test1, test2 := k.test1 || (o.trig && k.hit == N), k.test2 || o.big;
        if test1 && test2
        then Phase(true, true, false, true, true, 0, 0, k.p2cnt, k.p3cnt, 0, o.neg)
        else k.(test1 := test1, test2 := test2)
  }

  /** Phase 3 on one sample; phase3 is set in the result when it passed.  `slow` is the number of
      misses in four seconds. */
  function Phase3(h: Phase, o: Sense, N: int, slow: int): Phase {
    if h.p3cnt + 1 > 12 * N then Fail(h)
    else
      var k := CountHit(h.(p3cnt := h.p3cnt + 1), o);
      if !o.trig then k
      else
        var osc := if k.lastNeg != o.neg then k.numOsc + 1 else k.numOsc;
        if osc < 6 then k.(numOsc := osc, lastNeg := o.neg)
        else if k.mis > k.hit && k.mis > slow then Fail(k.(numOsc := osc))
        else k.(numOsc := osc, phase3 := true)
  }

  /** The phase tests on one sample, once Phase 1 is on. */
  function PhaseStep(h: Phase, o: Sense, N: int, slow: int): Phase {
    if h.phase2 then Phase3(h, o, N, slow)
    else
      var j := Phase2(h, o, N);
      if j.phase2 then Phase3(j, o, N, slow) else j
  }

  predicate Triggers(p: Picker, a: Averages) {
    AbsInt(p.cyc.running) as real >= if p.ph.phase1 then p.on.mdfOrig else a.mdfThresh
  }

  /** What the first sample over the trigger saves. */
  function NewOnset(p: Picker, a: Averages, t: real, fs: real): Onset
    requires fs > 0.0
  {
    Onset(a.mdfThresh, a.ltaThresh, t - p.cyc.perCyc as real / fs, if p.cyc.perCyc == 0 then 1 else p.cyc.perCyc,
          p.on.freq, p.on.strength)
  }

  function OnsetAfter(p: Picker, a: Averages, t: real, fs: real): Onset
    requires fs > 0.0
  {
    if Triggers(p, a) && !p.ph.phase1 then NewOnset(p, a, t, fs) else p.on
  }

  function SenseOf(p: Picker, a: Averages, t: real, fs: real): Sense
    requires fs > 0.0
  {
    Sense(Triggers(p, a), p.cyc.running < 0, Reals.Abs(a.sampNew as real - a.aveLDC) > OnsetAfter(p, a, t, fs).ltaOrig)
  }

  /** 1 / ((m / fs) / 6) */
  function Frequency(m: int, fs: real): real
    requires fs > 0.0
  {
    if m == 0 then 0.0
    else
      assert m as real / fs * fs == m as real;
      1.0 / (m as real / fs / 6.0)
  }

  function Slow(fs: real): int { Reals.Trunc(4.0 * fs) }

  /** What a sample with onset `on` leaves when the phase tests resulted in `k`. */
  function Conclude(p: Picker, on: Onset, k: Phase, c: Config): Picker
    requires c.fs > 0.0
  {
    if !k.phase1 then ResetPicker(p.(ph := k, trig := false))
    else if !k.phase3 then p.(ph := k, on := on, trig := false)
    else
      var m := if on.mwpCtr == 0 then 1 else on.mwpCtr;
      p.(ph := k, on := on.(mwpCtr := m, freq := Frequency(m, c.fs)), trig := true)
  }

  /** Phases 1 to 3 on one sample. */
  function Phases(p: Picker, a: Averages, t: real, c: Config): Picker
    requires c.fs > 0.0
  {
    if !p.ph.phase1 && !Triggers(p, a) then p.(trig := false)
    else
      var k := PhaseStep(p.ph.(phase1 := true), SenseOf(p, a, t, c.fs), c.N, Slow(c.fs));
      Conclude(p, OnsetAfter(p, a, t, c.fs), k, c)
  }

  function Threshold(p: Picker): real {
    if Reals.Abs(p.on.mdfOrig) < 0.0001 then 1.0 else p.on.mdfOrig
  }

  function Strength(p: Picker): real
    requires p.cyc.mdfCnt > 0
  {
    p.cyc.mdfTotal as real / p.cyc.mdfCnt as real / Threshold(p)
  }

  /** The three-second wait is over: declare the pick, or reject it as weak and high-pitched. */
  function Declare(p: Picker, c: Config): (Picker, Event)
    requires p.cyc.mdfCnt > 0
  {
    var q := p.(on := p.on.(mdfOrig := Threshold(p), strength := Strength(p)), trig := false);
    if q.on.strength > c.snLocal || q.on.freq < c.minFLocal then (q, Declared(q.on.strength, q.on.freq))
    else (ResetPicker(q), Rejected)
  }

  predicate StillWaiting(p: Picker, c: Config) {
    p.wait + 1 < Reals.Trunc(c.fs * 3.0 + 0.01)
  }

  /** The part of a sample after the half-cycle bookkeeping. */
  function Evaluate(p: Picker, a: Averages, t: real, c: Config): (State, Event)
    requires c.fs > 0.0 && (p.ph.phase3 ==> p.cyc.mdfCnt > 0)
  {
    if p.cal || a.status == 3 then (State(a, p), Quiet)
    else if p.ph.phase3 then
      var q := p.(wait := p.wait + 1);
      if StillWaiting(p, c) then (State(a, q), Quiet)
      else
        var (d, e) := Declare(q, c);
        (State(a.(status := 3), d), e)
    else (State(a, Phases(p, a, t, c)), Quiet)
  }

  function CountMwp(on: Onset, c: Config): Onset {
    if 0 < on.mwpCtr <= Reals.Trunc(c.fs * c.mwpSeconds as real + 0.001) then on.(mwpCtr := on.mwpCtr + 1) else on
  }

  predicate Expired(a: Averages, on: Onset, t: real, c: Config) {
    a.status == 3 && t - on.trigTime >= c.mwpSeconds as real && t - on.trigTime >= c.lgSeconds as real
  }

  /** Mwp counter and half-cycle bookkeeping of a sample. */
  function Bookkeep(p: Picker, a: Averages, mb: MbOutcome, c: Config): (r: Picker)
    ensures r.ph == p.ph && r.cyc.mdfCnt >= p.cyc.mdfCnt
  {
    Picker(CycleStep(p.cyc, a, p.ph.phase1, c.N), p.ph, CountMwp(p.on, c), p.trig, p.wait,
           p.cal || (Turns(a) && p.ph.phase1 && mb == MbCal))
  }

  predicate Restarts(p: Picker, a: Averages, t: real, mb: MbOutcome, c: Config) {
    Expired(a, p.on, t, c) || (Turns(a) && p.ph.phase1 && mb == MbCalOver)
  }

  /** The picker's half of a sample, with the averages `a` already updated. */
  function Pick(p: Picker, a: Averages, t: real, mb: MbOutcome, c: Config): (State, Event)
    requires c.fs > 0.0 && (p.ph.phase3 ==> p.cyc.mdfCnt > 0)
  {
    if a.status < 2 then (State(a, p), Quiet)
    else if Restarts(p, a, t, mb, c) then (if Expired(a, p.on, t, c) then INITIAL else Initialised(p), Restarted)
    else Evaluate(Bookkeep(p, a, mb, c), a, t, c)
  }

  /** One pass of the sample loop of PickV. */
  function Sample(s: State, x: int, t: real, mb: MbOutcome, c: Config): (State, Event)
    requires c.Valid() && (s.a.ctr < c.L || s.a.cyc > 0) && (s.p.ph.phase3 ==> s.p.cyc.mdfCnt > 0)
  {
    var (r, e) := Pick(s.p, AvgStep(s.a, x, c), t, mb, c);
    (r.(a := r.a.(mdfOld := r.a.mdfNew)), e)
  }
}
