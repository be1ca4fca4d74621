/** libsrc/get_pick.c: the station record that MovingAvg, Reset and PickV update in place, tied to the
    functions of MovingAverage and PickMachine. */
module Station {
  import Reals
  import opened MovingAverage
  import opened PickMachine
  import PickInvariants
  import PickHistory
  import PickRuns

  /** The picker fields of a station, kept in four records. */
  class Station {
    var averages: Averages
    var cycle: Cycle
    var phase: Phase
    var onset: Onset
    var trig: bool
    var wait: int
    var cal: bool

    function ThePicker(): Picker
      reads this
    {
      Picker(cycle, phase, onset, trig, wait, cal)
    }

    function TheState(): State
      reads this
    {
      State(averages, ThePicker())
    }

    constructor ()
      ensures TheState() == INITIAL
    {
      averages, cycle, phase, onset, trig, wait, cal := CLEARED, IDLE.cyc, NO_PHASE, NO_ONSET, false, 0, false;
    }

    /** libsrc/get_pick.c:279-379, the averages of the filtered signal. */
    method MovingAvg(x: int, c: Config)
      requires c.L > 1 && (averages.ctr < c.L || averages.cyc > 0)
      modifies this`averages
      ensures averages == AvgStep(old(averages), x, c)
    {
      hide Accumulate, CloseBlock, CloseRun;
      averages := averages.(sampNew := x, mdfNew := x - averages.sampOld);
      if averages.ctr < c.L {
        AddToSums();
      } else {
        EndBlock(c);
      }
      if SameSign(averages.mdfOld, averages.mdfNew) && averages.perCyc + 1 < c.N {
        averages := averages.(perCyc := averages.perCyc + 1, run := averages.run + averages.mdfNew);
      } else {
        EndRun();
      }
      averages := averages.(sampOld := x, ctr := averages.ctr + 1);
    }

    method AddToSums()
      modifies this`averages
      ensures averages == Accumulate(old(averages))
    {
      var sample := averages.sampOld as real;
      if averages.status == 1 {
        averages := averages.(sumLDC := averages.sumLDC + sample);
        averages := averages.(sumLTA := averages.sumLTA + AbsInt(averages.sampOld) as real);
      } else {
        averages := averages.(sumLDC := averages.sumLDC + (sample - averages.aveLDC));
        averages := averages.(sumLTA := averages.sumLTA + (Reals.Abs(sample - averages.aveLDC) - averages.aveLTA));
      }
    }

    method EndBlock(c: Config)
      requires c.L > 1 && averages.cyc > 0
      modifies this`averages
      ensures averages == CloseBlock(old(averages), c)
    {
      SetAverages(c);
      hide NewAverages;
      averages := averages.(sumMDF := 0.0, sumLDC := 0.0, sumLTA := 0.0, ctr := 0, cyc := 0);
      averages := averages.(mdfThresh := 0.5 * c.signalToNoise as real * averages.aveMDF,
                            ltaThresh := 1.57 * c.signalToNoise as real * averages.aveLTA);
    }

    method SetAverages(c: Config)
      requires c.L > 1 && averages.cyc > 0
      modifies this`averages
      ensures averages == NewAverages(old(averages), c.L)
    {
      var a := averages;
      if a.status == 1 {
        averages := averages.(aveMDF := a.sumMDF / a.cyc as real);
        averages := averages.(aveLDC := a.sumLDC / (c.L - 1) as real);
        averages := averages.(aveLTA := a.sumLTA / (c.L - 1) as real);
        averages := averages.(status := 2);
      } else {
        averages := averages.(aveMDF := a.aveMDF + 0.5 * a.sumMDF / a.cyc as real);
        averages := averages.(aveLDC := a.aveLDC + 0.5 * a.sumLDC / c.L as real);
        averages := averages.(aveLTA := a.aveLTA + 0.5 * a.sumLTA / c.L as real);
      }
    }

    method EndRun()
      modifies this`averages
      ensures averages == CloseRun(old(averages))
    {
      var size := AbsInt(averages.run) as real;
      if averages.status == 1 {
        averages := averages.(sumMDF := averages.sumMDF + size);
      } else {
        averages := averages.(sumMDF := averages.sumMDF + (size - averages.aveMDF));
      }
      averages := averages.(run := averages.mdfNew, cyc := averages.cyc + 1, perCyc := 0);
    }

    /** Reset() */
    method Reset()
      modifies this`cycle, this`phase, this`onset, this`cal
      ensures ThePicker() == ResetPicker(old(ThePicker()))
    {
      phase := phase.(phase1 := false, phase2 := false, phase3 := false, test1 := false, test2 := false);
      phase := phase.(hit := 0, mis := 0, p2cnt := 0, p3cnt := 0);
      onset := NO_ONSET;
      cycle := cycle.(mdfTotal := 0, mdfCnt := 0);
      cal := false;
    }

    /** libsrc/filters.c:462-548: InitVar, after iPickStatus was set to 1. */
    method InitVar()
      modifies this
      ensures TheState() == Initialised(old(ThePicker()))
    {
      averages, cycle, phase, trig, wait, cal := CLEARED, IDLE.cyc, NO_PHASE, false, 0, false;
      onset := NO_ONSET.(freq := onset.freq);
    }

    /** libsrc/get_pick.c:576-602: cycle changes. */
    method UpdateCycle(mb: MbOutcome, c: Config)
      modifies this`cycle, this`cal
      ensures cycle == CycleStep(old(cycle), averages, phase.phase1, c.N)
      ensures cal == (old(cal) || (Turns(averages) && phase.phase1 && mb == MbCal))
    {
      if SameSign(averages.mdfOld, averages.mdfNew) {
        cycle := cycle.(perCyc := cycle.perCyc + 1);
        if cycle.perCyc < c.N {
          cycle := cycle.(running := cycle.running + averages.mdfNew);
        } else {
          cycle := cycle.(running := averages.mdfNew, perCyc := 0);
        }
      } else {
        if phase.phase1 {
          cycle := cycle.(mdfTotal := cycle.mdfTotal + AbsInt(cycle.running));
          cycle := cycle.(mdfCnt := cycle.mdfCnt + 1);
          cal := cal || mb == MbCal;
        }
        cycle := cycle.(running := averages.mdfNew, perCyc := 0);
      }
    }

    /** libsrc/get_pick.c:634-679: Phase 1. */
    method CheckTrigger(t: real, c: Config)
      requires c.fs > 0.0 && !trig
      modifies this`trig, this`phase, this`onset
      ensures trig == Triggers(old(ThePicker()), averages)
      ensures phase == old(phase).(phase1 := old(phase).phase1 || trig)
      ensures onset == OnsetAfter(old(ThePicker()), averages, t, c.fs)
    {
      if AbsInt(cycle.running) as real >= (if phase.phase1 then onset.mdfOrig else averages.mdfThresh) {
        trig := true;
        if !phase.phase1 {
          phase := phase.(phase1 := true);
          onset := onset.(mdfOrig := averages.mdfThresh, ltaOrig := averages.ltaThresh);
          onset := onset.(mwpCtr := cycle.perCyc);
          if onset.mwpCtr == 0 {
            onset := onset.(mwpCtr := 1);
          }
          onset := onset.(trigTime := t - cycle.perCyc as real / c.fs);
        }
      }
    }

    method Count(o: Sense)
      requires o.trig == trig
      modifies this`phase
      ensures phase == CountHit(old(phase), o)
    {
      if trig {
        phase := phase.(hit := phase.hit + 1);
      } else {
        phase := phase.(mis := phase.mis + 1);
      }
    }

    /** libsrc/get_pick.c:683-716: Phase 2.  The result says whether the sample jumped to the reset. */
    method TryPhase2(o: Sense, c: Config) returns (failed: bool)
      requires phase.phase1 && !phase.phase2 && !phase.phase3 && o.trig == trig
      modifies this`phase
      ensures var j := Phase2(old(phase), o, c.N); if failed then j == Fail(phase) else j == phase && j.phase1
    {
      failed := false;
      phase := phase.(p2cnt := phase.p2cnt + 1);
      if phase.p2cnt > 3 * c.N {
        return true;
      }
      Count(o);
      if trig {
        if phase.hit == c.N {
          phase := phase.(test1 := true);
        }
      } else if phase.mis > phase.hit {
        return true;
      }
      if o.big {
        phase := phase.(test2 := true);
      }
      if phase.test1 && phase.test2 {
        phase := phase.(phase2 := true, numOsc := 0, hit := 0, mis := 0, lastNeg := o.neg);
      }
    }

    /** libsrc/get_pick.c:718-752: Phase 3 up to its tests. */
    method TryPhase3(o: Sense, c: Config) returns (failed: bool)
      requires phase.phase1 && phase.phase2 && !phase.phase3 && o.trig == trig
      modifies this`phase
      ensures var k := Phase3(old(phase), o, c.N, Slow(c.fs)); if failed then k == Fail(phase) else k == phase && k.phase1
    {
      failed := false;
      phase := phase.(p3cnt := phase.p3cnt + 1);
      if phase.p3cnt > 12 * c.N {
        return true;
      }
      Count(o);
      if !trig {
        return;
      }
      if phase.lastNeg != o.neg {
        phase := phase.(numOsc := phase.numOsc + 1);
      }
      if phase.numOsc < 6 {
        phase := phase.(lastNeg := o.neg);
        return;
      }
      if phase.mis > phase.hit && phase.mis > Slow(c.fs) {
        return true;
      }
      phase := phase.(phase3 := true);
    }

    /** The jumps between Phases 2 and 3 and the reset. */
    method TestPhases(o: Sense, c: Config) returns (failed: bool)
      requires phase.phase1 && !phase.phase3 && o.trig == trig
      modifies this`phase
      ensures var k := PhaseStep(old(phase), o, c.N, Slow(c.fs)); if failed then k == Fail(phase) else k == phase && k.phase1
    {
      hide Phase2, Phase3;
      failed := false;
      if !phase.phase2 {
        failed := TryPhase2(o, c);
        if failed {
          return;
        }
        NotYet(old(phase), o, c.N);
      }
      if phase.phase2 {
        failed := TryPhase3(o, c);
      }
    }

    method Sensed(t: real, c: Config, ghost p: Picker) returns (o: Sense)
      requires c.fs > 0.0 && onset == OnsetAfter(p, averages, t, c.fs) && trig == Triggers(p, averages) && cycle == p.cyc
      ensures o == SenseOf(p, averages, t, c.fs)
    {
      o := Sense(trig, cycle.running < 0, Reals.Abs(averages.sampNew as real - averages.aveLDC) > onset.ltaOrig);
    }

    method Finish(failed: bool, c: Config, ghost p: Picker, ghost k: Phase)
      requires c.fs > 0.0 && cycle == p.cyc && wait == p.wait && cal == p.cal
      requires if failed then k == Fail(phase) else k == phase && k.phase1
      modifies this`trig, this`cycle, this`phase, this`onset, this`cal
      ensures ThePicker() == Conclude(p, old(onset), k, c)
    {
      hide Frequency;
      trig := false;
      if failed {
        Reset();
      } else if phase.phase3 {
        if onset.mwpCtr == 0 {
          onset := onset.(mwpCtr := 1);
        }
        onset := onset.(freq := Frequency(onset.mwpCtr, c.fs));
        trig := true;
      }
    }

    /** libsrc/get_pick.c:634-752 and the labels Reset and Phase4. */
    method RunPhases(t: real, c: Config)
      requires c.fs > 0.0 && !trig && !phase.phase3
      modifies this`trig, this`cycle, this`phase, this`onset, this`cal
      ensures ThePicker() == Phases(old(ThePicker()), averages, t, c)
    {
      hide Triggers, OnsetAfter, PhaseStep, SenseOf, Conclude;
      ghost var p := ThePicker();
      CheckTrigger(t, c);
      if phase.phase1 {
        var o := Sensed(t, c, p);
        assert o.trig == trig by { SenseTrig(p, averages, t, c.fs); }
        ghost var k := PhaseStep(phase, o, c.N, Slow(c.fs));
        assert phase == p.ph.(phase1 := true);
        var failed := TestPhases(o, c);
        Finish(failed, c, p, k);
      } else {
        OnsetQuiet(p, averages, t, c.fs);
        trig := false;
      }
    }

    /** libsrc/get_pick.c:754-790: the pick counter. */
    method DeclarePick(c: Config) returns (e: Event)
      requires cycle.mdfCnt > 0
      modifies this`averages, this`trig, this`cycle, this`phase, this`onset, this`cal
      ensures (ThePicker(), e) == Declare(old(ThePicker()), c)
      ensures averages == old(averages).(status := 3)
    {
      averages := averages.(status := 3);
      var total, count := cycle.mdfTotal, cycle.mdfCnt;
      if Reals.Abs(onset.mdfOrig) < 0.0001 {
        onset := onset.(mdfOrig := 1.0);
      }
      onset := onset.(strength := total as real / count as real / onset.mdfOrig);
      trig := false;
      if onset.strength > c.snLocal || onset.freq < c.minFLocal {
        e := Declared(onset.strength, onset.freq);
      } else {
        e := Rejected;
        Reset();
      }
    }

    /** One pass of the sample loop, libsrc/get_pick.c:511-796. */
    method ProcessSample(i: PickHistory.Input, c: Config) returns (e: Event)
      requires PickInvariants.StateInv(TheState(), c)
      modifies this
      ensures PickInvariants.StateInv(TheState(), c)
      ensures (averages.ctr < c.L || averages.cyc > 0)
      ensures old(averages.ctr < c.L || averages.cyc > 0) && old(phase.phase3 ==> cycle.mdfCnt > 0)
      ensures (TheState(), e) == Sample(old(TheState()), i.x, i.t, i.mb, c)
    {
      PickInvariants.SampleInv(TheState(), i.x, i.t, i.mb, c);
      ghost var s := TheState();
      assert c.fs > 0.0 && (s.p.trig ==> s.p.ph.phase3);
      PickInvariants.InvReady(Sample(s, i.x, i.t, i.mb, c).0, c);
      hide PickInvariants.StateInv, AvgStep;
      MovingAvg(i.x, c);
      e := Quiet;
      if averages.status >= 2 {
        e := PickSample(i, c);
      }
      averages := averages.(mdfOld := averages.mdfNew);
    }

    method PickSample(i: PickHistory.Input, c: Config) returns (e: Event)
      requires averages.status >= 2 && c.fs > 0.0 && (phase.phase3 ==> cycle.mdfCnt > 0) && (trig ==> phase.phase3)
      modifies this
      ensures (TheState(), e) == Pick(old(ThePicker()), old(averages), i.t, i.mb, c)
    {
      hide CycleStep, Phases, Declare, CountMwp;
      e := Quiet;
      if Restarts(ThePicker(), averages, i.t, i.mb, c) {
        var expired := Expired(averages, onset, i.t, c);
        InitVar();
        if expired {
          Reset();
        }
        return Restarted;
      }
      onset := CountMwp(onset, c);
      UpdateCycle(i.mb, c);
      assert ThePicker() == Bookkeep(old(ThePicker()), averages, i.mb, c);
      if cal || averages.status == 3 {
        return;
      }
      if phase.phase3 {
        wait := wait + 1;
        if wait < Reals.Trunc(c.fs * 3.0 + 0.01) {
          return;
        }
        e := DeclarePick(c);
      } else {
        RunPhases(i.t, c);
      }
    }

    /** PickV over one packet: sample k has time `start` + k / fs. */
    method PickV(packet: seq<int>, start: real, mbs: seq<MbOutcome>, c: Config) returns (events: seq<Event>)
      requires PickInvariants.StateInv(TheState(), c) && |mbs| == |packet|
      modifies this
      ensures c.Valid() && PickInvariants.StateInv(TheState(), c)
      ensures old(PickInvariants.StateInv(TheState(), c)) && TheState() == PickRuns.RunFrom(old(TheState()), Inputs(packet, start, mbs, c.fs), c)
      ensures events == PickRuns.EventsFrom(old(TheState()), Inputs(packet, start, mbs, c.fs), c)
    {
      hide PickInvariants.StateInv, Sample, PickRuns.RunFrom, PickRuns.EventsFrom, Inputs;
      FromInv(TheState(), c);
      ghost var s, ins := TheState(), Inputs(packet, start, mbs, c.fs);
      events := [];
      RunFromNone(s, c);
      assert ins[..0] == [];
      for k := 0 to |packet|
        invariant PickInvariants.StateInv(s, c) && PickInvariants.StateInv(TheState(), c)
        invariant TheState() == PickRuns.RunFrom(s, ins[..k], c) && events == PickRuns.EventsFrom(s, ins[..k], c)
      {
        var i := PickHistory.Input(packet[k], start + k as real / c.fs, mbs[k]);
        InputAt(packet, start, mbs, c.fs, k);
        RunFromStep(s, ins, k, c);
        var e := ProcessSample(i, c);
        events := events + [e];
      }
      assert ins[..|packet|] == ins;
    }
  }

  lemma FromInv(s: State, c: Config)
    requires PickInvariants.StateInv(s, c)
    ensures c.Valid() && c.fs > 0.0
  {}

  lemma OnsetQuiet(p: Picker, a: Averages, t: real, fs: real)
    requires fs > 0.0 && !Triggers(p, a)
    ensures OnsetAfter(p, a, t, fs) == p.on
  {}

  lemma RunFromNone(s: State, c: Config)
    requires PickInvariants.StateInv(s, c)
    ensures PickRuns.RunFrom(s, [], c) == s && PickRuns.EventsFrom(s, [], c) == []
  {}

  lemma RunFromStep(s: State, ins: seq<PickHistory.Input>, k: nat, c: Config)
    requires PickInvariants.StateInv(s, c) && k < |ins|
    ensures var r := PickRuns.RunFrom(s, ins[..k], c);
      && (r.a.ctr < c.L || r.a.cyc > 0) && (r.p.ph.phase3 ==> r.p.cyc.mdfCnt > 0) && c.Valid()
      && PickRuns.RunFrom(s, ins[..k + 1], c) == Sample(r, ins[k].x, ins[k].t, ins[k].mb, c).0
      && PickRuns.EventsFrom(s, ins[..k + 1], c) == PickRuns.EventsFrom(s, ins[..k], c) + [Sample(r, ins[k].x, ins[k].t, ins[k].mb, c).1]
  {
    var g := ins[..k + 1];
    assert g[..k] == ins[..k];
    PickInvariants.InvReady(PickRuns.RunFrom(s, ins[..k], c), c);
    FromInv(s, c);
    hide PickInvariants.StateInv, Sample;
  }

  lemma InputAt(packet: seq<int>, start: real, mbs: seq<MbOutcome>, fs: real, k: nat)
    requires |mbs| == |packet| && fs > 0.0 && k < |packet|
    ensures Inputs(packet, start, mbs, fs)[k] == PickHistory.Input(packet[k], start + k as real / fs, mbs[k])
  {}

  lemma SenseTrig(p: Picker, a: Averages, t: real, fs: real)
    requires fs > 0.0
    ensures SenseOf(p, a, t, fs).trig == Triggers(p, a)
  {}

  lemma NotYet(h: Phase, o: Sense, N: int)
    ensures var j := Phase2(h, o, N); !h.phase3 ==> !j.phase3
  {}

  ghost function Inputs(packet: seq<int>, start: real, mbs: seq<MbOutcome>, fs: real): (ins: seq<PickHistory.Input>)
    requires |mbs| == |packet| && fs > 0.0
    ensures |ins| == |packet|
  {
    seq(|packet|, k requires 0 <= k < |packet| => PickHistory.Input(packet[k], start + k as real / fs, mbs[k]))
  }
}
