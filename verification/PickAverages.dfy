/** libsrc/get_pick.c: over whole runs of PickV the averages are those that MovingAvg forms on its own. */
module PickAverages {
  import opened MovingAverage
  import opened PickMachine
  import PickInvariants
  import opened PickHistory

  /** The samples since the station was last started over. */
  ghost function SinceRestart(ins: seq<Input>, c: Config): seq<int>
    requires c.Valid()
  {
    if |ins| == 0 then []
    else
      var front, i := ins[..|ins| - 1], ins[|ins| - 1];
      if EventOf(front, i, c).Restarted? then [] else SinceRestart(front, c) + [i.x]
  }

  /** Equal but for the distinction between a station that waits for a pick and one that has it. */
  ghost predicate SameAverages(a: Averages, b: Averages) {
    a == b.(status := a.status) && (a.status == 1 <==> b.status == 1)
  }

  lemma PickedIsAlike(a: Averages, b: Averages, x: int, c: Config)
    requires c.L > 1 && SameAverages(a, b) && (b.ctr < c.L || b.cyc > 0)
    ensures SameAverages(AvgSample(a, x, c), AvgSample(b, x, c))
  {}

  /** A sample feeds the averages, at most declaring the station picked, or starts them over. */
  lemma SampleAverages(s: State, i: Input, c: Config)
    requires PickInvariants.StateInv(s, c)
    ensures s.a.ctr < c.L || s.a.cyc > 0
    ensures s.p.ph.phase3 ==> s.p.cyc.mdfCnt > 0
    ensures var (r, e) := Sample(s, i.x, i.t, i.mb, c);
      if e.Restarted? then r.a == CLEARED else SameAverages(r.a, AvgSample(s.a, i.x, c))
  {
    PickInvariants.InvReady(s, c);
    hide AvgStep, CycleStep, CountMwp, Phases, Strength, Threshold, StillWaiting, PickInvariants.StateInv;
  }

  /** Whatever is triggered, reset, declared or rejected in between, the averages of a station are those
      of MovingAvg run alone over the samples since the last start. */
  lemma {:induction false} RunAverages(ins: seq<Input>, c: Config)
    requires c.Valid()
    ensures SameAverages(Run(ins, c).a, Averaged(SinceRestart(ins, c), c))
  {
    hide Sample, PickInvariants.StateInv, AvgSample, SameAverages, AvgInv;
    AlikeAtStart();
    if |ins| > 0 {
      var front, i := ins[..|ins| - 1], ins[|ins| - 1];
      var s, xs := Run(front, c), SinceRestart(front, c);
      RunAverages(front, c);
      SampleAverages(s, i, c);
      if !EventOf(front, i, c).Restarted? {
        assert (xs + [i.x])[..|xs|] == xs;
        var a := Averaged(xs, c);
        AvgSampleInv(a, i.x, c);
        PickedIsAlike(s.a, a, i.x, c);
        AlikeTransitive(Run(ins, c).a, AvgSample(s.a, i.x, c), AvgSample(a, i.x, c));
      }
    }
  }

  lemma AlikeAtStart()
    ensures SameAverages(INITIAL.a, CLEARED) && SameAverages(CLEARED, CLEARED)
  {}

  lemma AlikeTransitive(a: Averages, b: Averages, d: Averages)
    requires SameAverages(a, b) && SameAverages(b, d)
    ensures SameAverages(a, d)
  {}

  /** So over any run of PickV they stand for the books of those samples: every block end renews the averages
      and the thresholds from the half-cycles and samples of the signal, and nothing else changes them. */
  lemma RunIsBooked(ins: seq<Input>, c: Config)
    requires c.Valid()
    ensures var xs := SinceRestart(ins, c); StandsFor(BooksOf(xs, c), Run(ins, c).a, xs, c)
  {
    hide *;
    var xs := SinceRestart(ins, c);
    RunAverages(ins, c);
    SignalIsBooked(xs, c);
    AlikeBooks(BooksOf(xs, c), Run(ins, c).a, Averaged(xs, c), xs, c);
  }

  lemma AlikeBooks(b: Books, a: Averages, d: Averages, xs: seq<int>, c: Config)
    requires c.Valid() && SameAverages(a, d) && StandsFor(b, d, xs, c)
    ensures StandsFor(b, a, xs, c)
  {}
}
