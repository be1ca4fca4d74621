/** libsrc/get_pick.c: SeismicAlarm, the single-station alarm on strong cyclical motion. */
module SeismicAlarm {
  import Reals

  /** Sample rate, least frequency, threshold, least duration and the time before the next alarm. */
  datatype Limits = Limits(rate: real, minFreq: real, amp: real, dur: real, timeout: real)

  /** One sample in m/s and its time. */
  datatype Sample = Sample(x: real, t: real)

  /** 0: no alarms for the station, 1: to be initialised, 2: watching, 3: alarm declared. */
  type Status = x: int | 0 <= x <= 3

  /** The alarm fields of STATION; `p1` is the phase flag. */
  datatype State = State(status: Status, p1: bool, last: real, cycs: int, samps: int, trig: real)

  function Reset(s: State): State { s.(p1 := false, cycs := 0, samps := 0) }

  /** The sign has changed. */
  predicate Flips(x: real, y: real) { x * y < 0.0 }

  predicate Over(c: Limits, x: real) { Reals.Abs(x) > c.amp }

  datatype Stepped = Stepped(state: State, fired: bool)

  function Counted(c: Limits, n: int, s: State, y: Sample): Stepped {
    var s1 := s.(samps := s.samps + 1, cycs := s.cycs + 1);
    if s1.cycs > n then Stepped(Reset(s1), false)
    else
      var s2 := if Flips(y.x, s1.last) && Over(c, y.x) then s1.(cycs := 0, last := y.x) else s1;
      if s2.samps as real > c.rate * c.dur then Stepped(s2.(status := 3, trig := y.t), true) else Stepped(s2, false)
  }

  /** One sample of the loop. */
  function Step(c: Limits, n: int, s: State, y: Sample): Stepped {
    if s.status < 2 then Stepped(s, false)
    else if s.status == 3 then
      if y.t > s.trig + c.timeout then Stepped(Reset(s.(status := 2)), false) else Stepped(s, false)
    else
      var s0 := if Over(c, y.x) && !s.p1 then s.(p1 := true, last := y.x, cycs := 0, samps := 0) else s;
      if s0.p1 then Counted(c, n, s0, y) else Stepped(s0, false)
  }

  // ----- runs

  function Run(c: Limits, n: int, s: State, ys: seq<Sample>, k: nat): State
    requires k <= |ys|
  {
    if k == 0 then s else Step(c, n, Run(c, n, s, ys, k - 1), ys[k - 1]).state
  }

  predicate FiresAt(c: Limits, n: int, s: State, ys: seq<Sample>, k: nat)
    requires k < |ys|
  {
    Step(c, n, Run(c, n, s, ys, k), ys[k]).fired
  }

  // ----- when an alarm is raised

  /** Out of a pause and not in phase 1. */
  predicate Watching(s: State) { s.status == 2 && !s.p1 }

  /** `y` is over the threshold and of the other sign than `x`. */
  predicate Answers(c: Limits, y: Sample, x: Sample) { Reals.Abs(y.x) > c.amp && y.x * x.x < 0.0 }

  /** Sample `d` is the first answer to sample `a`, and not more than `wait` samples later. */
  predicate FirstAnswer(c: Limits, ys: seq<Sample>, a: nat, d: nat, wait: int) {
    a < d < |ys| && d - a <= wait && Answers(c, ys[d], ys[a]) && forall i :: a < i < d ==> !Answers(c, ys[i], ys[a])
  }

  /** A chain: the first sample over the threshold from `b` on, and answers in time to each before; the
      first link has one sample less to be answered. */
  predicate Chain(c: Limits, n: int, ys: seq<Sample>, b: nat, w: seq<nat>) {
    && |w| > 0 && b <= w[0] < |ys| && Reals.Abs(ys[w[0]].x) > c.amp
    && (forall i :: b <= i < w[0] ==> Reals.Abs(ys[i].x) <= c.amp)
    && forall j :: 0 < j < |w| ==> FirstAnswer(c, ys, w[j - 1], w[j], if j == 1 then n - 1 else n)
  }

  /** The chain holds after the samples up to `k`: its last link may still be answered. */
  predicate Holds(c: Limits, n: int, ys: seq<Sample>, b: nat, k: nat, w: seq<nat>) {
    && Chain(c, n, ys, b, w) && w[|w| - 1] < k <= |ys|
    && k - 1 - w[|w| - 1] <= (if |w| == 1 then n - 1 else n)
    && forall i :: w[|w| - 1] < i < k ==> !Answers(c, ys[i], ys[w[|w| - 1]])
  }

  /** What phase 1 has noted of the chain, which has not lasted longer than the least duration. */
  predicate Noted(c: Limits, ys: seq<Sample>, k: nat, w: seq<nat>, s: State)
    requires |w| > 0 && w[|w| - 1] < |ys|
  {
    && s.status == 2 && s.p1 && s.last == ys[w[|w| - 1]].x && s.samps == k - w[0]
    && s.cycs == (if |w| == 1 then k - w[0] else k - 1 - w[|w| - 1])
    && (k - w[0]) as real <= c.rate * c.dur
  }

  /** An alarm at sample `k`: the station was watching before sample `b`, the chain from there holds, and
      with this sample and not before has lasted longer than the least duration. */
  ghost predicate Witness(c: Limits, n: int, s: State, ys: seq<Sample>, k: nat, b: nat, w: seq<nat>) {
    && b <= k < |ys| && Watching(Run(c, n, s, ys, b)) && Holds(c, n, ys, b, k + 1, w)
    && (k - w[0] + 1) as real > c.rate * c.dur && (k == w[0] || (k - w[0]) as real <= c.rate * c.dur)
  }

  ghost predicate InPhase(c: Limits, n: int, s: State, ys: seq<Sample>, k: nat, b: nat, w: seq<nat>)
    requires k <= |ys|
  {
    && b < k && Watching(Run(c, n, s, ys, b)) && Holds(c, n, ys, b, k, w)
    && Noted(c, ys, k, w, Run(c, n, s, ys, k))
  }

  /** The chain with sample `k` taken in. */
  function Grown(c: Limits, ys: seq<Sample>, k: nat, w: seq<nat>): seq<nat>
    requires k < |ys| && |w| > 0 && w[|w| - 1] < |ys|
  {
    if Answers(c, ys[k], ys[w[|w| - 1]]) then w + [k] else w
  }

  lemma GrownHolds(c: Limits, n: int, ys: seq<Sample>, b: nat, k: nat, w: seq<nat>)
    requires Holds(c, n, ys, b, k, w) && k < |ys| && k - w[|w| - 1] <= (if |w| == 1 then n - 1 else n)
    ensures Holds(c, n, ys, b, k + 1, Grown(c, ys, k, w))
  {
    hide Answers;
    var v := Grown(c, ys, k, w);
    assert v[0] == w[0];
    forall j | 0 < j < |v|
      ensures FirstAnswer(c, ys, v[j - 1], v[j], if j == 1 then n - 1 else n)
    {
      if j < |w| {
        assert v[j] == w[j] && v[j - 1] == w[j - 1];
      }
    }
  }

  /** A sample within phase 1: the link was not answered in time, or the chain goes on, into the alarm when it has
      lasted long enough. */
  lemma PhaseStep(c: Limits, n: int, ys: seq<Sample>, b: nat, k: nat, w: seq<nat>, s: State)
    requires Holds(c, n, ys, b, k, w) && Noted(c, ys, k, w, s) && k < |ys|
    ensures var t := Step(c, n, s, ys[k]);
      if k - w[|w| - 1] > (if |w| == 1 then n - 1 else n) then Watching(t.state) && !t.fired
      else if (k - w[0] + 1) as real > c.rate * c.dur then t.fired
      else !t.fired && Noted(c, ys, k + 1, Grown(c, ys, k, w), t.state)
  {}

  /** The sample that begins phase 1. */
  lemma Begins(c: Limits, n: int, ys: seq<Sample>, b: nat, k: nat, s: State)
    requires b <= k < |ys| && Watching(s) && Reals.Abs(ys[k].x) > c.amp
    requires forall i :: b <= i < k ==> Reals.Abs(ys[i].x) <= c.amp
    ensures var t := Step(c, n, s, ys[k]);
      if n < 1 then Watching(t.state) && !t.fired
      else
        && Holds(c, n, ys, b, k + 1, [k])
        && if 1 as real > c.rate * c.dur then t.fired else !t.fired && Noted(c, ys, k + 1, [k], t.state)
  {
    NoFlipOfItself(ys[k].x);
    hide Flips;
    var t := Counted(c, n, s.(p1 := true, last := ys[k].x, cycs := 0, samps := 0), ys[k]);
    assert t == Step(c, n, s, ys[k]);
    assert n >= 1 ==> t.state.samps == 1 && t.state.cycs == 1;
  }

  lemma NoFlipOfItself(x: real)
    ensures !Flips(x, x)
  {}

  /** A station that watches stays so while no sample is over the threshold. */
  lemma {:induction false} QuietStays(c: Limits, n: int, s: State, ys: seq<Sample>, b: nat, k: nat)
    requires b <= k <= |ys| && Watching(Run(c, n, s, ys, b))
    requires forall i :: b <= i < k ==> Reals.Abs(ys[i].x) <= c.amp
    ensures Watching(Run(c, n, s, ys, k)) && forall i :: b <= i < k ==> !FiresAt(c, n, s, ys, i)
    decreases k
  {
    if b < k {
      QuietStays(c, n, s, ys, b, k - 1);
    }
  }

  /** The chain up to the sample before. */
  function Shorter(k: nat, w: seq<nat>): seq<nat>
    requires |w| > 0
  {
    if w[|w| - 1] == k then w[..|w| - 1] else w
  }

  lemma ShorterHolds(c: Limits, n: int, ys: seq<Sample>, b: nat, k: nat, w: seq<nat>)
    requires Holds(c, n, ys, b, k + 1, w) && w[0] < k
    ensures var v := Shorter(k, w);
      && Holds(c, n, ys, b, k, v) && v[0] == w[0]
      && k - v[|v| - 1] <= (if |v| == 1 then n - 1 else n) && Grown(c, ys, k, v) == w
  {
    var v := Shorter(k, w);
    assert |w| > 1 ==> FirstAnswer(c, ys, w[|w| - 2], w[|w| - 1], if |w| == 2 then n - 1 else n);
    forall j | 0 < j < |v|
      ensures FirstAnswer(c, ys, v[j - 1], v[j], if j == 1 then n - 1 else n)
    {
      assert v[j] == w[j] && v[j - 1] == w[j - 1];
    }
    hide Answers;
  }

  lemma StartsAt(c: Limits, n: int, ys: seq<Sample>, b: nat, k: nat, w: seq<nat>)
    requires Holds(c, n, ys, b, k + 1, w)
    ensures |w| > 0 && b <= w[0] <= w[|w| - 1] <= k < |ys|
    ensures w[0] == k ==>
      w == [k] && n >= 1 && Reals.Abs(ys[k].x) > c.amp && forall i :: b <= i < k ==> Reals.Abs(ys[i].x) <= c.amp
  {
    LinksGrow(c, n, ys, b, w);
    assert |w| > 1 ==> FirstAnswer(c, ys, w[0], w[1], n - 1);
    hide Answers;
    if |w| > 1 && w[0] == k {
      LinksGrow(c, n, ys, b, w[..1]);
      LaterLinks(c, n, ys, b, w);
    }
  }

  lemma LaterLinks(c: Limits, n: int, ys: seq<Sample>, b: nat, w: seq<nat>)
    requires Chain(c, n, ys, b, w) && |w| > 1
    ensures w[0] < w[|w| - 1]
  {
    assert FirstAnswer(c, ys, w[|w| - 2], w[|w| - 1], if |w| == 2 then n - 1 else n);
    LinksGrow(c, n, ys, b, w[..|w| - 1]);
  }

  /** While the chain holds and is short, phase 1 notes it and raises no alarm. */
  lemma {:induction false} ChainIsNoted(c: Limits, n: int, s: State, ys: seq<Sample>, b: nat, k: nat, w: seq<nat>)
    requires b < k <= |ys| && Watching(Run(c, n, s, ys, b)) && Holds(c, n, ys, b, k, w)
    requires (k - w[0]) as real <= c.rate * c.dur
    ensures Noted(c, ys, k, w, Run(c, n, s, ys, k)) && forall i :: b <= i < k ==> !FiresAt(c, n, s, ys, i)
    decreases k
  {
    hide Step, Answers, Chain, Holds, Noted, Watching;
    StartsAt(c, n, ys, b, k - 1, w);
    if w[0] == k - 1 {
      QuietStays(c, n, s, ys, b, k - 1);
      Begins(c, n, ys, b, k - 1, Run(c, n, s, ys, k - 1));
    } else {
      var v := Shorter(k - 1, w);
      ShorterHolds(c, n, ys, b, k - 1, w);
      ChainIsNoted(c, n, s, ys, b, k - 1, v);
      PhaseStep(c, n, ys, b, k - 1, v, Run(c, n, s, ys, k - 1));
    }
  }

  lemma {:induction false} LinksGrow(c: Limits, n: int, ys: seq<Sample>, b: nat, w: seq<nat>)
    requires Chain(c, n, ys, b, w)
    ensures w[0] <= w[|w| - 1]
    decreases |w|
  {
    if |w| > 1 {
      LinksGrow(c, n, ys, b, w[..|w| - 1]);
      assert FirstAnswer(c, ys, w[|w| - 2], w[|w| - 1], if |w| == 2 then n - 1 else n);
    }
  }

  /** From any sample before which the station was watching: a chain that holds raises the alarm at the
      first sample with which it has lasted longer than the least duration, and not before. */
  lemma ChainRaisesAlarm(c: Limits, n: int, s: State, ys: seq<Sample>, k: nat, b: nat, w: seq<nat>)
    requires Witness(c, n, s, ys, k, b, w)
    ensures FiresAt(c, n, s, ys, k) && forall i :: b <= i < k ==> !FiresAt(c, n, s, ys, i)
  {
    StartsAt(c, n, ys, b, k, w);
    if w[0] == k {
      AlarmAtOnce(c, n, s, ys, k, b, w);
    } else {
      var v := Shorter(k, w);
      ShorterHolds(c, n, ys, b, k, w);
      hide Step, Answers, Chain, Holds, Noted, Watching;
      ChainIsNoted(c, n, s, ys, b, k, v);
      PhaseStep(c, n, ys, b, k, v, Run(c, n, s, ys, k));
    }
  }

  lemma AlarmAtOnce(c: Limits, n: int, s: State, ys: seq<Sample>, k: nat, b: nat, w: seq<nat>)
    requires Witness(c, n, s, ys, k, b, w) && w[0] == k
    ensures FiresAt(c, n, s, ys, k) && forall i :: b <= i < k ==> !FiresAt(c, n, s, ys, i)
  {
    StartsAt(c, n, ys, b, k, w);
    QuietStays(c, n, s, ys, b, k);
    Begins(c, n, ys, b, k, Run(c, n, s, ys, k));
    hide Step, Answers, Chain, Holds, Noted, Watching;
  }

  /** A link that is not answered in time ends phase 1, and the station watches again. */
  lemma StaleChainEnds(c: Limits, n: int, s: State, ys: seq<Sample>, b: nat, k: nat, w: seq<nat>)
    requires b < k < |ys| && Watching(Run(c, n, s, ys, b)) && Holds(c, n, ys, b, k, w)
    requires (k - w[0]) as real <= c.rate * c.dur && k - w[|w| - 1] > (if |w| == 1 then n - 1 else n)
    ensures Watching(Run(c, n, s, ys, k + 1)) && !FiresAt(c, n, s, ys, k)
  {
    hide Step;
    ChainIsNoted(c, n, s, ys, b, k, w);
    PhaseStep(c, n, ys, b, k, w, Run(c, n, s, ys, k));
  }

  /** A phase 1 has its chain. */
  ghost predicate Explained(c: Limits, n: int, s: State, ys: seq<Sample>, k: nat)
    requires k <= |ys|
  {
    var r := Run(c, n, s, ys, k);
    r.status == 2 && r.p1 ==> exists b, w :: InPhase(c, n, s, ys, k, b, w)
  }

  lemma {:induction false} RunExplained(c: Limits, n: int, s: State, ys: seq<Sample>, k: nat)
    requires k <= |ys| && (s.status == 2 ==> !s.p1)
    ensures Explained(c, n, s, ys, k)
    ensures k < |ys| && FiresAt(c, n, s, ys, k) ==> exists b, w :: Witness(c, n, s, ys, k, b, w)
  {
    if k > 0 {
      RunExplained(c, n, s, ys, k - 1);
      StepExplained(c, n, s, ys, k - 1);
    }
    if k < |ys| && FiresAt(c, n, s, ys, k) {
      StepExplained(c, n, s, ys, k);
    }
  }

  lemma StepExplained(c: Limits, n: int, s: State, ys: seq<Sample>, k: nat)
    requires k < |ys| && Explained(c, n, s, ys, k)
    ensures Explained(c, n, s, ys, k + 1)
    ensures FiresAt(c, n, s, ys, k) ==> exists b, w :: Witness(c, n, s, ys, k, b, w)
  {
    var r := Run(c, n, s, ys, k);
    var t := Step(c, n, r, ys[k]);
    hide Answers, Holds;
    if r.status == 2 && r.p1 {
      hide Step;
      var b, w :| InPhase(c, n, s, ys, k, b, w);
      assert Holds(c, n, ys, b, k, w);
      LastLink(c, n, ys, b, k, w);
      PhaseStep(c, n, ys, b, k, w, r);
      if k - w[|w| - 1] <= (if |w| == 1 then n - 1 else n) {
        var v := Grown(c, ys, k, w);
        GrownHolds(c, n, ys, b, k, w);
        if t.fired {
          assert Witness(c, n, s, ys, k, b, v);
        } else {
          assert InPhase(c, n, s, ys, k + 1, b, v);
        }
      }
    } else if Watching(r) && Reals.Abs(ys[k].x) > c.amp {
      hide Step;
      Begins(c, n, ys, k, k, r);
      var v: seq<nat> := [k];
      if t.fired {
        assert Witness(c, n, s, ys, k, k, v);
      } else if n >= 1 {
        assert InPhase(c, n, s, ys, k + 1, k, v);
      }
    }
  }

  lemma LastLink(c: Limits, n: int, ys: seq<Sample>, b: nat, k: nat, w: seq<nat>)
    requires Holds(c, n, ys, b, k, w)
    ensures |w| > 0 && w[|w| - 1] < k <= |ys| && w[0] <= w[|w| - 1]
  {
    LinksGrow(c, n, ys, b, w);
  }

  /** Over any run that does not begin inside a phase 1: an alarm is raised at a sample if and only if a
      chain from some point at which the station was watching has, with this sample and not before, lasted
      longer than the least duration. */
  lemma AlarmIff(c: Limits, n: int, s: State, ys: seq<Sample>, k: nat)
    requires k < |ys| && (s.status == 2 ==> !s.p1)
    ensures FiresAt(c, n, s, ys, k) <==> exists b, w :: Witness(c, n, s, ys, k, b, w)
  {
    hide FiresAt, Witness;
    RunExplained(c, n, s, ys, k);
    if b, w :| Witness(c, n, s, ys, k, b, w) {
      ChainRaisesAlarm(c, n, s, ys, k, b, w);
    }
  }

  /** A phase 1 that ends without an alarm had waited in vain: its last link was not answered in time. */
  lemma PhaseEndsWhenStale(c: Limits, n: int, s: State, ys: seq<Sample>, k: nat)
    requires k < |ys| && (s.status == 2 ==> !s.p1)
    requires var r := Run(c, n, s, ys, k); r.status == 2 && r.p1 && !Step(c, n, r, ys[k]).state.p1
    ensures exists b, w :: InPhase(c, n, s, ys, k, b, w) && k - w[|w| - 1] > (if |w| == 1 then n - 1 else n)
  {
    RunExplained(c, n, s, ys, k);
    var b, w :| InPhase(c, n, s, ys, k, b, w);
    PhaseStep(c, n, ys, b, k, w, Run(c, n, s, ys, k));
    hide Run;
  }

  // ----- the pause between two alarms

  ghost predicate Paused(c: Limits, ys: seq<Sample>, j: nat, k: nat, s: State)
    requires j < k <= |ys|
  {
    (s.status == 3 && s.trig == ys[j].t) || exists m :: j < m < k && ys[m].t > ys[j].t + c.timeout
  }

  lemma {:induction false} StaysPaused(c: Limits, n: int, s: State, ys: seq<Sample>, j: nat, k: nat)
    requires j < k <= |ys| && FiresAt(c, n, s, ys, j)
    ensures Paused(c, ys, j, k, Run(c, n, s, ys, k))
    decreases k - j
  {
    if k == j + 1 {
      FiredState(c, n, Run(c, n, s, ys, j), ys[j]);
    } else {
      StaysPaused(c, n, s, ys, j, k - 1);
      var r := Run(c, n, s, ys, k - 1);
      if r.status == 3 && r.trig == ys[j].t {
        assert ys[k - 1].t > ys[j].t + c.timeout || Step(c, n, r, ys[k - 1]).state == r;
      }
    }
  }

  /** An alarm begins a pause, in which nothing changes; the first sample later than the timeout makes the
      station watch again. */
  lemma {:induction false} PauseEnds(c: Limits, n: int, s: State, ys: seq<Sample>, j: nat, k: nat)
    requires j < k < |ys| && FiresAt(c, n, s, ys, j) && forall m :: j < m < k ==> ys[m].t <= ys[j].t + c.timeout
    ensures Run(c, n, s, ys, k) == Run(c, n, s, ys, j + 1) && !FiresAt(c, n, s, ys, k)
    ensures if ys[k].t > ys[j].t + c.timeout then Watching(Run(c, n, s, ys, k + 1))
            else Run(c, n, s, ys, k + 1) == Run(c, n, s, ys, k)
    decreases k
  {
    FiredState(c, n, Run(c, n, s, ys, j), ys[j]);
    if k > j + 1 {
      PauseEnds(c, n, s, ys, j, k - 1);
    }
  }

  lemma FiredState(c: Limits, n: int, s: State, y: Sample)
    requires Step(c, n, s, y).fired
    ensures s.status != 3 && Step(c, n, s, y).state.status == 3 && Step(c, n, s, y).state.trig == y.t
  {}

  /** Two alarms of a station are more than the timeout apart when its samples come in time order. */
  lemma {:induction false} AlarmsAreApart(c: Limits, n: int, s: State, ys: seq<Sample>, j: nat, k: nat)
    requires j < k < |ys| && FiresAt(c, n, s, ys, j) && FiresAt(c, n, s, ys, k)
    requires forall a, b :: 0 <= a <= b < |ys| ==> ys[a].t <= ys[b].t
    ensures ys[k].t > ys[j].t + c.timeout
  {
    hide Step;
    StaysPaused(c, n, s, ys, j, k);
    FiredState(c, n, Run(c, n, s, ys, k), ys[k]);
  }

  // ----- packets

  function Samples(wave: seq<int>, sens: real, start: real, rate: real): (ys: seq<Sample>)
    requires sens != 0.0 && rate != 0.0
    ensures |ys| == |wave|
    ensures forall i :: 0 <= i < |wave| ==> ys[i].x == wave[i] as real / sens && ys[i].t == start + i as real / rate
  {
    seq(|wave|, i requires 0 <= i < |wave| => Sample(wave[i] as real / sens, start + i as real / rate))
  }

  /** Two packets in turn are one run over both. */
  lemma {:induction false} RunJoins(c: Limits, n: int, s: State, a: seq<Sample>, b: seq<Sample>, k: nat)
    requires k <= |b|
    ensures Run(c, n, s, a + b, |a| + k) == Run(c, n, Run(c, n, s, a, |a|), b, k)
  {
    if k == 0 {
      RunPrefix(c, n, s, a, b, |a|);
    } else {
      RunJoins(c, n, s, a, b, k - 1);
      assert (a + b)[|a| + k - 1] == b[k - 1];
    }
  }

  lemma {:induction false} RunPrefix(c: Limits, n: int, s: State, a: seq<Sample>, b: seq<Sample>, k: nat)
    requires k <= |a|
    ensures Run(c, n, s, a + b, k) == Run(c, n, s, a, k)
  {
    if k > 0 {
      RunPrefix(c, n, s, a, b, k - 1);
      assert (a + b)[k - 1] == a[k - 1];
    }
  }

  class Detector {
    var sta: State

    /** A packet; lNumConsecA is how many samples may pass between reversals, and `alarms` lists the samples
        at which an alarm was reported. */
    method Packet(c: Limits, wave: seq<int>, sens: real, start: real) returns (alarms: seq<nat>)
      requires sens != 0.0 && c.rate != 0.0 && c.minFreq > 0.0
      modifies this
      ensures var ys, n := Samples(wave, sens, start, c.rate), Reals.Trunc(c.rate / (2.0 * c.minFreq) + 0.0001);
        var s := if old(sta).status == 1 then State(2, false, old(sta).last, 0, 0, old(sta).trig) else old(sta);
        && sta == Run(c, n, s, ys, |ys|)
        && forall k :: k in alarms <==> 0 <= k < |ys| && FiresAt(c, n, s, ys, k)
    {
      var n := Reals.Trunc(c.rate / (2.0 * c.minFreq) + 0.0001);
      hide Step, Reals.Trunc, Samples;
      ghost var ys := Samples(wave, sens, start, c.rate);
      if sta.status == 1 {
        sta := sta.(p1 := false, cycs := 0, samps := 0, status := 2);
      }
      ghost var s := sta;
      alarms := [];
      if sta.status < 2 {
        NoStep(c, n, sta, ys, |ys|);
        return;
      }
      var i := 0;
      while i < |wave|
        invariant 0 <= i <= |wave| && sta == Run(c, n, s, ys, i) && sta.status >= 2
        invariant forall k :: k in alarms <==> 0 <= k < i && FiresAt(c, n, s, ys, k)
      {
        var x, t := wave[i] as real / sens, start + i as real / c.rate;
        assert ys[i] == Sample(x, t);
        var fired := Evaluate(c, n, x, t);
        if fired {
          alarms := alarms + [i];
        }
        i := i + 1;
      }
    }

    /** The body of the loop. */
    method Evaluate(c: Limits, n: int, x: real, t: real) returns (fired: bool)
      requires sta.status >= 2
      modifies this
      ensures var r := Step(c, n, old(sta), Sample(x, t)); sta == r.state && fired == r.fired
      ensures sta.status >= 2
    {
      fired := false;
      if sta.status == 3 {
        if t > sta.trig + c.timeout {
          sta := Reset(sta.(status := 2));
        }
        return;
      }
      if Reals.Abs(x) > c.amp && !sta.p1 {
        sta := sta.(p1 := true, last := x, cycs := 0, samps := 0);
      }
      if sta.p1 {
        sta := sta.(samps := sta.samps + 1);
        sta := sta.(cycs := sta.cycs + 1);
        if sta.cycs > n {
          sta := Reset(sta);
          return;
        }
        if x * sta.last < 0.0 && Reals.Abs(x) > c.amp {
          sta := sta.(cycs := 0, last := x);
        }
        if sta.samps as real > c.rate * c.dur {
          sta := sta.(status := 3, trig := t);
          fired := true;
        }
      }
    }
  }

  /** A station that is not marked for alarms is left alone. */
  lemma {:induction false} NoStep(c: Limits, n: int, s: State, ys: seq<Sample>, k: nat)
    requires k <= |ys| && s.status < 2
    ensures Run(c, n, s, ys, k) == s && forall j :: 0 <= j < k ==> !FiresAt(c, n, s, ys, j)
  {
    if k > 0 {
      NoStep(c, n, s, ys, k - 1);
    }
  }
}
