/** libsrc/locquake.c: what FindBadPs does to the use flags, in terms of what its caller knows before the
    call: the flags, the verdicts and the residuals. */
module PickRemoval {
  import opened BadPicks

  lemma {:induction false} InSomeOrder(s: Choice, t: Choice)
    requires |s| == |t|
    ensures s == t || Before(s, t) || Before(t, s)
  {
    if |s| > 0 && s[0] == t[0] {
      InSomeOrder(s[1..], t[1..]);
      assert s == [s[0]] + s[1..] && t == [t[0]] + t[1..];
    }
  }

  /** There is only one first minimiser. */
  lemma FirstMinimiserUnique(p: Problem, f: seq<int>, k: nat, s: Choice, t: Choice)
    requires FirstMinimiser(p, f, k, s) && FirstMinimiser(p, f, k, t)
    ensures s == t
  {
    InSomeOrder(s, t);
    EarlierIff(s, t);
    EarlierIff(t, s);
    hide Reached, Earlier, Before;
  }

  /** The first minimiser among the sets of `k` picks leaves a good solution. */
  ghost predicate StopsAfter(p: Problem, f: seq<int>, k: nat) {
    exists s :: FirstMinimiser(p, f, k, s) && Accepted(p, Zeroed(f, s))
  }

  /** How many picks the last stage takes out: a function of the flags, the verdicts and the residuals. */
  ghost function StagesRun(p: Problem, f: seq<int>): nat {
    var n := InUse(p, f);
    if n < 5 then 0
    else if n <= 6 || StopsAfter(p, f, 1) then 1
    else if n <= 10 || n > 20 || StopsAfter(p, f, 2) then 2
    else 3
  }

  lemma StopsIff(p: Problem, f: seq<int>, k: nat, start: Best, b: Best)
    requires k > 0 && BestOf(p, f, k, b, start) && Locatable(p, f, k)
    ensures StopsAfter(p, f, k) <==> p.good(Zeroed(f, b.at), b.locator)
  {
    StageResult(p, f, k, start, b);
    assert b.locator == LocatorFor(p, Zeroed(f, b.at));
    ReachedIs(p, f, b.at);
    hide BestOf, Locatable, FirstMinimiser, LocatorFor, Accepted, Zeroed;
    if StopsAfter(p, f, k) {
      var s :| FirstMinimiser(p, f, k, s) && Accepted(p, Zeroed(f, s));
      FirstMinimiserUnique(p, f, k, s, b.at);
    }
  }

  /** The stages run as foreseen, as long as each of them finds a set. */
  lemma {:induction false} RunsAsForeseen(p: Problem, f: seq<int>, g: seq<int>, r: Stages)
    requires Outcome(p, f, g, r)
    ensures (forall k :: 1 <= k <= r.count ==> Locatable(p, f, k)) <==>
      forall k :: 1 <= k <= StagesRun(p, f) ==> Locatable(p, f, k)
    ensures (forall k :: 1 <= k <= r.count ==> Locatable(p, f, k)) ==> r.count == StagesRun(p, f)
  {
    UsedCountIs(p, f, |f|);
    hide BestOf, Locatable, FirstMinimiser, Value, Before, UsedCount, InUse, StopsAfter;
    if r.count > 0 {
      StageResult(p, f, 1, FIRST, r.one);
      if Locatable(p, f, 1) {
        StopsIff(p, f, 1, FIRST, r.one);
        if r.count > 1 {
          StageResult(p, f, 2, Longer(r.one), r.two);
          if Locatable(p, f, 2) {
            StopsIff(p, f, 2, Longer(r.one), r.two);
          }
        }
      }
    }
  }

  /** The exact condition under which a first pick that must not be removed survives: each stage that will
      run has a set with a residual below the bound. */
  lemma {:induction false} FirstPickKeptIff(p: Problem, f: seq<int>, g: seq<int>, r: Stages)
    requires |f| == |p.timed| && Outcome(p, f, g, r) && |f| > 0 && f[0] != 0 && f[0] != 1
    ensures |g| == |f|
    ensures g[0] == f[0] <==> forall k :: 1 <= k <= StagesRun(p, f) ==> Locatable(p, f, k)
  {
    hide Outcome, Locatable, StagesRun;
    FirstPickKeptByRun(p, f, g, r);
    RunsAsForeseen(p, f, g, r);
  }

  /** When the first stage finds no set, it drops the first pick, and the verdict of the first locator on the
      rest decides whether a second one follows. */
  lemma FirstStageEmpty(p: Problem, f: seq<int>, g: seq<int>, r: Stages)
    requires Outcome(p, f, g, r) && InUse(p, f) > 6 && !Locatable(p, f, 1)
    ensures r.count == 1 <==> p.good(Zeroed(f, [0]), 1)
    ensures r.count == 1 ==> g == Zeroed(f, [0])
  {
    UsedCountIs(p, f, |f|);
    StageResult(p, f, 1, FIRST, r.one);
    hide BestOf, Locatable, InUse;
  }

  /** When only the second stage finds none, it drops the first pick together with the choice of the first
      stage, and the locator kept for that choice decides. */
  lemma SecondStageEmpty(p: Problem, f: seq<int>, g: seq<int>, r: Stages, s: Choice)
    requires Outcome(p, f, g, r) && 10 < InUse(p, f) <= 20 && !Locatable(p, f, 2)
    requires FirstMinimiser(p, f, 1, s) && Locatable(p, f, 1) && !Accepted(p, Zeroed(f, s))
    ensures var last := if p.bothLocators && !p.good(Zeroed(f, s), 1) then 2 else 1;
      r.count == 2 <==> p.good(Zeroed(f, s + [0]), last)
    ensures r.count == 2 ==> g == Zeroed(f, s + [0])
  {
    UsedCountIs(p, f, |f|);
    StageResult(p, f, 1, FIRST, r.one);
    FirstMinimiserUnique(p, f, 1, s, r.one.at);
    ReachedIs(p, f, s);
    FoundLocator(p, f, r.one);
    if r.count >= 2 {
      StageResult(p, f, 2, Longer(r.one), r.two);
    }
    hide BestOf, Locatable, InUse, FirstMinimiser, Accepted, Zeroed;
  }

  lemma FoundLocator(p: Problem, f: seq<int>, b: Best)
    requires BestOf(p, f, 1, b, FIRST) && b.min != HUGE
    ensures b.locator == if p.bothLocators && !p.good(Zeroed(f, b.at), 1) then 2 else 1
  {}

  // ----- with residuals below the initial bound

  /** Every residual is below the initial bound, as a mean of travel-time residuals is. */
  ghost predicate Bounded(p: Problem) {
    forall g, locator :: p.resid(g, locator) < 100000000000000000000.0
  }

  /** How many of the first `n` picks may be removed. */
  function RemovableCount(p: Problem, f: seq<int>, n: nat): nat {
    if n == 0 then 0
    else RemovableCount(p, f, n - 1) + if n <= |f| && n <= |p.timed| && f[n - 1] == 1 && p.timed[n - 1] then 1 else 0
  }

  lemma {:induction false} EnoughForSet(p: Problem, f: seq<int>, n: nat, k: nat) returns (s: Choice)
    requires RemovableCount(p, f, n) >= k
    ensures Combo(p, f, s, k) && forall x :: x in s ==> x < n
    decreases n
  {
    if k == 0 {
      s := [];
    } else if Removable(p, f, n - 1) {
      var t := EnoughForSet(p, f, n - 1, k - 1);
      s := t + [n - 1];
      assert forall i :: 0 <= i < |t| ==> t[i] in t;
    } else {
      s := EnoughForSet(p, f, n - 1, k);
    }
  }

  lemma {:induction false} SetIsCounted(p: Problem, f: seq<int>, n: nat, s: Choice, k: nat)
    requires Combo(p, f, s, k) && forall x :: x in s ==> x < n
    ensures RemovableCount(p, f, n) >= k
    decreases n
  {
    if k > 0 {
      assert s[0] in s && s[k - 1] in s;
      var t := s[..k - 1];
      if s[k - 1] == n - 1 {
        assert forall x :: x in t ==> x in s && x < s[k - 1];
        SetIsCounted(p, f, n - 1, t, k - 1);
      } else {
        assert forall i :: 0 <= i < k - 1 ==> s[i] < s[k - 1];
        SetIsCounted(p, f, n - 1, s, k);
      }
    }
  }

  /** Then a stage finds a set exactly when enough picks may be removed. */
  lemma LocatableIff(p: Problem, f: seq<int>, k: nat)
    requires Bounded(p)
    ensures Locatable(p, f, k) <==> RemovableCount(p, f, |f|) >= k
  {
    if RemovableCount(p, f, |f|) >= k {
      var s := EnoughForSet(p, f, |f|, k);
      CandidateIff(p, f, s, k);
      assert Reached(p, Zeroed(f, s)) < 100000000000000000000.0;
    }
    if Locatable(p, f, k) {
      var s :| Candidate(p, f, s, k) && Reached(p, Zeroed(f, s)) < 100000000000000000000.0;
      CandidateIff(p, f, s, k);
      SetIsCounted(p, f, |f|, s, k);
    }
  }

  /** Taking the first pick into use makes at most one more of them removable. */
  lemma {:induction false} OneMoreRemovable(p: Problem, f: seq<int>, n: nat)
    requires |f| > 0
    ensures RemovableCount(p, f[0 := 1], n) <= RemovableCount(p, f, n) + if n > 0 then 1 else 0
    ensures n == 0 || (Removable(p, f[0 := 1], n - 1) ==> Removable(p, f, n - 1) || n == 1)
  {
    if n > 0 {
      OneMoreRemovable(p, f, n - 1);
    }
  }

  /** A stage on flags in which the first pick was switched on finds no set when the stage before found
      none without it, so it takes the first pick out again. */
  lemma SwitchedOnGoesOut(p: Problem, f: seq<int>, k: nat, start: Best, b: Best)
    requires Bounded(p) && |f| > 0 && k > 0 && !Locatable(p, f, k - 1)
    requires BestOf(p, f[0 := 1], k, b, start)
    ensures b == start.(min := HUGE)
  {
    OneMoreRemovable(p, f, |f|);
    LocatableIff(p, f, k - 1);
    LocatableIff(p, f[0 := 1], k);
    StageResult(p, f[0 := 1], k, start, b);
  }

  /** An unused first pick stays unused. */
  lemma {:induction false} UnusedStaysOff(p: Problem, f: seq<int>, g: seq<int>, r: Stages)
    requires Bounded(p) && Outcome(p, f, g, r) && |f| > 0 && f[0] == 0
    ensures |g| == |f| && g[0] == 0
  {
    hide BestOf, Locatable, FirstMinimiser, Value, Before, UsedCount, Bounded;
    if r.count > 1 {
      StageResult(p, f, 1, FIRST, r.one);
      if !Locatable(p, f, 1) {
        var f1 := f[0 := 1];
        assert Restored(f, r.one.at) == f1;
        SwitchedOnGoesOut(p, f, 2, Longer(r.one), r.two);
        assert r.count == 3 ==> Restored(f1, r.two.at) == f1;
        if r.count == 3 {
          MoreIsNotLocatable(p, f, 1);
          SwitchedOnGoesOut(p, f, 3, Longer(r.two), r.three);
        }
      } else {
        StageResult(p, f, 2, Longer(r.one), r.two);
        if r.count == 3 && !Locatable(p, f, 2) {
          assert Restored(f, r.two.at) == f[0 := 1];
          SwitchedOnGoesOut(p, f, 3, Longer(r.two), r.three);
        }
      }
    }
  }

  lemma MoreIsNotLocatable(p: Problem, f: seq<int>, k: nat)
    requires Bounded(p) && !Locatable(p, f, k)
    ensures !Locatable(p, f, k + 1)
  {
    LocatableIff(p, f, k);
    LocatableIff(p, f, k + 1);
  }

  /** The exact condition for the flags to come out as promised, every pick but those dropped unchanged and
      only picks in use dropped: the first pick is none that must be kept, or as many picks may be removed
      as the last stage takes out. */
  lemma {:induction false} OnlyOnesClearedIff(p: Problem, f: seq<int>, g: seq<int>, r: Stages)
    requires Bounded(p) && |f| == |p.timed| && Outcome(p, f, g, r)
    ensures OnlyOnesCleared(f, g) <==>
      RemovableCount(p, f, |f|) >= StagesRun(p, f) || f[0] == 0 || f[0] == 1
  {
    forall i | 0 < i < |f|
      ensures |g| == |f| && (g[i] == f[i] || (f[i] == 1 && g[i] == 0))
    {
      OthersUnharmed(p, f, g, r, i);
    }
    forall k: nat
      ensures Locatable(p, f, k) <==> RemovableCount(p, f, |f|) >= k
    {
      LocatableIff(p, f, k);
    }
    StagesNeedPicks(p, f);
    hide Outcome, Locatable, StagesRun, RemovableCount, Bounded;
    var n := StagesRun(p, f);
    assert Locatable(p, f, n) <==> RemovableCount(p, f, |f|) >= n;
    OnlyOnesClearedByRun(p, f, g, r);
    RunsAsForeseen(p, f, g, r);
    if |f| > 0 && f[0] == 0 {
      UnusedStaysOff(p, f, g, r);
    }
  }

  lemma StagesNeedPicks(p: Problem, f: seq<int>)
    ensures StagesRun(p, f) <= 3 && (StagesRun(p, f) == 0 || |f| >= 5)
  {
    UsedCountIs(p, f, |f|);
    UsedAtMost(p, f, |f|);
    hide InUse;
  }

  /** With as many removable picks as the last stage takes out, the removal is the best one, */
  lemma {:induction false} EnoughPicksAreSafe(p: Problem, f: seq<int>, g: seq<int>, r: Stages)
    requires Bounded(p) && |f| == |p.timed| && Outcome(p, f, g, r) && RemovableCount(p, f, |f|) >= StagesRun(p, f)
    ensures || (StagesRun(p, f) == 0 && g == f)
            || (StagesRun(p, f) > 0 && FirstMinimiser(p, f, StagesRun(p, f), LastChoice(r))
                && g == Zeroed(f, LastChoice(r)))
  {
    EveryStageLocates(p, f, g, r);
    RemovesFirstMinimiser(p, f, g, r);
  }

  /** and leaves at least four used picks. */
  lemma FourPicksRemain(p: Problem, f: seq<int>, s: Choice)
    requires |f| == |p.timed| && StagesRun(p, f) > 0 && Candidate(p, f, s, StagesRun(p, f))
    ensures InUse(p, Zeroed(f, s)) == InUse(p, f) - StagesRun(p, f) >= 4
  {
    CandidateIff(p, f, s, StagesRun(p, f));
    UsedCountIs(p, f, |f|);
    UsedCountIs(p, Zeroed(f, s), |f|);
    UsedWithout(p, f, s, StagesRun(p, f));
  }

  lemma EveryStageLocates(p: Problem, f: seq<int>, g: seq<int>, r: Stages)
    requires Bounded(p) && Outcome(p, f, g, r) && RemovableCount(p, f, |f|) >= StagesRun(p, f)
    ensures r.count == StagesRun(p, f) && forall k :: 1 <= k <= r.count ==> Locatable(p, f, k)
  {
    forall k: nat
      ensures Locatable(p, f, k) <==> RemovableCount(p, f, |f|) >= k
    {
      LocatableIff(p, f, k);
    }
    hide Outcome, Locatable, StagesRun, RemovableCount;
    RunsAsForeseen(p, f, g, r);
  }

  /** The two ends: with three removable picks the flags always come out as promised, */
  lemma ThreeRemovableAreSafe(p: Problem, f: seq<int>, g: seq<int>, r: Stages)
    requires Bounded(p) && |f| == |p.timed| && Outcome(p, f, g, r) && RemovableCount(p, f, |f|) >= 3
    ensures OnlyOnesCleared(f, g)
  {
    StagesNeedPicks(p, f);
    OnlyOnesClearedIff(p, f, g, r);
  }

  /** and with none, once five picks are used, a first pick that must be kept is always harmed. */
  lemma NoneRemovableHarms(p: Problem, f: seq<int>, g: seq<int>, r: Stages)
    requires |f| == |p.timed| && Outcome(p, f, g, r) && InUse(p, f) >= 5
    requires RemovableCount(p, f, |f|) == 0 && f[0] != 0 && f[0] != 1
    ensures |g| == |f| && g[0] != f[0]
  {
    UsedCountIs(p, f, |f|);
    UsedAtMost(p, f, |f|);
    forall s: Choice
      ensures !Candidate(p, f, s, 1)
    {
      CandidateIff(p, f, s, 1);
      if Combo(p, f, s, 1) {
        SetIsCounted(p, f, |f|, s, 1);
      }
    }
    hide Outcome, StopsAfter, InUse;
    assert !Locatable(p, f, 1) && StagesRun(p, f) >= 1;
    FirstPickKeptIff(p, f, g, r);
  }

  // ----- residuals that no locator returns

  /** Seven used picks, the first one unused and without a time; only the removal of picks 1 and 2 together
      can be located. */
  function PairProblem(): Problem {
    Problem([false, true, true, true, true, true, true, true], false, (h, l) => false,
            (h, l) => if |h| == 8 && h[1] == 0 && h[2] == 0 then 0.0 else HUGE)
  }

  const PAIR_FLAGS: seq<int> := [0, 1, 1, 2, 2, 2, 2, 2]

  /** A pick that was not in use is switched on: the first stage finds nothing and restores it, and the
      second one drops the two others. */
  lemma {:induction false} UnusedFirstPickSwitchedOn(g: seq<int>, r: Stages)
    requires Outcome(PairProblem(), PAIR_FLAGS, g, r)
    ensures PAIR_FLAGS[0] == 0 && g == [1, 0, 0, 2, 2, 2, 2, 2]
  {
    var p, f := PairProblem(), PAIR_FLAGS;
    assert UsedCount(p, f, 0) == 0;
    assert UsedCount(p, f, 1) == 0;
    assert UsedCount(p, f, 2) == 1;
    assert UsedCount(p, f, 3) == 2;
    assert UsedCount(p, f, 4) == 3;
    assert UsedCount(p, f, 5) == 4;
    assert UsedCount(p, f, 6) == 5;
    assert UsedCount(p, f, 7) == 6;
    hide UsedCount;
    forall s | Combo(p, f, s, 1)
      ensures Value(p, f, s) >= HUGE
    {
      assert s[0] in s;
      assert Zeroed(f, s)[if s[0] == 1 then 2 else 1] == 1;
    }
    StageResult(p, f, 1, FIRST, r.one);
    var f1 := Restored(f, r.one.at);
    assert f1 == [1, 1, 1, 2, 2, 2, 2, 2];
    PairFound(p, f1, r);
  }

  lemma PairFound(p: Problem, f1: seq<int>, r: Stages)
    requires p == PairProblem() && f1 == [1, 1, 1, 2, 2, 2, 2, 2] && BestOf(p, f1, 2, r.two, Longer(r.one))
    ensures Zeroed(f1, r.two.at) == [1, 0, 0, 2, 2, 2, 2, 2]
  {
    var t: Choice := [1, 2];
    assert Zeroed(f1, t) == [1, 0, 0, 2, 2, 2, 2, 2];
    assert Combo(p, f1, t, 2) && Value(p, f1, t) == 0.0;
    StageResult(p, f1, 2, Longer(r.one), r.two);
    var s := r.two.at;
    assert s[0] in s && s[1] in s;
    assert s == t;
  }
}
