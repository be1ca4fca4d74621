/** libsrc/locquake.c: FindBadPs, which drops one, two or three picks so that the rest locate best.
    The locator is a function of the use flags and of the starting locator, and nothing else about
    it is used. */
module BadPicks {

  /** `good(f, l)` and `resid(f, l)` are the verdict and the mean residual that locator `l` reaches
      with the flags `f`; `timed[i]` says that pick `i` has a P time. */
  datatype Problem = Problem(timed: seq<bool>, bothLocators: bool,
                             good: (seq<int>, int) -> bool, resid: (seq<int>, int) -> real)

  const HUGE: real := 100000000000000000000.0

  /** The picks chosen for removal, in increasing order. */
  type Choice = seq<nat>

  datatype Best = Best(min: real, at: Choice, locator: int)

  function Zeroed(f: seq<int>, s: Choice): (g: seq<int>)
    ensures |g| == |f|
    ensures forall i :: 0 <= i < |f| ==> g[i] == if i in s then 0 else f[i]
  {
    seq(|f|, i requires 0 <= i < |f| => if i in s then 0 else f[i])
  }

  predicate Removable(p: Problem, f: seq<int>, i: nat) {
    i < |f| && i < |p.timed| && f[i] == 1 && p.timed[i]
  }

  predicate Used(p: Problem, f: seq<int>, i: nat) {
    i < |f| && i < |p.timed| && f[i] > 0 && p.timed[i]
  }

  /** iCnt over the first `n` picks. */
  function UsedCount(p: Problem, f: seq<int>, n: nat): nat {
    if n == 0 then 0 else UsedCount(p, f, n - 1) + if Used(p, f, n - 1) then 1 else 0
  }

  /** The locator that is kept for a set of flags, and its residual. */
  function LocatorFor(p: Problem, f: seq<int>): int {
    if !p.good(f, 1) && p.bothLocators then 2 else 1
  }

  function Residual(p: Problem, f: seq<int>): real { p.resid(f, LocatorFor(p, f)) }

  predicate Increasing(s: Choice) {
    forall i, j :: 0 <= i < j < |s| ==> s[i] < s[j]
  }

  /** A set of `k` removable picks. */
  predicate Combo(p: Problem, f: seq<int>, s: Choice, k: nat) {
    |s| == k && Increasing(s) && forall x :: x in s ==> Removable(p, f, x)
  }

  /** Comes before the cursor in the order of the nested loops; a short cursor stands for the start of
      the inner loops. */
  ghost predicate Before(s: Choice, cursor: Choice) {
    |s| > 0 && |cursor| > 0 &&
    (s[0] < cursor[0] || (s[0] == cursor[0] && Before(s[1..], cursor[1..])))
  }

  ghost function Value(p: Problem, f: seq<int>, s: Choice): real { Residual(p, Zeroed(f, s)) }

  ghost predicate Found(p: Problem, f: seq<int>, k: nat, b: Best) {
    Combo(p, f, b.at, k) && b.min == Value(p, f, b.at) < HUGE && b.locator == LocatorFor(p, Zeroed(f, b.at))
  }

  /** `b` is the first minimiser among the sets of size `k` before the cursor, or still `b0` when none
      of them has a residual below the initial bound. */
  ghost predicate BestBefore(p: Problem, f: seq<int>, k: nat, cursor: Choice, b: Best, b0: Best) {
    if b.min == HUGE then
      b == b0.(min := HUGE) &&
      forall s :: Combo(p, f, s, k) && Before(s, cursor) ==> Value(p, f, s) >= HUGE
    else
      Found(p, f, k, b) && Before(b.at, cursor) &&
      forall s :: Combo(p, f, s, k) && Before(s, cursor) ==>
        b.min <= Value(p, f, s) && (Before(s, b.at) ==> b.min < Value(p, f, s))
  }

  /** The same over all sets of size `k`. */
  ghost predicate BestOf(p: Problem, f: seq<int>, k: nat, b: Best, b0: Best) {
    if b.min == HUGE then
      b == b0.(min := HUGE) && forall s :: Combo(p, f, s, k) ==> Value(p, f, s) >= HUGE
    else
      Found(p, f, k, b) &&
      forall s :: Combo(p, f, s, k) ==> b.min <= Value(p, f, s) && (Before(s, b.at) ==> b.min < Value(p, f, s))
  }

  // ----- moving the cursor

  /** Everything before the later cursor is before the earlier one. */
  ghost predicate NothingNew(p: Problem, f: seq<int>, k: nat, c: Choice, d: Choice) {
    forall s :: Combo(p, f, s, k) ==> (Before(s, d) <==> Before(s, c))
  }

  lemma {:induction false} BeforeAppend(s: Choice, c: Choice, x: nat)
    requires |s| > |c|
    ensures Before(s, c + [x]) <==> Before(s, c) || (s[..|c|] == c && s[|c|] < x)
    decreases |c|
  {
    if |c| == 0 {
      assert c + [x] == [x] && s[..0] == c;
    } else {
      assert (c + [x])[1..] == c[1..] + [x];
      BeforeAppend(s[1..], c[1..], x);
      assert s[..|c|] == [s[0]] + s[1..][..|c| - 1];
      assert c == [c[0]] + c[1..];
    }
  }

  /** Entering an inner loop at the pick after the last one chosen. */
  lemma Entered(p: Problem, f: seq<int>, k: nat, c: Choice, b: Best, b0: Best)
    requires 0 < |c| < k && BestBefore(p, f, k, c, b, b0)
    ensures BestBefore(p, f, k, c + [c[|c| - 1] + 1], b, b0)
  {
    forall s | Combo(p, f, s, k)
      ensures Before(s, c + [c[|c| - 1] + 1]) <==> Before(s, c)
    {
      BeforeAppend(s, c, c[|c| - 1] + 1);
      if s[..|c|] == c {
        assert s[|c| - 1] == c[|c| - 1];
      }
    }
  }

  /** Leaving an inner loop that ran to the end. */
  lemma Left(p: Problem, f: seq<int>, k: nat, c: Choice, i: nat, n: nat, b: Best, b0: Best)
    requires |c| + 1 < k && |f| <= n + (k - |c| - 2) && BestBefore(p, f, k, c + [i, n], b, b0)
    ensures BestBefore(p, f, k, c + [i + 1], b, b0)
  {
    forall s | Combo(p, f, s, k)
      ensures Before(s, c + [i + 1]) <==> Before(s, c + [i, n])
    {
      assert c + [i, n] == (c + [i]) + [n];
      BeforeAppend(s, c + [i], n);
      BeforeAppend(s, c, i);
      BeforeAppend(s, c, i + 1);
      IncreasingGap(s, |c| + 1);
      assert s[..|c| + 1] == s[..|c|] + [s[|c|]];
      assert s[k - 1] in s;
    }
  }

  lemma {:induction false} IncreasingGap(s: Choice, i: nat)
    requires Increasing(s) && i < |s|
    ensures s[i] + (|s| - 1 - i) <= s[|s| - 1]
    decreases |s| - i
  {
    if i + 1 < |s| {
      IncreasingGap(s, i + 1);
    }
  }

  /** Passing over a pick that cannot be removed. */
  lemma Skipped(p: Problem, f: seq<int>, k: nat, c: Choice, i: nat, b: Best, b0: Best)
    requires |c| < k && !Removable(p, f, i) && BestBefore(p, f, k, c + [i], b, b0)
    ensures BestBefore(p, f, k, c + [i + 1], b, b0)
  {
    forall s | Combo(p, f, s, k)
      ensures Before(s, c + [i + 1]) <==> Before(s, c + [i])
    {
      BeforeAppend(s, c, i);
      BeforeAppend(s, c, i + 1);
      assert s[|c|] in s;
    }
  }

  /** At the end of the outer loop every set has been tried. */
  lemma Done(p: Problem, f: seq<int>, k: nat, n: nat, b: Best, start: Best)
    requires k > 0 && |f| <= n + (k - 1) && BestBefore(p, f, k, [n], b, start.(min := HUGE))
    ensures BestOf(p, f, k, b, start)
  {
    forall s | Combo(p, f, s, k)
      ensures Before(s, [n])
    {
      IncreasingGap(s, 0);
      assert s[k - 1] in s;
    }
  }

  lemma StartsBest(p: Problem, f: seq<int>, k: nat, b0: Best)
    requires b0.min == HUGE
    ensures BestBefore(p, f, k, [0], b0, b0)
  {}

  lemma BeforeIsStrict(s: Choice, t: Choice)
    requires |s| == |t|
    ensures !Before(s, s) && !(Before(s, t) && Before(t, s))
  {}

  /** One set tried: the comparison keeps the first minimiser. */
  lemma Tried(p: Problem, f: seq<int>, k: nat, c: Choice, x: nat, b: Best, b0: Best, w: Best)
    requires |c| + 1 == k && Combo(p, f, c + [x], k) && BestBefore(p, f, k, c + [x], b, b0) && b.min <= HUGE
    requires var v := Value(p, f, c + [x]);
      w == if v < b.min then Best(v, c + [x], LocatorFor(p, Zeroed(f, c + [x]))) else b
    ensures BestBefore(p, f, k, c + [x + 1], w, b0) && w.min <= HUGE
  {
    var t := c + [x];
    forall s | Combo(p, f, s, k)
      ensures Before(s, c + [x + 1]) <==> Before(s, t) || s == t
    {
      BeforeAppend(s, c, x);
      BeforeAppend(s, c, x + 1);
      assert s == s[..|c|] + [s[|c|]];
    }
    forall s | Combo(p, f, s, k)
      ensures !Before(s, s) && !(Before(s, t) && Before(t, s))
    {
      BeforeIsStrict(s, t);
    }
    hide Value, Combo, Before;
    assert Before(t, c + [x + 1]);
  }

  // ----- the loops over the picks

  method SetFlags(flags: array<int>, s: Choice, v: int)
    requires forall x :: x in s ==> x < flags.Length
    modifies flags
    ensures forall i :: 0 <= i < flags.Length ==> flags[i] == if i in s then v else old(flags[i])
  {
    var i := 0;
    while i < |s|
      invariant 0 <= i <= |s|
      invariant forall j :: 0 <= j < flags.Length ==> flags[j] == if j in s[..i] then v else old(flags[j])
    {
      assert s[i] in s;
      flags[s[i]] := v;
      i := i + 1;
    }
  }

  /** Locates without the picks in `s` and keeps the better of the result and `best`. */
  method Try(p: Problem, flags: array<int>, s: Choice, best: Best) returns (b: Best)
    requires Combo(p, flags[..], s, |s|)
    modifies flags
    ensures flags[..] == old(flags[..])
    ensures var v := Value(p, old(flags[..]), s);
      b == if v < best.min then Best(v, s, LocatorFor(p, Zeroed(old(flags[..]), s))) else best
  {
    ghost var f := flags[..];
    SetFlags(flags, s, 0);
    assert flags[..] == Zeroed(f, s);
    var locator := 1;
    if !p.good(flags[..], locator) && p.bothLocators {
      locator := 2;
    }
    var r := p.resid(flags[..], locator);
    b := if r < best.min then Best(r, s, locator) else best;
    SetFlags(flags, s, 1);
    assert flags[..] == f;
  }

  /** The innermost loop of each search: the `chosen` picks are removed together with one more from
      `first` on. */
  method TryEach(p: Problem, flags: array<int>, chosen: Choice, first: nat, best: Best, ghost d: Best) returns (b: Best)
    requires |p.timed| == flags.Length && best.min <= HUGE
    requires Combo(p, flags[..], chosen, |chosen|) && (|chosen| > 0 ==> chosen[|chosen| - 1] < first)
    requires BestBefore(p, flags[..], |chosen| + 1, chosen + [first], best, d)
    modifies flags
    ensures flags[..] == old(flags[..]) && b.min <= HUGE
    ensures exists n: nat :: n >= flags.Length && BestBefore(p, old(flags[..]), |chosen| + 1, chosen + [n], b, d)
  {
    hide Before, Value, BestBefore, Zeroed;
    ghost var f, k := flags[..], |chosen| + 1;
    b := best;
    var x := first;
    while x < flags.Length
      invariant first <= x && flags[..] == f && b.min <= HUGE
      invariant BestBefore(p, f, k, chosen + [x], b, d)
    {
      if flags[x] == 1 && p.timed[x] {
        ghost var was := b;
        b := Try(p, flags, chosen + [x], b);
        Tried(p, f, k, chosen, x, was, d, b);
      } else {
        Skipped(p, f, k, chosen, x, b, d);
      }
      x := x + 1;
    }
  }

  /** One pick out. */
  method SearchOne(p: Problem, flags: array<int>, start: Best) returns (b: Best)
    requires |p.timed| == flags.Length
    modifies flags
    ensures flags[..] == old(flags[..])
    ensures BestOf(p, old(flags[..]), 1, b, start)
  {
    hide Before, Value, BestBefore, BestOf, Zeroed;
    ghost var f, none: Choice := flags[..], [];
    b := start.(min := HUGE);
    StartsBest(p, f, 1, b);
    assert none + [0] == [0];
    ghost var d := b;
    b := TryEach(p, flags, [], 0, b, d);
    ghost var n: nat :| n >= flags.Length && BestBefore(p, f, 1, none + [n], b, d);
    assert none + [n] == [n];
    Done(p, f, 1, n, b, start);
  }

  /** Two picks out. */
  method SearchTwo(p: Problem, flags: array<int>, start: Best) returns (b: Best)
    requires |p.timed| == flags.Length
    modifies flags
    ensures flags[..] == old(flags[..])
    ensures BestOf(p, old(flags[..]), 2, b, start)
  {
    hide Before, Value, BestBefore, BestOf, Zeroed;
    ghost var f, none: Choice := flags[..], [];
    b := start.(min := HUGE);
    StartsBest(p, f, 2, b);
    ghost var d := b;
    var i := 0;
    assert none + [0] == [0];
    while i < flags.Length - 1
      invariant 0 <= i && flags[..] == f && b.min <= HUGE
      invariant BestBefore(p, f, 2, none + [i], b, d)
    {
      assert none + [i] == [i];
      if flags[i] == 1 && p.timed[i] {
        Entered(p, f, 2, [i], b, d);
        b := TryEach(p, flags, [i], i + 1, b, d);
        ghost var n: nat :| n >= flags.Length && BestBefore(p, f, 2, [i] + [n], b, d);
        assert none + [i, n] == [i] + [n];
        Left(p, f, 2, none, i, n, b, d);
      } else {
        Skipped(p, f, 2, none, i, b, d);
      }
      i := i + 1;
    }
    assert none + [i] == [i];
    Done(p, f, 2, i, b, start);
  }

  /** Three picks out. */
  method SearchThree(p: Problem, flags: array<int>, start: Best) returns (b: Best)
    requires |p.timed| == flags.Length
    modifies flags
    ensures flags[..] == old(flags[..])
    ensures BestOf(p, old(flags[..]), 3, b, start)
  {
    hide Before, Value, BestBefore, BestOf, Zeroed;
    ghost var f, none: Choice := flags[..], [];
    b := start.(min := HUGE);
    StartsBest(p, f, 3, b);
    ghost var d := b;
    var i := 0;
    assert none + [0] == [0];
    while i < flags.Length - 2
      invariant 0 <= i && flags[..] == f && b.min <= HUGE
      invariant BestBefore(p, f, 3, none + [i], b, d)
    {
      assert none + [i] == [i];
      if flags[i] == 1 && p.timed[i] {
        Entered(p, f, 3, [i], b, d);
        b := TryPairs(p, flags, i, b, d);
      } else {
        Skipped(p, f, 3, none, i, b, d);
      }
      i := i + 1;
    }
    assert none + [i] == [i];
    Done(p, f, 3, i, b, start);
  }

  /** The two inner loops of the search for three picks. */
  method TryPairs(p: Problem, flags: array<int>, i: nat, best: Best, ghost d: Best) returns (b: Best)
    requires |p.timed| == flags.Length && Removable(p, flags[..], i) && best.min <= HUGE
    requires BestBefore(p, flags[..], 3, [i] + [i + 1], best, d)
    modifies flags
    ensures flags[..] == old(flags[..]) && b.min <= HUGE
    ensures var none: Choice := []; BestBefore(p, old(flags[..]), 3, none + [i + 1], b, d)
  {
    hide Before, Value, BestBefore, BestOf, Zeroed;
    ghost var f, none: Choice := flags[..], [];
    b := best;
    var j := i + 1;
    while j < flags.Length - 1
      invariant i < j && flags[..] == f && b.min <= HUGE
      invariant BestBefore(p, f, 3, [i] + [j], b, d)
    {
      assert [i] + [j] == [i, j];
      if flags[j] == 1 && p.timed[j] {
        Entered(p, f, 3, [i, j], b, d);
        b := TryEach(p, flags, [i, j], j + 1, b, d);
        ghost var n: nat :| n >= flags.Length && BestBefore(p, f, 3, [i, j] + [n], b, d);
        assert [i] + [j, n] == [i, j] + [n];
        Left(p, f, 3, [i], j, n, b, d);
      } else {
        Skipped(p, f, 3, [i], j, b, d);
      }
      j := j + 1;
    }
    assert none + [i, j] == [i] + [j];
    Left(p, f, 3, none, i, j, b, d);
  }

  // ----- the three stages

  predicate InRange(f: seq<int>, s: Choice) { forall x :: x in s ==> x < |f| }

  /** The flags after a trial removal is taken back: the picks are used again, whatever they were. */
  function Restored(f: seq<int>, s: Choice): (g: seq<int>)
    ensures |g| == |f|
    ensures forall i :: 0 <= i < |f| ==> g[i] == if i in s then 1 else f[i]
  {
    seq(|f|, i requires 0 <= i < |f| => if i in s then 1 else f[i])
  }

  const FIRST := Best(HUGE, [0], 1)

  function Longer(b: Best): Best { Best(HUGE, b.at + [0], b.locator) }

  datatype Stages = Stages(count: nat, one: Best, two: Best, three: Best)

  /** The set chosen in the last stage that ran. */
  function LastChoice(r: Stages): Choice {
    if r.count <= 1 then r.one.at else if r.count == 2 then r.two.at else r.three.at
  }

  /** What the routine leaves behind: `f` the flags before, `g` those after. */
  ghost predicate Outcome(p: Problem, f: seq<int>, g: seq<int>, r: Stages) {
    var n := UsedCount(p, f, |f|);
    if n < 5 then r.count == 0 && g == f
    else
      var g1 := Zeroed(f, r.one.at);
      && BestOf(p, f, 1, r.one, FIRST) && InRange(f, r.one.at)
      && if n <= 6 || p.good(g1, r.one.locator) then r.count == 1 && g == g1
         else OutcomeOfTwo(p, Restored(f, r.one.at), g, r, n)
  }

  ghost predicate OutcomeOfTwo(p: Problem, f: seq<int>, g: seq<int>, r: Stages, n: nat) {
    var g2 := Zeroed(f, r.two.at);
    && BestOf(p, f, 2, r.two, Longer(r.one)) && InRange(f, r.two.at)
    && if n <= 10 || n > 20 || p.good(g2, r.two.locator) then r.count == 2 && g == g2
       else
         && r.count == 3
         && var f2 := Restored(f, r.two.at);
            && BestOf(p, f2, 3, r.three, Longer(r.two)) && InRange(f2, r.three.at)
            && g == Zeroed(f2, r.three.at)
  }

  method CountUsed(p: Problem, flags: array<int>) returns (n: nat)
    requires |p.timed| == flags.Length
    ensures n == UsedCount(p, flags[..], flags.Length)
  {
    n := 0;
    var i := 0;
    while i < flags.Length
      invariant 0 <= i <= flags.Length && n == UsedCount(p, flags[..], i)
    {
      if flags[i] > 0 && p.timed[i] {
        n := n + 1;
      }
      i := i + 1;
    }
  }

  method FindBadPs(p: Problem, flags: array<int>) returns (r: Stages)
    requires |p.timed| == flags.Length
    modifies flags
    ensures Outcome(p, old(flags[..]), flags[..], r)
  {
    hide Before, Value, BestBefore, BestOf, Combo, Found;
    ghost var f := flags[..];
    r := Stages(0, FIRST, FIRST, FIRST);
    var n := CountUsed(p, flags);
    if n < 5 {
      return;
    }
    UsedAtMost(p, f, |f|);
    var one := SearchOne(p, flags, FIRST);
    r := r.(count := 1, one := one);
    BestInRange(p, f, 1, FIRST, one);
    SetFlags(flags, one.at, 0);
    assert flags[..] == Zeroed(f, one.at);
    if n <= 6 || p.good(flags[..], one.locator) {
      return;
    }
    SetFlags(flags, one.at, 1);
    ghost var f1 := Restored(f, one.at);
    assert flags[..] == f1;
    var two := SearchTwo(p, flags, Longer(one));
    r := r.(count := 2, two := two);
    BestInRange(p, f1, 2, Longer(one), two);
    SetFlags(flags, two.at, 0);
    assert flags[..] == Zeroed(f1, two.at);
    if n <= 10 || n > 20 || p.good(flags[..], two.locator) {
      return;
    }
    SetFlags(flags, two.at, 1);
    ghost var f2 := Restored(f1, two.at);
    assert flags[..] == f2;
    var three := SearchThree(p, flags, Longer(two));
    r := r.(count := 3, three := three);
    BestInRange(p, f2, 3, Longer(two), three);
    SetFlags(flags, three.at, 0);
    assert flags[..] == Zeroed(f2, three.at);
  }

  lemma BestInRange(p: Problem, f: seq<int>, k: nat, start: Best, b: Best)
    requires BestOf(p, f, k, b, start) && InRange(f, start.at)
    ensures InRange(f, b.at)
  {}

  lemma {:induction false} UsedAtMost(p: Problem, f: seq<int>, n: nat)
    ensures UsedCount(p, f, n) <= n
  {
    if n > 0 {
      UsedAtMost(p, f, n - 1);
    }
  }

  // ----- what the flags promise

  /** `k` picks in increasing order, each in use, not protected, and with a P time. */
  ghost predicate Candidate(p: Problem, f: seq<int>, s: Choice, k: nat) {
    && |s| == k && (forall i, j :: 0 <= i < j < k ==> s[i] < s[j])
    && forall i :: 0 <= i < k ==> s[i] < |f| && s[i] < |p.timed| && f[s[i]] == 1 && p.timed[s[i]]
  }

  /** The residual with the flags `g`: the second locator's, if both are asked for and the verdict on the
      first is bad. */
  ghost function Reached(p: Problem, g: seq<int>): real {
    if p.bothLocators && !p.good(g, 1) then p.resid(g, 2) else p.resid(g, 1)
  }

  /** The verdict, of the same locator. */
  ghost predicate Accepted(p: Problem, g: seq<int>) {
    if p.bothLocators && !p.good(g, 1) then p.good(g, 2) else p.good(g, 1)
  }

  /** At the first difference `t` has the smaller index. */
  ghost predicate Earlier(t: Choice, s: Choice) {
    exists m :: 0 <= m < |t| && m < |s| && t[..m] == s[..m] && t[m] < s[m]
  }

  /** Some set of `k` picks leaves a residual below the initial bound. */
  ghost predicate Locatable(p: Problem, f: seq<int>, k: nat) {
    exists s :: Candidate(p, f, s, k) && Reached(p, Zeroed(f, s)) < 100000000000000000000.0
  }

  /** The first of the sets of size `k` with the least residual. */
  ghost predicate FirstMinimiser(p: Problem, f: seq<int>, k: nat, s: Choice) {
    Candidate(p, f, s, k) &&
    forall t :: Candidate(p, f, t, k) ==>
      && Reached(p, Zeroed(f, s)) <= Reached(p, Zeroed(f, t))
      && (Earlier(t, s) ==> Reached(p, Zeroed(f, s)) < Reached(p, Zeroed(f, t)))
  }

  /** How many picks are in use and have a P time. */
  ghost function InUse(p: Problem, f: seq<int>): nat {
    |set i | 0 <= i < |f| && i < |p.timed| && f[i] > 0 && p.timed[i]|
  }

  lemma CandidateIff(p: Problem, f: seq<int>, s: Choice, k: nat)
    ensures Candidate(p, f, s, k) <==> Combo(p, f, s, k)
  {
    if Combo(p, f, s, k) {
      assert forall i :: 0 <= i < k ==> s[i] in s;
    }
  }

  lemma ReachedIs(p: Problem, f: seq<int>, s: Choice)
    ensures Reached(p, Zeroed(f, s)) == Value(p, f, s)
    ensures Accepted(p, Zeroed(f, s)) <==> p.good(Zeroed(f, s), LocatorFor(p, Zeroed(f, s)))
  {}

  lemma {:induction false} EarlierIff(t: Choice, s: Choice)
    requires |t| == |s|
    ensures Earlier(t, s) <==> Before(t, s)
  {
    if |t| > 0 {
      EarlierIff(t[1..], s[1..]);
      if m :| 0 <= m < |t| && t[..m] == s[..m] && t[m] < s[m] && m > 0 {
        assert t[0] == t[..m][0] && t[1..][..m - 1] == t[..m][1..] && s[1..][..m - 1] == s[..m][1..];
        assert t[1..][m - 1] < s[1..][m - 1];
      }
      if t[0] < s[0] {
        assert t[..0] == s[..0];
      } else if Before(t, s) {
        var m :| 0 <= m < |t| - 1 && t[1..][..m] == s[1..][..m] && t[1..][m] < s[1..][m];
        assert t[..m + 1] == [t[0]] + t[1..][..m] && s[..m + 1] == [s[0]] + s[1..][..m];
        assert t[m + 1] < s[m + 1];
      }
    }
  }

  lemma {:induction false} UsedCountIs(p: Problem, f: seq<int>, n: nat)
    requires n <= |f|
    ensures UsedCount(p, f, n) == |set i | 0 <= i < n && i < |p.timed| && f[i] > 0 && p.timed[i]|
  {
    if n > 0 {
      UsedCountIs(p, f, n - 1);
      var a := set i | 0 <= i < n - 1 && i < |p.timed| && f[i] > 0 && p.timed[i];
      var b := set i | 0 <= i < n && i < |p.timed| && f[i] > 0 && p.timed[i];
      assert b == if Used(p, f, n - 1) then a + {n - 1} else a;
    }
  }

  predicate OnlyOnesCleared(f: seq<int>, g: seq<int>) {
    |g| == |f| && forall i :: 0 <= i < |f| && g[i] != f[i] ==> f[i] == 1 && g[i] == 0
  }

  lemma StageResult(p: Problem, f: seq<int>, k: nat, start: Best, b: Best)
    requires k > 0 && BestOf(p, f, k, b, start)
    ensures Locatable(p, f, k) <==> b.min != HUGE
    ensures Locatable(p, f, k) ==> Combo(p, f, b.at, k) && FirstMinimiser(p, f, k, b.at) && Restored(f, b.at) == f
    ensures !Locatable(p, f, k) ==> b == start.(min := HUGE)
  {
    hide Before, Value, Reached, Earlier, Zeroed, Candidate, LocatorFor;
    forall t
      ensures (Candidate(p, f, t, k) <==> Combo(p, f, t, k)) && Reached(p, Zeroed(f, t)) == Value(p, f, t)
    {
      CandidateIff(p, f, t, k);
      ReachedIs(p, f, t);
    }
    forall t: Choice | |t| == |b.at|
      ensures Earlier(t, b.at) <==> Before(t, b.at)
    {
      EarlierIff(t, b.at);
    }
    if b.min != HUGE {
      assert Combo(p, f, b.at, k) && Value(p, f, b.at) < HUGE;
      assert Candidate(p, f, b.at, k);
    }
  }

  lemma {:induction false} UsedWithoutOne(p: Problem, f: seq<int>, i: nat, n: nat)
    requires Removable(p, f, i)
    ensures UsedCount(p, f[i := 0], n) == UsedCount(p, f, n) - (if i < n then 1 else 0)
  {
    if n > 0 {
      UsedWithoutOne(p, f, i, n - 1);
    }
  }

  lemma {:induction false} UsedWithout(p: Problem, f: seq<int>, s: Choice, k: nat)
    requires Combo(p, f, s, k)
    ensures UsedCount(p, Zeroed(f, s), |f|) == UsedCount(p, f, |f|) - k
    decreases k
  {
    if k == 0 {
      assert Zeroed(f, s) == f;
    } else {
      var h, i := s[..k - 1], s[k - 1];
      UsedWithout(p, f, h, k - 1);
      var g := Zeroed(f, h);
      assert i in s && s == h + [i];
      assert i !in h;
      UsedWithoutOne(p, g, i, |f|);
      assert Zeroed(f, s) == g[i := 0];
    }
  }

  /** The main result. When every stage that ran found a set that can be located, the routine has
      removed exactly the first minimiser of the last stage, and nothing else changed. */
  lemma {:induction false} RemovesFirstMinimiser(p: Problem, f: seq<int>, g: seq<int>, r: Stages)
    requires |f| == |p.timed| && Outcome(p, f, g, r)
    requires forall k :: 1 <= k <= r.count ==> Locatable(p, f, k)
    ensures OnlyOnesCleared(f, g)
    ensures || (r.count == 0 && g == f)
            || (1 <= r.count <= 3 && FirstMinimiser(p, f, r.count, LastChoice(r)) && g == Zeroed(f, LastChoice(r)))
  {
    hide BestOf, Locatable, FirstMinimiser, Value, Before, UsedCount;
    if r.count > 0 {
      StageResult(p, f, 1, FIRST, r.one);
      if r.count > 1 {
        StageResult(p, f, 2, Longer(r.one), r.two);
        if r.count > 2 {
          StageResult(p, f, 3, Longer(r.two), r.three);
        }
      }
    }
  }

  /** With no premise at all: apart from the pick at index 0, a pick is only ever changed from 1 to 0. */
  lemma OthersUnharmed(p: Problem, f: seq<int>, g: seq<int>, r: Stages, i: nat)
    requires Outcome(p, f, g, r) && 0 < i < |f|
    ensures |g| == |f| && (g[i] == f[i] || (f[i] == 1 && g[i] == 0))
  {
    hide BestOf, Value, Before, UsedCount;
    if r.count > 0 {
      ChosenAt(p, f, 1, FIRST, r.one, i);
      if r.count > 1 {
        var f1 := Restored(f, r.one.at);
        ChosenAt(p, f1, 2, Longer(r.one), r.two, i);
        if r.count > 2 {
          ChosenAt(p, Restored(f1, r.two.at), 3, Longer(r.two), r.three, i);
        }
      }
    }
  }

  /** A chosen pick is removable, is index 0, or was already chosen by the stage before. */
  lemma ChosenAt(p: Problem, f: seq<int>, k: nat, start: Best, b: Best, i: nat)
    requires BestOf(p, f, k, b, start) && 0 < i < |f|
    requires i in start.at ==> f[i] == 1
    ensures i in b.at ==> f[i] == 1
  {}

  /** A first pick that must not be removed survives when every stage that ran found a set, and then only. */
  lemma FirstPickKeptByRun(p: Problem, f: seq<int>, g: seq<int>, r: Stages)
    requires |f| == |p.timed| && Outcome(p, f, g, r) && |f| > 0 && f[0] != 0 && f[0] != 1
    ensures |g| == |f|
    ensures g[0] == f[0] <==> forall k :: 1 <= k <= r.count ==> Locatable(p, f, k)
  {
    hide BestOf, Locatable, FirstMinimiser, Value, Before, UsedCount;
    if r.count > 0 {
      StageResult(p, f, 1, FIRST, r.one);
      if !Locatable(p, f, 1) {
        assert g[0] == 0 || g[0] == 1;
      } else if r.count > 1 {
        StageResult(p, f, 2, Longer(r.one), r.two);
        if Locatable(p, f, 2) && r.count > 2 {
          StageResult(p, f, 3, Longer(r.two), r.three);
        }
      }
    }
  }

  /** The condition can fail: with nothing but protected picks, the first of them is dropped. */
  lemma AllProtected(p: Problem, f: seq<int>, g: seq<int>, r: Stages)
    requires |f| == |p.timed| && InUse(p, f) >= 5 && Outcome(p, f, g, r)
    requires forall i :: 0 <= i < |f| ==> f[i] == 2
    ensures g[0] != 2
  {
    UsedCountIs(p, f, |f|);
    UsedAtMost(p, f, |f|);
    assert UsedCount(p, f, |f|) >= 5;
    forall s
      ensures !Candidate(p, f, s, 1)
    {
      assert |s| == 1 && s[0] < |f| ==> f[s[0]] == 2;
    }
    assert !Locatable(p, f, 1) && r.count >= 1;
    FirstPickKeptByRun(p, f, g, r);
  }

  /** Whatever the first pick is: only picks in use are dropped, and none is switched on, exactly when the
      routine gave up before the first stage, or the first pick was in use, or every stage that ran found
      a set, or the first pick was out of use and is among those the last stage dropped. */
  lemma {:induction false} OnlyOnesClearedByRun(p: Problem, f: seq<int>, g: seq<int>, r: Stages)
    requires |f| == |p.timed| && Outcome(p, f, g, r)
    ensures OnlyOnesCleared(f, g) <==>
      || r.count == 0 || f[0] == 1
      || (forall k :: 1 <= k <= r.count ==> Locatable(p, f, k))
      || (f[0] == 0 && 0 in LastChoice(r))
  {
    forall i | 0 < i < |f|
      ensures |g| == |f| && (g[i] == f[i] || (f[i] == 1 && g[i] == 0))
    {
      OthersUnharmed(p, f, g, r, i);
    }
    UsedAtMost(p, f, |f|);
    hide BestOf, Locatable, FirstMinimiser, Value, Before, UsedCount;
    if r.count > 0 {
      FirstPickAfter(p, f, g, r);
    }
  }

  /** What becomes of the first pick. */
  lemma FirstPickAfter(p: Problem, f: seq<int>, g: seq<int>, r: Stages)
    requires |f| == |p.timed| && |f| > 0 && r.count > 0 && Outcome(p, f, g, r)
    ensures |g| == |f|
    ensures (forall k :: 1 <= k <= r.count ==> Locatable(p, f, k)) ==>
      g[0] == (if 0 in LastChoice(r) then 0 else f[0]) && (0 in LastChoice(r) ==> f[0] == 1)
    ensures !(forall k :: 1 <= k <= r.count ==> Locatable(p, f, k)) ==> g[0] == if 0 in LastChoice(r) then 0 else 1
  {
    hide BestOf, Locatable, FirstMinimiser, Value, Before, UsedCount;
    StageResult(p, f, 1, FIRST, r.one);
    if r.count > 1 {
      var f1 := Restored(f, r.one.at);
      StageResult(p, f1, 2, Longer(r.one), r.two);
      if r.count > 2 {
        StageResult(p, Restored(f1, r.two.at), 3, Longer(r.two), r.three);
      }
    }
  }
}
