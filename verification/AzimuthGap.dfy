/** libsrc/locquake.c: QuakeAzimuthSort, the azimuth coverage of a location. Azimuths are degrees from 0
    to 360. */
module AzimuthGap {
  import Reals

  datatype Pick = Pick(use: int, timed: bool, az: real)

  /** The azimuths of the first `n` picks, unused ones left out. */
  function Used(ps: seq<Pick>, n: nat): (s: seq<real>)
    requires n <= |ps|
    ensures |s| <= n
    ensures forall x :: x in s <==> exists k :: 0 <= k < n && ps[k].use > 0 && ps[k].timed && ps[k].az == x
  {
    if n == 0 then []
    else Used(ps, n - 1) + if ps[n - 1].use > 0 && ps[n - 1].timed then [ps[n - 1].az] else []
  }

  predicate Degrees(s: seq<real>) { forall x :: x in s ==> 0.0 <= x <= 360.0 }

  predicate Sorted(s: seq<real>) { forall i, j :: 0 <= i < j < |s| ==> s[i] <= s[j] }

  // ----- the largest empty arc

  /** No azimuth lies strictly inside the arc that starts at `t` and is `l` degrees long; an arc may run
      past 360. */
  ghost predicate Empty(s: seq<real>, t: real, l: real) {
    forall x :: x in s ==> !(t < x < t + l) && !(t < x + 360.0 < t + l)
  }

  ghost predicate LargestArc(s: seq<real>, g: real) {
    && (exists t :: 0.0 <= t < 360.0 && Empty(s, t, g))
    && forall t, l :: 0.0 <= t < 360.0 && Empty(s, t, l) ==> l <= g
  }

  /** The arc from azimuth `i` to the next one, the last arc going round through north. */
  function Gap(d: seq<real>, i: nat): real
    requires i < |d|
  {
    if i + 1 < |d| then d[i + 1] - d[i] else 360.0 - (d[|d| - 1] - d[0])
  }

  ghost predicate MaxGap(d: seq<real>, g: real) {
    (exists i: nat :: i < |d| && Gap(d, i) == g) && forall i: nat :: i < |d| ==> Gap(d, i) <= g
  }

  lemma GapIsEmpty(d: seq<real>, i: nat) returns (t: real)
    requires Sorted(d) && Degrees(d) && i < |d| && Gap(d, i) > 0.0
    ensures 0.0 <= t < 360.0 && Empty(d, t, Gap(d, i))
  {
    t := if d[i] == 360.0 then 0.0 else d[i];
    assert d[i] in d && d[0] in d && d[|d| - 1] in d;
    forall x | x in d
      ensures !(t < x < t + Gap(d, i)) && !(t < x + 360.0 < t + Gap(d, i))
    {
      var k :| 0 <= k < |d| && d[k] == x;
      assert i + 1 < |d| ==> d[i + 1] in d;
    }
  }

  /** The first azimuth past `t`. */
  function Next(d: seq<real>, t: real, k: nat): (r: nat)
    requires k <= |d|
    ensures k <= r <= |d| && (forall i :: k <= i < r ==> d[i] <= t) && (r < |d| ==> d[r] > t)
    decreases |d| - k
  {
    if k == |d| || d[k] > t then k else Next(d, t, k + 1)
  }

  lemma EmptyIsInGap(d: seq<real>, t: real, l: real) returns (i: nat)
    requires Sorted(d) && Degrees(d) && |d| > 0 && 0.0 <= t < 360.0 && Empty(d, t, l)
    ensures i < |d| && l <= Gap(d, i)
  {
    var k := Next(d, t, 0);
    assert d[0] in d && d[|d| - 1] in d && (k < |d| ==> d[k] in d);
    if k == 0 || k == |d| {
      i := |d| - 1;
    } else {
      i := k - 1;
    }
  }

  /** The largest gap between neighbours is the largest empty arc. */
  lemma MaxGapIsLargest(d: seq<real>, g: real)
    requires Sorted(d) && Degrees(d) && MaxGap(d, g) && g > 0.0
    ensures LargestArc(d, g)
  {
    var i: nat :| i < |d| && Gap(d, i) == g;
    var t := GapIsEmpty(d, i);
    forall u, l | 0.0 <= u < 360.0 && Empty(d, u, l)
      ensures l <= g
    {
      var j := EmptyIsInGap(d, u, l);
    }
  }

  // ----- the gaps together make the circle

  function GapSum(d: seq<real>, n: nat): real
    requires n <= |d|
  {
    if n == 0 then 0.0 else GapSum(d, n - 1) + Gap(d, n - 1)
  }

  lemma {:induction false} PartialSum(d: seq<real>, n: nat)
    requires n < |d|
    ensures GapSum(d, n) == d[n] - d[0]
  {
    if n > 0 {
      PartialSum(d, n - 1);
    }
  }

  lemma GapsMakeCircle(d: seq<real>)
    requires |d| > 0
    ensures GapSum(d, |d|) == 360.0
  {
    PartialSum(d, |d| - 1);
  }

  lemma {:induction false} SumAtMost(d: seq<real>, n: nat, g: real)
    requires n <= |d| && forall i: nat :: i < |d| ==> Gap(d, i) <= g
    ensures GapSum(d, n) <= n as real * g
  {
    if n > 0 {
      hide Gap;
      SumAtMost(d, n - 1, g);
    }
  }

  /** The largest gap is at least an equal share of the circle, */
  lemma MaxGapAtLeast(d: seq<real>, n: nat, g: real)
    requires n == |d| > 0 && MaxGap(d, g)
    ensures 360.0 <= n as real * g && g > 0.0
  {
    GapsMakeCircle(d);
    SumAtMost(d, n, g);
    hide *;
  }

  /** and no longer than the circle. */
  lemma MaxGapAtMost(d: seq<real>, g: real)
    requires Sorted(d) && Degrees(d) && |d| > 0 && MaxGap(d, g)
    ensures g <= 360.0
  {
    var i: nat :| i < |d| && Gap(d, i) == g;
    assert d[0] in d && d[|d| - 1] in d && d[i] in d && (i + 1 < |d| ==> d[i + 1] in d);
  }

  // ----- the routine

  /** The sort by exchange: after pass `i` the first `i + 1` azimuths are in place. */
  predicate Placed(s: seq<real>, i: nat) {
    forall k, l :: 0 <= k < l < |s| && k < i ==> s[k] <= s[l]
  }

  method Exchange(a: array<real>, n: nat, i: nat, j: nat)
    requires i < j < n <= a.Length && Placed(a[..n], i)
    modifies a
    ensures a[i] == old(a[j]) && a[j] == old(a[i])
    ensures forall k :: 0 <= k < a.Length && k != i && k != j ==> a[k] == old(a[k])
    ensures Placed(a[..n], i) && multiset(a[..n]) == multiset(old(a[..n]))
  {
    ghost var s := a[..n];
    hide Placed;
    var temp := a[i];
    a[i] := a[j];
    a[j] := temp;
    assert a[..n] == s[i := s[j]][j := s[i]];
  }

  method SortAzimuths(a: array<real>, n: nat)
    requires n <= a.Length
    modifies a
    ensures Sorted(a[..n]) && multiset(a[..n]) == multiset(old(a[..n]))
  {
    var i := 0;
    while i < n - 1
      invariant 0 <= i && (n > 0 ==> i <= n - 1) && Placed(a[..n], i)
      invariant multiset(a[..n]) == multiset(old(a[..n]))
    {
      var j := i + 1;
      while j < n
        invariant i < j <= n && Placed(a[..n], i)
        invariant multiset(a[..n]) == multiset(old(a[..n]))
        invariant forall l :: i < l < j ==> a[i] <= a[l]
      {
        if a[i] > a[j] {
          Exchange(a, n, i, j);
        }
        j := j + 1;
      }
      i := i + 1;
    }
  }

  method LargestGap(a: array<real>, n: nat) returns (g: real)
    requires 0 < n <= a.Length && Sorted(a[..n]) && Degrees(a[..n])
    ensures MaxGap(a[..n], g)
  {
    ghost var d := a[..n];
    assert d[0] in d && d[n - 1] in d;
    g := 0.0;
    var i := 0;
    while i < n - 1
      invariant 0 <= i <= n - 1 && g >= 0.0
      invariant forall k: nat :: k < i ==> Gap(d, k) <= g
      invariant g == 0.0 || exists k: nat :: k < i && Gap(d, k) == g
    {
      var t := a[i + 1] - a[i];
      assert t == Gap(d, i);
      if t > g {
        g := t;
      }
      i := i + 1;
    }
    var t := 360.0 - (a[n - 1] - a[0]);
    assert t == Gap(d, n - 1);
    if t > g {
      g := t;
    }
    NoGapIsNegative(d);
  }

  lemma NoGapIsNegative(d: seq<real>)
    requires Sorted(d) && Degrees(d) && |d| > 0
    ensures forall k: nat :: k < |d| ==> Gap(d, k) >= 0.0
  {
    assert d[0] in d && d[|d| - 1] in d;
  }

  /** The usable azimuths, in the first `n` cells. */
  method Collect(ps: seq<Pick>) returns (az: array<real>, n: nat)
    ensures fresh(az) && n <= az.Length && az[..n] == Used(ps, |ps|)
  {
    az := new real[|ps|];
    n := 0;
    var i := 0;
    while i < |ps|
      invariant 0 <= n <= i <= |ps| && az[..n] == Used(ps, i)
    {
      if ps[i].use > 0 && ps[i].timed {
        az[n] := ps[i].az;
        n := n + 1;
      }
      i := i + 1;
    }
  }

  /** The coverage that belongs to the azimuths `s`. */
  ghost predicate Coverage(s: seq<real>, c: int) {
    if s == [] then c == 0 else exists g :: LargestArc(s, g) && c == Reals.Trunc(360.0 - g)
  }

  /** The whole routine. With no usable pick it returns 0. */
  method QuakeAzimuthSort(ps: seq<Pick>) returns (coverage: int)
    requires Degrees(Used(ps, |ps|))
    ensures Coverage(Used(ps, |ps|), coverage)
  {
    var az, n := Collect(ps);
    if n == 0 {
      return 0;
    }
    ghost var s := az[..n];
    SortAzimuths(az, n);
    ghost var d := az[..n];
    SameElements(s, d);
    var g := LargestGap(az, n);
    SortedArc(s, d, g);
    coverage := Reals.Trunc(360.0 - g);
  }

  lemma SameElements(s: seq<real>, d: seq<real>)
    requires multiset(s) == multiset(d)
    ensures forall x :: x in s <==> x in d
    ensures |s| == |d|
  {
    assert forall x :: x in s <==> x in multiset(s);
    assert forall x :: x in d <==> x in multiset(d);
    assert |multiset(s)| == |s| && |multiset(d)| == |d|;
  }

  /** The arcs do not depend on the order of the azimuths. */
  lemma SortedArc(s: seq<real>, d: seq<real>, g: real)
    requires multiset(s) == multiset(d) && Sorted(d) && Degrees(s) && s != [] && MaxGap(d, g)
    ensures LargestArc(s, g)
  {
    SameElements(s, d);
    MaxGapAtLeast(d, |d|, g);
    MaxGapIsLargest(d, g);
    forall t, l
      ensures Empty(s, t, l) <==> Empty(d, t, l)
    {}
  }

  /** With `n` usable picks the coverage is at most 360 - 360/n, and never negative. */
  lemma CoverageBounds(s: seq<real>, c: int)
    requires Degrees(s) && s != [] && Coverage(s, c)
    ensures 0 <= c && c as real * |s| as real <= 360.0 * |s| as real - 360.0
  {
    var g :| LargestArc(s, g) && c == Reals.Trunc(360.0 - g);
    ArcBounds(s, g);
    hide Coverage, LargestArc, Degrees;
    CoverageBound(|s| as real, g, c as real);
  }

  lemma ArcBounds(s: seq<real>, g: real)
    requires Degrees(s) && s != [] && LargestArc(s, g)
    ensures 0.0 < g <= 360.0 && 360.0 <= |s| as real * g
  {
    var d := SortedVersion(s);
    SameElements(s, d);
    var h := MaxGapOf(d);
    SortedArc(s, d, h);
    hide *;
    MaxGapAtLeast(d, |s|, g);
    MaxGapAtMost(d, g);
  }

  lemma CoverageBound(n: real, g: real, c: real)
    requires n > 0.0 && 360.0 <= n * g && c <= 360.0 - g
    ensures c * n <= 360.0 * n - 360.0
  {
    Reals.MulNonNegative(360.0 - g - c, n);
  }

  lemma Inserted(e: seq<real>, x: real, k: nat)
    requires Sorted(e) && k == Next(e, x, 0)
    ensures Sorted(e[..k] + [x] + e[k..])
  {
    var d := e[..k] + [x] + e[k..];
    forall i, j | 0 <= i < j < |d|
      ensures d[i] <= d[j]
    {
      assert d[i] == if i < k then e[i] else if i == k then x else e[i - 1];
      assert d[j] == if j < k then e[j] else if j == k then x else e[j - 1];
      assert k < |e| ==> x < e[k];
    }
  }

  lemma {:induction false} SortedVersion(s: seq<real>) returns (d: seq<real>)
    ensures Sorted(d) && multiset(d) == multiset(s)
  {
    hide Sorted;
    if s == [] {
      d := [];
      NothingIsSorted();
    } else {
      var x := s[0];
      assert s == [x] + s[1..];
      var e := SortedVersion(s[1..]);
      var k := Next(e, x, 0);
      d := e[..k] + [x] + e[k..];
      Inserted(e, x, k);
      assert e == e[..k] + e[k..];
    }
  }

  lemma NothingIsSorted()
    ensures Sorted([])
  {}

  lemma MaxGapOf(d: seq<real>) returns (g: real)
    requires |d| > 0
    ensures MaxGap(d, g)
  {
    g := Gap(d, 0);
    var i: nat := 1;
    while i < |d|
      invariant 1 <= i <= |d|
      invariant forall k: nat :: k < i ==> Gap(d, k) <= g
      invariant exists k: nat :: k < i && Gap(d, k) == g
    {
      if Gap(d, i) > g {
        g := Gap(d, i);
      }
      i := i + 1;
    }
  }
}
