/** libsrc/filters.c: apiir and apiirG over integer samples, with the station's saved memories. */
module FilterRun {
  import Reals
  import BandPass
  import Bilinear
  import opened Cascade

  function ToReals(xs: seq<int>): (r: seq<real>)
    ensures |r| == |xs|
  {
    seq(|xs|, i requires 0 <= i < |xs| => xs[i] as real)
  }

  function Truncated(ys: seq<real>): (r: seq<int>)
    ensures |r| == |ys|
  {
    seq(|ys|, i requires 0 <= i < |ys| => Reals.Trunc(ys[i]))
  }

  /** What a call writes over the samples `xs`. */
  function Filtered(secs: seq<BandPass.Section>, ms: seq<Memory>, xs: seq<int>): (r: seq<int>)
    requires |secs| == |ms|
    ensures |r| == |xs|
  {
    Truncated(CascadeRun(secs, ms, ToReals(xs)).0)
  }

  /** The memories it leaves. */
  function Remembered(secs: seq<BandPass.Section>, ms: seq<Memory>, xs: seq<int>): (r: seq<Memory>)
    requires |secs| == |ms|
    ensures |r| == |ms|
  {
    CascadeRun(secs, ms, ToReals(xs)).1
  }

  /** Two packets filtered one after the other are one packet filtered at once. */
  lemma PacketsJoin(secs: seq<BandPass.Section>, ms: seq<Memory>, a: seq<int>, b: seq<int>)
    requires |secs| == |ms|
    ensures Filtered(secs, ms, a + b) == Filtered(secs, ms, a) + Filtered(secs, Remembered(secs, ms, a), b)
    ensures Remembered(secs, ms, a + b) == Remembered(secs, Remembered(secs, ms, a), b)
  {
    hide CascadeRun;
    CascadeRunSplits(secs, ms, ToReals(a), ToReals(b));
    assert ToReals(a + b) == ToReals(a) + ToReals(b);
    var ya := CascadeRun(secs, ms, ToReals(a)).0;
    var yb := CascadeRun(secs, Remembered(secs, ms, a), ToReals(b)).0;
    assert Truncated(ya + yb) == Truncated(ya) + Truncated(yb);
  }

  /** Any cutting of the signal into packets. */
  function FilteredPackets(secs: seq<BandPass.Section>, ms: seq<Memory>, packets: seq<seq<int>>): seq<int>
    requires |secs| == |ms|
    decreases |packets|
  {
    if |packets| == 0 then []
    else Filtered(secs, ms, packets[0]) + FilteredPackets(secs, Remembered(secs, ms, packets[0]), packets[1..])
  }

  function Joined(packets: seq<seq<int>>): seq<int> {
    if |packets| == 0 then [] else packets[0] + Joined(packets[1..])
  }

  lemma {:induction false} CuttingDoesNotMatter(secs: seq<BandPass.Section>, ms: seq<Memory>, packets: seq<seq<int>>)
    requires |secs| == |ms|
    ensures FilteredPackets(secs, ms, packets) == Filtered(secs, ms, Joined(packets))
    decreases |packets|
  {
    hide Remembered;
    if |packets| > 0 {
      CuttingDoesNotMatter(secs, Remembered(secs, ms, packets[0]), packets[1..]);
      PacketsJoin(secs, ms, packets[0], Joined(packets[1..]));
    }
  }

  // ----- one sample

  /** One sample through the first `j` sections. */
  ghost function Passed(secs: seq<BandPass.Section>, ms: seq<Memory>, x: real, j: nat): (r: (real, seq<Memory>))
    requires j <= |secs| == |ms|
    ensures |r.1| == j
    decreases j
  {
    if j == 0 then (x, [])
    else
      var (v, left) := Passed(secs, ms, x, j - 1);
      var (y, m) := Secord(secs[j - 1], ms[j - 1], v);
      (y, left + [m])
  }

  lemma {:induction false} PassedFirst(secs: seq<BandPass.Section>, ms: seq<Memory>, x: real, j: nat)
    requires j < |secs| == |ms|
    ensures var (v, m) := Secord(secs[0], ms[0], x);
      var (y, rest) := Passed(secs[1..], ms[1..], v, j);
      Passed(secs, ms, x, j + 1) == (y, [m] + rest)
    decreases j
  {
    hide Secord;
    var (v, m) := Secord(secs[0], ms[0], x);
    if j == 0 {
      assert Passed(secs, ms, x, 0) == (x, []);
      assert [] + [m] == [m] + [];
    } else {
      PassedFirst(secs, ms, x, j - 1);
      var (u, rest) := Passed(secs[1..], ms[1..], v, j - 1);
      var (y, l) := Secord(secs[j], ms[j], u);
      assert ([m] + rest) + [l] == [m] + (rest + [l]);
    }
  }

  lemma {:induction false} PassedAll(secs: seq<BandPass.Section>, ms: seq<Memory>, x: real)
    requires |secs| == |ms|
    ensures Passed(secs, ms, x, |secs|) == CascadeStep(secs, ms, x)
    decreases |secs|
  {
    hide Secord;
    if |secs| > 0 {
      var (v, m) := Secord(secs[0], ms[0], x);
      PassedAll(secs[1..], ms[1..], v);
      PassedFirst(secs, ms, x, |secs| - 1);
    }
  }

  /** The memories change one at a time. */
  lemma PassedStep(secs: seq<BandPass.Section>, ms: seq<Memory>, x: real, j: nat)
    requires j < |secs| == |ms|
    ensures var (v, left) := Passed(secs, ms, x, j);
      var (y, m) := Secord(secs[j], ms[j], v);
      && Passed(secs, ms, x, j + 1).0 == y
      && (left + ms[j..])[j := m] == Passed(secs, ms, x, j + 1).1 + ms[j + 1..]
  {
    hide Secord;
  }

  lemma RunOne(secs: seq<BandPass.Section>, ms: seq<Memory>, xs: seq<int>, x: int)
    requires |secs| == |ms|
    ensures var (y, ms2) := CascadeStep(secs, Remembered(secs, ms, xs), x as real);
      && Filtered(secs, ms, xs + [x]) == Filtered(secs, ms, xs) + [Reals.Trunc(y)]
      && Remembered(secs, ms, xs + [x]) == ms2
  {
    hide CascadeStep;
    PacketsJoin(secs, ms, xs, [x]);
    var after := Remembered(secs, ms, xs);
    var one := ToReals([x]);
    var (y, ms2) := CascadeStep(secs, after, x as real);
    assert one == [x as real] && one[1..] == [];
    assert CascadeRun(secs, ms2, []) == ([], ms2);
    assert CascadeRun(secs, after, one) == ([y] + [], ms2);
    assert Truncated([y]) == [Reals.Trunc(y)];
    assert [y] + [] == [y];
  }

  const SAMPLE_LIMIT := 1000000000

  /** The running sample count, which falls back to 10000 at the limit. */
  function Counted(count: nat, n: nat): (r: nat)
    requires count < SAMPLE_LIMIT
    ensures r < SAMPLE_LIMIT
    ensures count >= 10000 ==> r >= 10000
    ensures count + n < 1000000000 ==> r == count + n
    ensures count + n == 1000000000 ==> r == 10000
  {
    if n == 0 then count
    else
      var c := Counted(count, n - 1) + 1;
      if c == SAMPLE_LIMIT then 10000 else c
  }

  /** Cell of the ring that holds sample `i` of a segment starting at `index`. */
  function RingCell(index: nat, i: nat, max: nat): (c: nat)
    requires index < max && i < max
    ensures c < max
  {
    if i + index >= max then i + index - max else i + index
  }

  /** The `n` samples from `index` on, unrolled. */
  ghost function Segment(data: seq<int>, index: nat, n: nat, max: nat): (s: seq<int>)
    requires index < max <= |data| && n <= max
    ensures |s| == n
  {
    seq(n, i requires 0 <= i < n => data[RingCell(index, i, max)])
  }

  lemma RingCellInjective(index: nat, i: nat, j: nat, max: nat)
    requires index < max && i < max && j < max && i != j
    ensures RingCell(index, i, max) != RingCell(index, j, max)
  {}

  /** The filter fields of a station. */
  class FilterState {
    const x1: array<real>
    const x2: array<real>
    const y1: array<real>
    const y2: array<real>
    var samples: nat

    ghost predicate Sized(n: nat) {
      && n <= x1.Length && n <= x2.Length && n <= y1.Length && n <= y2.Length
      && x1 != x2 && x1 != y1 && x1 != y2 && x2 != y1 && x2 != y2 && y1 != y2
    }

    ghost predicate Valid(n: nat)
      reads this
    {
      Sized(n) && samples < SAMPLE_LIMIT
    }

    ghost function Repr(): set<object> {
      {x1, x2, y1, y2}
    }

    ghost function Memories(n: nat): (ms: seq<Memory>)
      requires Sized(n)
      reads Repr()
      ensures |ms| == n
    {
      seq(n, j requires 0 <= j < n && Sized(n) reads Repr() => Memory(x1[j], x2[j], y1[j], y2[j]))
    }

    constructor (size: nat)
      ensures Valid(size) && fresh(Repr()) && samples == 0
      ensures Memories(size) == seq(size, _ => Memory(0.0, 0.0, 0.0, 0.0))
    {
      x1 := new real[size](_ => 0.0);
      x2 := new real[size](_ => 0.0);
      y1 := new real[size](_ => 0.0);
      y2 := new real[size](_ => 0.0);
      samples := 0;
    }

    /** zero() on the four arrays. */
    method Zero(n: nat)
      requires Sized(n)
      modifies Repr()
      ensures Memories(n) == seq(n, _ => Memory(0.0, 0.0, 0.0, 0.0))
    {
      for j := 0 to n
        invariant forall i :: 0 <= i < j ==> x1[i] == 0.0 && x2[i] == 0.0 && y1[i] == 0.0 && y2[i] == 0.0
      {
        x1[j], x2[j], y1[j], y2[j] := 0.0, 0.0, 0.0, 0.0;
      }
    }

    /** secord on section `j`. */
    method SectionStep(j: nat, n: nat, sec: BandPass.Section, x: real) returns (y: real)
      requires Sized(n) && j < n
      modifies Repr()
      ensures var (out, m) := Secord(sec, old(Memories(n))[j], x);
        y == out && Memories(n) == old(Memories(n))[j := m]
    {
      y := sec.num.c0 * x + sec.num.c1 * x1[j] + sec.num.c2 * x2[j] - (sec.den.c1 * y1[j] + sec.den.c2 * y2[j]);
      assert y == Secord(sec, old(Memories(n))[j], x).0;
      y2[j] := y1[j];
      y1[j] := y;
      x2[j] := x1[j];
      x1[j] := x;
    }

    /** One sample through every section. */
    method Advance(sn: array<real>, sd: array<real>, n: nat, x: real) returns (y: real)
      requires Sized(n) && 3 * n <= sn.Length && 3 * n <= sd.Length && sn !in Repr() && sd !in Repr()
      modifies Repr()
      ensures var (out, ms) := CascadeStep(Bilinear.SectionsIn(sn, sd, n), old(Memories(n)), x);
        y == out && Memories(n) == ms
    {
      hide Secord, CascadeStep;
      ghost var secs, ms := Bilinear.SectionsIn(sn, sd, n), Memories(n);
      y := x;
      for j := 0 to n
        invariant Bilinear.SectionsIn(sn, sd, n) == secs
        invariant y == Passed(secs, ms, x, j).0
        invariant Memories(n) == Passed(secs, ms, x, j).1 + ms[j..]
      {
        assert Memories(n)[j] == ms[j];
        PassedStep(secs, ms, x, j);
        y := SectionStep(j, n, BandPass.Section(Bilinear.QuadAt(sn, j), Bilinear.QuadAt(sd, j)), y);
      }
      PassedAll(secs, ms, x);
      assert Passed(secs, ms, x, n).1 + ms[n..] == Passed(secs, ms, x, n).1;
    }

    /** The sample in `cell` through every section and back into its cell. */
    method FilterCell(data: array<int>, cell: nat, sn: array<real>, sd: array<real>, n: nat)
      requires Sized(n) && 3 * n <= sn.Length && 3 * n <= sd.Length && sn !in Repr() && sd !in Repr()
      requires cell < data.Length
      modifies Repr(), data
      ensures var (y, ms) := CascadeStep(Bilinear.SectionsIn(sn, sd, n), old(Memories(n)), old(data[cell]) as real);
        data[..] == old(data[..])[cell := Reals.Trunc(y)] && Memories(n) == ms
      ensures Bilinear.SectionsIn(sn, sd, n) == old(Bilinear.SectionsIn(sn, sd, n))
    {
      hide CascadeStep;
      var y := Advance(sn, sd, n, data[cell] as real);
      data[cell] := Reals.Trunc(y);
    }

    /** libsrc/filters.c:44-68, forward pass. */
    method Apiir(data: array<int>, nsamp: nat, sn: array<real>, sd: array<real>, n: nat)
      requires Valid(n) && 3 * n <= sn.Length && 3 * n <= sd.Length && sn !in Repr() && sd !in Repr()
      requires nsamp <= data.Length
      modifies this`samples, Repr(), data
      ensures Valid(n) && samples == Counted(old(samples), nsamp)
      ensures data[..] == Filtered(Bilinear.SectionsIn(sn, sd, n), old(Memories(n)), old(data[..nsamp])) + old(data[nsamp..])
      ensures Memories(n) == Remembered(Bilinear.SectionsIn(sn, sd, n), old(Memories(n)), old(data[..nsamp]))
    {
      hide CascadeStep, Filtered, Remembered, FilteredPrefix, Bilinear.SectionsIn, Memories;
      ghost var secs, ms, xs := Bilinear.SectionsIn(sn, sd, n), Memories(n), data[..];
      PrefixStart(secs, ms, xs);
      for i := 0 to nsamp
        invariant Bilinear.SectionsIn(sn, sd, n) == secs && Valid(n) && samples == Counted(old(samples), i)
        invariant FilteredPrefix(secs, ms, xs, data[..], i)
        invariant Memories(n) == Remembered(secs, ms, xs[..i])
      {
        assert data[i] == data[..][i];
        PrefixStep(secs, ms, xs, data[..], i);
        FilterCell(data, i, sn, sd, n);
        samples := samples + 1;
        if samples == SAMPLE_LIMIT {
          samples := 10000;
        }
      }
      PrefixEnd(secs, ms, xs, data[..], nsamp);
    }

    /** libsrc/filters.c:115-149, forward pass over a segment of the ring of `max` cells. */
    method ApiirG(data: array<int>, nsamp: nat, index: nat, zero: bool, max: nat, sn: array<real>, sd: array<real>, n: nat)
      requires Sized(n) && 3 * n <= sn.Length && 3 * n <= sd.Length && sn !in Repr() && sd !in Repr()
      requires index < max <= data.Length && nsamp <= max
      modifies Repr(), data
      ensures var ms := if zero then seq(n, _ => Memory(0.0, 0.0, 0.0, 0.0)) else old(Memories(n));
        var xs := Segment(old(data[..]), index, nsamp, max);
        && Segment(data[..], index, nsamp, max) == Filtered(Bilinear.SectionsIn(sn, sd, n), ms, xs)
        && Memories(n) == Remembered(Bilinear.SectionsIn(sn, sd, n), ms, xs)
      ensures Outside(old(data[..]), data[..], index, nsamp, max)
    {
      hide CascadeStep, Filtered, Remembered, FilteredPrefix, Bilinear.SectionsIn, Memories, RingCell;
      if zero {
        Zero(n);
      }
      ghost var secs, ms, before := Bilinear.SectionsIn(sn, sd, n), Memories(n), data[..];
      ghost var xs := Segment(before, index, nsamp, max);
      PrefixStart(secs, ms, xs);
      for i := 0 to nsamp
        invariant Bilinear.SectionsIn(sn, sd, n) == secs
        invariant FilteredPrefix(secs, ms, xs, Segment(data[..], index, nsamp, max), i)
        invariant Memories(n) == Remembered(secs, ms, xs[..i])
        invariant Outside(before, data[..], index, nsamp, max)
      {
        var cell := RingCell(index, i, max);
        ghost var now := data[..];
        assert data[cell] == now[cell] == Segment(now, index, nsamp, max)[i];
        PrefixStep(secs, ms, xs, Segment(now, index, nsamp, max), i);
        FilterCell(data, cell, sn, sd, n);
        SegmentUpdate(now, index, i, nsamp, max, data[cell]);
      }
      PrefixEnd(secs, ms, xs, Segment(data[..], index, nsamp, max), nsamp);
    }
  }

  /** The first `i` of the samples `xs` have been replaced by their filtered values in `now`. */
  ghost predicate FilteredPrefix(secs: seq<BandPass.Section>, ms: seq<Memory>, xs: seq<int>, now: seq<int>, i: nat)
    requires |secs| == |ms|
  {
    i <= |xs| && now == Filtered(secs, ms, xs[..i]) + xs[i..]
  }

  lemma PrefixStart(secs: seq<BandPass.Section>, ms: seq<Memory>, xs: seq<int>)
    requires |secs| == |ms|
    ensures FilteredPrefix(secs, ms, xs, xs, 0) && Remembered(secs, ms, xs[..0]) == ms
  {
    assert xs[..0] == [];
  }

  lemma PrefixEnd(secs: seq<BandPass.Section>, ms: seq<Memory>, xs: seq<int>, now: seq<int>, i: nat)
    requires |secs| == |ms| && FilteredPrefix(secs, ms, xs, now, i)
    ensures i <= |xs| && now == Filtered(secs, ms, xs[..i]) + xs[i..]
    ensures i == |xs| ==> now == Filtered(secs, ms, xs) && xs[..i] == xs
  {
    if i == |xs| {
      assert xs[..i] == xs && xs[i..] == [];
    }
  }

  lemma PrefixStep(secs: seq<BandPass.Section>, ms: seq<Memory>, xs: seq<int>, now: seq<int>, i: nat)
    requires |secs| == |ms| && i < |xs| && FilteredPrefix(secs, ms, xs, now, i)
    ensures i < |now| && now[i] == xs[i]
    ensures var (y, ms2) := CascadeStep(secs, Remembered(secs, ms, xs[..i]), xs[i] as real);
      FilteredPrefix(secs, ms, xs, now[i := Reals.Trunc(y)], i + 1) && Remembered(secs, ms, xs[..i + 1]) == ms2
  {
    RunOne(secs, ms, xs[..i], xs[i]);
    hide CascadeStep, Filtered, Remembered;
    assert xs[..i] + [xs[i]] == xs[..i + 1];
  }

  /** Only cells of the segment differ. */
  ghost predicate Outside(before: seq<int>, after: seq<int>, index: nat, n: nat, max: nat)
    requires index < max && n <= max
  {
    |before| == |after| &&
    forall c :: 0 <= c < |after| && (forall i :: 0 <= i < n ==> c != RingCell(index, i, max)) ==> after[c] == before[c]
  }

  lemma SegmentUpdate(data: seq<int>, index: nat, i: nat, n: nat, max: nat, v: int)
    requires index < max <= |data| && i < n <= max
    ensures Segment(data[RingCell(index, i, max) := v], index, n, max) == Segment(data, index, n, max)[i := v]
  {
    forall k | 0 <= k < n && k != i
      ensures RingCell(index, k, max) != RingCell(index, i, max)
    {
      RingCellInjective(index, i, k, max);
    }
  }

}
