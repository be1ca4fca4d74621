/** libsrc/filters.c: FilterPacket without its taper, where the designed coefficients meet the running
    filter. */
module DesignedFilter {
  import opened ComplexNumbers
  import opened BandPass
  import opened Bilinear
  import opened Cascade
  import FilterRun

  /** At w = 1/z, with X and Y the series of input and output: low-pass(u) N Y == N X + I(before) -
      w^n I(after), the low-pass prototype being taken at `u`. */
  ghost predicate LowPassAt(poles: seq<Pole>, secs: seq<Section>, ms: seq<Memory>, xs: seq<real>, w: Complex, u: Complex)
    requires |secs| == |ms|
  {
    var (ys, ms2) := CascadeRun(secs, ms, xs);
    Add(Mul(Mul(LowPass(poles, u), NumAt(secs, w)), Series(ys, w)), Mul(Power(w, |xs|), PendingAll(secs, ms2, w)))
      == Add(Mul(NumAt(secs, w), Series(xs, w)), PendingAll(secs, ms, w))
  }

  /** The run obeys the low-pass prototype at every u == (s^2 + a) / (b s), s == (1 - w) / (1 + w). */
  ghost predicate ObeysLowPass(poles: seq<Pole>, a: real, b: real, secs: seq<Section>, ms: seq<Memory>, xs: seq<real>)
    requires |secs| == |ms|
  {
    forall w, s, u :: AnalogVariable(w, s) && BandVariable(s, u, a, b) ==> LowPassAt(poles, secs, ms, xs, w, u)
  }

  /** From any memories and for any signal, the designed sections run as the low-pass prototype says. */
  lemma {:induction false} DesignedRun(sqrt: real -> real, poles: seq<Pole>, a: real, b: real, ms: seq<Memory>, xs: seq<real>)
    requires IsSqrt(sqrt) && Scalable(BandSections(sqrt, poles, a, b))
    requires |ms| == |BandSections(sqrt, poles, a, b)|
    ensures ObeysLowPass(poles, a, b, DigitalAll(BandSections(sqrt, poles, a, b)), ms, xs)
  {
    var secs := DigitalAll(BandSections(sqrt, poles, a, b));
    DesignIsMonic(BandSections(sqrt, poles, a, b));
    hide IsSqrt, BandSections, DigitalAll, CascadeRun, LowPass, NumAt, DenAt, Series, Power, PendingAll, Mul, Add;
    hide AnalogVariable, BandVariable, Monic, Scalable;
    forall w, s, u | AnalogVariable(w, s) && BandVariable(s, u, a, b)
      ensures LowPassAt(poles, secs, ms, xs, w, u)
    {
      DesignMeaning(sqrt, poles, a, b, w, s, u);
      RunTransfer(secs, ms, xs, w);
    }
  }

  lemma DesignIsMonic(secs: seq<Section>)
    requires Scalable(secs)
    ensures Monic(DigitalAll(secs))
  {
    forall k | 0 <= k < |secs|
      ensures DigitalAll(secs)[k].den.c0 == 1.0
    {
      assert Size(secs[k].den) / Size(secs[k].den) == 1.0;
    }
  }

  /** libsrc/filters.c:278-315: coefficients first, then the packet. */
  method FilterPacket(sqrt: real -> real, poles: seq<Pole>, lowW: real, highW: real, state: FilterRun.FilterState,
                      data: array<int>, nsamp: nat, sn: array<real>, sd: array<real>)
    returns (n: nat)
    requires IsSqrt(sqrt) && 0.0 < lowW < highW && LeftHalfPlane(poles)
    requires sn != sd && sn.Length >= 6 * |poles| && sd.Length >= 6 * |poles|
    requires state.Valid(2 * |poles|) && sn !in state.Repr() && sd !in state.Repr() && nsamp <= data.Length
    modifies sn, sd, state`samples, state.Repr(), data
    ensures n <= 2 * |poles| && forall k :: 0 <= k < n ==> DigitalStable(SectionsIn(sn, sd, n)[k])
    ensures var secs, ms, xs := SectionsIn(sn, sd, n), old(state.Memories(2 * |poles|))[..n], old(data[..nsamp]);
      && data[..] == FilterRun.Filtered(secs, ms, xs) + old(data[nsamp..])
      && state.Memories(n) == FilterRun.Remembered(secs, ms, xs)
      && ObeysLowPass(poles, TWO_PI * TWO_PI * lowW * highW, TWO_PI * (highW - lowW), secs, ms, FilterRun.ToReals(xs))
  {
    hide IsSqrt, LeftHalfPlane, FilterRun.Filtered, FilterRun.Remembered, ObeysLowPass, DigitalStable, BandSections, DigitalAll, Scalable;
    ghost var a, b := TWO_PI * TWO_PI * lowW * highW, TWO_PI * (highW - lowW);
    ghost var before := state.Memories(2 * |poles|);
    n := DesignFilter(sqrt, poles, lowW, highW, sn, sd);
    ghost var secs := SectionsIn(sn, sd, n);
    assert state.Memories(n) == before[..n];
    DesignedRun(sqrt, poles, a, b, before[..n], FilterRun.ToReals(data[..nsamp]));
    state.Apiir(data, nsamp, sn, sd, n);
    assert SectionsIn(sn, sd, n) == secs;
  }
}
