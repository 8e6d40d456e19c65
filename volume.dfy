/** `get_streamflow_volume`: the flow readings of one window integrated into a
    volume by a middle (trapezoid) Riemann sum with a fixed 15-minute width. */
module VolumeEstimator {
  import opened Lists

  /** Width of one reading interval in seconds: 15 minutes. */
  const WIDTH: real := 900.0
  /** Acre-feet per cubic foot. */
  const ACRE_FEET_PER_CUBIC_FOOT: real := 0.0000229568

  /** Cubic feet for one interval: the first height plus half the rise to the second, times the width. */
  function Segment(h0: real, h1: real): real
  {
    WIDTH * (h0 + (h1 - h0) / 2.0)
  }

  /** Number of consecutive pairs the loop visits: `len(streamflow) - 1`, or none. */
  function Pairs(flows: seq<real>): nat
  {
    if |flows| == 0 then 0 else |flows| - 1
  }

  /** Cubic feet accumulated over the first k intervals. */
  function MiddleSum(flows: seq<real>, k: nat): real
    requires k <= Pairs(flows)
  {
    if k == 0 then 0.0 else MiddleSum(flows, k - 1) + Segment(flows[k - 1], flows[k])
  }

  /** The volume of a window in acre-feet. */
  function Volume(flows: seq<real>): real
  {
    MiddleSum(flows, Pairs(flows)) * ACRE_FEET_PER_CUBIC_FOOT
  }

  /** The loop of `get_streamflow_volume` followed by the unit conversion. */
  method StreamflowVolume(flows: seq<real>) returns (v: real)
    ensures v == Volume(flows)
    ensures |flows| < 2 ==> v == 0.0
  {
    var sum := 0.0;
    var point := 0;
    while point < |flows| - 1
      invariant 0 <= point <= Pairs(flows)
      invariant sum == MiddleSum(flows, point)
    {
      var height := flows[point];
      var difference := (flows[point + 1] - height) / 2.0;
      sum := sum + WIDTH * (height + difference);
      point := point + 1;
    }
    v := sum * ACRE_FEET_PER_CUBIC_FOOT;
  }

  /** The middle sum is the trapezoid rule: every reading counts fully except the
      first and the last, which count half. */
  lemma {:induction false} TrapezoidForm(flows: seq<real>, k: nat)
    requires 1 <= k <= Pairs(flows)
    ensures MiddleSum(flows, k) == WIDTH * (Sum(flows[..k + 1]) - (flows[0] + flows[k]) / 2.0)
  {
    assert flows[..k + 1][..k] == flows[..k];
    if k == 1 {
      assert flows[..1][..0] == [];
      assert Sum(flows[..1]) == flows[0];
      assert Sum(flows[..2]) == flows[0] + flows[1];
    } else {
      TrapezoidForm(flows, k - 1);
    }
  }

  /** Closed form of the volume over the whole window. */
  lemma VolumeIsTrapezoidRule(flows: seq<real>)
    requires |flows| >= 2
    ensures Volume(flows)
            == WIDTH * (Sum(flows) - (flows[0] + flows[|flows| - 1]) / 2.0) * ACRE_FEET_PER_CUBIC_FOOT
  {
    TrapezoidForm(flows, |flows| - 1);
    assert flows[..|flows|] == flows;
  }

  lemma {:induction false} ConstantMiddleSum(flows: seq<real>, c: real, k: nat)
    requires forall i :: 0 <= i < |flows| ==> flows[i] == c
    requires k <= Pairs(flows)
    ensures MiddleSum(flows, k) == WIDTH * c * k as real
  {
    if k > 0 {
      ConstantMiddleSum(flows, c, k - 1);
    }
  }

  /** Constant flow c over n >= 1 readings gives 900 * c * (n - 1) cubic feet. */
  lemma ConstantFlowVolume(flows: seq<real>, c: real)
    requires |flows| >= 1
    requires forall i :: 0 <= i < |flows| ==> flows[i] == c
    ensures Volume(flows) == WIDTH * c * (|flows| - 1) as real * ACRE_FEET_PER_CUBIC_FOOT
  {
    ConstantMiddleSum(flows, c, Pairs(flows));
  }

  function Scale(flows: seq<real>, factor: real): (r: seq<real>)
    ensures |r| == |flows| && forall i :: 0 <= i < |flows| ==> r[i] == factor * flows[i]
  {
    seq(|flows|, i requires 0 <= i < |flows| => factor * flows[i])
  }

  lemma {:induction false} ScaledMiddleSum(flows: seq<real>, factor: real, k: nat)
    requires k <= Pairs(flows)
    ensures MiddleSum(Scale(flows, factor), k) == factor * MiddleSum(flows, k)
  {
    if k > 0 {
      ScaledMiddleSum(flows, factor, k - 1);
    }
  }

  /** Multiplying every reading by a factor multiplies the volume by it. */
  lemma ScaledVolume(flows: seq<real>, factor: real)
    ensures Volume(Scale(flows, factor)) == factor * Volume(flows)
  {
    ScaledMiddleSum(flows, factor, Pairs(flows));
  }

  lemma {:induction false} NonNegativeMiddleSum(flows: seq<real>, k: nat)
    requires forall i :: 0 <= i < |flows| ==> flows[i] >= 0.0
    requires k <= Pairs(flows)
    ensures MiddleSum(flows, k) >= 0.0
  {
    if k > 0 {
      NonNegativeMiddleSum(flows, k - 1);
    }
  }

  /** Readings that are never negative give a volume that is not negative. */
  lemma NonNegativeVolume(flows: seq<real>)
    requires forall i :: 0 <= i < |flows| ==> flows[i] >= 0.0
    ensures Volume(flows) >= 0.0
  {
    NonNegativeMiddleSum(flows, Pairs(flows));
  }
}
