/** `get_streamflow_change`: the rate of change, in CFS per hour, at the end of a
    window, from its last two readings, and the word the chart title picks for it. */
module RateEstimator {
  import opened Errors

  /** The assumed spacing of readings, in minutes. */
  const MINUTES_BETWEEN_READINGS: real := 15.0

  /** `(water0 - water1) / 15 * 60` with `water0, water1` the second-to-last and last
      readings; fewer than two readings make the tuple unpacking raise. */
  function StreamflowChange(flows: seq<real>): (r: Result<real>)
    ensures r.Ok? <==> |flows| >= 2
    ensures r.Err? ==> r.error == ValueError
    ensures r.Ok? ==> r.value == 4.0 * (flows[|flows| - 2] - flows[|flows| - 1])
  {
    if |flows| < 2 then Err(ValueError)
    else
      var water0, water1 := flows[|flows| - 2], flows[|flows| - 1];
      Ok((water0 - water1) / MINUTES_BETWEEN_READINGS * 60.0)
  }

  /** The rate is older minus newer: positive exactly when the latest reading is
      lower, zero exactly when the last two readings are equal. */
  lemma ChangeSign(flows: seq<real>)
    requires |flows| >= 2
    ensures StreamflowChange(flows).value > 0.0 <==> flows[|flows| - 1] < flows[|flows| - 2]
    ensures StreamflowChange(flows).value == 0.0 <==> flows[|flows| - 1] == flows[|flows| - 2]
    ensures StreamflowChange(flows).value < 0.0 <==> flows[|flows| - 1] > flows[|flows| - 2]
  {
  }

  /** The word the chart title uses for a rate. */
  datatype Direction = Rising | Dropping | Stable

  function TitleDirection(rate: real): (d: Direction)
    ensures d == Rising <==> rate > 0.0
    ensures d == Dropping <==> rate < 0.0
  {
    if rate > 0.0 then Rising else if rate < 0.0 then Dropping else Stable
  }

  /** As written, a window whose flow went up over its last interval is titled "dropping". */
  lemma RisingFlowTitledDropping(flows: seq<real>)
    requires |flows| >= 2 && flows[|flows| - 1] > flows[|flows| - 2]
    ensures TitleDirection(StreamflowChange(flows).value) == Dropping
  {
    ChangeSign(flows);
  }

  /** The evidently intended rate: newer minus older, per hour. */
  function CorrectedChange(flows: seq<real>): (r: Result<real>)
    ensures r.Ok? <==> |flows| >= 2
    ensures r.Err? ==> r.error == ValueError
  {
    if |flows| < 2 then Err(ValueError)
    else
      var water0, water1 := flows[|flows| - 2], flows[|flows| - 1];
      Ok((water1 - water0) / MINUTES_BETWEEN_READINGS * 60.0)
  }

  /** With the corrected rate the title's word matches what the flow did. */
  lemma CorrectedTitleMatchesFlow(flows: seq<real>)
    requires |flows| >= 2
    ensures var d := TitleDirection(CorrectedChange(flows).value);
            (d == Rising <==> flows[|flows| - 1] > flows[|flows| - 2]) &&
            (d == Dropping <==> flows[|flows| - 1] < flows[|flows| - 2]) &&
            (d == Stable <==> flows[|flows| - 1] == flows[|flows| - 2])
  {
  }
}
