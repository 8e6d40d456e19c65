/** The date windows that `get_streamflow_data` requests: the anchor window and one
    window for each of the nine preceding years. The readings fetched for each
    window are not part of this model; only the dates are. */
module DateWindowPlanner {
  import opened Errors
  import opened Calendar

  const LOOKBACK_YEARS: nat := 9
  const DAYS_BEFORE: int := 14
  const DAYS_AFTER: int := 6

  datatype Window = Window(start: Date, end: Date)

  /** The conditions under which no date operation in the plan raises:
      both offsets stay inside the range of `date`, and the earlier of them
      can still be moved back nine years. */
  predicate PlanSucceeds(anchor: Date)
    requires ValidDate(anchor)
  {
    var s, e := AddDays(anchor, -DAYS_BEFORE), AddDays(anchor, DAYS_AFTER);
    s.Ok? && e.Ok? && s.value.year > LOOKBACK_YEARS && e.value.year > LOOKBACK_YEARS
  }

  /** Window j (j ≥ 1) of the list spans `sub_year` applied j times to s0 and to e0. */
  predicate HistoricalWindows(s0: Date, e0: Date, windows: seq<Window>)
    requires ValidDate(s0) && ValidDate(e0)
  {
    forall j {:trigger windows[j]} :: 1 <= j < |windows| ==>
      SubYearN(s0, j) == Ok(windows[j].start) && SubYearN(e0, j) == Ok(windows[j].end)
  }

  lemma {:induction false} ExtendHistoricalWindows(s0: Date, e0: Date, windows: seq<Window>, w: Window)
    requires ValidDate(s0) && ValidDate(e0) && |windows| > 0
    requires HistoricalWindows(s0, e0, windows)
    requires SubYearN(s0, |windows|) == Ok(w.start) && SubYearN(e0, |windows|) == Ok(w.end)
    ensures HistoricalWindows(s0, e0, windows + [w])
  {
    var extended := windows + [w];
    forall j | 1 <= j < |extended|
      ensures SubYearN(s0, j) == Ok(extended[j].start) && SubYearN(e0, j) == Ok(extended[j].end)
    {
      if j < |windows| {
        assert extended[j] == windows[j];
      } else {
        assert extended[j] == w;
      }
    }
  }

  /** The anchor window runs from 14 days before the anchor to the anchor itself;
      historical window i runs from `sub_year` applied i times to (anchor - 14 days)
      to `sub_year` applied i times to (anchor + 6 days). */
  method StreamflowWindows(anchor: Date) returns (r: Result<seq<Window>>)
    requires ValidDate(anchor)
    ensures r.Ok? <==> PlanSucceeds(anchor)
    ensures r.Err? ==> r.error == (if AddDays(anchor, -DAYS_BEFORE).Ok? && AddDays(anchor, DAYS_AFTER).Ok?
                                   then ValueError else OverflowError)
    ensures r.Ok? ==> |r.value| == LOOKBACK_YEARS + 1
    ensures r.Ok? ==> r.value[0] == Window(AddDays(anchor, -DAYS_BEFORE).value, anchor)
    ensures r.Ok? ==> forall i :: 1 <= i < |r.value| ==>
              SubYearN(AddDays(anchor, -DAYS_BEFORE).value, i) == Ok(r.value[i].start) &&
              SubYearN(AddDays(anchor, DAYS_AFTER).value, i) == Ok(r.value[i].end)
  {
    var first := AddDays(anchor, -DAYS_BEFORE);
    if first.Err? {
      return Err(first.error);
    }
    var last := AddDays(anchor, DAYS_AFTER);
    if last.Err? {
      return Err(last.error);
    }
    var s0, e0 := first.value, last.value;
    var sd, ed := s0, e0;
    var windows := [Window(sd, anchor)];
    var i := 0;
    while i < LOOKBACK_YEARS
      invariant 0 <= i <= LOOKBACK_YEARS
      invariant |windows| == i + 1
      invariant windows[0] == Window(s0, anchor)
      invariant SubYearN(s0, i) == Ok(sd) && SubYearN(e0, i) == Ok(ed)
      invariant sd.year == s0.year - i && ed.year == e0.year - i
      invariant HistoricalWindows(s0, e0, windows)
    {
      var ns := SubYear(sd);
      if ns.Err? {
        return Err(ns.error);
      }
      var ne := SubYear(ed);
      if ne.Err? {
        return Err(ne.error);
      }
      assert SubYearN(s0, i + 1) == ns;
      assert SubYearN(e0, i + 1) == ne;
      sd, ed := ns.value, ne.value;
      ExtendHistoricalWindows(s0, e0, windows, Window(sd, ed));
      windows := windows + [Window(sd, ed)];
      i := i + 1;
    }
    r := Ok(windows);
  }
}
