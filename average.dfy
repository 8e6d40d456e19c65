/** `get_streamflow_average`: drops the anchor window from the caller's list in place,
    then averages the remaining (historical) windows key by key. */
module HistoricalAverager {
  import opened Errors

  /** A position with the year stripped: month, day, hour, minute, second. */
  datatype CalendarKey = CalendarKey(month: int, day: int, hour: int, minute: int, second: int)

  /** One window's flow readings indexed by calendar key. */
  type Frame = map<CalendarKey, real>

  /** The keys of the merged table: concatenating the windows side by side is an
      outer join, so a key present in any window is a row. */
  function Keys(frames: seq<Frame>): (ks: set<CalendarKey>)
    ensures forall k :: k in ks <==> exists i :: 0 <= i < |frames| && k in frames[i]
  {
    if |frames| == 0 then {} else Keys(frames[..|frames| - 1]) + frames[|frames| - 1].Keys
  }

  /** The row sum at key k, where a window without k contributes nothing (a missing
      cell is skipped by the sum). */
  function SumAt(frames: seq<Frame>, k: CalendarKey): real
  {
    if |frames| == 0 then 0.0
    else
      var last := frames[|frames| - 1];
      SumAt(frames[..|frames| - 1], k) + (if k in last then last[k] else 0.0)
  }

  /** How many windows have a reading at key k. */
  function PresentCount(frames: seq<Frame>, k: CalendarKey): (c: nat)
    ensures c <= |frames|
  {
    if |frames| == 0 then 0
    else PresentCount(frames[..|frames| - 1], k) + (if k in frames[|frames| - 1] then 1 else 0)
  }

  /** The `avg` column: at every key, the row sum divided by the number of columns,
      that is by the number of windows whether or not they have that key. */
  function Average(frames: seq<Frame>): map<CalendarKey, real>
    requires |frames| > 0
  {
    map k | k in Keys(frames) :: SumAt(frames, k) / |frames| as real
  }

  /** The caller's list of windows, which the averaging shortens in place. */
  class FrameList {
    var frames: seq<Frame>

    constructor (frames: seq<Frame>)
      ensures this.frames == frames
    {
      this.frames := frames;
    }

    /** `list.pop(0)`: IndexError on an empty list, which is then left as it was. */
    method PopFront() returns (r: Result<Frame>)
      modifies this
      ensures old(frames) == [] ==> r == Err(IndexError) && frames == []
      ensures old(frames) != [] ==> r == Ok(old(frames)[0]) && frames == old(frames)[1..]
    {
      if frames == [] {
        return Err(IndexError);
      }
      r := Ok(frames[0]);
      frames := frames[1..];
    }
  }

  /** Removes the first (anchor) window from the caller's list, then averages the rest.
      An empty list raises IndexError at the pop; a list of one window is popped and
      then raises ValueError, as there is nothing left to concatenate. */
  method StreamflowAverage(list: FrameList) returns (r: Result<map<CalendarKey, real>>)
    modifies list
    ensures list.frames == if old(list.frames) == [] then [] else old(list.frames)[1..]
    ensures r.Err? <==> |old(list.frames)| < 2
    ensures r.Err? ==> r.error == if old(list.frames) == [] then IndexError else ValueError
    ensures r.Ok? ==> r.value == Average(list.frames)
  {
    var popped := list.PopFront();
    if popped.Err? {
      return Err(popped.error);
    }
    if list.frames == [] {
      return Err(ValueError);
    }
    r := Ok(Average(list.frames));
  }

  lemma {:induction false} SumAtWhenPresentValuesEqual(frames: seq<Frame>, k: CalendarKey, c: real)
    requires forall i :: 0 <= i < |frames| && k in frames[i] ==> frames[i][k] == c
    ensures SumAt(frames, k) == c * PresentCount(frames, k) as real
  {
    if |frames| > 0 {
      SumAtWhenPresentValuesEqual(frames[..|frames| - 1], k, c);
    }
  }

  /** A window without the key adds nothing to the sum yet still counts in the divisor:
      when every window that has key k reads c there, the average at k is c scaled by
      the share of windows that have k. */
  lemma MissingKeyCountsInDivisor(frames: seq<Frame>, k: CalendarKey, c: real)
    requires |frames| > 0 && k in Keys(frames)
    requires forall i :: 0 <= i < |frames| && k in frames[i] ==> frames[i][k] == c
    ensures Average(frames)[k] == c * PresentCount(frames, k) as real / |frames| as real
  {
    SumAtWhenPresentValuesEqual(frames, k, c);
  }

  lemma {:induction false} PresentInAll(frames: seq<Frame>, k: CalendarKey)
    requires forall i :: 0 <= i < |frames| ==> k in frames[i]
    ensures PresentCount(frames, k) == |frames|
  {
    if |frames| > 0 {
      PresentInAll(frames[..|frames| - 1], k);
    }
  }

  /** Averaging copies of one window gives that window back. */
  lemma AverageOfCopies(frames: seq<Frame>, m: Frame)
    requires |frames| > 0
    requires forall i :: 0 <= i < |frames| ==> frames[i] == m
    ensures Average(frames) == m
  {
    var avg := Average(frames);
    assert avg.Keys == m.Keys;
    forall k | k in m
      ensures avg[k] == m[k]
    {
      SumAtWhenPresentValuesEqual(frames, k, m[k]);
      PresentInAll(frames, k);
    }
  }

  lemma {:induction false} SumAtBounds(frames: seq<Frame>, k: CalendarKey, lo: real, hi: real)
    requires forall i :: 0 <= i < |frames| ==> k in frames[i] && lo <= frames[i][k] <= hi
    ensures lo * |frames| as real <= SumAt(frames, k) <= hi * |frames| as real
  {
    if |frames| > 0 {
      SumAtBounds(frames[..|frames| - 1], k, lo, hi);
    }
  }

  /** At a key every window has, the average lies between the smallest and the
      largest of the readings there. */
  lemma AverageWithinBounds(frames: seq<Frame>, k: CalendarKey, lo: real, hi: real)
    requires |frames| > 0
    requires forall i :: 0 <= i < |frames| ==> k in frames[i] && lo <= frames[i][k] <= hi
    ensures k in Average(frames) && lo <= Average(frames)[k] <= hi
  {
    SumAtBounds(frames, k, lo, hi);
    assert k in frames[0];
    QuotientBounds(SumAt(frames, k), |frames| as real, lo, hi);
  }

  lemma QuotientBounds(s: real, n: real, lo: real, hi: real)
    requires n > 0.0 && lo * n <= s <= hi * n
    ensures lo <= s / n <= hi
  {
    var q := s / n;
    assert q * n == s;
    assert (q - lo) * n >= 0.0;
    assert (hi - q) * n >= 0.0;
  }

  /** Two historical windows: the average at a key is half the sum of the readings
      there, a window without the key counting as zero. */
  lemma AverageOfTwo(a: Frame, b: Frame, k: CalendarKey)
    requires k in a || k in b
    ensures k in Average([a, b])
    ensures Average([a, b])[k] == ((if k in a then a[k] else 0.0) + (if k in b then b[k] else 0.0)) / 2.0
  {
    var frames := [a, b];
    assert frames[..1] == [a];
    assert [a][..0] == [];
    if k in a {
      assert k in frames[0];
    } else {
      assert k in frames[1];
    }
    assert SumAt([a], k) == (if k in a then a[k] else 0.0);
    assert SumAt(frames, k) == (if k in a then a[k] else 0.0) + (if k in b then b[k] else 0.0);
  }
}
