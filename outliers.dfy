/** `get_streamflow_outliers`: the windows with the largest and the smallest volume. */
module OutlierSelector {
  import opened Lists
  import opened VolumeEstimator

  /** The volume of every window, in order: `volume_list` once the loop is done. */
  function Volumes(windows: seq<seq<real>>): seq<real>
  {
    seq(|windows|, i requires 0 <= i < |windows| => Volume(windows[i]))
  }

  /** i is the first position holding the largest value: what `v.index(max(v))` finds. */
  predicate IsFirstMax(v: seq<real>, i: int)
  {
    0 <= i < |v| && (forall k :: 0 <= k < |v| ==> v[k] <= v[i]) && (forall k :: 0 <= k < i ==> v[k] != v[i])
  }

  /** i is the first position holding the smallest value: what `v.index(min(v))` finds. */
  predicate IsFirstMin(v: seq<real>, i: int)
  {
    0 <= i < |v| && (forall k :: 0 <= k < |v| ==> v[i] <= v[k]) && (forall k :: 0 <= k < i ==> v[k] != v[i])
  }

  /** Returns the window of largest volume and the window of smallest volume, each
      the earliest one in the list when several share that volume. `max` of an empty
      list raises, and the caller always passes the ten windows, hence the requires. */
  method StreamflowOutliers(windows: seq<seq<real>>) returns (highest: seq<real>, lowest: seq<real>)
    requires |windows| > 0
    ensures exists i :: IsFirstMax(Volumes(windows), i) && highest == windows[i]
    ensures exists i :: IsFirstMin(Volumes(windows), i) && lowest == windows[i]
  {
    var volumeList: seq<real> := [];
    for n := 0 to |windows|
      invariant |volumeList| == n
      invariant forall k :: 0 <= k < n ==> volumeList[k] == Volume(windows[k])
    {
      var v := StreamflowVolume(windows[n]);
      volumeList := volumeList + [v];
    }
    assert volumeList == Volumes(windows);
    var maxIdx := IndexOf(volumeList, Max(volumeList));
    var minIdx := IndexOf(volumeList, Min(volumeList));
    assert IsFirstMax(volumeList, maxIdx);
    assert IsFirstMin(volumeList, minIdx);
    highest, lowest := windows[maxIdx], windows[minIdx];
  }

  /** The first largest (smallest) position is unique, so the choice is deterministic. */
  lemma FirstExtremesUnique(v: seq<real>, i: int, j: int)
    ensures IsFirstMax(v, i) && IsFirstMax(v, j) ==> i == j
    ensures IsFirstMin(v, i) && IsFirstMin(v, j) ==> i == j
  {
    if IsFirstMax(v, i) && IsFirstMax(v, j) {
      assert v[i] == v[j];
    }
    if IsFirstMin(v, i) && IsFirstMin(v, j) {
      assert v[i] == v[j];
    }
  }

  /** When every window has the same volume, both results are the first window. */
  lemma EqualVolumesPickFirst(windows: seq<seq<real>>, i: int)
    requires |windows| > 0
    requires forall k :: 0 <= k < |windows| ==> Volume(windows[k]) == Volume(windows[0])
    ensures IsFirstMax(Volumes(windows), i) ==> i == 0
    ensures IsFirstMin(Volumes(windows), i) ==> i == 0
  {
    var v := Volumes(windows);
    if IsFirstMax(v, i) || IsFirstMin(v, i) {
      assert v[0] == v[i];
    }
  }
}
