/**
  The variant that compares MySQL runs at several numbers of virtual users:
  the series is read from the `MySQL tpm` label only, and truncation also
  stops past 16 minutes so that all runs share one horizontal axis.
 */
module ScriptMy {
  import opened Series
  import opened Truncation

  /** 16 minutes. For whole seconds `t`, `t / 60 > 16` exactly when `t > 960`. */
  const CapSeconds: int := 16 * 60

  /** `load_data`: the series under `MySQL tpm`; a missing label raises. */
  function LoadData(doc: Document): (r: Result<RawSeries>)
    ensures r.Success? <==> MySqlKey in doc
    ensures r.Success? ==> r.value == doc[MySqlKey]
    ensures r.Failure? ==> r.error == MissingKey(MySqlKey)
  {
    if MySqlKey in doc then Success(doc[MySqlKey]) else Failure(MissingKey(MySqlKey))
  }

  /**
    `filter_data`: walks the zipped lists with the consecutive-zero counter
    and keeps the longest prefix with no sample past 16 minutes and no
    second zero in a row.
   */
  method FilterData(times: seq<int>, tpmValues: seq<int>) returns (filteredTimes: seq<int>, filteredTpm: seq<int>)
    ensures |filteredTimes| == |filteredTpm| <= |times| && |filteredTpm| <= |tpmValues|
    ensures filteredTimes == times[..|filteredTimes|] && filteredTpm == tpmValues[..|filteredTpm|]
    ensures forall i :: 0 <= i < |filteredTimes| ==> filteredTimes[i] <= CapSeconds
    ensures forall i :: 1 <= i < |filteredTpm| ==> filteredTpm[i - 1] != 0 || filteredTpm[i] != 0
    ensures IsCut(times, tpmValues, Some(CapSeconds), |filteredTimes|)
    ensures (forall i :: 0 <= i < |times| ==> times[i] <= CapSeconds) &&
            (forall i :: 1 <= i < |tpmValues| ==> tpmValues[i - 1] != 0 || tpmValues[i] != 0) ==>
      |filteredTimes| == if |times| < |tpmValues| then |times| else |tpmValues|
  {
    filteredTimes, filteredTpm := [], [];
    var zeroCount := 0;
    var n := if |times| < |tpmValues| then |times| else |tpmValues|;
    var i := 0;
    while i < n
      invariant 0 <= i <= n
      invariant filteredTimes == times[..i] && filteredTpm == tpmValues[..i]
      invariant zeroCount == ZeroRun(filteredTpm) && zeroCount < 2
      invariant forall j :: 0 <= j < i ==> !StopsAt(times, tpmValues, Some(CapSeconds), j)
    {
      var time, tpm := times[i], tpmValues[i];
      if time > CapSeconds {
        break;
      }
      if tpm == 0 {
        zeroCount := zeroCount + 1;
      } else {
        zeroCount := 0;
      }
      ZeroRunStep(filteredTpm, tpm);
      if zeroCount < 2 {
        filteredTimes := filteredTimes + [time];
        filteredTpm := filteredTpm + [tpm];
      } else {
        break;
      }
      i := i + 1;
    }
    CutKeepsClean(times, tpmValues, Some(CapSeconds), i);
    if (forall j :: 0 <= j < |times| ==> times[j] <= CapSeconds) &&
       (forall j :: 1 <= j < |tpmValues| ==> tpmValues[j - 1] != 0 || tpmValues[j] != 0)
    {
      CleanSeriesKeptWhole(times, tpmValues, Some(CapSeconds), i);
    }
  }

  /** A sample at 16 minutes exactly is kept; the next one, one second later, is not. */
  lemma CapStopsPastSixteenMinutes(k: int)
    requires IsCut([0, 960, 961], [1, 1, 1], Some(CapSeconds), k)
    ensures k == 2
  {
    assert IsCut([0, 960, 961], [1, 1, 1], Some(CapSeconds), 2) by {
      assert StopsAt([0, 960, 961], [1, 1, 1], Some(CapSeconds), 2);
    }
    CutUnique([0, 960, 961], [1, 1, 1], Some(CapSeconds), k, 2);
  }
}
