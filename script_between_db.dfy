/**
  The variant that compares one MySQL run with one PostgreSQL run: the
  series is read from whichever engine label the file carries, and
  truncation has no time cap.
 */
module ScriptBetweenDb {
  import opened Series
  import opened Truncation
  import ScriptMy

  /** `data.get(key)`: the value under `key`, or `None`. */
  function Get(doc: Document, key: string): (r: Option<RawSeries>)
    ensures r.Some? <==> key in doc
    ensures r.Some? ==> r.value == doc[key]
  {
    if key in doc then Some(doc[key]) else None
  }

  /** Python truthiness of a looked-up series: `None` and `{}` are false. */
  predicate Truthy(v: Option<RawSeries>): (b: bool)
    ensures b <==> v != None && v != Some(map[])
  {
    v.Some? && |v.value| > 0
  }

  /**
    `load_data`: `data.get('MySQL tpm') or data.get('PostgreSQL tpm')`. A
    non-empty MySQL series wins; otherwise the PostgreSQL lookup is the
    answer as it is, empty or missing included.
   */
  function LoadData(doc: Document): (r: Option<RawSeries>)
    ensures r.None? <==> !Truthy(Get(doc, MySqlKey)) && PostgreSqlKey !in doc
    ensures r.Some? ==> r == Get(doc, MySqlKey) || r == Get(doc, PostgreSqlKey)
    ensures Truthy(Get(doc, MySqlKey)) ==> r == Some(doc[MySqlKey])
    ensures !Truthy(Get(doc, MySqlKey)) && PostgreSqlKey in doc ==> r == Some(doc[PostgreSqlKey])
  {
    var mysql := Get(doc, MySqlKey);
    if Truthy(mysql) then mysql else Get(doc, PostgreSqlKey)
  }

  /**
    On every file where the MySQL-only loader finds a non-empty series, this
    loader returns the same series; where this loader finds nothing, the
    MySQL-only loader fails or finds an empty series.
   */
  lemma LoadDataExtendsScriptMy(doc: Document)
    ensures ScriptMy.LoadData(doc).Success? && |ScriptMy.LoadData(doc).value| > 0 ==>
      LoadData(doc) == Some(ScriptMy.LoadData(doc).value)
    ensures LoadData(doc).None? ==>
      ScriptMy.LoadData(doc).Failure? || |ScriptMy.LoadData(doc).value| == 0
  {
  }

  /**
    `filter_data` without a time cap: walks the zipped lists with the
    consecutive-zero counter and keeps the longest prefix with no second
    zero in a row.
   */
  method FilterData(times: seq<int>, tpmValues: seq<int>) returns (filteredTimes: seq<int>, filteredTpm: seq<int>)
    ensures |filteredTimes| == |filteredTpm| <= |times| && |filteredTpm| <= |tpmValues|
    ensures filteredTimes == times[..|filteredTimes|] && filteredTpm == tpmValues[..|filteredTpm|]
    ensures forall i :: 1 <= i < |filteredTpm| ==> filteredTpm[i - 1] != 0 || filteredTpm[i] != 0
    ensures IsCut(times, tpmValues, None, |filteredTimes|)
    ensures (forall i :: 1 <= i < |tpmValues| ==> tpmValues[i - 1] != 0 || tpmValues[i] != 0) ==>
      |filteredTimes| == if |times| < |tpmValues| then |times| else |tpmValues|
  {
    filteredTimes, filteredTpm := [], [];
    var zeroCount := 0;
    var n := if |times| < |tpmValues| then |times| else |tpmValues|;
    var i := 0;
    while i < n
      invariant 0 <= i <= n
      invariant filteredTimes == times[..i] && filteredTpm == tpmValues[..i]
      invariant zeroCount == ZeroRun(filteredTpm) && zeroCount < 2
      invariant forall j :: 0 <= j < i ==> !StopsAt(times, tpmValues, None, j)
    {
      var time, tpm := times[i], tpmValues[i];
      if tpm == 0 {
        zeroCount := zeroCount + 1;
      } else {
        zeroCount := 0;
      }
      ZeroRunStep(filteredTpm, tpm);
      if zeroCount < 2 {
        filteredTimes := filteredTimes + [time];
        filteredTpm := filteredTpm + [tpm];
      } else {
        break;
      }
      i := i + 1;
    }
    CutKeepsClean(times, tpmValues, None, i);
    if forall j :: 1 <= j < |tpmValues| ==> tpmValues[j - 1] != 0 || tpmValues[j] != 0 {
      CleanSeriesKeptWhole(times, tpmValues, None, i);
    }
  }
}
