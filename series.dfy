/**
  The part of the per-file pipeline that both plotting scripts share word for
  word: flattening the timestamp-to-TPM map of one result file into two
  aligned lists in key order (`extract_data`), and rebasing the timestamps
  against the first one (`convert_to_relative_time_in_minutes`).

  Timestamps stay strings of the form `YYYY-MM-DD HH:MM:SS`; parsing one is a
  parameter `parse` that yields whole seconds on some fixed epoch, or `None`
  where the library parser would raise. Relative times are whole seconds
  since the first sample.
 */
module Series {
  import opened LexOrder

  datatype Option<T> = None | Some(value: T)

  /** The exceptions the pipeline lets escape to the top level. */
  datatype Error =
    | MissingKey(key: string)            // KeyError on a document lookup
    | EmptySeries                        // IndexError on `times[0]`
    | MalformedTimestamp(text: string)   // ValueError from the timestamp parser

  datatype Result<T> = Success(value: T) | Failure(error: Error)

  type Timestamp = string

  /** One result file's series: timestamp string to TPM count. */
  type RawSeries = map<Timestamp, int>

  /** A result file: top-level labels to the series stored under them. */
  type Document = map<string, RawSeries>

  const MySqlKey: string := "MySQL tpm"
  const PostgreSqlKey: string := "PostgreSQL tpm"

  /** The smallest key of a non-empty set, in Python's string order. */
  method Minimum(s: set<Timestamp>) returns (m: Timestamp)
    requires s != {}
    ensures m in s
    ensures forall x :: x in s && x != m ==> Less(m, x)
  {
    m :| m in s;
    var todo := s - {m};
    while todo != {}
      invariant todo <= s && m in s && m !in todo
      invariant forall x :: x in s && x !in todo && x != m ==> Less(m, x)
      decreases todo
    {
      var y :| y in todo;
      if Less(y, m) {
        forall x | x in s && x !in todo && x != y
          ensures Less(y, x)
        {
          if x != m {
            LessTransitive(y, m, x);
          }
        }
        m := y;
      } else {
        LessTotal(y, m);
      }
      todo := todo - {y};
    }
  }

  /**
    The keys of `data` in the order `sorted(data.items())` visits them. The
    keys of a map are distinct, so comparing the (key, value) pairs never
    reaches the values and the order is that of the keys alone.
   */
  method SortedKeys(data: RawSeries) returns (keys: seq<Timestamp>)
    ensures StrictlySorted(keys)
    ensures forall t :: t in keys <==> t in data
    ensures |keys| == |data|
  {
    var rest := data.Keys;
    keys := [];
    while rest != {}
      invariant rest <= data.Keys
      invariant forall t :: t in keys ==> t in data && t !in rest
      invariant forall t :: t in data ==> t in keys || t in rest
      invariant |keys| + |rest| == |data|
      invariant StrictlySorted(keys)
      invariant forall i, r :: 0 <= i < |keys| && r in rest ==> Less(keys[i], r)
      decreases rest
    {
      var m := Minimum(rest);
      keys := keys + [m];
      rest := rest - {m};
    }
  }

  /**
    `extract_data`: the series as two aligned lists, `times` holding every
    key exactly once in ascending string order and `tpmValues[i]` the count
    stored under `times[i]`.
   */
  method ExtractData(data: RawSeries) returns (times: seq<Timestamp>, tpmValues: seq<int>)
    ensures |times| == |tpmValues| == |data|
    ensures StrictlySorted(times)
    ensures forall t :: t in times <==> t in data
    ensures forall i :: 0 <= i < |times| ==> tpmValues[i] == data[times[i]]
  {
    var items := SortedKeys(data);
    times, tpmValues := [], [];
    for i := 0 to |items|
      invariant times == items[..i]
      invariant |tpmValues| == i
      invariant forall j :: 0 <= j < i ==> tpmValues[j] == data[items[j]]
    {
      times := times + [items[i]];
      tpmValues := tpmValues + [data[items[i]]];
    }
    assert items[..|items|] == items;
  }

  /** Two sorted enumerations of the same map are the same lists. */
  lemma ExtractDataDetermined(data: RawSeries, t1: seq<Timestamp>, v1: seq<int>, t2: seq<Timestamp>, v2: seq<int>)
    requires |t1| == |v1| && |t2| == |v2|
    requires StrictlySorted(t1) && StrictlySorted(t2)
    requires forall t :: t in t1 <==> t in data
    requires forall t :: t in t2 <==> t in data
    requires forall i :: 0 <= i < |t1| ==> v1[i] == data[t1[i]]
    requires forall i :: 0 <= i < |t2| ==> v2[i] == data[t2[i]]
    ensures t1 == t2 && v1 == v2
  {
    SortedEnumerationUnique(t1, t2);
  }

  /** Every timestamp of `times` is accepted by the parser. */
  predicate AllParse(times: seq<Timestamp>, parse: Timestamp -> Option<int>)
  {
    forall i :: 0 <= i < |times| ==> parse(times[i]).Some?
  }

  /** The parsed seconds of well-formed timestamps. */
  function Seconds(times: seq<Timestamp>, parse: Timestamp -> Option<int>): (s: seq<int>)
    requires AllParse(times, parse)
    ensures |s| == |times|
    ensures forall i :: 0 <= i < |times| ==> Some(s[i]) == parse(times[i])
  {
    seq(|times|, i requires 0 <= i < |times| => parse(times[i]).value)
  }

  /**
    Each value minus the first: the result starts at zero and keeps every
    gap between two samples.
   */
  function Rebase(xs: seq<int>): (r: seq<int>)
    ensures |r| == |xs|
    ensures |xs| > 0 ==> r[0] == 0
    ensures forall i, j :: 0 <= i < |xs| && 0 <= j < |xs| ==> r[j] - r[i] == xs[j] - xs[i]
  {
    seq(|xs|, i requires 0 <= i < |xs| => xs[i] - xs[0])
  }

  predicate NonDecreasing(xs: seq<int>)
  {
    forall i, j :: 0 <= i <= j < |xs| ==> xs[i] <= xs[j]
  }

  /**
    `convert_to_relative_time_in_minutes`, in seconds. `times[0]` on an empty
    list raises; the parser raises on the first malformed timestamp, the
    first element being parsed before all others.
   */
  method RelativeTimes(times: seq<Timestamp>, parse: Timestamp -> Option<int>) returns (r: Result<seq<int>>)
    ensures r.Success? <==> |times| > 0 && AllParse(times, parse)
    ensures |times| == 0 ==> r == Failure(EmptySeries)
    ensures |times| > 0 && r.Failure? ==>
      r.error.MalformedTimestamp? &&
      exists k :: 0 <= k < |times| && r.error.text == times[k] && parse(times[k]).None? &&
        forall j :: 0 <= j < k ==> parse(times[j]).Some?
    ensures r.Success? ==> r.value == Rebase(Seconds(times, parse))
  {
    if |times| == 0 {
      return Failure(EmptySeries);
    }
    var start := parse(times[0]);
    if start.None? {
      return Failure(MalformedTimestamp(times[0]));
    }
    var relative := [];
    for i := 0 to |times|
      invariant |relative| == i
      invariant forall j :: 0 <= j < i ==> parse(times[j]).Some? && relative[j] == parse(times[j]).value - start.value
    {
      var current := parse(times[i]);
      if current.None? {
        return Failure(MalformedTimestamp(times[i]));
      }
      relative := relative + [current.value - start.value];
    }
    return Success(relative);
  }

  predicate IsDigit(c: char)
  {
    '0' <= c <= '9'
  }

  /**
    The zero-padded layout `YYYY-MM-DD HH:MM:SS` of the result files. The
    parser also accepts unpadded fields such as `9:59:00`; only on padded
    strings does string order agree with time order.
   */
  predicate FixedFormat(t: Timestamp)
  {
    && |t| == 19
    && IsDigit(t[0]) && IsDigit(t[1]) && IsDigit(t[2]) && IsDigit(t[3])
    && t[4] == '-' && IsDigit(t[5]) && IsDigit(t[6])
    && t[7] == '-' && IsDigit(t[8]) && IsDigit(t[9])
    && t[10] == ' ' && IsDigit(t[11]) && IsDigit(t[12])
    && t[13] == ':' && IsDigit(t[14]) && IsDigit(t[15])
    && t[16] == ':' && IsDigit(t[17]) && IsDigit(t[18])
  }

  /** The parser orders zero-padded timestamps as their strings are ordered. */
  ghost predicate MonotoneParse(parse: Timestamp -> Option<int>)
  {
    forall a, b ::
      FixedFormat(a) && FixedFormat(b) && Less(a, b) && parse(a).Some? && parse(b).Some? ==>
        parse(a).value <= parse(b).value
  }

  /** Rebasing neither creates nor hides a step backwards in time. */
  lemma RebaseKeepsOrder(xs: seq<int>)
    ensures NonDecreasing(Rebase(xs)) <==> NonDecreasing(xs)
  {
    var r := Rebase(xs);
    if NonDecreasing(r) {
      forall i, j | 0 <= i <= j < |xs| ensures xs[i] <= xs[j] {
        assert r[i] <= r[j];
      }
    }
  }

  /**
    Zero-padded keys in ascending string order, parsed by a monotone parser,
    give relative times that never go backwards.
   */
  lemma SortedTimesNonDecreasing(times: seq<Timestamp>, parse: Timestamp -> Option<int>)
    requires forall i :: 0 <= i < |times| ==> FixedFormat(times[i])
    requires StrictlySorted(times) && AllParse(times, parse) && MonotoneParse(parse)
    ensures NonDecreasing(Rebase(Seconds(times, parse)))
  {
    var s := Seconds(times, parse);
    forall i, j | 0 <= i <= j < |s| ensures s[i] <= s[j] {
      if i < j {
        assert Less(times[i], times[j]);
      }
    }
    RebaseKeepsOrder(s);
  }
}
