/**
  What `filter_data` keeps of a series: the longest prefix of the zipped
  (time, TPM) pairs that holds no sample past the time cap and no second
  zero-TPM sample in a row. The plotting scripts differ only in the cap:
  one stops past 16 minutes, the other has none.
 */
module Truncation {
  import opened Series

  /** The relative time `t` (seconds) is not past the cap, if there is one. */
  predicate WithinCap(t: int, cap: Option<int>)
  {
    cap.None? || t <= cap.value
  }

  /** The sample at `k` is a zero directly after another zero. */
  predicate SecondZero(tpm: seq<int>, k: int)
    requires 0 <= k < |tpm|
  {
    1 <= k && tpm[k - 1] == 0 && tpm[k] == 0
  }

  /** The loop stops before the sample at `k`. */
  predicate StopsAt(times: seq<int>, tpm: seq<int>, cap: Option<int>, k: int)
    requires 0 <= k < |times| && 0 <= k < |tpm|
  {
    !WithinCap(times[k], cap) || SecondZero(tpm, k)
  }

  /**
    `k` is where the scan of the zipped lists ends: within both lists, no
    sample before it stops the scan, and the sample at it does unless one of
    the lists is used up.
   */
  ghost predicate IsCut(times: seq<int>, tpm: seq<int>, cap: Option<int>, k: int)
  {
    && 0 <= k <= |times| && k <= |tpm|
    && (forall i :: 0 <= i < k ==> !StopsAt(times, tpm, cap, i))
    && (k < |times| && k < |tpm| ==> StopsAt(times, tpm, cap, k))
  }

  /** The number of zeros at the end of `s`: the loop's `zero_count`. */
  function ZeroRun(s: seq<int>): (n: nat)
    ensures n <= |s|
    ensures forall i :: |s| - n <= i < |s| ==> s[i] == 0
    ensures n < |s| ==> s[|s| - 1 - n] != 0
  {
    if |s| == 0 || s[|s| - 1] != 0 then 0 else ZeroRun(s[..|s| - 1]) + 1
  }

  /** A zero sample extends the run; any other sample resets it to 0. */
  lemma ZeroRunStep(s: seq<int>, x: int)
    ensures ZeroRun(s + [x]) == if x == 0 then ZeroRun(s) + 1 else 0
  {
    assert (s + [x])[..|s|] == s;
  }

  /** There is only one place where the scan can end. */
  lemma CutUnique(times: seq<int>, tpm: seq<int>, cap: Option<int>, k1: int, k2: int)
    requires IsCut(times, tpm, cap, k1) && IsCut(times, tpm, cap, k2)
    ensures k1 == k2
  {
  }

  /** What is kept is within the cap and has no two zeros in a row. */
  lemma CutKeepsClean(times: seq<int>, tpm: seq<int>, cap: Option<int>, k: int)
    requires IsCut(times, tpm, cap, k)
    ensures forall i :: 0 <= i < k ==> WithinCap(times[i], cap)
    ensures forall i :: 1 <= i < k ==> tpm[i - 1] != 0 || tpm[i] != 0
  {
    forall i | 0 <= i < k
      ensures WithinCap(times[i], cap)
      ensures 1 <= i ==> tpm[i - 1] != 0 || tpm[i] != 0
    {
      assert !StopsAt(times, tpm, cap, i);
    }
  }

  /**
    Filtering a filtered series keeps all of it: the scan over the kept
    prefix runs to its end.
   */
  lemma CutIdempotent(times: seq<int>, tpm: seq<int>, cap: Option<int>, k: int, k2: int)
    requires IsCut(times, tpm, cap, k)
    requires IsCut(times[..k], tpm[..k], cap, k2)
    ensures k2 == k
  {
    assert IsCut(times[..k], tpm[..k], cap, k) by {
      forall i | 0 <= i < k ensures !StopsAt(times[..k], tpm[..k], cap, i) {
        assert !StopsAt(times, tpm, cap, i);
      }
    }
    CutUnique(times[..k], tpm[..k], cap, k, k2);
  }

  /**
    A series with no sample past the cap and no two zeros in a row is kept
    whole, as far as the shorter list reaches.
   */
  lemma CleanSeriesKeptWhole(times: seq<int>, tpm: seq<int>, cap: Option<int>, k: int)
    requires IsCut(times, tpm, cap, k)
    requires forall i :: 0 <= i < |times| ==> WithinCap(times[i], cap)
    requires forall i :: 1 <= i < |tpm| ==> tpm[i - 1] != 0 || tpm[i] != 0
    ensures k == if |times| < |tpm| then |times| else |tpm|
  {
  }

  /** A ramp-down: the scan stops before the second of two zeros. */
  lemma RampDownStopsBeforeSecondZero(k: int)
    requires IsCut([0, 60, 120, 180], [5, 0, 0, 7], None, k)
    ensures k == 2
  {
    assert IsCut([0, 60, 120, 180], [5, 0, 0, 7], None, 2) by {
      assert StopsAt([0, 60, 120, 180], [5, 0, 0, 7], None, 2);
    }
    CutUnique([0, 60, 120, 180], [5, 0, 0, 7], None, k, 2);
  }

  /** An idle series keeps only its first sample. */
  lemma AllZeroKeepsFirst(k: int)
    requires IsCut([0, 60, 120], [0, 0, 0], None, k)
    ensures k == 1
  {
    assert IsCut([0, 60, 120], [0, 0, 0], None, 1) by {
      assert StopsAt([0, 60, 120], [0, 0, 0], None, 1);
    }
    CutUnique([0, 60, 120], [0, 0, 0], None, k, 1);
  }
}
