/**
  The order in which Python's `sorted` arranges the timestamp keys of a
  result file: `str` comparison, code point by code point, with a proper
  prefix sorting before the longer string.
 */
module LexOrder {

  /**
    Python's `a < b` on two strings: either `a` is a proper prefix of `b`, or
    at the first position where they differ `a` has the smaller character.
   */
  predicate Less(a: string, b: string): (r: bool)
    ensures r <==> FirstDifferenceLess(a, b)
    decreases |a|
  {
    if |a| == 0 then |b| > 0
    else if |b| == 0 then false
    else
      FirstDifferenceStep(a, b);
      a[0] < b[0] || (a[0] == b[0] && Less(a[1..], b[1..]))
  }

  /** The rule of Python's string comparison, stated without recursion. */
  ghost predicate FirstDifferenceLess(a: string, b: string)
  {
    || (|a| < |b| && a == b[..|a|])
    || (exists k :: 0 <= k < |a| && k < |b| && a[..k] == b[..k] && a[k] < b[k])
  }

  /** Comparing two non-empty strings decides at the first character or moves past it. */
  lemma FirstDifferenceStep(a: string, b: string)
    requires |a| > 0 && |b| > 0
    ensures FirstDifferenceLess(a, b) <==>
      a[0] < b[0] || (a[0] == b[0] && FirstDifferenceLess(a[1..], b[1..]))
  {
    var a', b' := a[1..], b[1..];
    if FirstDifferenceLess(a, b) {
      if |a| < |b| && a == b[..|a|] {
        assert a[0] == b[0] && a' == b'[..|a'|];
      } else {
        var k :| 0 <= k < |a| && k < |b| && a[..k] == b[..k] && a[k] < b[k];
        if k > 0 {
          assert a[0] == a[..k][0] == b[..k][0] == b[0];
          assert a'[..k - 1] == a[1..k] == b[1..k] == b'[..k - 1];
          assert a'[k - 1] < b'[k - 1];
        }
      }
    }
    if a[0] < b[0] {
      assert a[..0] == b[..0];
    } else if a[0] == b[0] && FirstDifferenceLess(a', b') {
      if |a'| < |b'| && a' == b'[..|a'|] {
        assert a == [a[0]] + a' && b[..|a|] == [b[0]] + b'[..|a'|];
      } else {
        var k :| 0 <= k < |a'| && k < |b'| && a'[..k] == b'[..k] && a'[k] < b'[k];
        assert a[..k + 1] == [a[0]] + a'[..k] && b[..k + 1] == [b[0]] + b'[..k];
        assert a[k + 1] < b[k + 1];
      }
    }
  }

  lemma {:induction false} LessIrreflexive(a: string)
    ensures !Less(a, a)
    decreases |a|
  {
    if |a| > 0 {
      LessIrreflexive(a[1..]);
    }
  }

  lemma {:induction false} LessTransitive(a: string, b: string, c: string)
    requires Less(a, b) && Less(b, c)
    ensures Less(a, c)
    decreases |a|
  {
    if |a| > 0 && a[0] == b[0] && b[0] == c[0] {
      LessTransitive(a[1..], b[1..], c[1..]);
    }
  }

  /** Two different strings are always ordered one way or the other. */
  lemma {:induction false} LessTotal(a: string, b: string)
    requires a != b
    ensures Less(a, b) || Less(b, a)
    decreases |a|
  {
    if |a| > 0 && |b| > 0 && a[0] == b[0] {
      assert a == [a[0]] + a[1..] && b == [b[0]] + b[1..];
      LessTotal(a[1..], b[1..]);
    }
  }

  lemma LessAsymmetric(a: string, b: string)
    requires Less(a, b)
    ensures !Less(b, a)
  {
    if Less(b, a) {
      LessTransitive(a, b, a);
      LessIrreflexive(a);
    }
  }

  /** Every earlier element is strictly smaller than every later one. */
  predicate StrictlySorted(s: seq<string>)
  {
    forall i, j :: 0 <= i < j < |s| ==> Less(s[i], s[j])
  }

  lemma HeadIsMember(s: seq<string>)
    ensures s == [] || s[0] in s
  {
  }

  /**
    A finite set of strings has exactly one strictly ascending enumeration:
    the order `sorted` produces is determined by the keys alone.
   */
  lemma {:induction false} SortedEnumerationUnique(a: seq<string>, b: seq<string>)
    requires StrictlySorted(a) && StrictlySorted(b)
    requires forall x :: x in a <==> x in b
    ensures a == b
    decreases |a|
  {
    if a == [] {
      HeadIsMember(b);
    } else {
      assert b != [] by { assert a[0] in b; }
      assert a[0] == b[0] by {
        assert a[0] in b && b[0] in a;
        var i :| 0 <= i < |b| && b[i] == a[0];
        var j :| 0 <= j < |a| && a[j] == b[0];
        if i != 0 && j != 0 {
          LessAsymmetric(b[0], a[0]);
        }
      }
      forall x
        ensures x in a[1..] <==> x in b[1..]
      {
        if x in a[1..] {
          var j :| 1 <= j < |a| && a[j] == x;
          LessIrreflexive(x);
          assert x in b && x != b[0];
        }
        if x in b[1..] {
          var j :| 1 <= j < |b| && b[j] == x;
          LessIrreflexive(x);
          assert x in a && x != a[0];
        }
      }
      SortedEnumerationUnique(a[1..], b[1..]);
      assert a == [a[0]] + a[1..] && b == [b[0]] + b[1..];
    }
  }
}
