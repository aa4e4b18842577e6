/**
 `Array.prototype.sort()` called without a comparator on an array of strings:
 the strings are ordered by comparing their code units left to right, and a
 proper prefix comes before the longer string. The model orders sequences of
 characters the same way and sorts by insertion.
 */
module JsSort {

  /** `a` is a proper prefix of `b`. */
  ghost predicate ProperPrefix(a: string, b: string)
  {
    |a| < |b| && b[..|a|] == a
  }

  /** `a` and `b` agree before index `i` and differ there, `a` having the smaller code unit. */
  ghost predicate FirstDifferenceAt(a: string, b: string, i: int)
  {
    0 <= i < |a| && i < |b| && a[..i] == b[..i] && a[i] < b[i]
  }

  /**
   Strict lexicographic order on code units: `a` comes first when it is a
   proper prefix of `b`, or when at the first index where they differ `a`
   has the smaller code unit.
   */
  predicate Less(a: string, b: string): (r: bool)
    ensures r <==> ProperPrefix(a, b) || exists i :: FirstDifferenceAt(a, b, i)
    decreases |a|
  {
    if |a| == 0 then
      assert |b| > 0 ==> b[..0] == a;
      |b| > 0
    else if |b| == 0 then
      false
    else if a[0] != b[0] then
      forall i | 0 < i <= |a| && i <= |b|
        ensures a[..i] != b[..i]
      {
        assert a[..i][0] != b[..i][0];
      }
      assert a[..|a|] == a;
      assert a[..0] == b[..0];
      assert a[0] < b[0] ==> FirstDifferenceAt(a, b, 0);
      forall i | FirstDifferenceAt(a, b, i)
        ensures i == 0
      {
      }
      a[0] < b[0]
    else
      var r := Less(a[1..], b[1..]);
      assert a == [a[0]] + a[1..] && b == [b[0]] + b[1..];
      assert |a| < |b| ==> b[..|a|] == [b[0]] + b[1..][..|a| - 1];
      forall j | 0 <= j
        ensures FirstDifferenceAt(a[1..], b[1..], j) <==> FirstDifferenceAt(a, b, j + 1)
      {
        if j < |a| - 1 && j < |b| - 1 {
          assert a[..j + 1] == [a[0]] + a[1..][..j];
          assert b[..j + 1] == [b[0]] + b[1..][..j];
        }
      }
      forall i | FirstDifferenceAt(a, b, i)
        ensures FirstDifferenceAt(a[1..], b[1..], i - 1)
      {
        assert i != 0;
      }
      r
  }

  /** The non-strict order: by totality, `a` does not come after `b`. */
  predicate LessEq(a: string, b: string): (r: bool)
    ensures r <==> !Less(b, a)
  {
    if a == b then
      LessIrreflexive(a);
      true
    else if Less(a, b) then
      LessAsymmetric(a, b);
      true
    else
      LessTotal(a, b);
      false
  }

  /** No string comes before itself. */
  lemma {:induction false} LessIrreflexive(a: string)
    ensures !Less(a, a)
    decreases |a|
  {
    if |a| > 0 {
      LessIrreflexive(a[1..]);
    }
  }

  lemma {:induction false} LessTransitive(a: string, b: string, c: string)
    requires Less(a, b) && Less(b, c)
    ensures Less(a, c)
    decreases |a|
  {
    if |a| > 0 && a[0] == b[0] && b[0] == c[0] {
      LessTransitive(a[1..], b[1..], c[1..]);
    }
  }

  /** Any two different strings are ordered one way or the other. */
  lemma {:induction false} LessTotal(a: string, b: string)
    requires a != b
    ensures Less(a, b) || Less(b, a)
    decreases |a|
  {
    if |a| > 0 && |b| > 0 && a[0] == b[0] {
      assert a == [a[0]] + a[1..] && b == [b[0]] + b[1..];
      LessTotal(a[1..], b[1..]);
    }
  }

  lemma {:induction false} LessAsymmetric(a: string, b: string)
    requires Less(a, b)
    ensures !Less(b, a)
    decreases |a|
  {
    if |a| > 0 && a[0] == b[0] {
      LessAsymmetric(a[1..], b[1..]);
    }
  }

  ghost predicate Sorted(s: seq<string>)
  {
    forall i, j :: 0 <= i < j < |s| ==> LessEq(s[i], s[j])
  }

  ghost predicate StrictlySorted(s: seq<string>)
  {
    forall i, j :: 0 <= i < j < |s| ==> Less(s[i], s[j])
  }

  ghost predicate Distinct<T>(s: seq<T>)
  {
    forall i, j :: 0 <= i < j < |s| ==> s[i] != s[j]
  }

  /** Puts `x` in front of the first element of `ys` that is greater than it. */
  method Insert(ys: seq<string>, x: string) returns (zs: seq<string>)
    requires Sorted(ys)
    ensures Sorted(zs)
    ensures multiset(zs) == multiset(ys) + multiset{x}
  {
    var k := 0;
    while k < |ys| && LessEq(ys[k], x)
      invariant 0 <= k <= |ys|
      invariant forall m :: 0 <= m < k ==> LessEq(ys[m], x)
    {
      k := k + 1;
    }
    zs := ys[..k] + [x] + ys[k..];
    InsertAtKeepsSorted(ys, x, k);
    assert ys == ys[..k] + ys[k..];
  }

  /** Inserting `x` after the elements not greater than it, and before the rest, keeps the order. */
  lemma InsertAtKeepsSorted(ys: seq<string>, x: string, k: int)
    requires Sorted(ys) && 0 <= k <= |ys|
    requires forall m :: 0 <= m < k ==> LessEq(ys[m], x)
    requires k < |ys| ==> !LessEq(ys[k], x)
    ensures Sorted(ys[..k] + [x] + ys[k..])
  {
    var zs := ys[..k] + [x] + ys[k..];
    assert forall m :: 0 <= m < k ==> zs[m] == ys[m];
    assert zs[k] == x;
    assert forall m :: k < m < |zs| ==> zs[m] == ys[m - 1];
    forall i, j | 0 <= i < j < |zs|
      ensures LessEq(zs[i], zs[j])
    {
      if j < k {
      } else if k < i {
        assert LessEq(ys[i - 1], ys[j - 1]);
      } else if i == k {
        // x is smaller than ys[k] and so than everything after it
        LessTotal(x, ys[k]);
        if ys[k] != ys[j - 1] {
          LessTransitive(x, ys[k], ys[j - 1]);
        }
      } else if j == k {
      } else {
        assert LessEq(ys[i], ys[j - 1]);
      }
    }
  }

  /** `Array.from(xs).sort()`: a sorted permutation of `xs`. */
  method Sort(xs: seq<string>) returns (ys: seq<string>)
    ensures Sorted(ys)
    ensures multiset(ys) == multiset(xs)
  {
    ys := [];
    var i := 0;
    while i < |xs|
      invariant 0 <= i <= |xs|
      invariant Sorted(ys)
      invariant multiset(ys) == multiset(xs[..i])
    {
      ys := Insert(ys, xs[i]);
      assert xs[..i + 1] == xs[..i] + [xs[i]];
      i := i + 1;
    }
    assert xs[..i] == xs;
  }

  /** A sorted sequence without repeats is strictly increasing. */
  lemma SortedDistinctIsStrict(s: seq<string>)
    requires Sorted(s) && Distinct(s)
    ensures StrictlySorted(s)
  {
    forall i, j | 0 <= i < j < |s|
      ensures Less(s[i], s[j])
    {
      assert LessEq(s[i], s[j]) && s[i] != s[j];
    }
  }

  /** Permuting a sequence keeps it free of repeats. */
  lemma {:induction false} PermutationKeepsDistinct<T>(a: seq<T>, b: seq<T>)
    requires multiset(a) == multiset(b) && Distinct(a)
    ensures Distinct(b)
  {
    forall i, j | 0 <= i < j < |b|
      ensures b[i] != b[j]
    {
      if b[i] == b[j] {
        assert b == b[..j] + [b[j]] + b[j + 1..];
        assert b[..j] == b[..i] + [b[i]] + b[i + 1..j];
        assert multiset(b)[b[i]] >= 2;
        assert b[i] in multiset(a);
        var k :| 0 <= k < |a| && a[k] == b[i];
        DistinctCountOne(a, k);
        assert false;
      }
    }
  }

  lemma {:induction false} DistinctCountOne<T>(a: seq<T>, k: int)
    requires 0 <= k < |a| && Distinct(a)
    ensures multiset(a)[a[k]] == 1
  {
    assert a == a[..k] + [a[k]] + a[k + 1..];
    assert a[k] !in multiset(a[..k]) && a[k] !in multiset(a[k + 1..]);
  }

  /** The elements of a sequence, as a set. */
  ghost function Elems<T>(s: seq<T>): set<T>
  {
    set x | x in s
  }

  /** A sequence without repeats has as many elements as its set. */
  lemma {:induction false} DistinctCardinality<T>(s: seq<T>)
    requires Distinct(s)
    ensures |Elems(s)| == |s|
    decreases |s|
  {
    if |s| > 0 {
      var t := s[..|s| - 1];
      DistinctCardinality(t);
      assert Elems(s) == Elems(t) + {s[|s| - 1]};
      assert s[|s| - 1] !in Elems(t);
    }
  }

  /** Two strictly increasing sequences with the same elements are equal. */
  lemma {:induction false} StrictlySortedUnique(a: seq<string>, b: seq<string>)
    requires StrictlySorted(a) && StrictlySorted(b)
    requires Elems(a) == Elems(b)
    ensures a == b
    decreases |a|
  {
    assert b != [] ==> a != [] by {
      if b != [] { assert b[0] in Elems(b); }
    }
    if |a| > 0 {
      assert b != [] by { assert a[0] in Elems(a); }
      // the first element of either is the least element of the common set
      assert a[0] in Elems(b) && b[0] in Elems(a);
      var i :| 0 <= i < |a| && a[i] == b[0];
      var j :| 0 <= j < |b| && b[j] == a[0];
      if i != 0 && j != 0 {
        LessAsymmetric(a[0], a[i]);
        assert false;
      }
      assert Elems(a[1..]) == Elems(b[1..]) by {
        forall x | x in Elems(a[1..]) ensures x in Elems(b[1..]) {
          var i :| 1 <= i < |a| && a[i] == x;
          assert Less(a[0], x);
          LessIrreflexive(x);
          assert x in Elems(b);
          var j :| 0 <= j < |b| && b[j] == x;
          assert j != 0;
          assert b[1..][j - 1] == x;
        }
        forall x | x in Elems(b[1..]) ensures x in Elems(a[1..]) {
          var j :| 1 <= j < |b| && b[j] == x;
          assert Less(b[0], x);
          LessIrreflexive(x);
          assert x in Elems(a);
          var i :| 0 <= i < |a| && a[i] == x;
          assert i != 0;
          assert a[1..][i - 1] == x;
        }
      }
      StrictlySortedUnique(a[1..], b[1..]);
    }
  }
}
