/** Small facts about sequences used across the model. */
module Seqs {

  /** No element occurs twice. */
  predicate Distinct<T(==)>(s: seq<T>)
  {
    forall i, j :: 0 <= i < j < |s| ==> s[i] != s[j]
  }

  /** The integers `lo, lo + 1, ..., hi - 1`: Python's `range(lo, hi)`. */
  function Range(lo: int, hi: int): (r: seq<int>)
    ensures |r| == if lo < hi then hi - lo else 0
    ensures forall i :: 0 <= i < |r| ==> r[i] == lo + i
    decreases hi - lo
  {
    if lo < hi then [lo] + Range(lo + 1, hi) else []
  }

  lemma RangeDistinct(lo: int, hi: int)
    ensures Distinct(Range(lo, hi))
    ensures forall x :: x in Range(lo, hi) <==> lo <= x < hi
  {
    var r := Range(lo, hi);
    forall x | lo <= x < hi ensures x in r {
      assert r[x - lo] == x;
    }
  }

  /** The ids 0 .. N-1 of a fresh population. */
  function IdsBelow(N: nat): (ids: set<int>)
    ensures forall id :: id in ids <==> 0 <= id < N
  {
    RangeDistinct(0, N);
    set id | id in Range(0, N)
  }

  /** The ids of `s` without `x`, order kept: what deleting a key does to a dict's key order. */
  function Without(s: seq<int>, x: int): (r: seq<int>)
    ensures forall y :: y in r <==> y in s && y != x
    ensures |r| <= |s|
  {
    if s == [] then []
    else if s[0] == x then Without(s[1..], x)
    else [s[0]] + Without(s[1..], x)
  }

  /** The ids of `s` that lie in `keep`, order kept. */
  function Restrict(s: seq<int>, keep: set<int>): (r: seq<int>)
    ensures forall y :: y in r <==> y in s && y in keep
    ensures |r| <= |s|
  {
    if s == [] then []
    else if s[0] in keep then [s[0]] + Restrict(s[1..], keep)
    else Restrict(s[1..], keep)
  }

  lemma {:induction false} WithoutDistinct(s: seq<int>, x: int)
    requires Distinct(s)
    ensures Distinct(Without(s, x))
  {
    if s != [] {
      WithoutDistinct(s[1..], x);
      assert s[0] !in s[1..] by {
        forall j | 0 <= j < |s| - 1 ensures s[1..][j] != s[0] {
          assert s[j + 1] != s[0];
        }
      }
      if s[0] != x {
        DistinctCons(s[0], Without(s[1..], x));
      }
    }
  }

  lemma DistinctCons<T>(x: T, r: seq<T>)
    requires Distinct(r) && x !in r
    ensures Distinct([x] + r)
  {
    var s := [x] + r;
    forall i, j | 0 <= i < j < |s| ensures s[i] != s[j] {
      if i == 0 {
        assert s[j] == r[j - 1];
      } else {
        assert s[i] == r[i - 1] && s[j] == r[j - 1];
      }
    }
  }

  lemma {:induction false} RestrictDistinct(s: seq<int>, keep: set<int>)
    requires Distinct(s)
    ensures Distinct(Restrict(s, keep))
  {
    if s != [] {
      RestrictDistinct(s[1..], keep);
      assert s[0] !in s[1..] by {
        forall j | 0 <= j < |s| - 1 ensures s[1..][j] != s[0] {
          assert s[j + 1] != s[0];
        }
      }
      if s[0] in keep {
        DistinctCons(s[0], Restrict(s[1..], keep));
      }
    }
  }

  /** Deleting one more key from a restricted order is restricting to one key fewer. */
  lemma {:induction false} WithoutRestrict(s: seq<int>, keep: set<int>, x: int)
    ensures Without(Restrict(s, keep), x) == Restrict(s, keep - {x})
  {
    if s != [] {
      WithoutRestrict(s[1..], keep, x);
    }
  }

  /** Restricting twice is restricting to the smaller set. */
  lemma {:induction false} RestrictRestrict(s: seq<int>, k1: set<int>, k2: set<int>)
    requires k2 <= k1
    ensures Restrict(Restrict(s, k1), k2) == Restrict(s, k2)
  {
    if s != [] {
      RestrictRestrict(s[1..], k1, k2);
    }
  }

  /** Restricting a sequence to everything it holds leaves it as it is. */
  lemma {:induction false} RestrictAll(s: seq<int>, keep: set<int>)
    requires forall y :: y in s ==> y in keep
    ensures Restrict(s, keep) == s
  {
    if s != [] {
      var x := s[0];
      assert x in s;
      assert x in keep;
      assert forall y :: y in s[1..] ==> y in s;
      RestrictAll(s[1..], keep);
      assert Restrict(s, keep) == [s[0]] + Restrict(s[1..], keep);
      assert s == [s[0]] + s[1..];
    }
  }

  /** The tail of a distinct sequence is distinct and lacks the head. */
  lemma DistinctTail<T>(s: seq<T>)
    requires |s| > 0
    ensures Distinct(s) ==> s[0] !in s[1..] && Distinct(s[1..])
  {
    if Distinct(s) {
      forall j | 0 <= j < |s| - 1 ensures s[1..][j] != s[0] {
        assert s[j + 1] != s[0];
      }
    }
  }

  /** In a distinct sequence no element occurs before its own position. */
  lemma DistinctPrefix<T>(s: seq<T>, j: int)
    requires Distinct(s) && 0 <= j < |s|
    ensures s[j] !in s[..j]
  {
    forall t | 0 <= t < j ensures s[..j][t] != s[j] {
      assert s[t] != s[j];
    }
  }

  /** A subset has no more elements than its superset. */
  lemma SubsetCard(a: set<int>, b: set<int>)
    requires a <= b
    ensures |a| <= |b|
  {
    assert b == a + (b - a);
    assert a * (b - a) == {};
  }

  /** A distinct sequence has as many elements as the set of its elements. */
  lemma {:induction false} DistinctCard(s: seq<int>)
    requires Distinct(s)
    ensures |set x | x in s| == |s|
  {
    if s != [] {
      DistinctCard(s[1..]);
      assert (set x | x in s) == {s[0]} + (set x | x in s[1..]);
    }
  }

  lemma RangeSnoc(lo: int, hi: int)
    requires lo <= hi
    ensures Range(lo, hi + 1) == Range(lo, hi) + [hi]
  {
  }

  lemma RangeConcat(lo: int, mid: int, hi: int)
    requires lo <= mid <= hi
    ensures Range(lo, mid) + Range(mid, hi) == Range(lo, hi)
  {
    var a, b := Range(lo, mid) + Range(mid, hi), Range(lo, hi);
    assert |a| == |b|;
    forall i | 0 <= i < |a| ensures a[i] == b[i] {
      if i >= mid - lo {
        assert a[i] == Range(mid, hi)[i - (mid - lo)];
      }
    }
  }

  lemma AppendAssoc(a: seq<int>, b: seq<int>, d: seq<int>)
    ensures a + b + d == a + (b + d)
  {
  }

  lemma SplitHead(a: seq<int>, b: seq<int>)
    requires a != []
    ensures a == [a[0]] + a[1..] && a + b == [a[0]] + (a[1..] + b)
  {
  }

  lemma ConsConcat(h: int, t: seq<int>, b: seq<int>)
    ensures [h] + (t + b) == ([h] + t) + b
  {
  }
}
