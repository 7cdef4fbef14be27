/** Facts about sequences used by the dice engine: sums that do not depend
    on order, and sequences without repeated elements. */
module Collections {

  /** The sum of a sequence, taken from the back so that appending one
      value adds exactly that value. */
  function Sum(xs: seq<int>): int
    decreases |xs|
  {
    if xs == [] then 0 else Sum(xs[..|xs| - 1]) + xs[|xs| - 1]
  }

  /** Appending one value adds exactly that value. */
  lemma SumAppend(xs: seq<int>, x: int)
    ensures Sum(xs + [x]) == Sum(xs) + x
  {
    assert (xs + [x])[..|xs|] == xs;
  }

  /** Summing a concatenation sums the parts. */
  lemma {:induction false} SumConcat(xs: seq<int>, ys: seq<int>)
    ensures Sum(xs + ys) == Sum(xs) + Sum(ys)
    decreases |ys|
  {
    if ys == [] {
      assert xs + ys == xs;
    } else {
      var ys' := ys[..|ys| - 1];
      assert (xs + ys)[..|xs + ys| - 1] == xs + ys';
      SumConcat(xs, ys');
    }
  }

  /** Taking one element out of a sequence takes its value out of the sum. */
  lemma {:induction false} SumRemove(xs: seq<int>, k: nat)
    requires k < |xs|
    ensures Sum(xs) == Sum(xs[..k] + xs[k + 1..]) + xs[k]
  {
    var front, back := xs[..k], xs[k + 1..];
    assert xs == front + ([xs[k]] + back);
    SumConcat(front, [xs[k]] + back);
    SumConcat([xs[k]], back);
    SumConcat(front, back);
    assert Sum([xs[k]]) == xs[k] by {
      assert [xs[k]][..0] == [];
    }
  }

  /** Taking one element out of a sequence takes one copy of it out of its
      multiset. */
  lemma MultisetRemove(ys: seq<int>, k: nat)
    requires k < |ys|
    ensures multiset(ys[..k] + ys[k + 1..]) == multiset(ys) - multiset{ys[k]}
  {
    assert ys == ys[..k] + [ys[k]] + ys[k + 1..];
    assert multiset(ys) == multiset(ys[..k]) + multiset{ys[k]} + multiset(ys[k + 1..]);
  }

  /** Reordering a sequence of values does not change its sum: the total a
      roll delivers does not depend on the order the dice reported in. */
  lemma {:induction false} SumPermutation(xs: seq<int>, ys: seq<int>)
    requires multiset(xs) == multiset(ys)
    ensures Sum(xs) == Sum(ys)
    decreases |xs|
  {
    if xs == [] {
      assert |ys| == |multiset(ys)| == 0;
    } else {
      var x := xs[|xs| - 1];
      var xs' := xs[..|xs| - 1];
      assert xs == xs' + [x];
      assert multiset(xs') == multiset(xs) - multiset{x};
      assert x in multiset(ys);
      var k :| 0 <= k < |ys| && ys[k] == x;
      MultisetRemove(ys, k);
      SumPermutation(xs', ys[..k] + ys[k + 1..]);
      SumRemove(ys, k);
      SumAppend(xs', x);
    }
  }

  predicate NoDuplicates<T(==)>(s: seq<T>)
  {
    forall i, j :: 0 <= i < j < |s| ==> s[i] != s[j]
  }

  /** A set drawn from a sequence without repeats is no larger than the
      sequence, and strictly smaller when it misses one of its elements. */
  lemma {:induction false} SubsetOfDistinctBound<T>(s: seq<T>, r: set<T>, missing: T)
    requires NoDuplicates(s)
    requires forall x :: x in r ==> x in s
    ensures |r| <= |s|
    ensures missing in s && missing !in r ==> |r| < |s|
    decreases |s|
  {
    if s == [] {
      assert r == {};
    } else {
      var last := s[|s| - 1];
      var s' := s[..|s| - 1];
      assert s == s' + [last];
      assert last !in s' by {
        forall i | 0 <= i < |s'| ensures s'[i] != last {
          assert s[i] == s'[i];
        }
      }
      var r' := r - {last};
      assert forall x :: x in r' ==> x in s';
      assert NoDuplicates(s');
      if missing in s && missing !in r && missing != last {
        assert missing in s';
        SubsetOfDistinctBound(s', r', missing);
      } else {
        SubsetOfDistinctBound(s', r', last);
      }
    }
  }

  /** A set that covers a sequence without repeats is at least as large as
      the sequence. */
  lemma {:induction false} DistinctCoverBound<T>(s: seq<T>, r: set<T>)
    requires NoDuplicates(s)
    requires forall x :: x in s ==> x in r
    ensures |s| <= |r|
    decreases |s|
  {
    if s != [] {
      var last := s[|s| - 1];
      var s' := s[..|s| - 1];
      assert s == s' + [last];
      assert NoDuplicates(s');
      forall x | x in s' ensures x in r - {last} {
        var i :| 0 <= i < |s'| && s'[i] == x;
        assert s[i] == x && s[|s| - 1] == last;
      }
      DistinctCoverBound(s', r - {last});
    }
  }
}
