/** Order-preserving selection from a list (a Python list comprehension
    with an `if`, or a boolean mask over rows). */
module Lists {

  /** The elements of `xs` for which `keep` holds, in their original order. */
  function Filter<T(!new)>(xs: seq<T>, keep: T -> bool): (r: seq<T>)
    ensures |r| <= |xs|
  {
    if xs == [] then []
    else
      var last := xs[|xs| - 1];
      Filter(xs[..|xs| - 1], keep) + (if keep(last) then [last] else [])
  }

  /** The result holds exactly the elements of `xs` for which `keep`
      holds. */
  lemma {:induction false} FilterMembers<T(!new)>(xs: seq<T>, keep: T -> bool)
    ensures forall x :: x in Filter(xs, keep) <==> x in xs && keep(x)
  {
    if xs != [] {
      var pre := xs[..|xs| - 1];
      var last := xs[|xs| - 1];
      FilterMembers(pre, keep);
      assert xs == pre + [last];
    }
  }

  /** Every kept element keeps all its occurrences and every other element
      loses all of them. */
  lemma {:induction false} FilterCounts<T(!new)>(xs: seq<T>, keep: T -> bool, x: T)
    ensures multiset(Filter(xs, keep))[x] == if keep(x) then multiset(xs)[x] else 0
  {
    if xs != [] {
      var pre := xs[..|xs| - 1];
      var last := xs[|xs| - 1];
      FilterCounts(pre, keep, x);
      assert xs == pre + [last];
    }
  }

  /** When no element is kept, the result is empty. */
  lemma {:induction false} FilterNone<T(!new)>(xs: seq<T>, keep: T -> bool)
    requires forall i :: 0 <= i < |xs| ==> !keep(xs[i])
    ensures Filter(xs, keep) == []
  {
    if xs != [] {
      var pre := xs[..|xs| - 1];
      forall i | 0 <= i < |pre| ensures !keep(pre[i]) {
        assert pre[i] == xs[i];
      }
      FilterNone(pre, keep);
    }
  }

  /** Filtering one more element at the end. */
  lemma FilterSnoc<T(!new)>(xs: seq<T>, x: T, keep: T -> bool)
    ensures Filter(xs + [x], keep) == Filter(xs, keep) + (if keep(x) then [x] else [])
  {
    assert (xs + [x])[..|xs|] == xs;
  }

  /** When every element is kept, nothing is dropped. */
  lemma {:induction false} FilterAll<T(!new)>(xs: seq<T>, keep: T -> bool)
    requires forall i :: 0 <= i < |xs| ==> keep(xs[i])
    ensures Filter(xs, keep) == xs
  {
    if xs != [] {
      var pre := xs[..|xs| - 1];
      forall i | 0 <= i < |pre| ensures keep(pre[i]) {
        assert pre[i] == xs[i];
      }
      FilterAll(pre, keep);
      assert xs == pre + [xs[|xs| - 1]];
    }
  }
}
