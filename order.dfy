/** Python's ordering of `str` values (code point by code point, a proper
    prefix first) and `sorted(set(xs))` for lists of strings. */
module Order {
  import opened Text

  /** Python's `a < b` on strings: compares code points from the left. The
      smaller string never starts with a larger code point. */
  predicate LexLess(a: Str, b: Str)
    ensures LexLess(a, b) && a != [] ==> b != [] && a[0] <= b[0]
  {
    if a == [] then b != []
    else if b == [] then false
    else if a[0] != b[0] then a[0] < b[0]
    else LexLess(a[1..], b[1..])
  }

  /** `a` is a proper prefix of `b`. */
  predicate ProperPrefix(a: Str, b: Str) {
    |a| < |b| && a == b[..|a|]
  }

  /** `a` and `b` agree before position `k` and `a` is smaller at `k`. */
  predicate LessAt(a: Str, b: Str, k: int) {
    0 <= k < |a| && k < |b| && a[..k] == b[..k] && a[k] < b[k]
  }

  /** The textbook definition of lexicographic order: `a < b` exactly when
      `a` is a proper prefix of `b`, or the first code point where they
      differ is smaller in `a`. */
  lemma {:induction false} LexLessIsLexicographic(a: Str, b: Str)
    ensures LexLess(a, b) <==> ProperPrefix(a, b) || exists k :: LessAt(a, b, k)
  {
    if a == [] {
      if b != [] {
        assert ProperPrefix(a, b);
      }
    } else if b == [] {
    } else if a[0] != b[0] {
      HeadsDiffer(a, b);
    } else {
      LexLessIsLexicographic(a[1..], b[1..]);
      HeadsEqual(a, b);
    }
  }

  /** When the first code points differ, they alone decide. */
  lemma HeadsDiffer(a: Str, b: Str)
    requires a != [] && b != [] && a[0] != b[0]
    ensures !ProperPrefix(a, b)
    ensures (exists k :: LessAt(a, b, k)) <==> a[0] < b[0]
  {
    if a[0] < b[0] {
      assert LessAt(a, b, 0);
    }
    forall k | 0 < k < |a| && k < |b| ensures a[..k] != b[..k] {
      assert a[..k][0] == a[0] && b[..k][0] == b[0];
    }
    if |a| < |b| {
      assert b[..|a|][0] == b[0];
    }
  }

  /** When the first code points agree, both sides of the definition carry
      over to the rests. */
  lemma HeadsEqual(a: Str, b: Str)
    requires a != [] && b != [] && a[0] == b[0]
    ensures ProperPrefix(a, b) <==> ProperPrefix(a[1..], b[1..])
    ensures (exists k :: LessAt(a, b, k)) <==> (exists k :: LessAt(a[1..], b[1..], k))
  {
    var a', b' := a[1..], b[1..];
    if |a| < |b| {
      assert b[..|a|] == [b[0]] + b'[..|a'|];
      assert a == [a[0]] + a';
    }
    if exists k :: LessAt(a, b, k) {
      var k :| LessAt(a, b, k);
      assert k != 0;
      LessAtShift(a, b, k - 1);
    }
    if exists k :: LessAt(a', b', k) {
      var k :| LessAt(a', b', k);
      LessAtShift(a, b, k);
    }
  }

  lemma LessAtShift(a: Str, b: Str, k: nat)
    requires a != [] && b != [] && a[0] == b[0]
    ensures LessAt(a, b, k + 1) <==> LessAt(a[1..], b[1..], k)
  {
    if k + 1 < |a| && k + 1 < |b| {
      assert a[..k + 1] == [a[0]] + a[1..][..k] && b[..k + 1] == [b[0]] + b[1..][..k];
    }
  }

  lemma {:induction false} LexLessIrreflexive(a: Str)
    ensures !LexLess(a, a)
  {
    if a != [] {
      LexLessIrreflexive(a[1..]);
    }
  }

  lemma {:induction false} LexLessTransitive(a: Str, b: Str, c: Str)
    requires LexLess(a, b) && LexLess(b, c)
    ensures LexLess(a, c)
  {
    if a != [] && b != [] && c != [] && a[0] == b[0] == c[0] {
      LexLessTransitive(a[1..], b[1..], c[1..]);
    }
  }

  /** Any two different strings are ordered one way or the other. */
  lemma {:induction false} LexLessTotal(a: Str, b: Str)
    ensures a == b || LexLess(a, b) || LexLess(b, a)
  {
    if a != [] && b != [] && a[0] == b[0] {
      LexLessTotal(a[1..], b[1..]);
      if a[1..] == b[1..] {
        assert a == [a[0]] + a[1..] && b == [b[0]] + b[1..];
      }
    }
  }

  /** Sorted with no duplicates. */
  predicate StrictlyAscending(xs: seq<Str>) {
    forall i, j :: 0 <= i < j < |xs| ==> LexLess(xs[i], xs[j])
  }

  /** Inserts `x` at its place in a strictly ascending list, unless present. */
  function SortedInsert(xs: seq<Str>, x: Str): (r: seq<Str>)
    requires StrictlyAscending(xs)
    ensures StrictlyAscending(r)
    ensures forall y :: y in r <==> y in xs || y == x
  {
    if xs == [] then [x]
    else if xs[0] == x then xs
    else if LexLess(x, xs[0]) then
      assert forall j :: 0 < j < |xs| ==> LexLess(x, xs[j]) by {
        forall j | 0 < j < |xs| ensures LexLess(x, xs[j]) {
          LexLessTransitive(x, xs[0], xs[j]);
        }
      }
      [x] + xs
    else
      LexLessTotal(x, xs[0]);
      var r := [xs[0]] + SortedInsert(xs[1..], x);
      assert forall j :: 0 < j < |r| ==> r[j] in xs[1..] || r[j] == x;
      r
  }

  /** `sorted(set(xs))`. */
  function SortedSet(xs: seq<Str>): (r: seq<Str>)
    ensures StrictlyAscending(r)
    ensures forall y :: y in r <==> y in xs
  {
    if xs == [] then []
    else SortedInsert(SortedSet(xs[..|xs| - 1]), xs[|xs| - 1])
  }

  /** A strictly ascending list is determined by its elements, so
      `SortedSet` is the one and only result `sorted(set(xs))` can have. */
  lemma {:induction false} AscendingUnique(a: seq<Str>, b: seq<Str>)
    requires StrictlyAscending(a) && StrictlyAscending(b)
    requires forall y :: y in a <==> y in b
    ensures a == b
  {
    assert a == [] <==> b == [] by {
      if a != [] { assert a[0] in b; }
      if b != [] { assert b[0] in a; }
    }
    if a != [] {
      assert a[0] == b[0] by {
        if a[0] != b[0] {
          assert a[0] in a && b[0] in b;
          var i :|0 <= i < |b| && b[i] == a[0];
          var j :| 0 <= j < |a| && a[j] == b[0];
          assert i != 0 && j != 0;
          LexLessTransitive(a[0], a[j], a[0]);
          LexLessIrreflexive(a[0]);
        }
      }
      forall y ensures y in a[1..] <==> y in b[1..] {
        if y in a[1..] {
          var k :| 1 <= k < |a| && a[k] == y;
          assert y != a[0] by { LexLessIrreflexive(y); }
          assert y in b;
        }
        if y in b[1..] {
          var k :| 1 <= k < |b| && b[k] == y;
          assert y != b[0] by { LexLessIrreflexive(y); }
          assert y in a;
        }
      }
      AscendingUnique(a[1..], b[1..]);
      assert a == [a[0]] + a[1..] && b == [b[0]] + b[1..];
    }
  }
}
