/** Python text as the three core files see it: a `str` is a sequence of
    Unicode code points, which may include lone surrogates (0xD800-0xDFFF)
    left behind by broken encodings. */
module Text {
  import opened Wrappers

  /** A Python `str`. */
  type Str = seq<int>

  /** The code points of a literal written in the source. */
  function CodePoints(s: string): (r: Str)
    ensures |r| == |s|
    ensures forall i :: 0 <= i < |s| ==> r[i] == s[i] as int
  {
    seq(|s|, i requires 0 <= i < |s| => s[i] as int)
  }

  const SpaceChar: int := 0x20
  const LessThan: int := 0x3C
  const GreaterThan: int := 0x3E
  const OpenBrace: int := 0x7B
  const CloseBrace: int := 0x7D

  /** Python's whitespace (`str.isspace`), which is both what the regex class
      `\s` matches in a `str` pattern and what `str.strip()` removes. */
  predicate IsSpace(c: int) {
    || 0x09 <= c <= 0x0D
    || 0x1C <= c <= 0x20
    || c == 0x85 || c == 0xA0 || c == 0x1680
    || 0x2000 <= c <= 0x200A
    || c == 0x2028 || c == 0x2029 || c == 0x202F || c == 0x205F || c == 0x3000
  }

  /** The UTF-16 surrogate range that the regex `[\ud800-\udfff]` matches. */
  predicate IsSurrogate(c: int) {
    0xD800 <= c <= 0xDFFF
  }

  predicate NoSurrogates(s: Str) {
    forall i :: 0 <= i < |s| ==> !IsSurrogate(s[i])
  }

  /** A literal holds Unicode scalar values only, so it has no surrogates. */
  lemma CodePointsNoSurrogates(s: string)
    ensures NoSurrogates(CodePoints(s))
  {
  }

  /** Any piece of surrogate-free text is surrogate-free. */
  lemma NoSurrogatesSlice(s: Str, a: nat, b: nat)
    requires NoSurrogates(s) && a <= b <= |s|
    ensures NoSurrogates(s[a..b])
  {
    forall i | 0 <= i < b - a ensures !IsSurrogate(s[a..b][i]) {
      assert s[a..b][i] == s[a + i];
    }
  }

  /** Joining surrogate-free texts gives surrogate-free text. */
  lemma NoSurrogatesConcat(a: Str, b: Str)
    requires NoSurrogates(a) && NoSurrogates(b)
    ensures NoSurrogates(a + b)
  {
    forall i | 0 <= i < |a + b| ensures !IsSurrogate((a + b)[i]) {
      if i >= |a| {
        assert (a + b)[i] == b[i - |a|];
      }
    }
  }

  /** No whitespace at either end (what `str.strip()` guarantees). */
  predicate Trimmed(s: Str) {
    s == [] || (!IsSpace(s[0]) && !IsSpace(s[|s| - 1]))
  }

  // ---------------------------------------------------------------------
  // Surrogate removal: `re.sub(r'[\ud800-\udfff]', '', text)`
  // ---------------------------------------------------------------------

  /** Drops every surrogate code point and keeps everything else in order. */
  function CleanSurrogates(s: Str): (r: Str)
    ensures NoSurrogates(r)
    ensures |r| <= |s|
  {
    if s == [] then []
    else (if IsSurrogate(s[0]) then [] else [s[0]]) + CleanSurrogates(s[1..])
  }

  /** Surrogate removal works piece by piece, so it keeps the order of what
      it keeps. */
  lemma {:induction false} CleanSurrogatesConcat(a: Str, b: Str)
    ensures CleanSurrogates(a + b) == CleanSurrogates(a) + CleanSurrogates(b)
  {
    if a != [] {
      var piece := if IsSurrogate(a[0]) then [] else [a[0]];
      calc {
        CleanSurrogates(a + b);
        { assert (a + b)[0] == a[0] && (a + b)[1..] == a[1..] + b; }
        piece + CleanSurrogates(a[1..] + b);
        { CleanSurrogatesConcat(a[1..], b); }
        piece + (CleanSurrogates(a[1..]) + CleanSurrogates(b));
        (piece + CleanSurrogates(a[1..])) + CleanSurrogates(b);
      }
    } else {
      assert a + b == b;
    }
  }

  /** Text without surrogates is left exactly as it is. */
  lemma {:induction false} CleanSurrogatesKeeps(s: Str)
    requires NoSurrogates(s)
    ensures CleanSurrogates(s) == s
  {
    if s != [] {
      CleanSurrogatesKeeps(s[1..]);
      assert s == [s[0]] + s[1..];
    }
  }

  /** Removing surrogates twice is the same as removing them once. */
  lemma CleanSurrogatesIdempotent(s: Str)
    ensures CleanSurrogates(CleanSurrogates(s)) == CleanSurrogates(s)
  {
    CleanSurrogatesKeeps(CleanSurrogates(s));
  }

  /** Exactly the surrogates are removed: every other code point keeps its
      number of occurrences. */
  lemma {:induction false} CleanSurrogatesCounts(s: Str, c: int)
    ensures multiset(CleanSurrogates(s))[c] == if IsSurrogate(c) then 0 else multiset(s)[c]
  {
    if s != [] {
      CleanSurrogatesCounts(s[1..], c);
      var piece := if IsSurrogate(s[0]) then [] else [s[0]];
      assert CleanSurrogates(s) == piece + CleanSurrogates(s[1..]);
      assert multiset(CleanSurrogates(s)) == multiset(piece) + multiset(CleanSurrogates(s[1..]));
      assert s == [s[0]] + s[1..];
      assert multiset(s) == multiset([s[0]]) + multiset(s[1..]);
    }
  }

  // ---------------------------------------------------------------------
  // Trimming: `str.strip()`
  // ---------------------------------------------------------------------

  /** Drops leading whitespace: the result is the suffix that starts at the
      first non-space code point. */
  function TrimStart(s: Str): (r: Str)
    ensures |r| <= |s| && r == s[|s| - |r|..]
    ensures forall k :: 0 <= k < |s| - |r| ==> IsSpace(s[k])
    ensures r != [] ==> !IsSpace(r[0])
  {
    if s != [] && IsSpace(s[0]) then TrimStart(s[1..]) else s
  }

  /** Drops trailing whitespace: the result is the prefix that ends at the
      last non-space code point. */
  function TrimEnd(s: Str): (r: Str)
    ensures |r| <= |s| && r == s[..|r|]
    ensures forall k :: |r| <= k < |s| ==> IsSpace(s[k])
    ensures r != [] ==> !IsSpace(r[|r| - 1])
  {
    if s != [] && IsSpace(s[|s| - 1]) then TrimEnd(s[..|s| - 1]) else s
  }

  /** Python's `str.strip()` with no argument. */
  function Strip(s: Str): (r: Str)
    ensures Trimmed(r)
  {
    TrimEnd(TrimStart(s))
  }

  /** TrimStart stops exactly at the first non-space code point. */
  lemma {:induction false} TrimStartExact(s: Str, a: nat)
    requires a <= |s|
    requires forall k :: 0 <= k < a ==> IsSpace(s[k])
    requires a < |s| ==> !IsSpace(s[a])
    ensures TrimStart(s) == s[a..]
    decreases a
  {
    if 0 < a {
      var t := s[1..];
      forall k | 0 <= k < a - 1 ensures IsSpace(t[k]) {
        assert t[k] == s[k + 1];
      }
      assert a - 1 < |t| ==> t[a - 1] == s[a];
      TrimStartExact(t, a - 1);
      assert t[a - 1..] == s[a..];
    }
  }

  /** TrimEnd stops exactly after the last non-space code point. */
  lemma {:induction false} TrimEndExact(s: Str, b: nat)
    requires b <= |s|
    requires forall k :: b <= k < |s| ==> IsSpace(s[k])
    requires 0 < b ==> !IsSpace(s[b - 1])
    ensures TrimEnd(s) == s[..b]
    decreases |s| - b
  {
    if b < |s| {
      var t := s[..|s| - 1];
      forall k | b <= k < |t| ensures IsSpace(t[k]) {
        assert t[k] == s[k];
      }
      assert 0 < b ==> t[b - 1] == s[b - 1];
      TrimEndExact(t, b);
      assert t[..b] == s[..b];
    } else {
      assert s[..b] == s;
    }
  }

  /** Strip keeps exactly the part between the leading and the trailing
      whitespace runs: any way of cutting `s` into spaces, a part that is
      empty or trimmed, and spaces, names the result. */
  lemma StripExact(s: Str, a: nat, b: nat)
    requires a <= b <= |s|
    requires forall k :: 0 <= k < a ==> IsSpace(s[k])
    requires forall k :: b <= k < |s| ==> IsSpace(s[k])
    requires a == b || (!IsSpace(s[a]) && !IsSpace(s[b - 1]))
    ensures Strip(s) == s[a..b]
  {
    if a == b {
      TrimStartExact(s, |s|);
      assert s[a..b] == [];
    } else {
      TrimStartExact(s, a);
      var t := s[a..];
      var n := b - a;
      assert forall k :: n <= k < |t| ==> IsSpace(t[k]) by {
        forall k | n <= k < |t| ensures IsSpace(t[k]) {
          assert t[k] == s[a + k];
        }
      }
      assert !IsSpace(t[n - 1]) by {
        assert t[n - 1] == s[b - 1];
      }
      TrimEndExact(t, n);
      SliceOfSuffix(s, a, b);
    }
  }

  lemma SliceOfSuffix(s: Str, a: nat, b: nat)
    requires a <= b <= |s|
    ensures s[a..][..b - a] == s[a..b]
  {
  }

  /** Strip returns the contiguous piece that starts where the leading
      whitespace ends. */
  lemma StripIsSlice(s: Str)
    ensures |s| - |TrimStart(s)| + |Strip(s)| <= |s|
    ensures Strip(s) == s[|s| - |TrimStart(s)|..|s| - |TrimStart(s)| + |Strip(s)|]
  {
  }

  /** Where the stripped text sits inside the original. */
  lemma StripBounds(s: Str) returns (a: nat, b: nat)
    ensures a <= b <= |s| && Strip(s) == s[a..b]
  {
    var t := TrimStart(s);
    var r := TrimEnd(t);
    assert r == Strip(s);
    a := |s| - |t|;
    b := a + |r|;
    assert t == s[a..] && r == t[..|r|];
    SliceOfSuffix(s, a, b);
  }

  /** Stripping again changes nothing. */
  lemma StripIdempotent(s: Str)
    ensures Strip(Strip(s)) == Strip(s)
  {
    var r := Strip(s);
    StripExact(r, 0, |r|);
  }

  /** Strip returns a contiguous piece of its input, so it keeps properties
      that hold of every code point. */
  lemma StripKeepsNoSurrogates(s: Str)
    requires NoSurrogates(s)
    ensures NoSurrogates(Strip(s))
  {
  }

  // ---------------------------------------------------------------------
  // Substring search: `sub in s`, `s.split(sep)[-1]`
  // ---------------------------------------------------------------------

  predicate OccursAt(s: Str, sub: Str, i: int) {
    0 <= i && i + |sub| <= |s| && s[i..i + |sub|] == sub
  }

  /** The index of the first occurrence of `sub` in `s`, if any. */
  function Find(s: Str, sub: Str): (r: Option<nat>)
    ensures r.Some? ==> OccursAt(s, sub, r.value)
    ensures r.Some? ==> forall k :: 0 <= k < r.value ==> !OccursAt(s, sub, k)
    ensures r.None? ==> forall k :: !OccursAt(s, sub, k)
    decreases |s|
  {
    if |s| < |sub| then None
    else if s[..|sub|] == sub then Some(0)
    else
      assert !OccursAt(s, sub, 0);
      assert forall k :: 1 <= k ==> OccursAt(s, sub, k) == OccursAt(s[1..], sub, k - 1) by {
        forall k | 1 <= k ensures OccursAt(s, sub, k) == OccursAt(s[1..], sub, k - 1) {
          if k + |sub| <= |s| {
            assert s[1..][k - 1..k - 1 + |sub|] == s[k..k + |sub|];
          }
        }
      }
      match Find(s[1..], sub)
      case None => None
      case Some(k) => Some(k + 1)
  }

  /** Python's `sub in s`: some position of `s` starts `sub`. */
  predicate Contains(s: Str, sub: Str)
    ensures Contains(s, sub) <==> exists i :: OccursAt(s, sub, i)
  {
    Find(s, sub).Some?
  }

  /** Where the last piece of `s.split(sep)` starts. Python scans `s` from
      the left: at an occurrence of `sep` it cuts and resumes after it,
      otherwise it moves on by one code point. `cut` is the latest cut found
      before position `i`. For a separator that can overlap itself (such
      as "aa") the contracts below do not say which of two overlapping
      occurrences the scan cuts at; the body does, and "</think>" cannot
      overlap itself. */
  function LastCutFrom(s: Str, sep: Str, i: nat, cut: nat): (c: nat)
    requires sep != [] && cut <= i <= |s|
    ensures cut <= c <= |s|
    decreases |s| - i
  {
    if |s| < i + |sep| then cut
    else if OccursAt(s, sep, i) then LastCutFrom(s, sep, i + |sep|, i + |sep|)
    else LastCutFrom(s, sep, i + 1, cut)
  }

  /** When no occurrence starts in `cut..i`, none starts after the cut the
      scan ends at. */
  lemma {:induction false} LastCutFromAfter(s: Str, sep: Str, i: nat, cut: nat)
    requires sep != [] && cut <= i <= |s|
    requires forall k :: cut <= k < i ==> !OccursAt(s, sep, k)
    ensures forall k :: LastCutFrom(s, sep, i, cut) <= k ==> !OccursAt(s, sep, k)
    decreases |s| - i
  {
    if |s| < i + |sep| {
    } else if OccursAt(s, sep, i) {
      LastCutFromAfter(s, sep, i + |sep|, i + |sep|);
    } else {
      LastCutFromAfter(s, sep, i + 1, cut);
    }
  }

  /** The scan either keeps `cut` or ends just after an occurrence. */
  lemma {:induction false} LastCutFromFollows(s: Str, sep: Str, i: nat, cut: nat)
    requires sep != [] && cut <= i <= |s|
    ensures var c := LastCutFrom(s, sep, i, cut);
      c == cut || (|sep| <= c && OccursAt(s, sep, c - |sep|))
    decreases |s| - i
  {
    if |s| < i + |sep| {
    } else if OccursAt(s, sep, i) {
      LastCutFromFollows(s, sep, i + |sep|, i + |sep|);
    } else {
      LastCutFromFollows(s, sep, i + 1, cut);
    }
  }

  function LastCut(s: Str, sep: Str): (c: nat)
    requires sep != []
    ensures c <= |s|
    ensures forall k :: c <= k ==> !OccursAt(s, sep, k)
    ensures 0 < c ==> |sep| <= c && OccursAt(s, sep, c - |sep|)
    ensures (forall k :: !OccursAt(s, sep, k)) ==> c == 0
  {
    LastCutFromAfter(s, sep, 0, 0);
    LastCutFromFollows(s, sep, 0, 0);
    LastCutFrom(s, sep, 0, 0)
  }

  /** An occurrence in a suffix is an occurrence in the whole text. */
  lemma OccursInSuffix(s: Str, start: nat, sub: Str)
    requires start <= |s|
    ensures forall k :: OccursAt(s[start..], sub, k) ==> OccursAt(s, sub, start + k)
  {
    forall k | OccursAt(s[start..], sub, k) ensures OccursAt(s, sub, start + k) {
      assert s[start..][k..k + |sub|] == s[start + k..start + k + |sub|];
    }
  }

  /** `s.split(sep)[-1]`. */
  function AfterLastSplit(s: Str, sep: Str): (r: Str)
    requires sep != []
    ensures !Contains(r, sep)
    ensures !Contains(s, sep) ==> r == s
    ensures Contains(s, sep) ==> |r| + |sep| <= |s| && s == s[..|s| - |r| - |sep|] + sep + r
  {
    LastPiece(s, sep, LastCut(s, sep));
    s[LastCut(s, sep)..]
  }

  /** The piece after the last cut holds no separator; it is the whole text
      when there is no cut, and otherwise follows a separator. */
  lemma LastPiece(s: Str, sep: Str, c: nat)
    requires sep != [] && c == LastCut(s, sep)
    ensures !Contains(s[c..], sep)
    ensures !Contains(s, sep) ==> s[c..] == s
    ensures Contains(s, sep) ==> |s[c..]| + |sep| <= |s| && s == s[..c - |sep|] + sep + s[c..]
  {
    var r := s[c..];
    assert forall k :: !OccursAt(r, sep, k) by {
      OccursInSuffix(s, c, sep);
    }
    if 0 < c {
      assert s[c - |sep|..c] == sep;
      assert s == s[..c - |sep|] + s[c - |sep|..c] + r;
    }
  }

  // ---------------------------------------------------------------------
  // Case mapping: `str.lower()`
  // ---------------------------------------------------------------------

  predicate IsAsciiLower(c: int) {
    0x61 <= c <= 0x7A
  }

  /** LATIN CAPITAL LETTER I WITH DOT ABOVE, whose lower case is two code
      points: 'i' and COMBINING DOT ABOVE. */
  const DottedCapitalI: int := 0x130
  const CombiningDotAbove: int := 0x307
  const KelvinSign: int := 0x212A

  /** `str.lower()` on one code point, for every code point whose lower case
      holds an ASCII letter: A-Z, the Kelvin sign and the dotted capital I.
      Every other code point is left as it is: the keywords searched for
      are all ASCII, and no other lower case holds an ASCII letter. */
  function LowerChar(c: int): (r: Str)
    ensures |r| == if c == DottedCapitalI then 2 else 1
    ensures IsAsciiLower(r[0]) <==> (0x41 <= c <= 0x5A || IsAsciiLower(c) || c == KelvinSign || c == DottedCapitalI)
    ensures c == DottedCapitalI ==> r == [0x69, CombiningDotAbove]
    ensures 0x41 <= c <= 0x5A ==> r == [c + 0x20]
    ensures !(0x41 <= c <= 0x5A || c == KelvinSign || c == DottedCapitalI) ==> r == [c]
  {
    if 0x41 <= c <= 0x5A then [c + 0x20]
    else if c == KelvinSign then [0x6B]
    else if c == DottedCapitalI then [0x69, CombiningDotAbove]
    else [c]
  }

  /** `str.lower()`: the lower case of each code point, in order. It never
      shortens the text. */
  function Lower(s: Str): (r: Str)
    ensures |s| <= |r|
  {
    ConcatLength(LowerParts(s));
    Concat(LowerParts(s))
  }

  /** The lower case of each code point of `s`. */
  function LowerParts(s: Str): seq<Str>
  {
    seq(|s|, i requires 0 <= i < |s| => LowerChar(s[i]))
  }

  /** The pieces, one after the other. */
  function Concat(parts: seq<Str>): Str {
    if parts == [] then [] else parts[0] + Concat(parts[1..])
  }

  /** Non-empty pieces give at least one code point each. */
  lemma {:induction false} ConcatLength(parts: seq<Str>)
    requires forall i :: 0 <= i < |parts| ==> parts[i] != []
    ensures |parts| <= |Concat(parts)|
  {
    if parts != [] {
      ConcatLength(parts[1..]);
    }
  }

  lemma {:induction false} ConcatAppend(p: seq<Str>, q: seq<Str>)
    ensures Concat(p + q) == Concat(p) + Concat(q)
  {
    if p != [] {
      assert (p + q)[0] == p[0] && (p + q)[1..] == p[1..] + q;
      ConcatAppend(p[1..], q);
    } else {
      assert p + q == q;
    }
  }

  /** Pieces of one code point each concatenate to those code points. */
  lemma {:induction false} ConcatSingles(parts: seq<Str>)
    requires forall i :: 0 <= i < |parts| ==> |parts[i]| == 1
    ensures |Concat(parts)| == |parts|
    ensures forall i :: 0 <= i < |parts| ==> Concat(parts)[i] == parts[i][0]
  {
    if parts != [] {
      ConcatSingles(parts[1..]);
      assert forall i :: 1 <= i < |parts| ==> parts[1..][i - 1] == parts[i];
    }
  }

  /** Without a dotted capital I, lower-casing keeps the length and maps
      code point by code point. */
  lemma LowerPointwise(s: Str)
    requires forall i :: 0 <= i < |s| ==> s[i] != DottedCapitalI
    ensures |Lower(s)| == |s|
    ensures forall i :: 0 <= i < |s| ==> Lower(s)[i] == LowerChar(s[i])[0]
  {
    ConcatSingles(LowerParts(s));
  }

  /** Lower-casing works piece by piece. */
  lemma LowerConcat(a: Str, b: Str)
    ensures Lower(a + b) == Lower(a) + Lower(b)
  {
    assert LowerParts(a + b) == LowerParts(a) + LowerParts(b);
    ConcatAppend(LowerParts(a), LowerParts(b));
  }
}
