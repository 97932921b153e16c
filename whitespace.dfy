/** Whitespace normalisation: the regex substitution `re.sub(r'\s+', ' ', s)`
    and, as an independent reference for it, the words of a text
    (Python's `s.split()`) joined back with single spaces. */
module Whitespace {
  import opened Text

  predicate SpaceFree(w: Str) {
    forall i :: 0 <= i < |w| ==> !IsSpace(w[i])
  }

  /** What `s.split()` returns: non-empty and free of whitespace. */
  predicate ValidWords(ws: seq<Str>) {
    forall i :: 0 <= i < |ws| ==> ws[i] != [] && SpaceFree(ws[i])
  }

  /** Every whitespace code point is a lone ' ' with a non-space code point
      on each side, so it is neither at an end nor part of a longer run. */
  predicate SingleSpaced(s: Str) {
    forall i :: 0 <= i < |s| && IsSpace(s[i]) ==>
      s[i] == SpaceChar && 0 < i < |s| - 1 && !IsSpace(s[i - 1]) && !IsSpace(s[i + 1])
  }

  /** The longest prefix of `s` without whitespace. */
  function LeadingWord(s: Str): (w: Str)
    ensures |w| <= |s| && w == s[..|w|]
    ensures SpaceFree(w)
    ensures |w| < |s| ==> IsSpace(s[|w|])
  {
    if s == [] || IsSpace(s[0]) then []
    else [s[0]] + LeadingWord(s[1..])
  }

  /** `re.sub(r'\s+', ' ', s)`: one left-to-right pass that replaces every
      maximal run of whitespace by a single ' ' and keeps everything else.
      It never lengthens the text and empties only empty text. */
  function CollapseSpaces(s: Str): (r: Str)
    ensures |r| <= |s|
    ensures r == [] <==> s == []
    decreases |s|
  {
    if s == [] then []
    else if IsSpace(s[0]) then [SpaceChar] + CollapseSpaces(TrimStart(s))
    else
      var w := LeadingWord(s);
      w + CollapseSpaces(s[|w|..])
  }

  /** `s.split()`: the maximal whitespace-free pieces of `s`, in order. */
  function Words(s: Str): (ws: seq<Str>)
    decreases |s|
  {
    if s == [] then []
    else if IsSpace(s[0]) then Words(TrimStart(s))
    else
      var w := LeadingWord(s);
      [w] + Words(s[|w|..])
  }

  /** The pieces `s.split()` returns are non-empty and free of
      whitespace. */
  lemma {:induction false} WordsValid(s: Str)
    ensures ValidWords(Words(s))
    decreases |s|
  {
    if s != [] {
      if IsSpace(s[0]) {
        WordsValid(TrimStart(s));
      } else {
        WordsValid(s[|LeadingWord(s)|..]);
      }
    }
  }

  /** `' '.join(ws)`. */
  function Join(ws: seq<Str>): (s: Str)
  {
    if ws == [] then []
    else if |ws| == 1 then ws[0]
    else ws[0] + [SpaceChar] + Join(ws[1..])
  }

  /** Joining valid words gives text that is trimmed and single-spaced, and
      it is empty only when there are no words. */
  lemma {:induction false} JoinShape(ws: seq<Str>)
    requires ValidWords(ws)
    ensures Trimmed(Join(ws)) && SingleSpaced(Join(ws))
    ensures Join(ws) == [] <==> ws == []
  {
    if |ws| > 1 {
      JoinShape(ws[1..]);
      var rest := Join(ws[1..]);
      var s := Join(ws);
      var w := ws[0];
      assert s == w + [SpaceChar] + rest;
      forall i | 0 <= i < |s| && IsSpace(s[i])
        ensures s[i] == SpaceChar && 0 < i < |s| - 1 && !IsSpace(s[i - 1]) && !IsSpace(s[i + 1])
      {
        if i > |w| {
          assert s[i] == rest[i - |w| - 1];
        }
      }
    }
  }

  /** Splitting the words back out of their join gives the same words: the
      round trip `' '.join(ws).split() == ws`. */
  lemma {:induction false} WordsOfJoin(ws: seq<Str>)
    requires ValidWords(ws)
    ensures Words(Join(ws)) == ws
  {
    if |ws| == 1 {
      assert Join(ws) == ws[0];
      WordsOfWord(ws[0]);
    } else if |ws| > 1 {
      var w := ws[0];
      var tail := ws[1..];
      var rest := Join(tail);
      assert w != [] && SpaceFree(w);
      assert Words(rest) == tail by {
        WordsOfJoin(tail);
      }
      assert rest == [] || !IsSpace(rest[0]) by {
        JoinShape(tail);
      }
      assert Words(w + ([SpaceChar] + rest)) == [w] + Words(rest) by {
        WordsOfCons(w, rest);
      }
      assert Join(ws) == w + ([SpaceChar] + rest);
      assert ws == [w] + tail;
    }
  }

  /** A single word splits into itself. */
  lemma WordsOfWord(w: Str)
    requires w != [] && SpaceFree(w)
    ensures Words(w) == [w]
  {
    LeadingWordOf(w, w);
    assert w[|w|..] == [];
  }

  /** A word, one ' ' and text starting with a non-space split into that
      word followed by the words of the text. */
  lemma WordsOfCons(w: Str, rest: Str)
    requires w != [] && SpaceFree(w)
    requires rest == [] || !IsSpace(rest[0])
    ensures Words(w + ([SpaceChar] + rest)) == [w] + Words(rest)
  {
    var s := w + ([SpaceChar] + rest);
    assert s[..|w|] == w;
    LeadingWordOf(s, w);
    var tail := s[|w|..];
    assert tail == [SpaceChar] + rest;
    TrimStartExact(tail, 1);
    assert tail[1..] == rest;
  }

  /** The leading word is determined by where the first whitespace is. */
  lemma {:induction false} LeadingWordOf(s: Str, w: Str)
    requires w != [] && SpaceFree(w) && |w| <= |s| && s[..|w|] == w
    requires |w| < |s| ==> IsSpace(s[|w|])
    ensures LeadingWord(s) == w
    decreases |w|
  {
    assert s[0] == w[0];
    var s1 := s[1..];
    var w1 := w[1..];
    if w1 != [] {
      assert s1[..|w1|] == w1;
      assert |w1| < |s1| ==> s1[|w1|] == s[|w|];
      forall i | 0 <= i < |w1| ensures !IsSpace(w1[i]) {
        assert w1[i] == w[i + 1];
      }
      LeadingWordOf(s1, w1);
    } else {
      assert |w| < |s| ==> s1[0] == s[1];
    }
    assert w == [w[0]] + w1;
  }

  /** The regex pass, started at a non-space code point, is the join of the
      words plus one ' ' when the text ends in whitespace. */
  lemma {:induction false} CollapseIsJoin(s: Str)
    requires s == [] || !IsSpace(s[0])
    ensures CollapseSpaces(s) == Join(Words(s)) + EndSpace(s)
    decreases |s|
  {
    if s != [] {
      var w := LeadingWord(s);
      var rest := s[|w|..];
      assert CollapseSpaces(s) == w + CollapseSpaces(rest);
      assert Words(s) == [w] + Words(rest);
      if rest == [] {
        assert s == w;
        assert Join([w]) == w;
      } else {
        var t := TrimStart(rest);
        var ws := Words(t);
        assert CollapseSpaces(rest) == [SpaceChar] + CollapseSpaces(t);
        assert Words(rest) == ws;
        assert CollapseSpaces(t) == Join(ws) + EndSpace(t) by {
          CollapseIsJoin(t);
        }
        if t == [] {
          assert EndSpace(s) == [SpaceChar] by {
            assert s[|s| - 1] == rest[|rest| - 1];
          }
          assert Join([w]) == w;
        } else {
          assert ws != [];
          assert EndSpace(s) == EndSpace(t) by {
            assert s[|s| - 1] == t[|t| - 1];
          }
          assert w + ([SpaceChar] + (Join(ws) + EndSpace(t))) == Join([w] + ws) + EndSpace(t) by {
            JoinCons(w, ws, EndSpace(t));
          }
        }
      }
    }
  }

  /** One ' ' when the text ends in whitespace, for the end of the pass. */
  function EndSpace(s: Str): Str {
    if s != [] && IsSpace(s[|s| - 1]) then [SpaceChar] else []
  }

  /** Putting one more word in front of a non-empty join. */
  lemma JoinCons(w: Str, ws: seq<Str>, tail: Str)
    requires ws != []
    ensures w + ([SpaceChar] + (Join(ws) + tail)) == Join([w] + ws) + tail
  {
    assert ([w] + ws)[0] == w && ([w] + ws)[1..] == ws;
  }

  /** `re.sub(r'\s+', ' ', s).strip()` is `' '.join(s.split())`. */
  lemma StripCollapseIsJoin(s: Str)
    ensures Strip(CollapseSpaces(s)) == Join(Words(s))
  {
    if s != [] && IsSpace(s[0]) {
      var t := TrimStart(s);
      assert Words(s) == Words(t);
      assert CollapseSpaces(s) == [SpaceChar] + CollapseSpaces(t);
      StripCollapseAtWord(t, [SpaceChar]);
    } else {
      assert [] + CollapseSpaces(s) == CollapseSpaces(s);
      StripCollapseAtWord(s, []);
    }
  }

  lemma StripCollapseAtWord(t: Str, pre: Str)
    requires t == [] || !IsSpace(t[0])
    requires forall k :: 0 <= k < |pre| ==> IsSpace(pre[k])
    ensures Strip(pre + CollapseSpaces(t)) == Join(Words(t))
  {
    var j := Join(Words(t));
    var post := EndSpace(t);
    var c := CollapseSpaces(t);
    assert c == j + post by {
      CollapseIsJoin(t);
    }
    assert Trimmed(j) by {
      WordsValid(t);
      JoinShape(Words(t));
    }
    assert pre + c == pre + j + post;
    assert Strip(pre + j + post) == j by {
      StripPadded(pre, j, post);
    }
  }

  /** Strip removes exactly the whitespace padding around a trimmed text. */
  lemma StripPadded(pre: Str, j: Str, post: Str)
    requires forall k :: 0 <= k < |pre| ==> IsSpace(pre[k])
    requires forall k :: 0 <= k < |post| ==> IsSpace(post[k])
    requires Trimmed(j)
    ensures Strip(pre + j + post) == j
  {
    var c := pre + j + post;
    assert forall k :: 0 <= k < |pre| ==> c[k] == pre[k];
    assert forall k :: |pre| + |j| <= k < |c| ==> c[k] == post[k - |pre| - |j|];
    StripExact(c, |pre|, |pre| + |j|);
    assert c[|pre|..|pre| + |j|] == j;
  }

  /** Words are pieces of the text, so they keep its freedom from
      surrogates, and so does joining them with ' '. */
  lemma {:induction false} JoinWordsNoSurrogates(s: Str)
    requires NoSurrogates(s)
    ensures NoSurrogates(Join(Words(s)))
    decreases |s|
  {
    if s != [] {
      if IsSpace(s[0]) {
        var t := TrimStart(s);
        NoSurrogatesSlice(s, |s| - |t|, |s|);
        assert s[|s| - |t|..|s|] == t;
        JoinWordsNoSurrogates(t);
      } else {
        var w := LeadingWord(s);
        var rest := s[|w|..];
        NoSurrogatesSlice(s, 0, |w|);
        assert s[0..|w|] == w;
        NoSurrogatesSlice(s, |w|, |s|);
        assert s[|w|..|s|] == rest;
        JoinWordsNoSurrogates(rest);
        var ws := Words(rest);
        assert Words(s) == [w] + ws;
        if ws != [] {
          JoinCons(w, ws, []);
          assert Join([w] + ws) == w + ([SpaceChar] + Join(ws));
          NoSurrogatesConcat([SpaceChar], Join(ws));
          NoSurrogatesConcat(w, [SpaceChar] + Join(ws));
        } else {
          assert Join([w]) == w;
        }
      }
    }
  }
}
