/** Building the generation prompt and cleaning the model's reply
    (`post_generator.py`). */
module PostGenerator {
  import opened Wrappers
  import opened Text
  import opened Records
  import opened FewShot

  // ---------------------------------------------------------------------
  // Length descriptions: `get_length_str`
  // ---------------------------------------------------------------------

  const ShortDescription: Str := CodePoints("1 to 5 lines (50-100 words)")
  const MediumDescription: Str := CodePoints("6 to 10 lines (100-200 words)")
  const LongDescription: Str := CodePoints("11 to 15 lines (200-300 words)")

  /** The dictionary `length_mapping`. */
  const LengthMapping: map<Str, Str> := map[
    LengthName(Short) := ShortDescription,
    LengthName(Medium) := MediumDescription,
    LengthName(Long) := LongDescription
  ]

  /** `get_length_str`: `length_mapping.get(length, <Medium's text>)`. The
      three bucket names get their own descriptions and every other string
      gets Medium's. */
  function LengthDescription(length: Str): (r: Str)
    ensures length == LengthName(Short) ==> r == ShortDescription
    ensures length == LengthName(Long) ==> r == LongDescription
    ensures length != LengthName(Short) && length != LengthName(Long) ==> r == MediumDescription
  {
    LengthNameInjective(Short, Medium);
    LengthNameInjective(Short, Long);
    LengthNameInjective(Medium, Long);
    if length in LengthMapping then LengthMapping[length] else MediumDescription
  }

  /** The description in the prompt tells the three buckets apart: two
      bucket names get the same description only when they are the same
      bucket. */
  lemma LengthDescriptionInjective(a: Length, b: Length)
    requires LengthDescription(LengthName(a)) == LengthDescription(LengthName(b))
    ensures a == b
  {
    assert ShortDescription[0] != MediumDescription[0];
    assert |ShortDescription| != |LongDescription|;
    assert MediumDescription[0] != LongDescription[1];
    if a != b {
      LengthNameInjective(a, b);
    }
  }

  // ---------------------------------------------------------------------
  // Tag removal: `re.sub(r'<[^>]+>', '', s)`
  // ---------------------------------------------------------------------

  /** Nothing left for `<[^>]+>` to match: every '<' is directly followed by
      '>' or has no '>' anywhere after it. */
  predicate NoTagSpan(s: Str) {
    forall i :: 0 <= i < |s| && s[i] == LessThan ==>
      (i + 1 < |s| && s[i + 1] == GreaterThan) || GreaterThan !in s[i + 1..]
  }

  /** `[c] + s` has no tag span when `s` has none and `c` cannot start one. */
  lemma NoTagSpanCons(c: int, s: Str)
    requires NoTagSpan(s)
    requires c == LessThan ==> (s != [] && s[0] == GreaterThan) || GreaterThan !in s
    ensures NoTagSpan([c] + s)
  {
    var t := [c] + s;
    forall i | 0 <= i < |t| && t[i] == LessThan
      ensures (i + 1 < |t| && t[i + 1] == GreaterThan) || GreaterThan !in t[i + 1..]
    {
      if i > 0 {
        assert t[i + 1..] == s[i..];
      } else {
        assert t[1..] == s;
      }
    }
  }

  /** Any contiguous piece of text without tag spans has none either. */
  lemma NoTagSpanSlice(s: Str, a: nat, b: nat)
    requires NoTagSpan(s) && a <= b <= |s|
    ensures NoTagSpan(s[a..b])
  {
    var t := s[a..b];
    forall i | 0 <= i < |t| && t[i] == LessThan
      ensures (i + 1 < |t| && t[i + 1] == GreaterThan) || GreaterThan !in t[i + 1..]
    {
      assert s[a + i] == LessThan;
    }
  }

  /** Stripping keeps the text free of tag spans. */
  lemma NoTagSpanStrip(s: Str)
    requires NoTagSpan(s)
    ensures NoTagSpan(Strip(s))
  {
    var a, b := StripBounds(s);
    NoTagSpanSlice(s, a, b);
  }

  /** The only '>' a one-code-point needle can be found at. */
  lemma FindGreater(s: Str)
    ensures Find(s, [GreaterThan]).None? <==> GreaterThan !in s
    ensures Find(s, [GreaterThan]).Some? ==> s[Find(s, [GreaterThan]).value] == GreaterThan
  {
    var f := Find(s, [GreaterThan]);
    if f.None? {
      forall k | 0 <= k < |s| ensures s[k] != GreaterThan {
        assert !OccursAt(s, [GreaterThan], k);
        assert s[k..k + 1] == [s[k]];
      }
    } else {
      assert s[f.value..f.value + 1][0] == s[f.value];
    }
  }

  /** `re.sub(r'<[^>]+>', '', s)`: scanning left to right, a '<' followed by
      at least one code point other than '>' and then a '>' is deleted up to
      and including that '>'; everything else is kept. */
  function RemoveTags(s: Str): (r: Str)
    ensures |r| <= |s|
    ensures forall c :: c in r ==> c in s
    ensures NoTagSpan(r)
    ensures s != [] && s[0] != LessThan ==> r != [] && r[0] == s[0]
    decreases |s|
  {
    if s == [] then []
    else if s[0] == LessThan then
      FindGreater(s[1..]);
      match Find(s[1..], [GreaterThan])
      case Some(j) =>
        if 0 < j then
          var r := RemoveTags(s[j + 2..]);
          assert forall c :: c in r ==> c in s by {
            forall c | c in r ensures c in s {
              var k :| 0 <= k < |s[j + 2..]| && s[j + 2..][k] == c;
              assert s[j + 2 + k] == c;
            }
          }
          r
        else
          var rest := RemoveTags(s[1..]);
          NoTagSpanCons(s[0], rest);
          [s[0]] + rest
      case None =>
        var rest := RemoveTags(s[1..]);
        NoTagSpanCons(s[0], rest);
        [s[0]] + rest
    else
      var rest := RemoveTags(s[1..]);
      NoTagSpanCons(s[0], rest);
      [s[0]] + rest
  }

  /** Text without tag spans passes through unchanged, so removing tags twice
      is the same as removing them once. */
  lemma {:induction false} RemoveTagsKeeps(s: Str)
    requires NoTagSpan(s)
    ensures RemoveTags(s) == s
    decreases |s|
  {
    if s != [] {
      NoTagSpanSlice(s, 1, |s|);
      RemoveTagsKeeps(s[1..]);
      if s[0] == LessThan {
        FindGreater(s[1..]);
        if s[1..] != [] && s[1] == GreaterThan {
          assert OccursAt(s[1..], [GreaterThan], 0);
        }
      }
      assert s == [s[0]] + s[1..];
    }
  }

  /** Text without '<' is kept as it is, and the pass goes on after it. */
  lemma {:induction false} RemoveTagsPlain(x: Str, y: Str)
    requires LessThan !in x
    ensures RemoveTags(x + y) == x + RemoveTags(y)
    decreases |x|
  {
    if x != [] {
      assert (x + y)[0] == x[0] && (x + y)[1..] == x[1..] + y;
      RemoveTagsPlain(x[1..], y);
      assert x == [x[0]] + x[1..];
    } else {
      assert x + y == y;
    }
  }

  /** A '<', one or more code points other than '>', and the '>' that
      follows them are deleted together, and the pass goes on after them. */
  lemma RemoveTagsSpan(w: Str, y: Str)
    requires w != [] && GreaterThan !in w
    ensures RemoveTags([LessThan] + w + [GreaterThan] + y) == RemoveTags(y)
  {
    var s := [LessThan] + w + [GreaterThan] + y;
    var t := s[1..];
    assert t == w + [GreaterThan] + y;
    assert OccursAt(t, [GreaterThan], |w|) by {
      assert t[|w|..|w| + 1] == [GreaterThan];
    }
    forall k | 0 <= k < |w| ensures !OccursAt(t, [GreaterThan], k) {
      assert t[k..k + 1][0] == t[k] == w[k];
    }
    assert Find(t, [GreaterThan]) == Some(|w|);
    assert s[|w| + 2..] == y;
  }

  /** A '<' that starts no span (no '>' after it, or '>' right after it) is
      kept, and the pass goes on with the next code point. */
  lemma RemoveTagsLone(y: Str)
    requires GreaterThan !in y || (y != [] && y[0] == GreaterThan)
    ensures RemoveTags([LessThan] + y) == [LessThan] + RemoveTags(y)
  {
    var s := [LessThan] + y;
    assert s[1..] == y;
    FindGreater(y);
    if y != [] && y[0] == GreaterThan {
      assert OccursAt(y, [GreaterThan], 0) by {
        assert y[0..1] == [GreaterThan];
      }
    }
  }

  lemma RemoveTagsIdempotent(s: Str)
    ensures RemoveTags(RemoveTags(s)) == RemoveTags(s)
  {
    RemoveTagsKeeps(RemoveTags(s));
  }

  // ---------------------------------------------------------------------
  // Reply clean-up: `extract_post_content`
  // ---------------------------------------------------------------------

  const ThinkClose: Str := CodePoints("</think>")

  lemma RemoveTagsNoSurrogates(s: Str)
    requires NoSurrogates(s)
    ensures NoSurrogates(RemoveTags(s))
  {
    var r := RemoveTags(s);
    forall i | 0 <= i < |r| ensures !IsSurrogate(r[i]) {
      assert r[i] in r;
    }
  }

  /** `extract_post_content`: drop surrogates; when the reply holds
      "</think>", keep what follows its last occurrence; otherwise delete
      the `<...>` spans; then strip. The result never has surrogates nor
      whitespace at either end. */
  function ExtractPostContent(reply: Str): (r: Str)
    ensures NoSurrogates(r) && Trimmed(r)
  {
    var c := CleanSurrogates(reply);
    if Contains(c, ThinkClose) then
      var after := AfterLastSplit(c, ThinkClose);
      AfterThinkNoSurrogates(c);
      StripKeepsNoSurrogates(after);
      Strip(after)
    else
      var kept := RemoveTags(c);
      RemoveTagsNoSurrogates(c);
      StripKeepsNoSurrogates(kept);
      Strip(kept)
  }

  /** The text after the last "</think>" is a piece of the text, so it has
      no surrogates when the text has none. */
  lemma AfterThinkNoSurrogates(c: Str)
    requires NoSurrogates(c) && Contains(c, ThinkClose)
    ensures NoSurrogates(AfterLastSplit(c, ThinkClose))
  {
    var after := AfterLastSplit(c, ThinkClose);
    NoSurrogatesSlice(c, |c| - |after|, |c|);
    assert c[|c| - |after|..|c|] == after;
  }

  /** Two occurrences of "</think>" never overlap: its first code point, '<',
      does not occur again inside it. */
  lemma ThinkCloseNoOverlap(s: Str, p: nat, q: nat)
    requires OccursAt(s, ThinkClose, p) && OccursAt(s, ThinkClose, q) && p < q
    ensures p + |ThinkClose| <= q
  {
    assert forall k :: p <= k < p + |ThinkClose| ==> s[k] == ThinkClose[k - p] by {
      forall k | p <= k < p + |ThinkClose| ensures s[k] == ThinkClose[k - p] {
        assert s[p..p + |ThinkClose|][k - p] == s[k];
      }
    }
    assert s[q] == ThinkClose[0] by {
      assert s[q..q + |ThinkClose|][0] == s[q];
    }
    assert forall k :: 0 < k < |ThinkClose| ==> ThinkClose[k] != LessThan;
  }

  /** An occurrence inside a suffix is found by `Find` on that suffix. */
  lemma OccursInSuffixFound(s: Str, start: nat, sub: Str, k: nat)
    requires start <= k && OccursAt(s, sub, k)
    ensures Contains(s[start..], sub)
  {
    assert s[start..][k - start..k - start + |sub|] == s[k..k + |sub|];
    assert OccursAt(s[start..], sub, k - start);
  }

  /** When the surrogate-free reply holds "</think>" at `p` and nowhere after,
      the post is the stripped text that follows that occurrence. */
  lemma ExtractAfterLastThink(reply: Str, p: nat)
    requires OccursAt(CleanSurrogates(reply), ThinkClose, p)
    requires forall k :: p < k ==> !OccursAt(CleanSurrogates(reply), ThinkClose, k)
    ensures ExtractPostContent(reply) == Strip(CleanSurrogates(reply)[p + |ThinkClose|..])
  {
    var c := CleanSurrogates(reply);
    assert Contains(c, ThinkClose) by {
      OccursInSuffixFound(c, 0, ThinkClose, p);
      assert c[0..] == c;
    }
    var r := AfterLastSplit(c, ThinkClose);
    var q := |c| - |r| - |ThinkClose|;
    assert OccursAt(c, ThinkClose, q) by {
      assert c[q..q + |ThinkClose|] == ThinkClose;
    }
    if q < p < q + |ThinkClose| {
      ThinkCloseNoOverlap(c, q, p);
    }
    assert r == c[p + |ThinkClose|..];
  }

  /** Without "</think>" in the surrogate-free reply, the post is that
      text with its tag spans removed (`RemoveTagsPlain`, `RemoveTagsSpan`
      and `RemoveTagsLone` say how), then stripped. */
  lemma ExtractWithoutThink(reply: Str)
    requires !Contains(CleanSurrogates(reply), ThinkClose)
    ensures ExtractPostContent(reply) == Strip(RemoveTags(CleanSurrogates(reply)))
  {
  }

  /** When no '<' follows a "</think>", that occurrence is the last one, so a
      surrogate-free reply yields the stripped text after it. */
  lemma ExtractAfterFinalThink(pre: Str, post: Str)
    requires NoSurrogates(pre + ThinkClose + post)
    requires LessThan !in post
    ensures ExtractPostContent(pre + ThinkClose + post) == Strip(post)
  {
    var reply := pre + ThinkClose + post;
    var p := |pre|;
    CleanSurrogatesKeeps(reply);
    assert reply[p..p + |ThinkClose|] == ThinkClose;
    assert forall j :: 0 < j < |ThinkClose| ==> ThinkClose[j] != LessThan;
    forall k | p < k ensures !OccursAt(reply, ThinkClose, k) {
      if k + |ThinkClose| <= |reply| {
        assert reply[k..k + |ThinkClose|][0] == reply[k];
        if k < p + |ThinkClose| {
          assert reply[k] == ThinkClose[k - p];
        } else {
          assert reply[k] == post[k - p - |ThinkClose|];
        }
      }
    }
    ExtractAfterLastThink(reply, p);
    assert reply[p + |ThinkClose|..] == post;
  }

  /** The reasoning before "</think>" is dropped: the reply
      "<think>reasoning...</think>Final post text" yields "Final post text". */
  lemma ThinkExample()
    ensures ExtractPostContent(CodePoints("<think>reasoning...") + ThinkClose + CodePoints("Final post text"))
         == CodePoints("Final post text")
  {
    var pre, post := CodePoints("<think>reasoning..."), CodePoints("Final post text");
    CodePointsNoSurrogates("<think>reasoning...");
    CodePointsNoSurrogates("</think>");
    CodePointsNoSurrogates("Final post text");
    NoSurrogatesConcat(pre, ThinkClose);
    NoSurrogatesConcat(pre + ThinkClose, post);
    FinalPostText();
    ExtractAfterFinalThink(pre, post);
  }

  /** "Final post text" holds no '<' and no surrounding whitespace. */
  lemma FinalPostText()
    ensures var post := CodePoints("Final post text");
      LessThan !in post && Strip(post) == post
  {
    var post := CodePoints("Final post text");
    assert forall j :: 0 <= j < |post| ==> post[j] != LessThan;
    StripExact(post, 0, |post|);
    assert post[0..|post|] == post;
  }

  /** "</think>" is itself a tag span, so text without tag spans never
      holds it. */
  lemma NoTagSpanNoThink(r: Str)
    requires NoTagSpan(r)
    ensures !Contains(r, ThinkClose)
  {
    assert ThinkClose[0] == LessThan && ThinkClose[1] != GreaterThan && ThinkClose[7] == GreaterThan;
    forall k | 0 <= k && k + |ThinkClose| <= |r|
      ensures !OccursAt(r, ThinkClose, k)
    {
      assert r[k..k + |ThinkClose|][0] == r[k];
      assert r[k..k + |ThinkClose|][1] == r[k + 1];
      assert r[k..k + |ThinkClose|][7] == r[k + 7];
      assert r[k + 1..][6] == r[k + 7];
    }
  }

  /** A reply without "</think>" is cleaned to text on which a second pass of
      `extract_post_content` changes nothing. */
  lemma ExtractPlainIdempotent(reply: Str)
    requires !Contains(CleanSurrogates(reply), ThinkClose)
    ensures ExtractPostContent(ExtractPostContent(reply)) == ExtractPostContent(reply)
  {
    var c := CleanSurrogates(reply);
    var kept := RemoveTags(c);
    var r := Strip(kept);
    assert ExtractPostContent(reply) == r;
    NoTagSpanStrip(kept);
    CleanSurrogatesKeeps(r);
    NoTagSpanNoThink(r);
    RemoveTagsKeeps(r);
    StripIdempotent(kept);
    assert ExtractPostContent(r) == Strip(RemoveTags(r));
  }

  // ---------------------------------------------------------------------
  // The examples section of the prompt (`build_prompt`)
  // ---------------------------------------------------------------------

  /** `str(n)` for a natural number: its decimal digits. */
  function Decimal(n: nat): (s: Str)
    ensures s != []
    ensures forall i :: 0 <= i < |s| ==> 0x30 <= s[i] <= 0x39
    ensures 0 < n ==> s[0] != 0x30
    decreases n
  {
    if n < 10 then [0x30 + n] else Decimal(n / 10) + [0x30 + n % 10]
  }

  /** The number a string of decimal digits denotes. */
  function DecimalValue(s: Str): int
  {
    if s == [] then 0 else DecimalValue(s[..|s| - 1]) * 10 + (s[|s| - 1] - 0x30)
  }

  /** Reading the digits back gives the number: the example numbering is
      unambiguous. */
  lemma {:induction false} DecimalRoundTrip(n: nat)
    ensures DecimalValue(Decimal(n)) == n
    decreases n
  {
    if n >= 10 {
      DecimalRoundTrip(n / 10);
      var s := Decimal(n);
      assert s[..|s| - 1] == Decimal(n / 10);
    } else {
      assert [0x30 + n][..0] == [];
    }
  }

  const ExamplesHeader: Str := CodePoints("Here are some example posts for reference:\n\n")

  const ExamplePrefix: Str := CodePoints("Example ")

  /** `f"Example {i}:\n{text}\n\n"`: the prefix, the number, a colon and a
      newline, the text and two newlines. */
  function ExampleBlock(i: nat, text: Str): (b: Str)
    ensures |ExamplePrefix| + |Decimal(i)| + |text| + 4 == |b|
  {
    ExamplePrefix + Decimal(i) + CodePoints(":\n") + text + CodePoints("\n\n")
  }

  /** A block starts with "Example ", then the number in decimal, and holds
      the text just before its two closing newlines. */
  lemma ExampleBlockShape(i: nat, text: Str)
    ensures var b := ExampleBlock(i, text);
      && b[..|ExamplePrefix|] == ExamplePrefix
      && b[|ExamplePrefix|..|ExamplePrefix| + |Decimal(i)|] == Decimal(i)
      && b[|b| - |text| - 2..|b| - 2] == text
  {
    var b := ExampleBlock(i, text);
    var head, digits, tail := ExamplePrefix, Decimal(i), CodePoints("\n\n");
    var rest := digits + CodePoints(":\n") + text;
    assert |tail| == 2;
    assert b == head + rest + tail;
    assert b[..|head|] == head;
    assert b[|head|..|b| - 2] == rest;
    assert rest[..|digits|] == digits;
    assert rest[|rest| - |text|..] == text;
  }

  /** The blocks of the texts, numbered from 1 in order; there are none
      exactly when there are no texts. */
  function ExampleBlocks(texts: seq<Str>): (r: Str)
    ensures r == [] <==> texts == []
  {
    if texts == [] then []
    else ExampleBlocks(texts[..|texts| - 1]) + ExampleBlock(|texts|, texts[|texts| - 1])
  }

  /** The examples section: empty when there are no examples, and otherwise
      the header followed by the numbered blocks. */
  function ExamplesText(texts: seq<Str>): (r: Str)
    ensures r == [] <==> texts == []
    ensures texts != [] ==> |ExamplesHeader| <= |r| && r[..|ExamplesHeader|] == ExamplesHeader
  {
    if texts == [] then [] else ExamplesHeader + ExampleBlocks(texts)
  }

  /** The blocks of the first `m` texts come first. */
  lemma {:induction false} ExampleBlocksPrefix(texts: seq<Str>, m: nat)
    requires m <= |texts|
    ensures ExampleBlocks(texts[..m]) <= ExampleBlocks(texts)
    decreases |texts|
  {
    if m < |texts| {
      var pre := texts[..|texts| - 1];
      ExampleBlocksPrefix(pre, m);
      assert pre[..m] == texts[..m];
    } else {
      assert texts[..m] == texts;
    }
  }

  /** Adding one more text adds its block at the end. */
  lemma ExampleBlocksSnoc(texts: seq<Str>, i: nat)
    requires i < |texts|
    ensures ExampleBlocks(texts[..i + 1]) == ExampleBlocks(texts[..i]) + ExampleBlock(i + 1, texts[i])
  {
    assert texts[..i + 1][..i] == texts[..i];
  }

  /** One more block after the header and the blocks before it. */
  lemma ExamplesStep(texts: seq<Str>, i: nat)
    requires i < |texts|
    ensures ExamplesHeader + ExampleBlocks(texts[..i]) + ExampleBlock(i + 1, texts[i])
         == ExamplesHeader + ExampleBlocks(texts[..i + 1])
  {
    ExampleBlocksSnoc(texts, i);
  }

  lemma PieceAt(h: Str, all: Str, pre: Str, b: Str)
    requires pre + b <= all
    ensures |h| + |pre| + |b| <= |h + all|
    ensures (h + all)[|h| + |pre|..|h| + |pre| + |b|] == b
  {
    assert all[|pre|..|pre| + |b|] == (pre + b)[|pre|..];
  }

  /** Block `i + 1` of the section holds the `i`-th text and directly follows
      the header and the blocks before it. */
  lemma ExampleBlockAt(texts: seq<Str>, i: nat)
    requires i < |texts|
    ensures var off := |ExamplesHeader| + |ExampleBlocks(texts[..i])|;
      var b := ExampleBlock(i + 1, texts[i]);
      off + |b| <= |ExamplesText(texts)| && ExamplesText(texts)[off..off + |b|] == b
  {
    var pre := ExampleBlocks(texts[..i]);
    var b := ExampleBlock(i + 1, texts[i]);
    var all := ExampleBlocks(texts);
    assert pre + b <= all by {
      ExampleBlocksSnoc(texts, i);
      ExampleBlocksPrefix(texts, i + 1);
    }
    assert ExamplesText(texts) == ExamplesHeader + all;
    PieceAt(ExamplesHeader, all, pre, b);
  }

  /** A post record whose `text` field is a string. */
  predicate HasText(p: Post) {
    TextKey in p && p[TextKey].VStr?
  }

  /** Every post of the list has a string `text` field. */
  predicate AllHaveText(posts: seq<Post>) {
    forall i :: 0 <= i < |posts| ==> HasText(posts[i])
  }

  /** `post['text']`. */
  function TextOf(p: Post): Str
    requires HasText(p)
  {
    p[TextKey].s
  }

  /** `post['text']` for each example. */
  function Texts(posts: seq<Post>): (texts: seq<Str>)
    requires AllHaveText(posts)
    ensures |texts| == |posts|
    ensures forall i :: 0 <= i < |posts| ==> texts[i] == TextOf(posts[i])
  {
    if posts == [] then []
    else Texts(posts[..|posts| - 1]) + [TextOf(posts[|posts| - 1])]
  }

  /** The loop of `build_prompt` that accumulates the examples section. */
  method ExamplesSection(examples: seq<Post>) returns (section: Str)
    requires AllHaveText(examples)
    ensures section == ExamplesText(Texts(examples))
  {
    section := [];
    if examples != [] {
      section := ExamplesHeader;
      ghost var texts := Texts(examples);
      var i := 0;
      while i < |examples|
        invariant 0 <= i <= |examples|
        invariant section == ExamplesHeader + ExampleBlocks(texts[..i])
      {
        var post := examples[i];
        ExamplesStep(texts, i);
        section := section + ExampleBlock(i + 1, TextOf(post));
        i := i + 1;
      }
      assert texts[..|examples|] == texts;
    }
  }

  // ---------------------------------------------------------------------
  // Prompt and generation: `build_prompt`, `generate_post`
  // ---------------------------------------------------------------------

  /** The values `build_prompt` fills into its fixed template. */
  datatype PromptSlots = PromptSlots(tag: Str, lengthStr: Str, language: Str, tone: Str, examplesSection: Str)

  /** At most this many examples go into a prompt (the default `limit`). */
  const ExampleLimit: int := 3

  /** The slots for the given examples. */
  function PromptFor(examples: seq<Post>, length: Str, language: Str, tag: Str, tone: Str): (slots: PromptSlots)
    requires AllHaveText(examples)
    ensures slots.examplesSection == [] <==> examples == []
  {
    PromptSlots(tag, LengthDescription(length), language, tone, ExamplesText(Texts(examples)))
  }

  /** `build_prompt`: looks up at most three examples in the index and fills
      the slots; the examples section is empty when none match. */
  method BuildPrompt(index: FewShotPosts, length: Str, language: Str, tag: Str, tone: Str)
    returns (prompt: PromptSlots)
    requires index.Valid()
    ensures AllHaveText(index.GetFilteredPosts(length, language, tag, ExampleLimit))
    ensures prompt == PromptFor(index.GetFilteredPosts(length, language, tag, ExampleLimit), length, language, tag, tone)
  {
    var lengthStr := LengthDescription(length);
    var examples := index.GetFilteredPosts(length, language, tag, ExampleLimit);
    forall i | 0 <= i < |examples| ensures HasText(examples[i]) {
      assert examples[i] in examples;
    }
    var examplesSection := ExamplesSection(examples);
    prompt := PromptSlots(tag, lengthStr, language, tone, examplesSection);
  }

  /** The fixed reply of `generate_post` when the call fails. It is written
      as two literals joined so that the verifier can read off both its first
      and its last code point; the text is the source's single literal. */
  const Apology: Str :=
    CodePoints("Sorry, there was an error ") + CodePoints("generating your post. Please try again.")

  lemma ApologyIsClean()
    ensures NoSurrogates(Apology) && Trimmed(Apology)
  {
  }

  /** What `generate_post` returns for the model's answer: the fixed apology
      when the call failed, the cleaned reply otherwise. */
  function PostFromReply(reply: LlmReply): (post: Str)
    ensures reply.CallFailed? ==> post == Apology
    ensures reply.Reply? ==> post == ExtractPostContent(reply.content)
  {
    match reply
    case CallFailed => Apology
    case Reply(content) => ExtractPostContent(content)
  }

  /** `generate_post`: never fails; the model is the oracle `llm`. The post
      has no surrogates and nothing to strip at either end, whether it is the
      apology or a cleaned reply. */
  method GeneratePost(index: FewShotPosts, length: Str, language: Str, tag: Str, tone: Str,
                      llm: PromptSlots -> LlmReply)
    returns (post: Str)
    requires index.Valid()
    ensures AllHaveText(index.GetFilteredPosts(length, language, tag, ExampleLimit))
    ensures post == PostFromReply(llm(PromptFor(index.GetFilteredPosts(length, language, tag, ExampleLimit), length, language, tag, tone)))
    ensures NoSurrogates(post) && Trimmed(post)
  {
    var prompt := BuildPrompt(index, length, language, tag, tone);
    var reply := llm(prompt);
    match reply
    case CallFailed =>
      post := Apology;
      ApologyIsClean();
    case Reply(content) =>
      post := ExtractPostContent(content);
  }
}
