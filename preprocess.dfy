/** The offline enrichment of raw posts (`preprocess.py`): each post gets
    the metadata the model extracts from its text, the tags of all posts are
    unified through a mapping the model proposes, and surrogates are removed
    from the texts. The model and the JSON parser are oracles passed in as
    functions. */
module Preprocess {
  import opened Wrappers
  import opened Text
  import opened Records

  /** Why `process_post` stops: a `KeyError` on a missing field, a
      `TypeError` on a value of the wrong kind, or a failed model call. */
  datatype PreprocessError = MissingKey(key: Str) | NotAString | NotIterable | LlmFailed

  // ---------------------------------------------------------------------
  // Applying a step that may fail to every post in order
  // ---------------------------------------------------------------------

  /** A loop over the posts that applies `step` to each and stops at the
      first failure. */
  function ApplyAll(posts: seq<Post>, step: Post -> Result<Post, PreprocessError>): (r: Result<seq<Post>, PreprocessError>)
    ensures r.Ok? ==> |r.value| == |posts|
  {
    if posts == [] then Ok([])
    else
      match ApplyAll(posts[..|posts| - 1], step)
      case Err(e) => Err(e)
      case Ok(done) =>
        match step(posts[|posts| - 1])
        case Err(e) => Err(e)
        case Ok(p) => Ok(done + [p])
  }

  /** The loop succeeds exactly when every step does, and then gives each
      post's result in order. */
  lemma {:induction false} ApplyAllOk(posts: seq<Post>, step: Post -> Result<Post, PreprocessError>)
    ensures ApplyAll(posts, step).Ok? <==> forall i :: 0 <= i < |posts| ==> step(posts[i]).Ok?
    ensures ApplyAll(posts, step).Ok? ==>
      forall i :: 0 <= i < |posts| ==> step(posts[i]) == Ok(ApplyAll(posts, step).value[i])
  {
    if posts != [] {
      var pre := posts[..|posts| - 1];
      ApplyAllOk(pre, step);
      assert forall k :: 0 <= k < |pre| ==> pre[k] == posts[k];
    }
  }

  /** A failing loop fails with the error of a post whose predecessors all
      succeed. */
  lemma {:induction false} ApplyAllErr(posts: seq<Post>, step: Post -> Result<Post, PreprocessError>)
    requires ApplyAll(posts, step).Err?
    ensures exists i :: (0 <= i < |posts| && step(posts[i]) == Err(ApplyAll(posts, step).error)
      && forall k :: 0 <= k < i ==> step(posts[k]).Ok?)
  {
    var n := |posts|;
    var pre := posts[..n - 1];
    assert forall k :: 0 <= k < |pre| ==> pre[k] == posts[k];
    if ApplyAll(pre, step).Err? {
      ApplyAllErr(pre, step);
      var i :| 0 <= i < |pre| && step(pre[i]) == Err(ApplyAll(pre, step).error)
        && forall k :: 0 <= k < i ==> step(pre[k]).Ok?;
      assert step(posts[i]) == Err(ApplyAll(posts, step).error);
    } else {
      ApplyAllOk(pre, step);
      assert step(posts[n - 1]) == Err(ApplyAll(posts, step).error);
    }
  }

  // ---------------------------------------------------------------------
  // Enrichment: `extract_metadata` and `post | metadata`
  // ---------------------------------------------------------------------

  /** `post | metadata`: every key of either; metadata wins on a clash. */
  function Merge(post: Post, metadata: Post): (r: Post)
    ensures r.Keys == post.Keys + metadata.Keys
    ensures forall k :: k in metadata ==> r[k] == metadata[k]
    ensures forall k :: k in post && k !in metadata ==> r[k] == post[k]
  {
    post + metadata
  }

  /** `extract_metadata(text)`: the model sees the text without surrogates
      (a non-string text makes the regex raise); a reply the parser rejects
      gives no metadata. */
  function ExtractMetadata(text: Value, llm: Str -> LlmReply, parse: Str -> Option<Post>): (r: Result<Post, PreprocessError>)
    ensures !text.VStr? ==> r == Err(NotAString)
    ensures text.VStr? && llm(CleanSurrogates(text.s)).CallFailed? ==> r == Err(LlmFailed)
    ensures text.VStr? && llm(CleanSurrogates(text.s)).Reply? ==>
      r == Ok(parse(llm(CleanSurrogates(text.s)).content).GetOr(map[]))
  {
    match text
    case VStr(s) =>
      (match llm(CleanSurrogates(s))
       case CallFailed => Err(LlmFailed)
       case Reply(content) => Ok(parse(content).GetOr(map[])))
    case _ => Err(NotAString)
  }

  /** The body of the first loop of `process_post` for one post: a missing
      `text` is a KeyError, a failed extraction passes its error on, and
      otherwise the extracted metadata is merged over the post. */
  function Enrich(post: Post, llm: Str -> LlmReply, parse: Str -> Option<Post>): (r: Result<Post, PreprocessError>)
    ensures TextKey !in post ==> r == Err(MissingKey(TextKey))
    ensures r.Ok? <==> TextKey in post && ExtractMetadata(post[TextKey], llm, parse).Ok?
    ensures TextKey in post && ExtractMetadata(post[TextKey], llm, parse).Err? ==>
      r == Err(ExtractMetadata(post[TextKey], llm, parse).error)
    ensures r.Ok? ==> r.value == Merge(post, ExtractMetadata(post[TextKey], llm, parse).value)
    ensures r.Ok? ==> post.Keys <= r.value.Keys
  {
    match Lookup(post, TextKey)
    case None => Err(MissingKey(TextKey))
    case Some(text) =>
      match ExtractMetadata(text, llm, parse)
      case Err(e) => Err(e)
      case Ok(metadata) => Ok(Merge(post, metadata))
  }

  /** The first loop of `process_post`: enrich every post, in order. */
  method EnrichPosts(posts: seq<Post>, llm: Str -> LlmReply, parse: Str -> Option<Post>)
    returns (res: Result<seq<Post>, PreprocessError>)
    ensures res == ApplyAll(posts, p => Enrich(p, llm, parse))
  {
    ghost var step := p => Enrich(p, llm, parse);
    var enriched: seq<Post> := [];
    var i := 0;
    while i < |posts|
      invariant 0 <= i <= |posts|
      invariant ApplyAll(posts[..i], step) == Ok(enriched)
    {
      var post := posts[i];
      assert posts[..i + 1][..i] == posts[..i];
      if TextKey !in post {
        AllOkBefore(posts, i, step);
        return Err(MissingKey(TextKey));
      }
      var metadata := ExtractMetadata(post[TextKey], llm, parse);
      if metadata.Err? {
        AllOkBefore(posts, i, step);
        return Err(metadata.error);
      }
      enriched := enriched + [Merge(post, metadata.value)];
      i := i + 1;
    }
    assert posts[..|posts|] == posts;
    res := Ok(enriched);
  }

  /** When the posts before `i` all succeed and post `i` fails, the whole
      loop fails with that error. */
  lemma {:induction false} AllOkBefore(posts: seq<Post>, i: nat, step: Post -> Result<Post, PreprocessError>)
    requires i < |posts| && ApplyAll(posts[..i], step).Ok? && step(posts[i]).Err?
    ensures ApplyAll(posts, step) == Err(step(posts[i]).error)
  {
    var pre := posts[..|posts| - 1];
    if |posts| == i + 1 {
      assert pre == posts[..i];
    } else {
      assert pre[..i] == posts[..i] && pre[i] == posts[i];
      AllOkBefore(pre, i, step);
    }
  }

  // ---------------------------------------------------------------------
  // Tag collection: `get_unified_tags`
  // ---------------------------------------------------------------------

  /** What iterating over a `tags` value yields: the elements of a list, the
      one-code-point strings of a string; anything else is not iterable
      here. */
  function TagSeq(v: Value): (r: Option<seq<Str>>)
    ensures v.VList? ==> r == Some(v.items)
    ensures v.VStr? ==> r.Some? && |r.value| == |v.s| && forall i :: 0 <= i < |v.s| ==> r.value[i] == [v.s[i]]
    ensures !v.VList? && !v.VStr? ==> r.None?
  {
    match v
    case VList(items) => Some(items)
    case VStr(s) => Some(seq(|s|, i requires 0 <= i < |s| => [s[i]]))
    case _ => None
  }

  /** `post['tags']` as the set of what iterating over it yields. */
  function PostTags(post: Post): (r: Result<set<Str>, PreprocessError>)
    ensures TagsKey !in post ==> r == Err(MissingKey(TagsKey))
    ensures r.Ok? ==> (TagsKey in post && TagSeq(post[TagsKey]).Some?
      && r.value == set t | t in TagSeq(post[TagsKey]).value)
  {
    match Lookup(post, TagsKey)
    case None => Err(MissingKey(TagsKey))
    case Some(v) =>
      match TagSeq(v)
      case None => Err(NotIterable)
      case Some(items) => Ok(set t | t in items)
  }

  /** The union the tag loop of `get_unified_tags` builds, stopping at the
      first post whose tags are missing or not iterable. */
  function CollectTags(posts: seq<Post>): (r: Result<set<Str>, PreprocessError>)
    ensures posts == [] ==> r == Ok({})
  {
    if posts == [] then Ok({})
    else
      match CollectTags(posts[..|posts| - 1])
      case Err(e) => Err(e)
      case Ok(acc) =>
        match PostTags(posts[|posts| - 1])
        case Err(e) => Err(e)
        case Ok(tags) => Ok(acc + tags)
  }

  /** The loop succeeds exactly when every post's tags can be read, and then
      holds exactly the tags of some post. */
  lemma {:induction false} CollectTagsOk(posts: seq<Post>)
    ensures CollectTags(posts).Ok? <==> forall i :: 0 <= i < |posts| ==> PostTags(posts[i]).Ok?
    ensures CollectTags(posts).Ok? ==> forall t :: t in CollectTags(posts).value <==>
      exists i :: 0 <= i < |posts| && t in PostTags(posts[i]).value
  {
    if posts != [] {
      var pre := posts[..|posts| - 1];
      CollectTagsOk(pre);
      assert forall k :: 0 <= k < |pre| ==> pre[k] == posts[k];
    }
  }

  /** A failing loop fails with the error of a post whose predecessors' tags
      could all be read. */
  lemma {:induction false} CollectTagsErr(posts: seq<Post>)
    requires CollectTags(posts).Err?
    ensures exists i :: (0 <= i < |posts| && PostTags(posts[i]) == Err(CollectTags(posts).error)
      && forall k :: 0 <= k < i ==> PostTags(posts[k]).Ok?)
  {
    var n := |posts|;
    var pre := posts[..n - 1];
    assert forall k :: 0 <= k < |pre| ==> pre[k] == posts[k];
    if CollectTags(pre).Err? {
      CollectTagsErr(pre);
      var i :| 0 <= i < |pre| && PostTags(pre[i]) == Err(CollectTags(pre).error)
        && forall k :: 0 <= k < i ==> PostTags(pre[k]).Ok?;
      assert PostTags(posts[i]) == Err(CollectTags(posts).error);
    } else {
      CollectTagsOk(pre);
      assert PostTags(posts[n - 1]) == Err(CollectTags(posts).error);
    }
  }

  // ---------------------------------------------------------------------
  // JSON span: `extract_json_from_response`
  // ---------------------------------------------------------------------

  /** The position of the first `c` in `s`. */
  function FirstIndexOf(s: Str, c: int): (r: Option<nat>)
    ensures r.None? <==> c !in s
    ensures r.Some? ==> r.value < |s| && s[r.value] == c && forall k :: 0 <= k < r.value ==> s[k] != c
  {
    if s == [] then None
    else if s[0] == c then Some(0)
    else
      match FirstIndexOf(s[1..], c)
      case None => None
      case Some(i) => Some(i + 1)
  }

  /** The position of the last `c` in `s`. */
  function LastIndexOf(s: Str, c: int): (r: Option<nat>)
    ensures r.None? <==> c !in s
    ensures r.Some? ==> r.value < |s| && s[r.value] == c && forall k :: r.value < k < |s| ==> s[k] != c
  {
    if s == [] then None
    else if s[|s| - 1] == c then Some(|s| - 1)
    else LastIndexOf(s[..|s| - 1], c)
  }

  /** `re.search(r'\{.*\}', s, re.DOTALL)`: the leftmost match starts at the
      first '{' and, being greedy, ends at the last '}'; there is none when
      no '{' comes before a '}'. */
  function ExtractJson(s: Str): (r: Option<Str>)
    ensures r.None? <==> forall i, j :: 0 <= i < j < |s| ==> !(s[i] == OpenBrace && s[j] == CloseBrace)
    ensures r.Some? ==> 2 <= |r.value| && r.value[0] == OpenBrace && r.value[|r.value| - 1] == CloseBrace
  {
    match (FirstIndexOf(s, OpenBrace), LastIndexOf(s, CloseBrace))
    case (Some(i), Some(j)) => if i < j then Some(s[i..j + 1]) else None
    case _ => None
  }

  /** The match is exactly the piece from the first '{' to the last '}'. */
  lemma ExtractJsonIsSpan(s: Str, i: nat, j: nat)
    requires i < j < |s| && s[i] == OpenBrace && s[j] == CloseBrace
    requires forall k :: 0 <= k < i ==> s[k] != OpenBrace
    requires forall k :: j < k < |s| ==> s[k] != CloseBrace
    ensures ExtractJson(s) == Some(s[i..j + 1])
  {
    var f := FirstIndexOf(s, OpenBrace);
    var l := LastIndexOf(s, CloseBrace);
    assert s[i] in s && s[j] in s;
    assert f.value == i;
    assert l.value == j;
  }

  /** The mapping `get_unified_tags` returns for the model's reply: the
      parsed JSON span, or the empty mapping when there is no span or the
      parser rejects it. */
  function MappingFromReply(content: Str, parse: Str -> Option<map<Str, Str>>): (r: map<Str, Str>)
    ensures ExtractJson(content).None? ==> r == map[]
    ensures ExtractJson(content).Some? ==> r == parse(ExtractJson(content).value).GetOr(map[])
  {
    match ExtractJson(content)
    case None => map[]
    case Some(json) =>
      match parse(json)
      case None => map[]
      case Some(mapping) => mapping
  }

  /** `get_unified_tags` as a whole: the union of the tags, shown to the
      model, and the mapping read from its reply. It fails with the tag
      loop's error, or with the failed call; it succeeds exactly when both
      go through. */
  function UnifiedTags(posts: seq<Post>, llm: set<Str> -> LlmReply, parse: Str -> Option<map<Str, Str>>)
    : (r: Result<map<Str, Str>, PreprocessError>)
    ensures CollectTags(posts).Err? ==> r == Err(CollectTags(posts).error)
    ensures CollectTags(posts).Ok? && llm(CollectTags(posts).value).CallFailed? ==> r == Err(LlmFailed)
    ensures r.Ok? <==> CollectTags(posts).Ok? && llm(CollectTags(posts).value).Reply?
    ensures r.Ok? ==> r.value == MappingFromReply(llm(CollectTags(posts).value).content, parse)
  {
    match CollectTags(posts)
    case Err(e) => Err(e)
    case Ok(tags) =>
      match llm(tags)
      case CallFailed => Err(LlmFailed)
      case Reply(content) => Ok(MappingFromReply(content, parse))
  }

  /** `get_unified_tags`: the set of tags grows post by post, then the model
      is asked once. */
  method GetUnifiedTags(posts: seq<Post>, llm: set<Str> -> LlmReply, parse: Str -> Option<map<Str, Str>>)
    returns (res: Result<map<Str, Str>, PreprocessError>)
    ensures res == UnifiedTags(posts, llm, parse)
  {
    var uniqueTags: set<Str> := {};
    var i := 0;
    while i < |posts|
      invariant 0 <= i <= |posts|
      invariant CollectTags(posts[..i]) == Ok(uniqueTags)
    {
      assert posts[..i + 1][..i] == posts[..i];
      var tags := PostTags(posts[i]);
      if tags.Err? {
        CollectErrBefore(posts, i);
        return Err(tags.error);
      }
      uniqueTags := uniqueTags + tags.value;
      i := i + 1;
    }
    assert posts[..|posts|] == posts;
    match llm(uniqueTags)
    case CallFailed =>
      res := Err(LlmFailed);
    case Reply(content) =>
      res := Ok(MappingFromReply(content, parse));
  }

  /** When the tags of every post before `i` can be read and those of post
      `i` cannot, the whole loop fails with post `i`'s error. */
  lemma {:induction false} CollectErrBefore(posts: seq<Post>, i: nat)
    requires i < |posts| && CollectTags(posts[..i]).Ok? && PostTags(posts[i]).Err?
    ensures CollectTags(posts) == Err(PostTags(posts[i]).error)
  {
    var pre := posts[..|posts| - 1];
    if |posts| == i + 1 {
      assert pre == posts[..i];
    } else {
      assert pre[..i] == posts[..i] && pre[i] == posts[i];
      CollectErrBefore(pre, i);
    }
  }

  // ---------------------------------------------------------------------
  // Tag rewrite: `{unified_tags[tag] for tag in current_tags if tag in unified_tags}`
  // ---------------------------------------------------------------------

  /** The canonical tags of a post: each mapped tag replaced by its image,
      unmapped tags dropped, duplicates merged. */
  function RewriteSet(tags: set<Str>, mapping: map<Str, Str>): (r: set<Str>)
    ensures forall u :: u in r <==> exists t :: t in tags && t in mapping && mapping[t] == u
    ensures mapping == map[] ==> r == {}
  {
    set t | t in tags && t in mapping :: mapping[t]
  }

  lemma SubsetCard(a: set<Str>, b: set<Str>)
    requires a <= b
    ensures |a| <= |b|
  {
    assert b == a + (b - a);
    assert a * (b - a) == {};
  }

  /** There are never more canonical tags than original ones. */
  lemma {:induction false} RewriteSetSize(tags: set<Str>, mapping: map<Str, Str>)
    ensures |RewriteSet(tags, mapping)| <= |tags|
    decreases |tags|
  {
    if tags != {} {
      var t :| t in tags;
      var rest := tags - {t};
      RewriteSetSize(rest, mapping);
      var extra := if t in mapping then {mapping[t]} else {};
      assert RewriteSet(tags, mapping) <= RewriteSet(rest, mapping) + extra;
      SubsetCard(RewriteSet(tags, mapping), RewriteSet(rest, mapping) + extra);
    }
  }

  /** A list has at least as many entries as distinct values. */
  lemma {:induction false} SeqSetSize(xs: seq<Str>)
    ensures |set t | t in xs| <= |xs|
  {
    if xs != [] {
      var pre := xs[..|xs| - 1];
      SeqSetSize(pre);
      assert (set t | t in xs) == (set t | t in pre) + {xs[|xs| - 1]};
    }
  }

  /** The rewritten tags of a post number at most as many as its original
      tags. */
  lemma RewriteCount(v: Value, mapping: map<Str, Str>)
    requires TagSeq(v).Some?
    ensures |RewriteSet((set t | t in TagSeq(v).value), mapping)| <= |TagSeq(v).value|
  {
    RewriteSetSize((set t | t in TagSeq(v).value), mapping);
    SeqSetSize(TagSeq(v).value);
  }

  predicate Distinct(xs: seq<Str>) {
    forall i, j :: 0 <= i < j < |xs| ==> xs[i] != xs[j]
  }

  /** `list(s)`: the elements of a set in an order the model does not fix. */
  method SetToSeq(s: set<Str>) returns (xs: seq<Str>)
    ensures Distinct(xs) && |xs| == |s|
    ensures forall t :: t in xs <==> t in s
  {
    xs := [];
    var rest := s;
    while rest != {}
      invariant rest <= s
      invariant forall t :: t in xs <==> t in s && t !in rest
      invariant Distinct(xs) && |xs| + |rest| == |s|
      decreases |rest|
    {
      var t :| t in rest;
      xs := xs + [t];
      rest := rest - {t};
    }
  }

  /** `after` is `before` with its tags replaced by a list of their
      canonical forms, each listed once. */
  predicate TagsRewritten(before: Post, after: Post, mapping: map<Str, Str>)
    requires PostTags(before).Ok?
  {
    && after.Keys == before.Keys
    && (forall k :: k in before && k != TagsKey ==> after[k] == before[k])
    && after[TagsKey].VList?
    && Distinct(after[TagsKey].items)
    && (set u | u in after[TagsKey].items) == RewriteSet(PostTags(before).value, mapping)
  }

  /** The second loop of `process_post`: every post's tags are rewritten in
      place through the mapping. */
  method RewriteAllTags(posts: seq<Post>, mapping: map<Str, Str>) returns (res: Result<seq<Post>, PreprocessError>)
    ensures res.Ok? <==> forall i :: 0 <= i < |posts| ==> PostTags(posts[i]).Ok?
    ensures res.Ok? ==> (|res.value| == |posts|
      && forall i :: 0 <= i < |posts| ==> TagsRewritten(posts[i], res.value[i], mapping))
    ensures res.Err? ==> exists i :: (0 <= i < |posts| && PostTags(posts[i]) == Err(res.error)
      && forall k :: 0 <= k < i ==> PostTags(posts[k]).Ok?)
  {
    var current := posts;
    var i := 0;
    while i < |posts|
      invariant 0 <= i <= |posts| && |current| == |posts|
      invariant forall k :: 0 <= k < i ==> PostTags(posts[k]).Ok? && TagsRewritten(posts[k], current[k], mapping)
      invariant forall k :: i <= k < |posts| ==> current[k] == posts[k]
    {
      var post := current[i];
      var tags := PostTags(post);
      if tags.Err? {
        return Err(tags.error);
      }
      var newTags := RewriteSet(tags.value, mapping);
      var items := SetToSeq(newTags);
      current := current[i := post[TagsKey := VList(items)]];
      i := i + 1;
    }
    res := Ok(current);
  }

  // ---------------------------------------------------------------------
  // Text clean-up: the third loop of `process_post`
  // ---------------------------------------------------------------------

  /** A post whose `text`, if present, is a string. */
  predicate TextIsString(p: Post)
    ensures TextKey !in p ==> TextIsString(p)
    ensures Lookup(p, TextKey) == Some(VNull) ==> !TextIsString(p)
  {
    TextKey in p ==> p[TextKey].VStr?
  }

  /** `if 'text' in post: post['text'] = clean_surrogates(post['text'])`. */
  function CleanTextField(post: Post): (r: Result<Post, PreprocessError>)
    ensures r.Ok? <==> TextIsString(post)
    ensures r.Err? ==> r.error == NotAString
    ensures TextKey !in post ==> r == Ok(post)
    ensures TextKey in post && !post[TextKey].VStr? ==> r == Err(NotAString)
    ensures r.Ok? ==> r.value.Keys == post.Keys && forall k :: k in post && k != TextKey ==> r.value[k] == post[k]
    ensures r.Ok? && TextKey in post ==> r.value[TextKey] == VStr(CleanSurrogates(post[TextKey].s))
  {
    match Lookup(post, TextKey)
    case None => Ok(post)
    case Some(VStr(s)) => Ok(post[TextKey := VStr(CleanSurrogates(s))])
    case Some(_) => Err(NotAString)
  }

  /** The third loop of `process_post`, rewriting each post in place. */
  method CleanTexts(posts: seq<Post>) returns (res: Result<seq<Post>, PreprocessError>)
    ensures res == ApplyAll(posts, CleanTextField)
  {
    var current := posts;
    var i := 0;
    while i < |posts|
      invariant 0 <= i <= |posts| && |current| == |posts|
      invariant ApplyAll(posts[..i], CleanTextField) == Ok(current[..i])
      invariant forall k :: i <= k < |posts| ==> current[k] == posts[k]
    {
      var post := current[i];
      assert posts[..i + 1][..i] == posts[..i];
      if TextKey in post {
        if !post[TextKey].VStr? {
          AllOkBefore(posts, i, CleanTextField);
          return Err(NotAString);
        }
        post := post[TextKey := VStr(CleanSurrogates(post[TextKey].s))];
      }
      current := current[i := post];
      assert current[..i + 1] == current[..i] + [post];
      i := i + 1;
    }
    assert posts[..|posts|] == posts && current[..|posts|] == current;
    res := Ok(current);
  }

  // ---------------------------------------------------------------------
  // The whole pass: `process_post`
  // ---------------------------------------------------------------------

  /** `process_post` without the file reading and writing: the posts are
      enriched, their tags unified and their texts cleaned; the result is
      what would be written out. It succeeds exactly when the enrichment and
      the unification succeed and every enriched post's `text` is a string;
      otherwise it fails with the error of the first stage that fails. */
  method ProcessPost(posts: seq<Post>,
                     metadataLlm: Str -> LlmReply, parseMetadata: Str -> Option<Post>,
                     tagsLlm: set<Str> -> LlmReply, parseMapping: Str -> Option<map<Str, Str>>)
    returns (res: Result<seq<Post>, PreprocessError>)
    ensures ApplyAll(posts, p => Enrich(p, metadataLlm, parseMetadata)).Err? ==>
      res == Err(ApplyAll(posts, p => Enrich(p, metadataLlm, parseMetadata)).error)
    ensures var enriched := ApplyAll(posts, p => Enrich(p, metadataLlm, parseMetadata));
      enriched.Ok? && UnifiedTags(enriched.value, tagsLlm, parseMapping).Err? ==>
      res == Err(UnifiedTags(enriched.value, tagsLlm, parseMapping).error)
    ensures var enriched := ApplyAll(posts, p => Enrich(p, metadataLlm, parseMetadata));
      res.Ok? <==>
        && enriched.Ok?
        && UnifiedTags(enriched.value, tagsLlm, parseMapping).Ok?
        && forall i :: 0 <= i < |enriched.value| ==> TextIsString(enriched.value[i])
    ensures var enriched := ApplyAll(posts, p => Enrich(p, metadataLlm, parseMetadata));
      enriched.Ok? && UnifiedTags(enriched.value, tagsLlm, parseMapping).Ok? && res.Err? ==>
      res == Err(NotAString)
    ensures res.Ok? ==>
      var enriched := ApplyAll(posts, p => Enrich(p, metadataLlm, parseMetadata));
      && enriched.Ok?
      && UnifiedTags(enriched.value, tagsLlm, parseMapping).Ok?
      && |res.value| == |posts|
      && forall i :: 0 <= i < |posts| ==>
           Processed(enriched.value[i], res.value[i], UnifiedTags(enriched.value, tagsLlm, parseMapping).value)
  {
    var enriched := EnrichPosts(posts, metadataLlm, parseMetadata);
    if enriched.Err? {
      return Err(enriched.error);
    }
    var unified := GetUnifiedTags(enriched.value, tagsLlm, parseMapping);
    if unified.Err? {
      return Err(unified.error);
    }
    // The tags of every post were read while unifying, so the rewrite
    // cannot fail.
    CollectTagsOk(enriched.value);
    var rewritten := RewriteAllTags(enriched.value, unified.value);
    assert rewritten.Ok?;
    res := CleanTexts(rewritten.value);
    CleanStage(enriched.value, rewritten.value, unified.value);
    if res.Ok? {
      ApplyAllOk(rewritten.value, CleanTextField);
      forall i | 0 <= i < |posts|
        ensures Processed(enriched.value[i], res.value[i], unified.value)
      {
        ProcessedStep(enriched.value[i], rewritten.value[i], res.value[i], unified.value);
      }
    }
  }

  /** After the tag rewrite, the text clean-up succeeds exactly when every
      enriched post's `text` is a string, and fails with a TypeError
      otherwise. */
  lemma CleanStage(enriched: seq<Post>, rewritten: seq<Post>, mapping: map<Str, Str>)
    requires |rewritten| == |enriched|
    requires forall i :: 0 <= i < |enriched| ==>
      PostTags(enriched[i]).Ok? && TagsRewritten(enriched[i], rewritten[i], mapping)
    ensures ApplyAll(rewritten, CleanTextField).Ok? <==>
      forall i :: 0 <= i < |enriched| ==> TextIsString(enriched[i])
    ensures ApplyAll(rewritten, CleanTextField).Err? ==> ApplyAll(rewritten, CleanTextField).error == NotAString
  {
    KeysDistinct();
    ApplyAllOk(rewritten, CleanTextField);
    assert forall i :: 0 <= i < |enriched| ==> (TextIsString(rewritten[i]) <==> TextIsString(enriched[i]));
    if ApplyAll(rewritten, CleanTextField).Err? {
      ApplyAllErr(rewritten, CleanTextField);
    }
  }

  /** Rewriting the tags and then cleaning the text of one post gives a
      processed post. */
  lemma ProcessedStep(enriched: Post, rewritten: Post, out: Post, mapping: map<Str, Str>)
    requires PostTags(enriched).Ok? && TagsRewritten(enriched, rewritten, mapping)
    requires CleanTextField(rewritten) == Ok(out)
    ensures Processed(enriched, out, mapping)
  {
    KeysDistinct();
  }

  /** What `process_post` writes for one enriched post: its tags are
      canonical and listed once, its text (if any) is free of surrogates,
      and every other field is as enriched. */
  predicate Processed(enriched: Post, out: Post, mapping: map<Str, Str>) {
    && PostTags(enriched).Ok?
    && out.Keys == enriched.Keys
    && (forall k :: k in enriched && k != TagsKey && k != TextKey ==> out[k] == enriched[k])
    && out[TagsKey].VList?
    && Distinct(out[TagsKey].items)
    && (set u | u in out[TagsKey].items) == RewriteSet(PostTags(enriched).value, mapping)
    && (TextKey in enriched ==> enriched[TextKey].VStr? && out[TextKey] == VStr(CleanSurrogates(enriched[TextKey].s)))
  }
}
