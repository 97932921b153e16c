/** The corpus index of example posts (`few_shot.py`, class `FewShotPosts`):
    loading cleans every post's text, buckets its line count into a length,
    derives the sorted set of tags and groups them into categories; lookups
    return the first few posts with a given length, language and tag. */
module FewShot {
  import opened Wrappers
  import opened Text
  import opened Whitespace
  import opened Lists
  import opened Order
  import opened Records
  import opened Categories

  // ---------------------------------------------------------------------
  // Text normalisation: `clean_text`
  // ---------------------------------------------------------------------

  /** What normalised text looks like: no surrogates, nothing to trim, and
      every whitespace a lone ' ' between two other code points. */
  predicate CleanShape(s: Str) {
    NoSurrogates(s) && Trimmed(s) && SingleSpaced(s)
  }

  /** `clean_text`: a value that is not a string becomes ""; a string loses
      its surrogates, then every whitespace run becomes one ' ', and the
      result is stripped. `None` is a missing field (pandas fills it with
      NaN, which is not a string). */
  function CleanText(text: Option<Value>): (r: Str)
    ensures CleanShape(r)
    ensures !(text.Some? && text.value.VStr?) ==> r == []
  {
    match text
    case Some(VStr(s)) =>
      var t := CleanSurrogates(s);
      StripCollapseIsJoin(t);
      WordsValid(t);
      JoinShape(Words(t));
      JoinWordsNoSurrogates(t);
      Strip(CollapseSpaces(t))
    case _ => []
  }

  /** Cleaning a string is the same as splitting the surrogate-free text into
      its words and joining them with single spaces. */
  lemma CleanTextIsJoinedWords(s: Str)
    ensures CleanText(Some(VStr(s))) == Join(Words(CleanSurrogates(s)))
  {
    StripCollapseIsJoin(CleanSurrogates(s));
  }

  /** Cleaning already-cleaned text changes nothing. */
  lemma CleanTextIdempotent(text: Option<Value>)
    ensures CleanText(Some(VStr(CleanText(text)))) == CleanText(text)
  {
    var r := CleanText(text);
    CleanSurrogatesKeeps(r);
    CleanTextIsJoinedWords(r);
    match text
    case Some(VStr(s)) =>
      var ws := Words(CleanSurrogates(s));
      CleanTextIsJoinedWords(s);
      WordsValid(CleanSurrogates(s));
      WordsOfJoin(ws);
    case _ =>
  }

  // ---------------------------------------------------------------------
  // Length buckets: `categorize_length`
  // ---------------------------------------------------------------------

  datatype Length = Short | Medium | Long

  /** The string stored in the `length` column. */
  function LengthName(l: Length): Str {
    match l
    case Short => CodePoints("Short")
    case Medium => CodePoints("Medium")
    case Long => CodePoints("Long")
  }

  /** Different buckets are stored as different strings. */
  lemma LengthNameInjective(a: Length, b: Length)
    requires a != b
    ensures LengthName(a) != LengthName(b)
  {
    assert |LengthName(a)| != |LengthName(b)|;
  }

  /** `categorize_length`: an integer line count below 5 is Short, 5 to 10 is
      Medium, above 10 is Long; anything that is not an integer is Medium. */
  function CategorizeLength(lineCount: Option<Value>): (l: Length)
    ensures lineCount.Some? && lineCount.value.VInt? ==>
      var n := lineCount.value.n;
      (l == Short <==> n < 5) && (l == Medium <==> 5 <= n <= 10) && (l == Long <==> 10 < n)
    ensures !(lineCount.Some? && lineCount.value.VInt?) ==> l == Medium
  {
    match lineCount
    case Some(VInt(n)) =>
      if n < 5 then Short
      else if 5 <= n <= 10 then Medium
      else Long
    case _ => Medium
  }

  // ---------------------------------------------------------------------
  // Rows of the index
  // ---------------------------------------------------------------------

  /** A row of the loaded index: its text is cleaned and it has a length. */
  predicate IsIndexed(p: Post) {
    && TextKey in p && p[TextKey].VStr? && CleanShape(p[TextKey].s)
    && LengthKey in p
    && p[LengthKey] in {VStr(LengthName(Short)), VStr(LengthName(Medium)), VStr(LengthName(Long))}
  }

  /** A post as a row of the index: the `text` column is replaced by its
      cleaned form and a `length` column is added; nothing else changes. */
  function IndexRow(p: Post): (q: Post)
    ensures IsIndexed(q)
    ensures q.Keys == p.Keys + {TextKey, LengthKey}
    ensures forall k :: k in p && k != TextKey && k != LengthKey ==> q[k] == p[k]
    ensures q[TextKey] == VStr(CleanText(Lookup(p, TextKey)))
    ensures q[LengthKey] == VStr(LengthName(CategorizeLength(Lookup(p, LineCountKey))))
  {
    KeysDistinct();
    p[TextKey := VStr(CleanText(Lookup(p, TextKey)))]
     [LengthKey := VStr(LengthName(CategorizeLength(Lookup(p, LineCountKey))))]
  }

  /** The two column assignments, applied to every row. */
  function IndexRows(posts: seq<Post>): (rows: seq<Post>)
    ensures |rows| == |posts|
    ensures forall i :: 0 <= i < |posts| ==> rows[i] == IndexRow(posts[i])
    ensures forall p :: p in rows ==> IsIndexed(p)
  {
    seq(|posts|, i requires 0 <= i < |posts| => IndexRow(posts[i]))
  }

  /** Whether the table built from `posts` has a column `key`: some post
      has that field. */
  predicate HasColumn(posts: seq<Post>, key: Str)
    ensures posts == [] ==> !HasColumn(posts, key)
    ensures posts != [] && key in posts[|posts| - 1] ==> HasColumn(posts, key)
  {
    exists i :: 0 <= i < |posts| && key in posts[i]
  }

  // ---------------------------------------------------------------------
  // Unique tags: `sorted(set(df["tags"].explode().dropna()))`
  // ---------------------------------------------------------------------

  /** What `explode().dropna()` yields for one row: the elements of a list,
      a lone string as itself, nothing for a missing or null value. A tag
      that is not a string stops the load (see `StringTags`), so it never
      gets here. */
  function RowTags(p: Post): (r: seq<Str>)
    ensures TagsKey !in p || p[TagsKey].VNull? ==> r == []
    ensures TagsKey in p && p[TagsKey].VStr? ==> r == [p[TagsKey].s]
    ensures TagsKey in p && p[TagsKey].VList? ==> r == p[TagsKey].items
  {
    match Lookup(p, TagsKey)
    case Some(VList(items)) => items
    case Some(VStr(s)) => [s]
    case _ => []
  }

  /** Whether every tag `explode().dropna()` yields for the row is a string.
      A number, a boolean, a float or a list holding a non-string makes
      `sorted(set(...))` or `tag.lower()` raise. */
  predicate StringTags(p: Post) {
    match Lookup(p, TagsKey)
    case Some(VInt(_)) => false
    case Some(VOther) => false
    case _ => true
  }

  /** Every row's tags are strings. */
  predicate AllStringTags(posts: seq<Post>) {
    forall i :: 0 <= i < |posts| ==> StringTags(posts[i])
  }

  /** `df["tags"].explode().dropna()`: the tags of all rows, row by row. */
  function ExplodedTags(rows: seq<Post>): (r: seq<Str>)
    ensures forall t :: t in r <==> exists i :: 0 <= i < |rows| && t in RowTags(rows[i])
  {
    if rows == [] then []
    else
      var pre := rows[..|rows| - 1];
      var r := ExplodedTags(pre) + RowTags(rows[|rows| - 1]);
      assert forall i :: 0 <= i < |pre| ==> pre[i] == rows[i];
      r
  }

  /** `sorted(set(...))` of all tags: strictly ascending, and holding exactly
      the tags that occur in some row. */
  function UniqueTags(rows: seq<Post>): (r: seq<Str>)
    ensures StrictlyAscending(r)
    ensures forall t :: t in r <==> exists i :: 0 <= i < |rows| && t in RowTags(rows[i])
  {
    SortedSet(ExplodedTags(rows))
  }

  // ---------------------------------------------------------------------
  // Example lookup: `get_filtered_posts`
  // ---------------------------------------------------------------------

  /** `tag in x if isinstance(x, list) else False` for the row's tags. */
  function HasListTag(p: Post, tag: Str): (found: bool)
    ensures found <==> TagsKey in p && p[TagsKey].VList? && tag in p[TagsKey].items
  {
    match Lookup(p, TagsKey)
    case Some(VList(items)) => tag in items
    case _ => false
  }

  /** The boolean mask of `get_filtered_posts` for one row: the length and
      the language are the given strings and the tags list holds `tag`. */
  function Selected(p: Post, length: Str, language: Str, tag: Str): (selected: bool)
    ensures selected <==>
      && LengthKey in p && p[LengthKey] == VStr(length)
      && LanguageKey in p && p[LanguageKey] == VStr(language)
      && HasListTag(p, tag)
  {
    && Lookup(p, LengthKey) == Some(VStr(length))
    && Lookup(p, LanguageKey) == Some(VStr(language))
    && HasListTag(p, tag)
  }

  /** The rows the mask selects, in table order. */
  function Matching(rows: seq<Post>, length: Str, language: Str, tag: Str): (r: seq<Post>)
    ensures |r| <= |rows|
    ensures forall i :: 0 <= i < |r| ==> r[i] in rows && Selected(r[i], length, language, tag)
  {
    var r := Filter(rows, p => Selected(p, length, language, tag));
    FilterMembers(rows, p => Selected(p, length, language, tag));
    r
  }

  /** pandas `head(limit)`: the first `limit` rows; a negative limit keeps
      all rows but the last `-limit`. */
  function Head<T>(xs: seq<T>, limit: int): (r: seq<T>)
    ensures |r| <= |xs| && r == xs[..|r|]
    ensures 0 <= limit ==> |r| == if limit < |xs| then limit else |xs|
    ensures limit < 0 ==> |r| == if -limit < |xs| then |xs| + limit else 0
  {
    if 0 <= limit then xs[..if limit < |xs| then limit else |xs|]
    else xs[..if -limit < |xs| then |xs| + limit else 0]
  }

  /** `get_filtered_posts` on a loaded table: the first `limit` rows whose
      length and language are the given ones and whose tags list holds
      `tag`, in table order; [] when the table lacks a column the mask
      reads (the KeyError the source catches). */
  function FilteredPosts(rows: seq<Post>, length: Str, language: Str, tag: Str, limit: int): (r: seq<Post>)
    ensures !(HasColumn(rows, LengthKey) && HasColumn(rows, LanguageKey) && HasColumn(rows, TagsKey)) ==> r == []
    ensures forall p :: p in r ==> p in rows && Selected(p, length, language, tag)
    ensures |r| <= |Matching(rows, length, language, tag)| && r == Matching(rows, length, language, tag)[..|r|]
    ensures 0 <= limit ==> |r| <= limit
    ensures HasColumn(rows, LengthKey) && HasColumn(rows, LanguageKey) && HasColumn(rows, TagsKey) && 0 <= limit ==>
      |r| == if limit < |Matching(rows, length, language, tag)| then limit else |Matching(rows, length, language, tag)|
  {
    if !(HasColumn(rows, LengthKey) && HasColumn(rows, LanguageKey) && HasColumn(rows, TagsKey)) then []
    else
      var m := Matching(rows, length, language, tag);
      var r := Head(m, limit);
      FilterMembers(rows, p => Selected(p, length, language, tag));
      assert forall p :: p in r ==> p in m;
      r
  }

  /** The selected rows are exactly the rows passing the mask, each with all
      its occurrences: nothing else is returned and nothing passing is
      skipped before the limit is reached. */
  lemma MatchingCounts(rows: seq<Post>, length: Str, language: Str, tag: Str, p: Post)
    ensures multiset(Matching(rows, length, language, tag))[p] ==
      if Selected(p, length, language, tag) then multiset(rows)[p] else 0
  {
    FilterCounts(rows, q => Selected(q, length, language, tag), p);
  }

  // ---------------------------------------------------------------------
  // The index object
  // ---------------------------------------------------------------------

  /** What stops `load_posts`: the KeyError of a missing column, or the
      TypeError (or AttributeError) of a tag that is not a string. Neither
      is caught. */
  datatype LoadError = MissingColumn(column: Str) | NonStringTag

  /** What `load_posts` fails on first: reading `text`, then `line_count`,
      then `tags`, then sorting and categorising the tags. */
  function LoadCheck(posts: seq<Post>): (r: Option<LoadError>)
    ensures r.None? <==>
      HasColumn(posts, TextKey) && HasColumn(posts, LineCountKey) && HasColumn(posts, TagsKey) && AllStringTags(posts)
    ensures r.Some? && r.value.MissingColumn? ==> !HasColumn(posts, r.value.column)
    ensures r == Some(NonStringTag) ==> HasColumn(posts, TagsKey) && !AllStringTags(posts)
  {
    if !HasColumn(posts, TextKey) then Some(MissingColumn(TextKey))
    else if !HasColumn(posts, LineCountKey) then Some(MissingColumn(LineCountKey))
    else if !HasColumn(posts, TagsKey) then Some(MissingColumn(TagsKey))
    else if !AllStringTags(posts) then Some(NonStringTag)
    else None
  }

  class FewShotPosts {
    /** The loaded table, one row per post; `None` before loading. */
    var df: Option<seq<Post>>
    var uniqueTags: Option<seq<Str>>
    var tagCategories: Option<map<Category, seq<Str>>>

    /** The fields agree with the table they were derived from. */
    predicate Valid()
      reads this
    {
      df.Some? ==>
        && (forall p :: p in df.value ==> IsIndexed(p))
        && uniqueTags == Some(UniqueTags(df.value))
        && tagCategories == Some(Categorized(UniqueTags(df.value), CategoryOf))
    }

    /** The fields as `__init__` sets them before it loads the posts. */
    constructor ()
      ensures df.None? && uniqueTags.None? && tagCategories.None?
      ensures Valid()
    {
      df := None;
      uniqueTags := None;
      tagCategories := None;
    }

    /** `load_posts` on the already-parsed posts: on a missing column or a
        tag that is not a string nothing is assigned; otherwise the table,
        the sorted unique tags and their categories are set together.
        On a non-string tag the source has already assigned `unique_tags`
        when `categorize_tags` raises. The object is built only by the
        constructor (post_generator.py:6, app.py:90), which the exception
        leaves, so that partial state is never seen; the model assigns
        nothing instead. */
    method LoadPosts(posts: seq<Post>) returns (err: Option<LoadError>)
      modifies this
      ensures err == LoadCheck(posts)
      ensures err.Some? ==> df == old(df) && uniqueTags == old(uniqueTags) && tagCategories == old(tagCategories)
      ensures err.None? ==>
        && df == Some(IndexRows(posts))
        && uniqueTags == Some(UniqueTags(IndexRows(posts)))
        && tagCategories == Some(Categorized(UniqueTags(IndexRows(posts)), CategoryOf))
      ensures err.None? ==> Valid()
      ensures old(Valid()) ==> Valid()
    {
      err := LoadCheck(posts);
      if err.None? {
        var rows := IndexRows(posts);
        var tags := UniqueTags(rows);
        var categories := CategorizeTags(tags);
        Assign(rows, tags, categories);
      }
    }

    /** The three assignments of a successful load. */
    method Assign(rows: seq<Post>, tags: seq<Str>, categories: map<Category, seq<Str>>)
      modifies this
      ensures df == Some(rows) && uniqueTags == Some(tags) && tagCategories == Some(categories)
    {
      df := Some(rows);
      uniqueTags := Some(tags);
      tagCategories := Some(categories);
    }

    /** `get_unique_tags`: once loaded, strictly ascending. */
    function GetUniqueTags(): (r: Option<seq<Str>>)
      reads this
      ensures Valid() && df.Some? ==> r.Some? && StrictlyAscending(r.value)
    {
      uniqueTags
    }

    /** `get_tag_categories`: once loaded, every listed tag is one of the
        unique tags, listed under its own category, and no list is empty. */
    function GetTagCategories(): (r: Option<map<Category, seq<Str>>>)
      reads this
      ensures Valid() && df.Some? ==> r.Some?
      ensures Valid() && df.Some? ==> forall c :: c in r.value ==>
        r.value[c] != [] && forall t :: t in r.value[c] ==> t in uniqueTags.value && CategoryOf(t) == c
    {
      if Valid() && df.Some? then
        CategorizedMembers(uniqueTags.value, CategoryOf);
        tagCategories
      else tagCategories
    }

    /** `get_filtered_posts`: before loading (the table is `None`, so the
        source's indexing fails) it returns []; otherwise the filtered rows,
        which are rows of the index. */
    function GetFilteredPosts(length: Str, language: Str, tag: Str, limit: int): (r: seq<Post>)
      reads this
      ensures df.None? ==> r == []
      ensures df.Some? ==> r == FilteredPosts(df.value, length, language, tag, limit)
      ensures Valid() ==> forall p :: p in r ==> IsIndexed(p)
    {
      if df.None? then [] else FilteredPosts(df.value, length, language, tag, limit)
    }
  }
}
