/** Grouping of tags into the six fixed categories of the corpus index
    (`FewShotPosts.categorize_tags`): each tag goes to the first category
    one of whose keywords occurs in it, ignoring case, and to "Other" when
    none does. */
module Categories {
  import opened Wrappers
  import opened Text
  import opened Lists

  datatype Category = Career | MentalHealth | Productivity | Motivation | Scams | Other

  /** The dictionary key under which a category's tags are listed. */
  function Name(c: Category): (r: Str)
    ensures r != []
  {
    match c
    case Career => CodePoints("Career")
    case MentalHealth => CodePoints("Mental Health")
    case Productivity => CodePoints("Productivity")
    case Motivation => CodePoints("Motivation")
    case Scams => CodePoints("Scams")
    case Other => CodePoints("Other")
  }

  /** Different categories are listed under different keys. */
  lemma NameInjective(c: Category, d: Category)
    requires c != d
    ensures Name(c) != Name(d)
  {
    if |Name(c)| == |Name(d)| {
      assert {c, d} == {Scams, Other};
      assert Name(c)[0] != Name(d)[0];
    }
  }

  /** The categories in the order in which they are tried. */
  const CategoryOrder: seq<Category> :=
    [Career, MentalHealth, Productivity, Motivation, Scams, Other]

  /** Where a category stands in `CategoryOrder`. */
  function Rank(c: Category): (k: nat)
    ensures k < |CategoryOrder| && CategoryOrder[k] == c
  {
    match c
    case Career => 0
    case MentalHealth => 1
    case Productivity => 2
    case Motivation => 3
    case Scams => 4
    case Other => 5
  }

  /** The keywords of each category, by position in `CategoryOrder`. */
  const KeywordTable: seq<seq<Str>> := [
    [CodePoints("Job Search"), CodePoints("Career Advice"), CodePoints("Interview Tips")],
    [CodePoints("Mental Health"), CodePoints("Wellbeing"), CodePoints("Work-Life Balance")],
    [CodePoints("Productivity"), CodePoints("Time Management")],
    [CodePoints("Motivation"), CodePoints("Inspiration")],
    [CodePoints("Scams"), CodePoints("Fraud Alerts")],
    []
  ]

  /** `categories[name]`: only "Other" has no keywords, and no category has
      more than three. */
  function Keywords(c: Category): (kws: seq<Str>)
    ensures kws == [] <==> c == Other
    ensures |kws| <= 3
  {
    KeywordTable[Rank(c)]
  }

  /** `any(keyword.lower() in tag.lower() for keyword in keywords)`: false
      for no keywords, so nothing matches "Other". */
  function AnyKeyword(keywords: seq<Str>, tag: Str): (found: bool)
    ensures keywords == [] ==> !found
  {
    if keywords == [] then false
    else KeywordIn(keywords[0], tag) || AnyKeyword(keywords[1..], tag)
  }

  /** `keyword.lower() in tag.lower()`: the lowered keyword starts at some
      position of the lowered tag; an empty keyword is in every tag. */
  predicate KeywordIn(keyword: Str, tag: Str)
    ensures KeywordIn(keyword, tag) <==> exists i :: OccursAt(Lower(tag), Lower(keyword), i)
    ensures keyword == [] ==> KeywordIn(keyword, tag)
  {
    Contains(Lower(tag), Lower(keyword))
  }

  /** The short-circuit scan over the keywords holds exactly when some
      keyword, lower-cased, occurs in the lower-cased tag. */
  lemma {:induction false} AnyKeywordIsSome(keywords: seq<Str>, tag: Str)
    ensures AnyKeyword(keywords, tag) <==>
      exists i :: 0 <= i < |keywords| && Contains(Lower(tag), Lower(keywords[i]))
  {
    if keywords != [] {
      AnyKeywordIsSome(keywords[1..], tag);
      if !Contains(Lower(tag), Lower(keywords[0])) {
        forall i | 1 <= i < |keywords|
          ensures keywords[i] == keywords[1..][i - 1]
        {
        }
      }
    }
  }

  predicate Matches(c: Category, tag: Str) {
    AnyKeyword(Keywords(c), tag)
  }

  /** The first category from position `j` of `CategoryOrder` on that
      matches `tag`, or `Other` when none does. */
  function FirstMatchFrom(tag: Str, j: nat): (c: Category)
    requires j <= |CategoryOrder|
    ensures c == Other || Matches(c, tag)
    decreases |CategoryOrder| - j
  {
    if j == |CategoryOrder| then Other
    else if Matches(CategoryOrder[j], tag) then CategoryOrder[j]
    else FirstMatchFrom(tag, j + 1)
  }

  /** No category between position `j` and the one found matches. */
  lemma {:induction false} FirstMatchFromSkips(tag: Str, j: nat)
    requires j <= |CategoryOrder|
    ensures var c := FirstMatchFrom(tag, j); c == Other || j <= Rank(c)
    ensures forall k :: j <= k < Rank(FirstMatchFrom(tag, j)) ==> !Matches(CategoryOrder[k], tag)
    decreases |CategoryOrder| - j
  {
    if j < |CategoryOrder| {
      if Matches(CategoryOrder[j], tag) {
        RankOfOrder(j);
      } else {
        var c := FirstMatchFrom(tag, j + 1);
        assert FirstMatchFrom(tag, j) == c;
        FirstMatchFromSkips(tag, j + 1);
        forall k | j <= k < Rank(c) ensures !Matches(CategoryOrder[k], tag) {
          if k == j {
            assert !Matches(CategoryOrder[j], tag);
          }
        }
      }
    }
  }

  /** `Rank` and `CategoryOrder` are inverse to each other. */
  lemma RankOfOrder(j: nat)
    requires j < |CategoryOrder|
    ensures Rank(CategoryOrder[j]) == j
  {
  }

  /** The category `categorize_tags` lists a tag under. */
  function CategoryOf(tag: Str): (c: Category)
    ensures c == Other || Matches(c, tag)
  {
    FirstMatchFrom(tag, 0)
  }

  /** The category a tag is listed under is one whose keyword occurs in the
      tag, with no earlier category in `CategoryOrder` matching; it is
      "Other" exactly when no category matches at all. */
  lemma CategoryOfIsFirstMatch(tag: Str)
    ensures CategoryOf(tag) != Other ==> Matches(CategoryOf(tag), tag)
    ensures forall k :: 0 <= k < Rank(CategoryOf(tag)) ==> !Matches(CategoryOrder[k], tag)
    ensures CategoryOf(tag) == Other <==> forall d :: !Matches(d, tag)
  {
    FirstMatchFromSkips(tag, 0);
    var c := FirstMatchFrom(tag, 0);
    if c == Other {
      forall d ensures !Matches(d, tag) {
        assert Rank(d) < Rank(Other) || d == Other;
      }
    }
  }

  /** The tags of `tags` that `category` puts in `c`, in input order. */
  function InCategory(tags: seq<Str>, c: Category, category: Str -> Category): (r: seq<Str>)
  {
    Filter(tags, t => category(t) == c)
  }

  /** The dictionary `categorize_tags` builds, one tag at a time in input
      order: the tag is appended to the list of its category (given by
      `category`, which is `CategoryOf` in the source), which is created
      empty first when the category has no entry yet. */
  function Categorized(tags: seq<Str>, category: Str -> Category): (m: map<Category, seq<Str>>)
    ensures m == map[] <==> tags == []
    ensures tags != [] ==> category(tags[|tags| - 1]) in m
  {
    if tags == [] then map[]
    else
      var t := tags[|tags| - 1];
      AppendTo(Categorized(tags[..|tags| - 1], category), category(t), t)
  }

  /** The dictionary with the category names as its keys, as
      `categorize_tags` returns it: the name of a category is a key exactly
      when the category has an entry, and it holds that entry. Names are
      distinct, so no two entries share a key. */
  function ByName(m: map<Category, seq<Str>>): (d: map<Str, seq<Str>>)
    ensures forall c :: c in m <==> Name(c) in d
    ensures forall c :: c in m ==> d[Name(c)] == m[c]
    ensures forall k :: k in d ==> exists c :: c in m && Name(c) == k
  {
    forall c, e | c != e ensures Name(c) != Name(e) {
      NameInjective(c, e);
    }
    map c | c in m :: Name(c) := m[c]
  }

  /** The dictionary has one key per category with an entry. */
  lemma ByNameSize(m: map<Category, seq<Str>>)
    ensures |ByName(m)| == |m|
  {
    assert ByName(m).Keys == set c | c in m :: Name(c);
    NamesCard(m.Keys);
  }

  /** Distinct categories have distinct names, so a set of categories has as
      many names as members. */
  lemma {:induction false} NamesCard(cs: set<Category>)
    ensures |set c | c in cs :: Name(c)| == |cs|
    decreases |cs|
  {
    if cs != {} {
      var c :| c in cs;
      var rest := cs - {c};
      NamesCard(rest);
      forall e | e in rest ensures Name(e) != Name(c) {
        NameInjective(e, c);
      }
      assert (set e | e in cs :: Name(e)) == (set e | e in rest :: Name(e)) + {Name(c)};
    }
  }

  /** `categorized[c].append(t)`, after creating an empty list for `c` when
      there is none. */
  function AppendTo(m: map<Category, seq<Str>>, c: Category, t: Str): (r: map<Category, seq<Str>>)
  {
    m[c := (if c in m then m[c] else []) + [t]]
  }

  /** The grouping of `categorize_tags`: a category has an entry exactly when
      some tag belongs to it, and its entry lists exactly the tags that belong
      to it, in input order (so it is never empty). */
  lemma {:induction false} CategorizedIsGrouping(tags: seq<Str>, category: Str -> Category)
    ensures forall c :: c in Categorized(tags, category) <==> exists i :: 0 <= i < |tags| && category(tags[i]) == c
    ensures forall c :: c in Categorized(tags, category) ==> Categorized(tags, category)[c] == InCategory(tags, c, category)
    ensures forall c :: c in Categorized(tags, category) ==> Categorized(tags, category)[c] != []
  {
    if tags != [] {
      var pre := tags[..|tags| - 1];
      var t := tags[|tags| - 1];
      var m := Categorized(tags, category);
      var m0 := Categorized(pre, category);
      CategorizedIsGrouping(pre, category);
      forall c ensures c in m <==> exists i :: 0 <= i < |tags| && category(tags[i]) == c {
        if c in m0 {
          var i :| 0 <= i < |pre| && category(pre[i]) == c;
          assert tags[i] == pre[i];
        }
        if exists i :: 0 <= i < |tags| && category(tags[i]) == c {
          var i :| 0 <= i < |tags| && category(tags[i]) == c;
          if i < |pre| {
            assert pre[i] == tags[i];
          }
        }
      }
      forall c | c in m ensures m[c] == InCategory(tags, c, category) {
        if c !in m0 && c == category(t) {
          FilterNone(pre, u => category(u) == c);
        }
      }
      forall c | c in m ensures m[c] != [] {
        var i :| 0 <= i < |tags| && category(tags[i]) == c;
        FilterMembers(tags, u => category(u) == c);
        assert tags[i] in InCategory(tags, c, category);
      }
    }
  }

  /** No list is empty, and every listed tag is one of the input tags,
      listed under its own category. */
  lemma CategorizedMembers(tags: seq<Str>, category: Str -> Category)
    ensures forall c :: c in Categorized(tags, category) ==>
      Categorized(tags, category)[c] != [] &&
      forall t :: t in Categorized(tags, category)[c] ==> t in tags && category(t) == c
  {
    CategorizedIsGrouping(tags, category);
    forall c | c in Categorized(tags, category)
      ensures forall t :: t in Categorized(tags, category)[c] ==> t in tags && category(t) == c
    {
      FilterMembers(tags, u => category(u) == c);
    }
  }

  /** The lists form an exact partition of the input: every occurrence of a
      tag is counted once, in the list of its own category, and in no other. */
  lemma InCategoryCounts(tags: seq<Str>, c: Category, category: Str -> Category, t: Str)
    ensures multiset(InCategory(tags, c, category))[t] == if category(t) == c then multiset(tags)[t] else 0
  {
    FilterCounts(tags, u => category(u) == c, t);
  }

  /** One more tag is appended to the list of its category. */
  lemma CategorizedStep(tags: seq<Str>, i: nat, category: Str -> Category)
    requires i < |tags|
    ensures Categorized(tags[..i + 1], category) == AppendTo(Categorized(tags[..i], category), category(tags[i]), tags[i])
  {
    assert tags[..i + 1][..i] == tags[..i];
  }

  /** `if category not in categorized: categorized[category] = []`, then
      `categorized[category].append(tag)`. */
  method AppendEntry(categorized: map<Category, seq<Str>>, category: Category, tag: Str)
    returns (updated: map<Category, seq<Str>>)
    ensures updated == AppendTo(categorized, category, tag)
  {
    updated := categorized;
    if category !in updated {
      updated := updated[category := []];
    }
    updated := updated[category := updated[category] + [tag]];
  }

  /** The body of the outer loop of `categorize_tags` for one tag: try the
      categories in order, append the tag to the first match and stop; when
      none matched, append it to "Other". */
  method PlaceTag(categorized: map<Category, seq<Str>>, tag: Str) returns (updated: map<Category, seq<Str>>)
    ensures updated == AppendTo(categorized, CategoryOf(tag), tag)
  {
    var j := 0;
    while j < |CategoryOrder|
      invariant 0 <= j <= |CategoryOrder|
      invariant FirstMatchFrom(tag, j) == CategoryOf(tag)
    {
      var category := CategoryOrder[j];
      if AnyKeyword(Keywords(category), tag) {
        updated := AppendEntry(categorized, category, tag);
        return;
      }
      j := j + 1;
    }
    updated := AppendEntry(categorized, Other, tag);
  }

  /** `categorize_tags`: every tag, in input order, is placed in its
      category's list. */
  method CategorizeTags(tags: seq<Str>) returns (categorized: map<Category, seq<Str>>)
    ensures categorized == Categorized(tags, CategoryOf)
  {
    categorized := map[];
    var i := 0;
    while i < |tags|
      invariant 0 <= i <= |tags|
      invariant categorized == Categorized(tags[..i], CategoryOf)
    {
      CategorizedStep(tags, i, CategoryOf);
      categorized := PlaceTag(categorized, tags[i]);
      i := i + 1;
    }
    assert tags[..|tags|] == tags;
  }
}
