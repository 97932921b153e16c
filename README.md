# LinkedIn post generator: a Dafny model of its few-shot pipeline

This project models the three core steps of a small LinkedIn post generator.

- **Preprocessing** (`preprocess.py`). Every raw post is sent to a language model, which extracts metadata: line count, language and tags. The metadata is merged into the post. All tags of the corpus are then unified through a tag-to-canonical-tag mapping that the model proposes. Finally, lone surrogate code points are removed from the texts.
- **Corpus index** (`few_shot.py`, class `FewShotPosts`). Loading the processed posts does four things:
  - cleans every text and collapses its whitespace;
  - buckets the line count into Short, Medium or Long;
  - derives the sorted set of unique tags;
  - groups those tags into six fixed keyword categories.

  A lookup returns the first few posts with a given length, language and tag.
- **Generation** (`post_generator.py`). The prompt holds a length description and up to three numbered example posts from the index. The model's reply is cleaned in one of two ways. If a `</think>` marker is present, only the text after its last occurrence is kept. Otherwise every `<...>` span is removed. When the call fails, a fixed apology is returned instead.

Strings are sequences of code points (`Text.Str`), so lone surrogates can be represented. JSON records are maps from keys to `Records.Value`. Two things are passed in as function parameters:
- the language model, an oracle returning `Reply(content)` or `CallFailed`;
- the JSON output parser, an oracle returning `Some(value)` or `None` on a parse error.

Modules: `Wrappers`, `Text`, `Whitespace`, `Order`, `Lists`, `Records`, `Categories`, `FewShot`, `PostGenerator`, `Preprocess`.

## Model

| member | source | states |
|---|---|---|
| Text.CleanSurrogates | preprocess.py:81-83 | the result has no surrogate and is no longer than the input |
| Text.NoSurrogatesSlice | preprocess.py:81-83 | every contiguous piece of surrogate-free text is surrogate-free |
| Text.NoSurrogatesConcat | preprocess.py:81-83 | joining surrogate-free texts gives surrogate-free text |
| Text.CleanSurrogatesConcat | preprocess.py:81-83 | removal works piecewise: cleaning `a + b` is cleaning `a` followed by cleaning `b` |
| Text.CleanSurrogatesKeeps | preprocess.py:81-83 | text without surrogates is returned unchanged |
| Text.CleanSurrogatesIdempotent | preprocess.py:81-83 | cleaning twice equals cleaning once |
| Text.CleanSurrogatesCounts | preprocess.py:81-83 | each non-surrogate keeps its number of occurrences, each surrogate drops to zero |
| Text.TrimStart | few_shot.py:39 | the result is a suffix of the input; everything cut off is whitespace; the result does not start with whitespace |
| Text.TrimEnd | few_shot.py:39 | the result is a prefix of the input; everything cut off is whitespace; the result does not end with whitespace |
| Text.Strip | few_shot.py:39 | `str.strip()`: the result has no whitespace at either end |
| Text.TrimStartExact | few_shot.py:39 | when exactly the first `a` code points are whitespace, the leading trim drops exactly those |
| Text.TrimEndExact | few_shot.py:39 | when exactly the code points from `b` on are whitespace, the trailing trim keeps exactly the first `b` |
| Text.StripExact | post_generator.py:35 | strip returns exactly the piece between the leading and the trailing whitespace runs |
| Text.StripIsSlice | post_generator.py:40 | strip returns a contiguous piece of its input, starting where the leading whitespace ends |
| Text.StripBounds | post_generator.py:40 | strip returns the piece of its input between two positions |
| Text.StripIdempotent | few_shot.py:39 | stripping twice equals stripping once |
| Text.StripKeepsNoSurrogates | post_generator.py:31-40 | stripping surrogate-free text keeps it surrogate-free |
| Text.CodePointsNoSurrogates | post_generator.py:31 | a literal string holds no surrogate code point |
| Text.Contains | post_generator.py:34 | `sub in s` holds exactly when some position of `s` starts an occurrence of `sub` |
| Text.Find | post_generator.py:34 | `sub in s`: returns the first index where `sub` occurs, with no earlier occurrence; `None` exactly when `sub` never occurs |
| Text.LastCutFromAfter | post_generator.py:35 | when no occurrence of `sep` starts between the last cut and the scan position, none starts after the cut the scan ends at |
| Text.LastCutFromFollows | post_generator.py:35 | the scan for the last piece either keeps its cut or ends right after an occurrence of `sep` |
| Text.LastCut | post_generator.py:35 | `split(sep)[-1]` starts right after an occurrence of `sep`, and no occurrence starts at or after that point; 0 when there is none |
| Text.LastPiece | post_generator.py:35 | the piece after the last cut holds no `sep`, is the whole text when there is no `sep`, and otherwise directly follows an occurrence of `sep` |
| Text.AfterLastSplit | post_generator.py:35 | `s.split(sep)[-1]`: `s` is some prefix, then `sep`, then the result; the result holds no `sep`; `s` itself when `sep` is absent |
| Text.LowerChar | few_shot.py:70 | `str.lower()` of one code point: A-Z become a-z; the dotted capital I (U+0130) becomes 'i' followed by U+0307, the only two-code-point result; the result starts with an ASCII lower-case letter exactly for ASCII letters, the Kelvin sign and U+0130; every other code point is kept |
| Text.Lower | few_shot.py:70 | `str.lower()` of a text never shortens it; `LowerPointwise` and `LowerConcat` pin it code point by code point, and the `Text.LowerChar` line under Left out covers the non-ASCII code points kept as they are |
| Text.LowerPointwise | few_shot.py:70 | on text without U+0130, `str.lower()` keeps the length and lower-cases each code point in place |
| Text.LowerConcat | few_shot.py:70 | `(a + b).lower()` is `a.lower() + b.lower()` |
| Whitespace.LeadingWord | few_shot.py:39 | the leading word is a whitespace-free prefix, followed by whitespace or the end of the text |
| Whitespace.LeadingWordOf | few_shot.py:39 | a whitespace-free prefix followed by whitespace or the end of the text is the leading word |
| Whitespace.CollapseSpaces | few_shot.py:39 | `re.sub(r'\s+', ' ', s)` never lengthens the text, and gives "" only for "" |
| Whitespace.WordsValid | few_shot.py:39 | the pieces of `s.split()` are non-empty and free of whitespace |
| Whitespace.WordsOfWord | few_shot.py:39 | a single word splits into itself |
| Whitespace.WordsOfCons | few_shot.py:39 | a word, one ' ' and text starting with a non-space split into that word followed by the words of the text |
| Whitespace.JoinShape | few_shot.py:39 | joining valid words gives trimmed, single-spaced text, which is empty only for no words |
| Whitespace.WordsOfJoin | few_shot.py:39 | splitting a join of valid words gives back the same words |
| Whitespace.CollapseIsJoin | few_shot.py:39 | `re.sub(r'\s+', ' ', s)` on text that does not start with whitespace equals the words joined by ' ', plus one ' ' when the text ends in whitespace |
| Whitespace.StripCollapseIsJoin | few_shot.py:39 | `re.sub(r'\s+', ' ', s).strip()` equals `' '.join(s.split())` |
| Whitespace.StripPadded | few_shot.py:39 | strip removes exactly the whitespace padding around trimmed text |
| Whitespace.JoinWordsNoSurrogates | few_shot.py:38-39 | collapsing whitespace in surrogate-free text keeps it surrogate-free |
| Order.LexLess | few_shot.py:25 | Python's `<` on strings, the order `sorted` uses: the smaller string never starts with a larger code point |
| Order.LexLessIsLexicographic | few_shot.py:25 | `a < b` exactly when `a` is a proper prefix of `b`, or `a` is smaller at the first position where the two differ |
| Order.LexLessIrreflexive | few_shot.py:25 | Python's `<` on strings is irreflexive |
| Order.LexLessTransitive | few_shot.py:25 | Python's `<` on strings is transitive |
| Order.LexLessTotal | few_shot.py:25 | any two different strings are ordered one way or the other |
| Order.SortedInsert | few_shot.py:25 | inserting into a strictly ascending list keeps it strictly ascending and adds exactly the new element |
| Order.SortedSet | few_shot.py:25 | `sorted(set(xs))` is strictly ascending and has exactly the elements of `xs` |
| Order.AscendingUnique | few_shot.py:25 | two strictly ascending lists with the same elements are equal, so `sorted(set(...))` is unique |
| Lists.Filter | few_shot.py:94-98 | the mask never adds rows |
| Lists.FilterMembers | few_shot.py:94-98 | a row is in the result exactly when it is in the input and passes the mask |
| Lists.FilterNone | few_shot.py:94-98 | when no row passes, the result is empty |
| Lists.FilterCounts | few_shot.py:94-98 | every passing row keeps all its occurrences; every other row keeps none |
| Lists.FilterSnoc | few_shot.py:94-98 | filtering one more row at the end appends it when it passes |
| Lists.FilterAll | few_shot.py:94-98 | when every row passes, nothing is dropped |
| Records.Lookup | preprocess.py:13 | a present field gives `Some` of its value; a missing field gives `None` |
| Categories.NameInjective | few_shot.py:57-64 | the six category keys are different strings |
| Categories.ByName | few_shot.py:57-81 | the dictionary keyed by category name has a key exactly for each category of the grouping, holding the same list, and no other key |
| Categories.ByNameSize | few_shot.py:66-81 | the name-keyed dictionary has as many entries as the grouping has categories |
| Categories.Keywords | few_shot.py:57-64 | the keyword list of each entry of the `categories` dictionary: empty exactly for "Other", at most three for any category |
| Categories.KeywordIn | few_shot.py:70 | `keyword.lower() in tag.lower()` holds exactly when the lower-cased keyword occurs at some position of the lower-cased tag; an empty keyword is in every tag |
| Categories.AnyKeyword | few_shot.py:70 | with no keywords, as for "Other", `any(...)` is false, so no tag matches "Other" by keyword |
| Categories.AnyKeywordIsSome | few_shot.py:70 | the short-circuit `any(...)` holds exactly when some lower-cased keyword occurs in the lower-cased tag |
| Categories.FirstMatchFrom | few_shot.py:69-75 | the category found from a position on matches the tag, or is "Other" |
| Categories.FirstMatchFromSkips | few_shot.py:69-75 | no category between the start position and the one found matches |
| Categories.CategoryOf | few_shot.py:67-79 | a tag is listed under a matching category, or under "Other" |
| Categories.CategoryOfIsFirstMatch | few_shot.py:67-79 | the category is the first matching one in dictionary order; it is "Other" exactly when no category matches |
| Categories.Categorized | few_shot.py:66-81 | the dictionary is empty exactly when there are no tags, and the last tag's category always has an entry |
| Categories.CategorizedIsGrouping | few_shot.py:66-81 | a category has an entry exactly when some tag belongs to it; the entry lists exactly its tags in input order and is never empty |
| Categories.InCategoryCounts | few_shot.py:66-81 | the lists partition the input: each tag occurrence is counted once, in its own category's list only |
| Categories.CategorizedMembers | few_shot.py:66-81 | no category's list is empty, and every listed tag is an input tag of that category |
| Categories.CategorizedStep | few_shot.py:71-79 | one more tag is appended to the list of its category, which is created when absent |
| Categories.AppendEntry | few_shot.py:71-73 | creating the list when absent and then appending gives `AppendTo`: the tag at the end of its category's list (a new one-element list when absent), every other entry unchanged |
| Categories.PlaceTag | few_shot.py:68-79 | the inner loop over the categories appends the tag to the list of its first matching category, or of "Other", creating the list when absent |
| Categories.CategorizeTags | few_shot.py:55-81 | the nested loop with `found`/`break` builds exactly the grouping `Categorized(tags, CategoryOf)` |
| FewShot.CleanText | few_shot.py:34-40 | cleaned text has no surrogates, is trimmed and single-spaced; a non-string value gives "" |
| FewShot.CleanTextIsJoinedWords | few_shot.py:38-39 | cleaning equals joining the words of the surrogate-free text with single spaces |
| FewShot.CleanTextIdempotent | few_shot.py:34-40 | cleaning cleaned text changes nothing |
| FewShot.LengthNameInjective | few_shot.py:47-51 | the three bucket names are different strings |
| FewShot.CategorizeLength | few_shot.py:42-53 | for an integer: Short iff below 5, Medium iff 5..10, Long iff above 10; anything else is Medium |
| FewShot.IndexRow | few_shot.py:20-21 | a row gets the cleaned text and the length bucket of its line count; every other field is unchanged |
| FewShot.IndexRows | few_shot.py:20-21 | every post becomes its indexed row, one for one |
| FewShot.RowTags | few_shot.py:24 | one row's contribution to `explode().dropna()`: a missing or null `tags` gives nothing, a string gives itself, a list gives its elements |
| FewShot.ExplodedTags | few_shot.py:24 | `explode().dropna()` yields exactly the tags that occur in some row |
| FewShot.UniqueTags | few_shot.py:24-25 | the unique tags are strictly ascending and are exactly the tags occurring in some row |
| FewShot.HasListTag | few_shot.py:97 | holds exactly when `tags` is a list holding the tag |
| FewShot.Selected | few_shot.py:94-98 | the mask holds exactly when `length` and `language` equal the requested strings and `tags` is a list holding the tag |
| FewShot.Matching | few_shot.py:94-98 | never more rows than the table; every row is a table row the mask selects |
| FewShot.Head | few_shot.py:99 | `head(limit)` is a prefix of length `min(limit, n)`; a negative limit drops the last `-limit` rows |
| FewShot.FilteredPosts | few_shot.py:91-102 | a prefix of the matching rows in table order, every one selected, at most `limit` long and exactly `min(limit, matches)` long; [] when a needed column is absent |
| FewShot.MatchingCounts | few_shot.py:94-98 | a row is matched with all its occurrences exactly when it passes the mask |
| FewShot.HasColumn | few_shot.py:20-24 | whether `df[key]` exists: a table built from no posts has no column (so `df["text"]` raises), and a field of the last post is a column |
| FewShot.LoadCheck | few_shot.py:20-26 | loading fails exactly when the `text`, `line_count` or `tags` column is absent or some row has a non-string tag; a reported column is absent; a non-string tag is reported only once all three columns exist |
| FewShot.FewShotPosts.constructor | few_shot.py:7-10 | every field starts as `None`, and the object is consistent |
| FewShot.FewShotPosts.Assign | few_shot.py:25-28 | the table, the unique tags and the categories are set, and nothing else |
| FewShot.FewShotPosts.LoadPosts | few_shot.py:13-28 | on a missing column or a non-string tag nothing is assigned (the source has assigned `unique_tags` before `categorize_tags` raises, but that object never reaches a caller); otherwise the table, the sorted unique tags and the categories are set together, so the object is consistent |
| FewShot.FewShotPosts.GetUniqueTags | few_shot.py:83-85 | once loaded, the tags are strictly ascending |
| FewShot.FewShotPosts.GetTagCategories | few_shot.py:87-89 | once loaded, each list is non-empty and holds unique tags of its own category |
| FewShot.FewShotPosts.GetFilteredPosts | few_shot.py:91-102 | [] before loading; otherwise the filtered rows, which are cleaned, indexed rows |
| PostGenerator.LengthDescription | post_generator.py:8-15 | "Short" and "Long" get their own descriptions; every other string gets Medium's |
| PostGenerator.LengthDescriptionInjective | post_generator.py:10-15 | different length buckets get different descriptions, so the prompt's description identifies the bucket |
| PostGenerator.NoTagSpanSlice | post_generator.py:38 | a piece of text with no `<...>` span has none either |
| PostGenerator.NoTagSpanStrip | post_generator.py:38-40 | stripping keeps text free of `<...>` spans |
| PostGenerator.RemoveTags | post_generator.py:38 | `re.sub(r'<[^>]+>', '', s)` leaves no span the pattern could match, adds no code point, and never lengthens the text |
| PostGenerator.RemoveTagsPlain | post_generator.py:38 | text before the first '<' is kept as it is, and removal goes on after it |
| PostGenerator.RemoveTagsSpan | post_generator.py:38 | a '<', one or more code points other than '>', and a '>' are removed together |
| PostGenerator.RemoveTagsLone | post_generator.py:38 | a '<' with no '>' after it, or directly followed by '>', is kept |
| PostGenerator.RemoveTagsKeeps | post_generator.py:38 | text without a `<...>` span passes through unchanged |
| PostGenerator.RemoveTagsNoSurrogates | post_generator.py:38 | removing `<...>` spans from surrogate-free text keeps it surrogate-free |
| PostGenerator.RemoveTagsIdempotent | post_generator.py:38 | removing spans twice equals removing them once |
| PostGenerator.ExtractPostContent | post_generator.py:28-40 | the extracted post has no surrogates and no whitespace at either end |
| PostGenerator.AfterThinkNoSurrogates | post_generator.py:31-35 | the text after the last `</think>` of surrogate-free text is surrogate-free |
| PostGenerator.ThinkCloseNoOverlap | post_generator.py:35 | two occurrences of `</think>` never overlap |
| PostGenerator.ExtractAfterLastThink | post_generator.py:34-35 | with `</think>` present, the post is the stripped text after its last occurrence |
| PostGenerator.ExtractWithoutThink | post_generator.py:34-40 | without `</think>` in the surrogate-free reply, the post is that text with its tag spans removed, then stripped |
| PostGenerator.ExtractAfterFinalThink | post_generator.py:34-35 | when no '<' follows a `</think>`, the post is the stripped text after it |
| PostGenerator.ThinkExample | post_generator.py:33-35 | the reply "<think>reasoning...</think>Final post text" gives the post "Final post text" |
| PostGenerator.NoTagSpanNoThink | post_generator.py:34-38 | text with no `<...>` span never holds `</think>` |
| PostGenerator.ExtractPlainIdempotent | post_generator.py:28-40 | for a reply without `</think>`, extracting again from the extracted post changes nothing |
| PostGenerator.Decimal | post_generator.py:71 | `str(i)` is a non-empty string of decimal digits with no leading zero |
| PostGenerator.DecimalRoundTrip | post_generator.py:70-71 | reading the digits back gives the number, so the example numbering is unambiguous |
| PostGenerator.ExampleBlock | post_generator.py:71 | a block is as long as "Example ", the number, the text and four separator code points together |
| PostGenerator.ExampleBlockShape | post_generator.py:71 | a block starts with "Example " and the number in decimal, and holds the text just before its two closing newlines |
| PostGenerator.ExampleBlocks | post_generator.py:70-71 | there are no blocks exactly when there are no examples |
| PostGenerator.ExamplesText | post_generator.py:66-71 | the section is empty exactly when there are no examples; otherwise it starts with the header |
| PostGenerator.ExampleBlocksPrefix | post_generator.py:70-71 | the blocks of the first `m` examples come first, in order |
| PostGenerator.ExampleBlocksSnoc | post_generator.py:70-71 | one more example adds its numbered block at the end |
| PostGenerator.ExampleBlockAt | post_generator.py:70-71 | block `i+1` holds the `i`-th example's text, right after the header and the earlier blocks |
| PostGenerator.Texts | post_generator.py:71 | one text per example, the `i`-th being the `i`-th example's `text` |
| PostGenerator.ExamplesStep | post_generator.py:70-71 | appending block `i+1` to the header and the first `i` blocks gives the header and the first `i+1` blocks |
| PostGenerator.ExamplesSection | post_generator.py:66-71 | the accumulating loop builds exactly the header followed by the numbered blocks, or "" |
| PostGenerator.PromptFor | post_generator.py:42-79 | the examples slot is empty exactly when there are no examples |
| PostGenerator.BuildPrompt | post_generator.py:42-81 | the prompt uses the length description and the first three matching examples of the index, which all have text |
| PostGenerator.ApologyIsClean | post_generator.py:26 | the fallback text `Apology`, the literal of the source, has no surrogates and nothing to strip |
| PostGenerator.PostFromReply | post_generator.py:21-26 | a failed call gives the apology; a reply gives its extracted content |
| PostGenerator.GeneratePost | post_generator.py:17-26 | the post is the cleaned reply to the built prompt, or the apology; either way it has no surrogates and no whitespace at either end |
| Preprocess.ApplyAll | preprocess.py:12-15 | a loop that stops at the first failure; on success it has one result per post |
| Preprocess.ApplyAllOk | preprocess.py:12-15 | the loop succeeds iff every step does, and then gives each post's result in order |
| Preprocess.ApplyAllErr | preprocess.py:12-15 | a failing loop returns the error of a post whose predecessors all succeed |
| Preprocess.AllOkBefore | preprocess.py:12-15 | when every earlier post succeeds and post `i` fails, the whole loop fails with post `i`'s error |
| Preprocess.Merge | preprocess.py:14 | merging metadata into a post gives the keys of both; metadata wins on a clash; other fields of the post are kept |
| Preprocess.ExtractMetadata | preprocess.py:85-111 | a non-string text is a type error; a failed model call propagates; a reply the parser rejects gives empty metadata; otherwise the parsed object; the model sees the surrogate-free text |
| Preprocess.Enrich | preprocess.py:12-14 | a post without `text` fails with a missing key; otherwise it succeeds exactly when the metadata extraction does, returns the extraction's error unchanged when it fails, and on success is the post with the extracted metadata merged over it |
| Preprocess.EnrichPosts | preprocess.py:9-15 | the appending loop equals applying `Enrich` to every post in order, stopping at the first failure |
| Preprocess.TagSeq | preprocess.py:42 | iterating a `tags` value: a list gives its elements; a string gives its code points one by one; any other value is not iterable |
| Preprocess.PostTags | preprocess.py:42 | a missing `tags` is a missing key; a list contributes its elements; a string contributes its single code points |
| Preprocess.CollectTags | preprocess.py:40-42 | no posts give the empty set (`CollectTagsOk` and `CollectTagsErr` state the rest) |
| Preprocess.CollectTagsOk | preprocess.py:40-42 | the tag loop succeeds iff every post has iterable tags, and the set is then exactly the union of all posts' tags |
| Preprocess.CollectTagsErr | preprocess.py:40-42 | a failing tag loop returns the error of a post whose predecessors' tags could all be read |
| Preprocess.CollectErrBefore | preprocess.py:41-42 | when the earlier posts succeed and post `i` fails, the collection fails with post `i`'s error |
| Preprocess.FirstIndexOf | preprocess.py:33 | the first position of a code point; `None` iff absent |
| Preprocess.LastIndexOf | preprocess.py:33 | the last position of a code point; `None` iff absent |
| Preprocess.ExtractJson | preprocess.py:31-37 | no match exactly when no '{' comes before a '}'; a match starts with '{' and ends with '}' |
| Preprocess.ExtractJsonIsSpan | preprocess.py:33-35 | the match runs from the first '{' to the last '}' |
| Preprocess.MappingFromReply | preprocess.py:67-79 | no JSON span or a parser error gives the empty mapping; otherwise the parsed mapping |
| Preprocess.UnifiedTags | preprocess.py:39-79 | a tag error is returned as is; a failed call gives `LlmFailed`; it succeeds exactly when the tags are read and the call replies, and then gives the mapping read from the reply |
| Preprocess.GetUnifiedTags | preprocess.py:39-79 | the set-growing loop and the single model call give exactly `UnifiedTags`: the first tag error, a failed call, or the mapping read from the reply |
| Preprocess.RewriteSet | preprocess.py:20 | the new tags are exactly the images of the mapped tags; an empty mapping gives no tags |
| Preprocess.RewriteSetSize | preprocess.py:20 | there are never more canonical tags than original tags |
| Preprocess.RewriteCount | preprocess.py:19-21 | a post's new tag list is no longer than its old tags value |
| Preprocess.SetToSeq | preprocess.py:21 | `list(set)` lists every element exactly once, in some order |
| Preprocess.RewriteAllTags | preprocess.py:18-21 | succeeds iff every post has iterable tags, and otherwise fails with the error of the first post whose tags cannot be read; then every post keeps its other fields and gets its canonical tags, each listed once |
| Preprocess.TextIsString | preprocess.py:25-26 | the type test `clean_surrogates` imposes on `post['text']`: a post without `text` passes, and a `null` text fails |
| Preprocess.CleanTextField | preprocess.py:25-26 | succeeds exactly when `text` is absent or a string, failing only with `NotAString`; a post without `text` is unchanged; a non-string text is a type error; otherwise only the text changes, to its surrogate-free form |
| Preprocess.CleanTexts | preprocess.py:24-26 | the in-place loop equals applying `CleanTextField` to every post in order, stopping at the first failure |
| Preprocess.CleanStage | preprocess.py:24-26 | on the rewritten posts, the cleaning loop succeeds exactly when every enriched post's `text` is absent or a string, and otherwise fails with `NotAString` |
| Preprocess.ProcessedStep | preprocess.py:18-26 | rewriting the tags and then cleaning the text of one enriched post gives a processed post |
| Preprocess.ProcessPost | preprocess.py:8-29 | it succeeds exactly when the enrichment and the unification succeed and every enriched `text` is absent or a string; otherwise it returns the error of the first stage that fails (the enrichment's or the unification's as is, then `NotAString`); on success every output post is its enriched post with canonical tags listed once, a surrogate-free text and all other fields unchanged |

## Left out

- File I/O is outside the model: reading the raw and processed JSON files, `json.dump`, and the "file not found" and "invalid JSON" exceptions of `load_posts`. `LoadPosts`, `ProcessPost` and the other operations take the already-parsed posts and return what would be written.
- The language model and `JsonOutputParser` are oracles passed as parameters. An exception from the model call is `CallFailed`, and an `OutputParserException` is `None`. The `llm_helper` module is not part of this model.
- The prompt templates are modelled only by the values filled into them (`PromptSlots`). For the unification call, the oracle receives the set of tags, not the `', '.join(...)` string. That string's order is Python's set iteration order, which is unspecified.
- Logging with `print` has no effect on results, so it is not modelled.
- `Preprocess.SetToSeq`: `list(new_tags)` has an unspecified order. The model only promises each element exactly once.
- Records: JSON `null` is `VNull`. Nested objects, floats, booleans and lists holding anything but strings are all one `VOther` value.
  - `Preprocess.PostTags`: treats `VOther` tags as not iterable. A dict-valued `tags` (iterated by its keys) is therefore not modelled.
  - `Preprocess.ExtractMetadata`: the parser oracle returns a JSON object or nothing. A reply that parses to a JSON array or a scalar would make `post | metadata` raise. That case is not modelled.
  - `Preprocess.MappingFromReply`: the parser oracle returns a mapping from strings to strings. A reply whose values are not strings is not modelled. In the source a number or null would end up in the rewritten tag set, and a list would make building that set raise.
- `FewShot.CategorizeLength`: only integer values are converted. In the source, `int()` also accepts numeric strings ("3" gives Short), truncates floats, and turns booleans into 0 or 1 (`True` gives Short). Here those are `VStr`/`VOther` and give Medium.
- `FewShot.RowTags`: a number, a boolean or a list holding a non-string as a `tags` value makes the load fail (`NonStringTag`). In the source these make `sorted` (mixed types) or `tag.lower()` raise, which `load_posts` does not catch. A nested object under `tags` is flattened into dotted columns by `json_normalize`; the model treats it as a non-string tag. A tag list holding `null` is also `VOther`, so the model reports `NonStringTag`, while the source drops the null in `dropna` and loads.
- `FewShot.IndexRows`: `json_normalize` turns nested objects into dotted columns, and `to_dict` fills missing cells with NaN. Rows are modelled as the post maps themselves, so an absent field stays absent.
- `Text.LowerChar`: only the code points whose lower case holds an ASCII letter are mapped: A-Z, the Kelvin sign and U+0130 (to 'i' followed by U+0307). Every other code point is kept as it is, although Python lower-cases many of them. Python's lower case of such a code point is again non-ASCII, and so is the kept code point. Every keyword is ASCII, so a keyword occurs in the lowered tag only within a run of ASCII code points. Those runs are the same in the model and in Python, so the keyword test gives the same answer.
- The order of the category dictionary's keys (insertion order in Python) is not modelled; the grouping is a map.
- `Preprocess.GetUnifiedTags`: the text shown to the model is not passed through `clean_surrogates` in the model. The oracle receives the tag set itself.
- `Preprocess.CollectTags`: `get_unified_tags` reads `post['tags']` without a guard, so a post without tags raises `KeyError`. The model returns `MissingKey` for it.
- `Text.LastCut` and `Text.AfterLastSplit`: for a separator that can overlap itself (such as "aa"), the contracts do not say which of two overlapping occurrences the cut follows. The only separator used, `</think>`, cannot overlap itself (`PostGenerator.ThinkCloseNoOverlap`), and `PostGenerator.ExtractAfterLastThink` pins the cut for it.
