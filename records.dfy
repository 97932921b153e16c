/** The JSON records the pipeline passes around: a post is a JSON object whose
    values are strings, integers, lists of strings, null, or anything else. */
module Records {
  import opened Wrappers
  import opened Text

  /** One JSON value of a post record. `VNull` is JSON `null` (Python
      `None`); `VOther` stands for every value the core code never looks
      into (floats, booleans, nested objects, lists holding anything but
      strings). */
  datatype Value = VStr(s: Str) | VInt(n: int) | VList(items: seq<Str>) | VNull | VOther

  /** A post: a JSON object (a Python `dict` with `str` keys). */
  type Post = map<Str, Value>

  /** What a call to the language model gives back: the reply's text, or a
      failure (any exception raised by the call). */
  datatype LlmReply = Reply(content: Str) | CallFailed

  const TextKey: Str := CodePoints("text")
  const TagsKey: Str := CodePoints("tags")
  const LineCountKey: Str := CodePoints("line_count")
  const LanguageKey: Str := CodePoints("language")
  const LengthKey: Str := CodePoints("length")

  /** `post.get(key)`, with `None` for a missing key. */
  function Lookup(p: Post, key: Str): (r: Option<Value>)
    ensures r.Some? <==> key in p
    ensures r.Some? ==> r.value == p[key]
  {
    if key in p then Some(p[key]) else None
  }

  /** The five column names are pairwise different. */
  lemma KeysDistinct()
    ensures TextKey != TagsKey && TextKey != LengthKey && TagsKey != LengthKey
    ensures TextKey != LanguageKey && TagsKey != LanguageKey && LengthKey != LanguageKey
    ensures LineCountKey != TextKey && LineCountKey != TagsKey && LineCountKey != LengthKey
    ensures LineCountKey != LanguageKey
  {
    assert TextKey[1] != TagsKey[1];
    assert |TextKey| != |LengthKey| && |TagsKey| != |LengthKey|;
    assert |LanguageKey| != |TextKey| && |LanguageKey| != |LengthKey|;
    assert |LineCountKey| != |TextKey| && |LineCountKey| != |LengthKey|;
    assert |LineCountKey| != |LanguageKey|;
  }
}
