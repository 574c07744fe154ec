/** lib/prisma.ts: `extractJson`, which keeps the span that the regular
    expression `/\{[\s\S]*\}/` matches, and the `analyzeResume` variant that
    relies on it. */
module ExtractJson {
  import opened Basics
  import opened JsonValues
  import Gemini

  const NO_JSON_MESSAGE: string := "No JSON found in Gemini response"

  /** `{` at `i` and `}` at `j > i`: the regular expression can match
      `s[i..j + 1]`. */
  ghost predicate BracePair(s: string, i: int, j: int) {
    0 <= i < j < |s| && s[i] == '{' && s[j] == '}'
  }

  /** The pair JavaScript's backtracking matcher reports: the leftmost
      start, and from there the longest match, since `[\s\S]*` is greedy and
      crosses newlines. */
  ghost predicate LeftmostLongest(s: string, i: int, j: int) {
    && BracePair(s, i, j)
    && (forall i', j' :: BracePair(s, i', j') ==> i <= i')
    && (forall j' :: BracePair(s, i, j') ==> j' <= j)
  }

  /** Index of the first occurrence of `c`. */
  function FirstIndex(s: string, c: char): (r: Option<nat>)
    ensures r.None? <==> c !in s
    ensures r.Some? ==> r.value < |s| && s[r.value] == c
    ensures r.Some? ==> forall k :: 0 <= k < r.value ==> s[k] != c
  {
    if |s| == 0 then None
    else if s[0] == c then Some(0)
    else match FirstIndex(s[1..], c)
      case None => None
      case Some(k) => Some(k + 1)
  }

  /** Index of the last occurrence of `c`. */
  function LastIndex(s: string, c: char): (r: Option<nat>)
    ensures r.None? <==> c !in s
    ensures r.Some? ==> r.value < |s| && s[r.value] == c
    ensures r.Some? ==> forall k :: r.value < k < |s| ==> s[k] != c
  {
    if |s| == 0 then None
    else if s[|s| - 1] == c then Some(|s| - 1)
    else
      var front := s[..|s| - 1];
      match LastIndex(front, c)
      case None =>
        assert s == front + [s[|s| - 1]];
        None
      case Some(k) => Some(k)
  }

  /** The text `text.match(/\{[\s\S]*\}/)` yields: from the first `{` to the
      last `}`, provided that `}` lies after the `{`; otherwise no match. */
  function JsonSpan(s: string): (r: Option<string>)
    ensures r.None? <==> forall i, j :: !BracePair(s, i, j)
    ensures r.Some? ==> exists i, j :: LeftmostLongest(s, i, j) && r.value == s[i..j + 1]
  {
    match FirstIndex(s, '{')
    case None => None
    case Some(i) =>
      match LastIndex(s, '}')
      case None => None
      case Some(j) =>
        if j > i then
          assert LeftmostLongest(s, i, j);
          Some(s[i..j + 1])
        else
          assert forall i', j' :: !BracePair(s, i', j');
          None
  }

  /** Why `extractJson` throws. */
  datatype ExtractError = NoJsonFound(message: string) | InvalidJson

  /** `extractJson` (lines 5-9): parse only the matched span; everything
      outside it is discarded. `parse` stands for `JSON.parse`. */
  function Extract(text: string, parse: string -> Option<Json>): (r: Result<Json, ExtractError>)
    ensures r == Err(NoJsonFound(NO_JSON_MESSAGE)) <==> forall i, j :: !BracePair(text, i, j)
    ensures r.Ok? <==> exists i, j :: LeftmostLongest(text, i, j) && parse(text[i..j + 1]).Some?
    ensures r.Ok? ==> exists i, j :: LeftmostLongest(text, i, j) && r.value == parse(text[i..j + 1]).value
  {
    match JsonSpan(text)
    case None => Err(NoJsonFound(NO_JSON_MESSAGE))
    case Some(span) =>
      LeftmostLongestUnique(text);
      match parse(span)
      case None => Err(InvalidJson)
      case Some(v) => Ok(v)
  }

  /** At most one pair is leftmost-longest. */
  lemma LeftmostLongestUnique(s: string)
    ensures forall i, j, i', j' :: LeftmostLongest(s, i, j) && LeftmostLongest(s, i', j') ==> i == i' && j == j'
  {
  }

  /** Why the `analyzeResume` of lib/prisma.ts fails: the model call threw
      (nothing catches it), or `extractJson` threw. */
  datatype AnalyzeError = GenerationFailed | ExtractFailed(cause: ExtractError)

  /** `analyzeResume` (lines 11-39): extract and parse the reply; every
      failure reaches the caller. */
  function AnalyzeResume(reply: Gemini.AiReply<string>, parse: string -> Option<Json>): (r: Result<Json, AnalyzeError>)
    ensures reply.Unavailable? ==> r == Err(GenerationFailed)
    ensures reply.Answered? ==> match Extract(reply.value, parse)
                                case Ok(v) => r == Ok(v)
                                case Err(e) => r == Err(ExtractFailed(e))
  {
    match reply
    case Unavailable => Err(GenerationFailed)
    case Answered(text) =>
      match Extract(text, parse)
      case Ok(v) => Ok(v)
      case Err(e) => Err(ExtractFailed(e))
  }

  /** Without any `{` there is nothing to extract. */
  lemma NoOpenBraceFails(text: string, parse: string -> Option<Json>)
    requires '{' !in text
    ensures Extract(text, parse) == Err(NoJsonFound(NO_JSON_MESSAGE))
  {
  }

  /** Without a `}` after the first `{` there is nothing to extract. */
  lemma NoCloseAfterFirstOpenFails(text: string, parse: string -> Option<Json>, i: nat)
    requires i < |text| && text[i] == '{' && '{' !in text[..i] && '}' !in text[i..]
    ensures Extract(text, parse) == Err(NoJsonFound(NO_JSON_MESSAGE))
  {
    assert forall k :: 0 <= k < i ==> text[k] == text[..i][k];
    assert forall k :: i <= k < |text| ==> text[k] == text[i..][k - i];
  }

  /** The span is fixed by its two ends: the first `{` and the last `}`. */
  lemma SpanBetween(s: string, i0: nat, j0: nat)
    requires BracePair(s, i0, j0)
    requires forall k :: 0 <= k < i0 ==> s[k] != '{'
    requires forall k :: j0 < k < |s| ==> s[k] != '}'
    ensures JsonSpan(s) == Some(s[i0..j0 + 1])
  {
    assert JsonSpan(s).Some?;
    var i, j :| LeftmostLongest(s, i, j) && JsonSpan(s).value == s[i..j + 1];
    assert i == i0 && j == j0;
  }

  /** A text that already starts with `{` and ends with `}` is kept whole. */
  lemma WholeObjectKept(text: string)
    requires |text| >= 2 && text[0] == '{' && text[|text| - 1] == '}'
    ensures JsonSpan(text) == Some(text)
  {
    SpanBetween(text, 0, |text| - 1);
    assert text[0..|text|] == text;
  }

  /** Prose without braces on either side of an object-shaped body is
      dropped: exactly the body is extracted. */
  lemma SurroundingProseDropped(before: string, body: string, after: string)
    requires '{' !in before && '}' !in before && '{' !in after && '}' !in after
    requires |body| >= 2 && body[0] == '{' && body[|body| - 1] == '}'
    ensures JsonSpan(before + body + after) == Some(body)
  {
    var s := before + body + after;
    var i0, j0 := |before|, |before| + |body| - 1;
    assert forall k :: 0 <= k < i0 ==> s[k] == before[k];
    assert forall k :: j0 < k < |s| ==> s[k] == after[k - |before| - |body|];
    SpanBetween(s, i0, j0);
    assert s[i0..j0 + 1] == body;
  }
}
