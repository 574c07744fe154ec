/** lib/gemini.ts: the cleanup applied to the model's reply before
    `JSON.parse`, and the rethrow-on-failure shape of `analyzeResume`.
    The same cleanup, with slightly different patterns, is reused by the
    job-match route (`eatNewline == false`). */
module Gemini {
  import opened Basics
  import opened JsonValues
  import opened Text

  const FENCE: string := "```"
  const JSON_FENCE: string := "```json"

  /** What a call to the hosted model produced: its text, or a thrown error. */
  datatype AiReply<+T> = Answered(value: T) | Unavailable

  /** `s.replace(/<pat>\n?/g, "")` for a literal `pat`: a left-to-right scan
      that deletes every non-overlapping occurrence of `pat` (together with
      one directly following newline when `eatNewline`), without rescanning
      the text it has produced. */
  function ReplaceAll(s: string, pat: string, eatNewline: bool): (r: string)
    requires |pat| > 0
    ensures |r| <= |s|
    ensures !Contains(s, pat) ==> r == s
    decreases |s|
  {
    if |s| == 0 then []
    else if pat <= s then
      var rest := s[|pat|..];
      if eatNewline && |rest| > 0 && rest[0] == '\n' then ReplaceAll(rest[1..], pat, eatNewline)
      else ReplaceAll(rest, pat, eatNewline)
    else [s[0]] + ReplaceAll(s[1..], pat, eatNewline)
  }

  /** Text in front that cannot start an occurrence passes through as is. */
  lemma {:induction false} ReplaceAllSkipsPlain(a: string, b: string, pat: string, eatNewline: bool)
    requires |pat| > 0 && pat[0] !in a
    ensures ReplaceAll(a + b, pat, eatNewline) == a + ReplaceAll(b, pat, eatNewline)
    decreases |a|
  {
    if |a| > 0 {
      assert (a + b)[0] == a[0] != pat[0];
      assert (a + b)[1..] == a[1..] + b;
      ReplaceAllSkipsPlain(a[1..], b, pat, eatNewline);
      assert a == [a[0]] + a[1..];
    } else {
      assert a + b == b;
    }
  }

  /** The second replacement leaves no triple backtick behind, even where a
      deletion splices backticks on either side of it together. */
  lemma {:induction false} NoFenceSurvives(s: string, eatNewline: bool)
    ensures !Contains(ReplaceAll(s, FENCE, eatNewline), FENCE)
    decreases |s|
  {
    if |s| == 0 {
    } else if FENCE <= s {
      var rest := s[3..];
      if eatNewline && |rest| > 0 && rest[0] == '\n' {
        NoFenceSurvives(rest[1..], eatNewline);
      } else {
        NoFenceSurvives(rest, eatNewline);
      }
    } else {
      var t := ReplaceAll(s[1..], FENCE, eatNewline);
      NoFenceSurvives(s[1..], eatNewline);
      var r := [s[0]] + t;
      assert r == ReplaceAll(s, FENCE, eatNewline);
      assert r[1..] == t;
      if s[0] == '`' && |s| >= 2 && s[1] == '`' {
        // the scan did not match at 0, so s[2] is not a backtick
        if |s| >= 3 {
          assert s[..3] == [s[0], s[1], s[2]];
        }
        assert !(FENCE <= s[1..]);
        assert s[1..][1..] == s[2..];
        assert t == [s[1]] + ReplaceAll(s[2..], FENCE, eatNewline);
        FirstOutputChar(s[2..], eatNewline);
      } else {
        FirstOutputChar(s[1..], eatNewline);
      }
      assert !(FENCE <= r);
    }
  }

  /** The first character produced is a backtick only if the input starts
      with one. */
  lemma FirstOutputChar(s: string, eatNewline: bool)
    ensures var r := ReplaceAll(s, FENCE, eatNewline);
            |r| > 0 && r[0] == '`' ==> |s| > 0 && s[0] == '`'
  {
    if |s| > 0 && s[0] != '`' {
      assert !(FENCE <= s);
    }
  }

  /** The full cleanup: delete the ```json markers, then the bare ```
      markers, then trim. */
  function Clean(raw: string, eatNewline: bool): (r: string)
    ensures !Contains(r, FENCE)
    ensures IsTrimmed(r)
  {
    var stripped := ReplaceAll(ReplaceAll(raw, JSON_FENCE, eatNewline), FENCE, eatNewline);
    NoFenceSurvives(ReplaceAll(raw, JSON_FENCE, eatNewline), eatNewline);
    var r := Trim(stripped);
    var i, j :| 0 <= i <= j <= |stripped| && r == stripped[i..j];
    NotContainsInfix(stripped, FENCE, i, j);
    r
  }

  /** The cleanup used by `analyzeResume` (lines 37-40). */
  function CleanReply(raw: string): (r: string)
    ensures !Contains(r, FENCE)
    ensures IsTrimmed(r)
  {
    Clean(raw, true)
  }

  /** Cleaning an already cleaned text changes nothing. */
  lemma CleanIdempotent(raw: string, eatNewline: bool)
    ensures Clean(Clean(raw, eatNewline), eatNewline) == Clean(raw, eatNewline)
  {
    var t := Clean(raw, eatNewline);
    assert JSON_FENCE[..3] == FENCE;
    NotContainsLongerPattern(t, JSON_FENCE, 3);
    assert ReplaceAll(t, JSON_FENCE, eatNewline) == t;
    assert ReplaceAll(t, FENCE, eatNewline) == t;
    TrimTrimmed(t);
  }

  /** A reply without any backtick is only trimmed. */
  lemma CleanWithoutBackticks(raw: string, eatNewline: bool)
    requires '`' !in raw
    ensures Clean(raw, eatNewline) == Trim(raw)
  {
    AbsentFirstChar(raw, JSON_FENCE);
    AbsentFirstChar(raw, FENCE);
  }

  /** A fenced JSON body, as the model usually wraps it, comes back exactly
      when the body is trimmed and contains no backtick. */
  lemma CleanFencedBody(body: string, eatNewline: bool)
    requires IsTrimmed(body) && '`' !in body
    ensures Clean("```json\n" + body + "\n```", eatNewline) == body
  {
    var lead := if eatNewline then "" else "\n";
    FencedFirstPass(body, eatNewline);
    FencedSecondPass(lead + body, eatNewline);
    assert lead + body + "\n" == lead + (body + "\n");
    TrimAround(lead, body, "\n");
  }

  /** Deleting the ```json marker leaves the body and the closing marker. */
  lemma FencedFirstPass(body: string, eatNewline: bool)
    requires '`' !in body
    ensures ReplaceAll("```json\n" + body + "\n```", JSON_FENCE, eatNewline)
            == (if eatNewline then "" else "\n") + body + "\n```"
  {
    var tail := "\n```";
    var s := "```json\n" + body + tail;
    assert s[..7] == JSON_FENCE;
    var rest := s[7..];
    assert rest == "\n" + body + tail;
    ShortNotContains(tail, JSON_FENCE);
    if eatNewline {
      assert rest[1..] == body + tail;
      ReplaceAllSkipsPlain(body, tail, JSON_FENCE, eatNewline);
    } else {
      ReplaceAllSkipsPlain("\n" + body, tail, JSON_FENCE, eatNewline);
    }
  }

  /** Deleting the closing marker leaves its preceding newline. */
  lemma FencedSecondPass(front: string, eatNewline: bool)
    requires '`' !in front
    ensures ReplaceAll(front + "\n```", FENCE, eatNewline) == front + "\n"
  {
    var tail := "\n```";
    assert ReplaceAll("```", FENCE, eatNewline) == [];
    assert tail[1..] == "```";
    assert tail[0] != FENCE[0];
    assert ReplaceAll(tail, FENCE, eatNewline) == "\n";
    ReplaceAllSkipsPlain(front, tail, FENCE, eatNewline);
  }

  /** Why `analyzeResume` fails: the model call threw, or `JSON.parse`
      rejected the cleaned text. Both are rethrown to the caller. */
  datatype AnalysisError = GenerationFailed | InvalidJson

  /** `analyzeResume` (lines 30-46): the parsed cleaned reply, or the error,
      never a default value in its place. `parse` stands for `JSON.parse`. */
  function AnalyzeResume(reply: AiReply<string>, parse: string -> Option<Json>): (r: Result<Json, AnalysisError>)
    ensures r.Ok? <==> reply.Answered? && parse(CleanReply(reply.value)).Some?
    ensures r.Ok? ==> r.value == parse(CleanReply(reply.value)).value
    ensures reply.Unavailable? ==> r == Err(GenerationFailed)
    ensures reply.Answered? && parse(CleanReply(reply.value)).None? ==> r == Err(InvalidJson)
  {
    match reply
    case Unavailable => Err(GenerationFailed)
    case Answered(text) =>
      match parse(CleanReply(text))
      case None => Err(InvalidJson)
      case Some(v) => Ok(v)
  }
}
