/** app/api/process-resume/route.ts: the mock processing step, which marks a
    record completed with placeholder text and a random score. */
module ProcessRoute {
  import opened Basics
  import opened Store
  import opened Http

  /** The placeholder text written in place of the extracted PDF text. */
  const MOCK_RESUME_TEXT: string :=
    "\n      Software Engineer with experience in JavaScript, React, Node.js,\n      REST APIs, databases, and cloud deployment.\n    "

  const FAILURE_MESSAGE: string := "Processing failed"

  /** The score of line 17, `Math.floor(65 + Math.random() * 25)`, minus 65:
      0..24 in exact arithmetic, and 25 as well because `65 + r * 25` rounds
      up to 90 for the largest double below 1. */
  type ScoreDraw = d: int | 0 <= d <= 25

  datatype ProcessRequest = ProcessRequest(resumeId: Option<string>)

  /** The score line 17 computes from the draw. */
  function Score(draw: ScoreDraw): (s: int)
    ensures 65 <= s <= 90
    ensures s - 65 == draw
  {
    65 + draw
  }

  /** The update of lines 19-26: the record is completed with the
      placeholder text and a score, and no other field is written. */
  function Processed(x: Resume, draw: ScoreDraw): (r: Resume)
    ensures r.status == COMPLETED && r.text == MOCK_RESUME_TEXT
    ensures r.atsScore.Some? && 65 <= r.atsScore.value <= 90
    ensures LifecycleOk(r)
    ensures r.(text := x.text, atsScore := x.atsScore, status := x.status) == x
  {
    x.(text := MOCK_RESUME_TEXT, atsScore := Some(Score(draw)), status := COMPLETED)
  }

  /** `POST` (lines 4-35). `req.json()` throws for a body that is not JSON;
      the update throws when no id is named or the id is not in the table.
      Each throw yields 500 with nothing written. */
  function Post(body: Option<ProcessRequest>, draw: ScoreDraw, store: Records): (r: Reply)
    ensures r.status == OK || r.status == SERVER_ERROR
    ensures r.status == SERVER_ERROR <==>
              body.None? || body.value.resumeId.None? || !HasId(store, body.value.resumeId.value)
    ensures r.status == SERVER_ERROR ==> r.body == ErrorMessage(FAILURE_MESSAGE) && r.store == store
    ensures r.status == OK ==> r.body == SuccessFlag && |r.store| == |store|
    ensures r.status == OK ==>
              forall k :: 0 <= k < |store| && store[k].id != body.value.resumeId.value ==> r.store[k] == store[k]
    ensures r.status == OK ==>
              forall k :: 0 <= k < |store| && store[k].id == body.value.resumeId.value ==>
                && r.store[k].status == COMPLETED
                && r.store[k].text == MOCK_RESUME_TEXT
                && r.store[k].atsScore.Some? && 65 <= r.store[k].atsScore.value <= 90
                && r.store[k].(text := store[k].text, atsScore := store[k].atsScore, status := store[k].status) == store[k]
  {
    if body.None? || body.value.resumeId.None? then Reply(SERVER_ERROR, ErrorMessage(FAILURE_MESSAGE), store)
    else
      var id := body.value.resumeId.value;
      if !HasId(store, id) then Reply(SERVER_ERROR, ErrorMessage(FAILURE_MESSAGE), store)
      else Reply(OK, SuccessFlag, UpdateWhere(store, id, x => Processed(x, draw)))
  }

  /** Processing keeps the table valid: a completed record always has a score. */
  lemma ProcessKeepsValid(body: Option<ProcessRequest>, draw: ScoreDraw, store: Records)
    requires Valid(store)
    ensures Valid(Post(body, draw, store).store)
  {
    var r := Post(body, draw, store);
    if r.status == OK {
      forall a, b | 0 <= a < b < |store| ensures r.store[a].id != r.store[b].id {
        assert r.store[a].id == store[a].id && r.store[b].id == store[b].id;
      }
    }
  }

  /** After processing, the record has non-empty text, so the job-match and
      rewrite handlers get past their "text present" test. */
  lemma ProcessProvidesText(id: ResumeId, draw: ScoreDraw, store: Records)
    requires HasId(store, id)
    ensures var r := Post(Some(ProcessRequest(Some(id))), draw, store);
            r.status == OK && FindUnique(r.store, id).Some? && FindUnique(r.store, id).value.text != ""
  {
    var r := Post(Some(ProcessRequest(Some(id))), draw, store);
    var k :| 0 <= k < |store| && store[k].id == id;
    assert r.store[k].id == id;
    var x := FindUnique(r.store, id).value;
    assert x in r.store;
    var m :| 0 <= m < |r.store| && r.store[m] == x;
    assert store[m].id == id;
  }
}
