/** app/api/job-match/route.ts: job matching without sign-in. The record is
    looked up by id alone, the reply is cleaned and parsed, and the result is
    merged into `aiAnalysis` under the key `jobMatch`. */
module JobMatchApiRoute {
  import opened Basics
  import opened JsonValues
  import opened Text
  import opened Store
  import opened Http
  import Gemini

  const MISSING_INPUT_MESSAGE: string := "Missing resumeId or jobDescription"
  const NOT_FOUND_MESSAGE: string := "Resume not found or text missing"
  const FAILURE_MESSAGE: string := "Job match failed"
  const JOB_MATCH_KEY: string := "jobMatch"

  /** The JSON body; a field that is absent or `null` is `None`. */
  datatype JobMatchRequest = JobMatchRequest(resumeId: Option<string>, jobDescription: Option<string>)

  /** Lines 37-40: the fence cleanup without the optional newline. */
  function CleanReply(raw: string): (r: string)
    ensures !Contains(r, Gemini.FENCE)
    ensures IsTrimmed(r)
  {
    Gemini.Clean(raw, false)
  }

  /** `{ ...(prior as object), jobMatch: parsed }` (lines 48-51): every entry
      spread out of `prior` except `jobMatch`, which now holds `parsed`. */
  function MergeJobMatch(prior: Json, parsed: Json): (r: Json)
    ensures r.JObject?
    ensures JOB_MATCH_KEY in r.fields && r.fields[JOB_MATCH_KEY] == parsed
    ensures forall k :: k != JOB_MATCH_KEY ==> (k in r.fields <==> k in SpreadEntries(prior))
    ensures forall k :: k != JOB_MATCH_KEY && k in r.fields ==> r.fields[k] == SpreadEntries(prior)[k]
    ensures prior.JObject? ==> r.fields.Keys == prior.fields.Keys + {JOB_MATCH_KEY}
  {
    JObject(SpreadEntries(prior)[JOB_MATCH_KEY := parsed])
  }

  /** The request passes the falsiness test of lines 9-14. */
  predicate HasInputs(req: JobMatchRequest) {
    !Falsy(req.resumeId) && !Falsy(req.jobDescription)
  }

  /** The record exists and has text (lines 16-25). */
  predicate Matchable(store: Records, id: ResumeId) {
    FindUnique(store, id).Some? && FindUnique(store, id).value.text != ""
  }

  /** The parsed reply, when the model answered and `JSON.parse` accepted the
      cleaned text. */
  function ParsedReply(reply: Gemini.AiReply<string>, parse: string -> Option<Json>): Option<Json> {
    if reply.Answered? then parse(CleanReply(reply.value)) else None
  }

  /** `POST` (lines 5-63). `reply` is what `matchJobDescription` returned for
      the record's text and the job description; `parse` is `JSON.parse`. */
  function Post(body: Option<JobMatchRequest>, reply: Gemini.AiReply<string>,
                parse: string -> Option<Json>, store: Records): (r: Reply)
    ensures r.status in {OK, BAD_REQUEST, NOT_FOUND, SERVER_ERROR}
    ensures r.status != OK ==> r.store == store
    ensures r.status == BAD_REQUEST <==> body.Some? && !HasInputs(body.value)
    ensures r.status == BAD_REQUEST ==> r.body == ErrorMessage(MISSING_INPUT_MESSAGE)
    ensures r.status == NOT_FOUND <==>
              body.Some? && HasInputs(body.value) && !Matchable(store, body.value.resumeId.value)
    ensures r.status == NOT_FOUND ==> r.body == ErrorMessage(NOT_FOUND_MESSAGE)
    ensures r.status == SERVER_ERROR ==> r.body == ErrorMessage(FAILURE_MESSAGE)
    ensures r.status == OK <==>
              body.Some? && HasInputs(body.value) && Matchable(store, body.value.resumeId.value)
              && ParsedReply(reply, parse).Some?
    ensures r.status == OK ==>
              var id := body.value.resumeId.value;
              var parsed := ParsedReply(reply, parse).value;
              && r.body == Payload(parsed)
              && |r.store| == |store|
              && (forall k :: 0 <= k < |store| && store[k].id != id ==> r.store[k] == store[k])
              && (forall k :: 0 <= k < |store| && store[k].id == id ==>
                    && r.store[k].aiAnalysis == MergeJobMatch(store[k].aiAnalysis, parsed)
                    && r.store[k].aiAnalysis.fields[JOB_MATCH_KEY] == r.body.value
                    && r.store[k].(aiAnalysis := store[k].aiAnalysis) == store[k])
  {
    if body.None? then Reply(SERVER_ERROR, ErrorMessage(FAILURE_MESSAGE), store)
    else if !HasInputs(body.value) then Reply(BAD_REQUEST, ErrorMessage(MISSING_INPUT_MESSAGE), store)
    else
      var id := body.value.resumeId.value;
      match FindUnique(store, id)
      case None => Reply(NOT_FOUND, ErrorMessage(NOT_FOUND_MESSAGE), store)
      case Some(resume) =>
        if resume.text == "" then Reply(NOT_FOUND, ErrorMessage(NOT_FOUND_MESSAGE), store)
        else match reply
          case Unavailable => Reply(SERVER_ERROR, ErrorMessage(FAILURE_MESSAGE), store)
          case Answered(raw) =>
            match parse(CleanReply(raw))
            case None => Reply(SERVER_ERROR, ErrorMessage(FAILURE_MESSAGE), store)
            case Some(parsed) =>
              var updated := UpdateWhere(store, id, (x: Resume) => x.(aiAnalysis := MergeJobMatch(x.aiAnalysis, parsed)));
              Reply(OK, Payload(parsed), updated)
  }

  /** The route as written, where the bundler only warns about the missing
      export: lib/gemini.ts exports only `analyzeResume`, so the imported
      `matchJobDescription` (line 3) is bound to undefined, and calling it
      (line 28) throws into the catch of lines 56-62, exactly the
      `Unavailable` reply. A type-checked build refuses the file instead.
      Either way no request reaches the 200 branch or writes anything. */
  function PostAsWritten(body: Option<JobMatchRequest>, parse: string -> Option<Json>, store: Records): (r: Reply)
    ensures r.status in {BAD_REQUEST, NOT_FOUND, SERVER_ERROR}
    ensures r.store == store
    ensures r.status == SERVER_ERROR <==>
              body.None? || (HasInputs(body.value) && Matchable(store, body.value.resumeId.value))
  {
    Post(body, Gemini.Unavailable, parse, store)
  }

  /** The request that shows it: a well-formed request for a record with
      text fails with 500 as written, where a model that answers with
      parseable text gives 200. */
  lemma MatchFailsAsWritten(id: ResumeId, jobDescription: string, raw: string,
                            parse: string -> Option<Json>, store: Records)
    requires id != "" && jobDescription != "" && Matchable(store, id)
    requires parse(CleanReply(raw)).Some?
    ensures var req := Some(JobMatchRequest(Some(id), Some(jobDescription)));
            && PostAsWritten(req, parse, store).status == SERVER_ERROR
            && Post(req, Gemini.Answered(raw), parse, store).status == OK
  {
  }

  /** There is no owner check: whoever names the id of any record with text
      gets that record matched and its `aiAnalysis` rewritten, whoever owns
      it. */
  lemma AnyRecordReachable(x: Resume, jobDescription: string, raw: string,
                           parse: string -> Option<Json>, store: Records)
    requires UniqueIds(store) && x in store && x.text != "" && x.id != "" && jobDescription != ""
    requires parse(CleanReply(raw)).Some?
    ensures var r := Post(Some(JobMatchRequest(Some(x.id), Some(jobDescription))), Gemini.Answered(raw), parse, store);
            && r.status == OK
            && exists k :: 0 <= k < |r.store| && r.store[k].id == x.id && r.store[k].userId == x.userId
                           && r.store[k].aiAnalysis == MergeJobMatch(x.aiAnalysis, parse(CleanReply(raw)).value)
  {
    var k :| 0 <= k < |store| && store[k] == x;
    var y := FindUnique(store, x.id).value;
    var m :| 0 <= m < |store| && store[m] == y;
    assert m == k;
    var r := Post(Some(JobMatchRequest(Some(x.id), Some(jobDescription))), Gemini.Answered(raw), parse, store);
    assert r.store[k].id == x.id;
  }
}
