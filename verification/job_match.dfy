/** app/job-match/route.ts: job matching for the signed-in owner. The model's
    result is stored, as returned, in the record's top-level `jobMatch`. */
module JobMatchRoute {
  import opened Basics
  import opened JsonValues
  import opened Store
  import opened Http
  import Gemini

  const UNAUTHORIZED_MESSAGE: string := "Unauthorized"
  const NOT_PROCESSED_MESSAGE: string := "Resume not processed yet"
  const FAILURE_MESSAGE: string := "Job match failed"

  /** The JSON body. The job description is only forwarded to the model. */
  datatype MatchRequest = MatchRequest(resumeId: ResumeId, jobDescription: Option<string>)

  /** The caller's record with that id exists and has text (lines 15-27). */
  predicate Ready(store: Records, id: ResumeId, user: UserId) {
    FindOwned(store, id, user).Some? && FindOwned(store, id, user).value.text != ""
  }

  /** `POST` (lines 6-49). `reply` is what `matchJobDescription` returned. */
  function Post(auth: Option<UserId>, body: Option<MatchRequest>, reply: Gemini.AiReply<Json>,
                store: Records): (r: Reply)
    ensures r.status in {OK, BAD_REQUEST, UNAUTHORIZED, SERVER_ERROR}
    ensures r.status != OK ==> r.store == store
    ensures r.status == UNAUTHORIZED <==> auth.None?
    ensures r.status == UNAUTHORIZED ==> r.body == ErrorMessage(UNAUTHORIZED_MESSAGE)
    ensures r.status == BAD_REQUEST <==>
              auth.Some? && body.Some? && !Ready(store, body.value.resumeId, auth.value)
    ensures r.status == BAD_REQUEST ==> r.body == ErrorMessage(NOT_PROCESSED_MESSAGE)
    ensures r.status == SERVER_ERROR ==> r.body == ErrorMessage(FAILURE_MESSAGE)
    ensures r.status == OK <==>
              auth.Some? && body.Some? && Ready(store, body.value.resumeId, auth.value) && reply.Answered?
    ensures r.status == OK ==>
              var id := body.value.resumeId;
              && r.body == Payload(reply.value)
              && |r.store| == |store|
              && (forall k :: 0 <= k < |store| && store[k].id != id ==> r.store[k] == store[k])
              && (forall k :: 0 <= k < |store| && store[k].id == id ==>
                    && r.store[k].jobMatch == reply.value
                    && r.store[k].(jobMatch := store[k].jobMatch) == store[k])
  {
    if auth.None? then Reply(UNAUTHORIZED, ErrorMessage(UNAUTHORIZED_MESSAGE), store)
    else if body.None? then Reply(SERVER_ERROR, ErrorMessage(FAILURE_MESSAGE), store)
    else
      var id := body.value.resumeId;
      match FindOwned(store, id, auth.value)
      case None => Reply(BAD_REQUEST, ErrorMessage(NOT_PROCESSED_MESSAGE), store)
      case Some(resume) =>
        if resume.text == "" then Reply(BAD_REQUEST, ErrorMessage(NOT_PROCESSED_MESSAGE), store)
        else match reply
          case Unavailable => Reply(SERVER_ERROR, ErrorMessage(FAILURE_MESSAGE), store)
          case Answered(result) =>
            Reply(OK, Payload(result), UpdateWhere(store, id, (x: Resume) => x.(jobMatch := result)))
  }

  /** The route as written, where the bundler only warns about the missing
      export: lib/gemini.ts exports only `analyzeResume`, so the imported
      `matchJobDescription` (line 4) is bound to undefined, and calling it
      (line 29) throws into the catch of lines 42-48, exactly the
      `Unavailable` reply. A type-checked build refuses the file instead.
      Either way nothing is ever stored in `jobMatch`. */
  function PostAsWritten(auth: Option<UserId>, body: Option<MatchRequest>, store: Records): (r: Reply)
    ensures r.status in {BAD_REQUEST, UNAUTHORIZED, SERVER_ERROR}
    ensures r.store == store
    ensures r.status == SERVER_ERROR <==>
              auth.Some? && (body.None? || Ready(store, body.value.resumeId, auth.value))
  {
    Post(auth, body, Gemini.Unavailable, store)
  }

  /** The request that shows it: the owner asking about a record with text
      gets 500 as written, where an answering model gives 200. */
  lemma MatchFailsAsWritten(user: UserId, req: MatchRequest, result: Json, store: Records)
    requires Ready(store, req.resumeId, user)
    ensures PostAsWritten(Some(user), Some(req), store).status == SERVER_ERROR
    ensures Post(Some(user), Some(req), Gemini.Answered(result), store).status == OK
  {
  }

  /** Someone else's record is treated as absent: 400, and nothing changes. */
  lemma ForeignRecordIsAbsent(user: UserId, req: MatchRequest, reply: Gemini.AiReply<Json>, store: Records)
    requires forall x :: x in store && x.id == req.resumeId ==> x.userId != user
    ensures Post(Some(user), Some(req), reply, store) == Reply(BAD_REQUEST, ErrorMessage(NOT_PROCESSED_MESSAGE), store)
  {
  }

  /** `status` is never consulted: an owned record with text gets its
      `jobMatch` set whether or not processing has completed. */
  lemma StatusNotConsulted(x: Resume, jobDescription: Option<string>, result: Json, store: Records)
    requires UniqueIds(store) && x in store && x.text != ""
    ensures var r := Post(Some(x.userId), Some(MatchRequest(x.id, jobDescription)), Gemini.Answered(result), store);
            && r.status == OK
            && exists k :: 0 <= k < |r.store| && r.store[k] == x.(jobMatch := result)
  {
    var k :| 0 <= k < |store| && store[k] == x;
    var y := FindOwned(store, x.id, x.userId).value;
    var m :| 0 <= m < |store| && store[m] == y;
    assert m == k;
    var r := Post(Some(x.userId), Some(MatchRequest(x.id, jobDescription)), Gemini.Answered(result), store);
    assert r.store[k] == x.(jobMatch := result);
  }
}
