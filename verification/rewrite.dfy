/** app/api/rewrite-resume/route.ts: rewriting the signed-in owner's résumé
    text for a target role. Nothing is stored. */
module RewriteRoute {
  import opened Basics
  import opened Store
  import opened Http
  import Gemini

  const UNAUTHORIZED_MESSAGE: string := "Unauthorized"
  const NOT_FOUND_MESSAGE: string := "Resume not found or empty"
  const FAILURE_MESSAGE: string := "Resume rewrite failed"

  /** The JSON body. The target role is only forwarded to the model. */
  datatype RewriteRequest = RewriteRequest(resumeId: ResumeId, targetRole: Option<string>)

  /** `POST` (lines 8-58). `reply` is the text the model generated. */
  function Post(auth: Option<UserId>, body: Option<RewriteRequest>, reply: Gemini.AiReply<string>,
                store: Records): (r: Reply)
    ensures r.store == store
    ensures r.status in {OK, UNAUTHORIZED, NOT_FOUND, SERVER_ERROR}
    ensures r.status == UNAUTHORIZED <==> auth.None?
    ensures r.status == UNAUTHORIZED ==> r.body == ErrorMessage(UNAUTHORIZED_MESSAGE)
    ensures r.status == NOT_FOUND <==>
              && auth.Some? && body.Some?
              && (FindOwned(store, body.value.resumeId, auth.value).None?
                  || FindOwned(store, body.value.resumeId, auth.value).value.text == "")
    ensures r.status == NOT_FOUND ==> r.body == ErrorMessage(NOT_FOUND_MESSAGE)
    ensures r.status == SERVER_ERROR <==>
              auth.Some? && (body.None? || (FindOwned(store, body.value.resumeId, auth.value).Some?
                                            && FindOwned(store, body.value.resumeId, auth.value).value.text != ""
                                            && reply.Unavailable?))
    ensures r.status == SERVER_ERROR ==> r.body == ErrorMessage(FAILURE_MESSAGE)
    ensures r.status == OK ==> reply.Answered? && r.body == Rewritten(reply.value)
  {
    if auth.None? then Reply(UNAUTHORIZED, ErrorMessage(UNAUTHORIZED_MESSAGE), store)
    else if body.None? then Reply(SERVER_ERROR, ErrorMessage(FAILURE_MESSAGE), store)
    else
      match FindOwned(store, body.value.resumeId, auth.value)
      case None => Reply(NOT_FOUND, ErrorMessage(NOT_FOUND_MESSAGE), store)
      case Some(resume) =>
        if resume.text == "" then Reply(NOT_FOUND, ErrorMessage(NOT_FOUND_MESSAGE), store)
        else match reply
          case Unavailable => Reply(SERVER_ERROR, ErrorMessage(FAILURE_MESSAGE), store)
          case Answered(rewritten) => Reply(OK, Rewritten(rewritten), store)
  }

  /** Someone else's record is treated as absent: 404. */
  lemma ForeignRecordNotFound(user: UserId, req: RewriteRequest, reply: Gemini.AiReply<string>, store: Records)
    requires forall x :: x in store && x.id == req.resumeId ==> x.userId != user
    ensures Post(Some(user), Some(req), reply, store) == Reply(NOT_FOUND, ErrorMessage(NOT_FOUND_MESSAGE), store)
  {
  }

  /** The owner of a record with text gets the model's text back unchanged. */
  lemma OwnerGetsRewrite(x: Resume, targetRole: Option<string>, rewritten: string, store: Records)
    requires UniqueIds(store) && x in store && x.text != ""
    ensures Post(Some(x.userId), Some(RewriteRequest(x.id, targetRole)), Gemini.Answered(rewritten), store)
            == Reply(OK, Rewritten(rewritten), store)
  {
    var k :| 0 <= k < |store| && store[k] == x;
    var y := FindOwned(store, x.id, x.userId).value;
    var m :| 0 <= m < |store| && store[m] == y;
    assert m == k;
  }
}
