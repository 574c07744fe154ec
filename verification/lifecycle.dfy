/** The record lifecycle across all route handlers: every request is one
    step on the table, and every step keeps keys unique and keeps
    "processing exactly when unscored". */
module Lifecycle {
  import opened Basics
  import opened JsonValues
  import opened Store
  import opened Http
  import Gemini
  import UploadRoute
  import ProcessRoute
  import JobMatchApiRoute
  import JobMatchRoute
  import RewriteRoute
  import ResumesRoute
  import AnalyzeRoute

  /** One request, with everything the environment supplies for it. */
  datatype Request =
    | Upload(auth: Option<UserId>, file: UploadRoute.UploadedFile, newId: ResumeId, now: int)
    | Process(processBody: Option<ProcessRoute.ProcessRequest>, draw: ProcessRoute.ScoreDraw)
    | OpenJobMatch(openBody: Option<JobMatchApiRoute.JobMatchRequest>, reply: Gemini.AiReply<string>,
                   parse: string -> Option<Json>)
    | OwnedJobMatch(caller: Option<UserId>, matchBody: Option<JobMatchRoute.MatchRequest>,
                    result: Gemini.AiReply<Json>)
    | Rewrite(author: Option<UserId>, rewriteBody: Option<RewriteRoute.RewriteRequest>,
              text: Gemini.AiReply<string>)
    | ListResumes(viewer: Option<UserId>)
    | ListAnalyses(reader: Option<UserId>)

  /** The table after serving one request. */
  function Step(store: Records, req: Request): Records {
    match req
    case Upload(auth, file, newId, now) =>
      (match UploadRoute.Upload(auth, file, newId, now, store)
       case Ok(s') => s'
       case Err(_) => store)
    case Process(body, draw) => ProcessRoute.Post(body, draw, store).store
    case OpenJobMatch(body, reply, parse) => JobMatchApiRoute.Post(body, reply, parse, store).store
    case OwnedJobMatch(auth, body, result) => JobMatchRoute.Post(auth, body, result, store).store
    case Rewrite(auth, body, text) => RewriteRoute.Post(auth, body, text, store).store
    case ListResumes(auth) => ResumesRoute.Get(auth, store).store
    case ListAnalyses(auth) => AnalyzeRoute.Get(auth, store).store
  }

  /** The table after serving requests one after another. */
  function Run(store: Records, reqs: seq<Request>): Records
    decreases |reqs|
  {
    if |reqs| == 0 then store else Run(Step(store, reqs[0]), reqs[1..])
  }

  /** A step that only rewrites the analysis columns keeps the table valid. */
  lemma AnalysisOnlyKeepsValid(store: Records, s': Records)
    requires Valid(store) && |s'| == |store|
    requires forall k :: 0 <= k < |store| ==>
               s'[k].(aiAnalysis := store[k].aiAnalysis, jobMatch := store[k].jobMatch) == store[k]
    ensures Valid(s')
  {
    forall k | 0 <= k < |store| ensures s'[k].id == store[k].id && LifecycleOk(s'[k]) {
      var x := s'[k].(aiAnalysis := store[k].aiAnalysis, jobMatch := store[k].jobMatch);
      assert x.id == s'[k].id && x.status == s'[k].status && x.atsScore == s'[k].atsScore;
    }
  }

  /** Every request keeps the table valid. */
  lemma StepKeepsValid(store: Records, req: Request)
    requires Valid(store)
    ensures Valid(Step(store, req))
  {
    match req
    case Upload(auth, file, newId, now) =>
      UploadRoute.UploadKeepsValid(auth, file, newId, now, store);
    case Process(body, draw) =>
      ProcessRoute.ProcessKeepsValid(body, draw, store);
    case OpenJobMatch(body, reply, parse) =>
      var r := JobMatchApiRoute.Post(body, reply, parse, store);
      if r.status == OK {
        AnalysisOnlyKeepsValid(store, r.store);
      }
    case OwnedJobMatch(auth, body, result) =>
      var r := JobMatchRoute.Post(auth, body, result, store);
      if r.status == OK {
        AnalysisOnlyKeepsValid(store, r.store);
      }
    case Rewrite(_, _, _) =>
    case ListResumes(_) =>
    case ListAnalyses(_) =>
  }

  /** Any sequence of requests keeps the table valid. */
  lemma {:induction false} RunKeepsValid(store: Records, reqs: seq<Request>)
    requires Valid(store)
    ensures Valid(Run(store, reqs))
    decreases |reqs|
  {
    if |reqs| > 0 {
      StepKeepsValid(store, reqs[0]);
      RunKeepsValid(Step(store, reqs[0]), reqs[1..]);
    }
  }

  /** Starting from an empty table, a completed record always has a score
      and a processing record never has one. */
  lemma CompletedHasScore(reqs: seq<Request>, x: Resume)
    requires x in Run([], reqs)
    ensures x.status == COMPLETED ==> x.atsScore.Some?
    ensures x.status == PROCESSING ==> x.atsScore.None?
  {
    RunKeepsValid([], reqs);
    var s := Run([], reqs);
    var k :| 0 <= k < |s| && s[k] == x;
    assert LifecycleOk(s[k]);
  }

  /** Upload then process: the new record ends up completed, scored 65..90,
      with text, so a job match on it can go ahead. */
  lemma UploadThenProcess(user: UserId, file: UploadRoute.UploadedFile, newId: ResumeId, now: int,
                          draw: ProcessRoute.ScoreDraw, store: Records)
    requires Valid(store) && !HasId(store, newId)
    ensures var s1 := Step(store, Upload(Some(user), file, newId, now));
            var s2 := Step(s1, Process(Some(ProcessRoute.ProcessRequest(Some(newId))), draw));
            && |s2| == |store| + 1
            && s2[|store|].id == newId && s2[|store|].userId == user
            && s2[|store|].status == COMPLETED && s2[|store|].text != ""
            && s2[|store|].atsScore.Some? && 65 <= s2[|store|].atsScore.value <= 90
            && JobMatchRoute.Ready(s2, newId, user)
  {
    var s1 := Step(store, Upload(Some(user), file, newId, now));
    assert s1[|store|].id == newId;
    var s2 := Step(s1, Process(Some(ProcessRoute.ProcessRequest(Some(newId))), draw));
    UploadRoute.UploadKeepsValid(Some(user), file, newId, now, store);
    ProcessRoute.ProcessKeepsValid(Some(ProcessRoute.ProcessRequest(Some(newId))), draw, s1);
    assert s2[|store|].id == newId && s2[|store|].userId == user;
    var y := FindOwned(s2, newId, user).value;
    var m :| 0 <= m < |s2| && s2[m] == y;
    assert m == |store|;
  }
}
