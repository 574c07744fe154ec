/** app/api/resumes/route.ts: the signed-in user's records, newest first,
    wrapped as `{ resumes }`; an anonymous caller gets an empty list. */
module ResumesRoute {
  import opened Basics
  import opened Store
  import opened Http

  /** `GET` (lines 5-23). */
  function Get(auth: Option<UserId>, store: Records): (r: Reply)
    ensures r.store == store && r.status == OK && r.body.ResumeEnvelope?
    ensures auth.None? ==> r.body.resumes == []
    ensures auth.Some? ==> forall x :: x in r.body.resumes ==> x.userId == auth.value
    ensures auth.Some? ==> forall x :: x in store && x.userId == auth.value ==> x in r.body.resumes
    ensures auth.Some? ==> forall x :: multiset(r.body.resumes)[x] == if x.userId == auth.value then multiset(store)[x] else 0
    ensures NewestFirst(r.body.resumes)
  {
    match auth
    case None => Reply(OK, ResumeEnvelope([]), store)
    case Some(user) => Reply(OK, ResumeEnvelope(FindManyByOwner(store, user)), store)
  }
}

/** app/api/analyze/route.ts: the same listing as a bare array, with 401 for
    an anonymous caller. */
module AnalyzeRoute {
  import opened Basics
  import opened Store
  import opened Http
  import ResumesRoute

  const UNAUTHORIZED_MESSAGE: string := "Unauthorized"

  /** `GET` (lines 5-21). */
  function Get(auth: Option<UserId>, store: Records): (r: Reply)
    ensures r.store == store
    ensures auth.None? ==> r.status == UNAUTHORIZED && r.body == ErrorMessage(UNAUTHORIZED_MESSAGE)
    ensures auth.Some? ==> r.status == OK && r.body.ResumeArray?
    ensures auth.Some? ==> forall x :: x in r.body.list ==> x.userId == auth.value
    ensures auth.Some? ==> forall x :: x in store && x.userId == auth.value ==> x in r.body.list
    ensures auth.Some? ==> forall x :: multiset(r.body.list)[x] == if x.userId == auth.value then multiset(store)[x] else 0
    ensures auth.Some? ==> NewestFirst(r.body.list)
  {
    match auth
    case None => Reply(UNAUTHORIZED, ErrorMessage(UNAUTHORIZED_MESSAGE), store)
    case Some(user) => Reply(OK, ResumeArray(FindManyByOwner(store, user)), store)
  }

  /** Both listings return the same records, each as often, newest first.
      They agree on the order of records with equal `uploadedAt` only
      because the model fixes one tie order for both. */
  lemma SameListAsResumesRoute(user: UserId, store: Records)
    ensures var a, b := Get(Some(user), store).body.list, ResumesRoute.Get(Some(user), store).body.resumes;
            && multiset(a) == multiset(b) && NewestFirst(a) && NewestFirst(b)
    ensures Get(Some(user), store).body.list == ResumesRoute.Get(Some(user), store).body.resumes
  {
  }
}
