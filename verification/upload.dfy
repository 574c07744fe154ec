/** app/api/uploadthing/core.ts: the `resumeUploader` route. Its middleware
    admits only signed-in users; `onUploadComplete` creates the record. */
module UploadRoute {
  import opened Basics
  import opened JsonValues
  import opened Store

  const UNAUTHORIZED_MESSAGE: string := "Unauthorized"

  /** The file UploadThing reports as stored. */
  datatype UploadedFile = UploadedFile(name: string, url: string)

  datatype UploadError =
    | Rejected(message: string)   // the middleware threw
    | CreateFailed                // the insert violated the key constraint

  /** The middleware (lines 9-17): the caller's id, or the thrown error. */
  function Middleware(auth: Option<UserId>): (r: Result<UserId, UploadError>)
    ensures r.Ok? <==> auth.Some?
    ensures r.Ok? ==> r.value == auth.value
    ensures r.Err? ==> r.error == Rejected(UNAUTHORIZED_MESSAGE)
  {
    match auth
    case None => Err(Rejected(UNAUTHORIZED_MESSAGE))
    case Some(user) => Ok(user)
  }

  /** `onUploadComplete` (lines 18-30): one new record, still processing and
      unscored, owned by the uploader and pointing at the file. `newId` and
      `now` are the database's generated key and timestamp. */
  function OnUploadComplete(user: UserId, file: UploadedFile, newId: ResumeId, now: int, store: Records)
    : (r: Result<Records, UploadError>)
    ensures r.Err? <==> HasId(store, newId)
    ensures r.Err? ==> r.error == CreateFailed
    ensures r.Ok? ==> |r.value| == |store| + 1 && r.value[..|store|] == store
    ensures r.Ok? ==> var x := r.value[|store|];
                      && x.id == newId && x.userId == user
                      && x.fileName == file.name && x.fileUrl == file.url
                      && x.status == PROCESSING && x.atsScore == None
                      && x.text == "" && x.aiAnalysis == JNull && x.jobMatch == JNull
                      && x.uploadedAt == now
  {
    if HasId(store, newId) then Err(CreateFailed)
    else
      var created := Resume(newId, user, file.name, file.url, "", None, PROCESSING, JNull, JNull, now);
      assert (store + [created])[..|store|] == store;
      Ok(store + [created])
  }

  /** The whole upload: the middleware gates the completion step. */
  function Upload(auth: Option<UserId>, file: UploadedFile, newId: ResumeId, now: int, store: Records)
    : (r: Result<Records, UploadError>)
    ensures auth.None? ==> r == Err(Rejected(UNAUTHORIZED_MESSAGE))
    ensures auth.Some? ==> r == OnUploadComplete(auth.value, file, newId, now, store)
  {
    match Middleware(auth)
    case Err(e) => Err(e)
    case Ok(user) => OnUploadComplete(user, file, newId, now, store)
  }

  /** An upload keeps the table valid: keys stay unique, and the new record
      starts its lifecycle in the processing state without a score. */
  lemma UploadKeepsValid(auth: Option<UserId>, file: UploadedFile, newId: ResumeId, now: int, store: Records)
    requires Valid(store)
    ensures var r := Upload(auth, file, newId, now, store);
            r.Ok? ==> Valid(r.value) && |r.value| == |store| + 1
  {
    var r := Upload(auth, file, newId, now, store);
    if r.Ok? {
      var s' := r.value;
      assert forall k :: 0 <= k < |store| ==> s'[k] == store[k];
      assert !HasId(store, newId);
    }
  }
}
