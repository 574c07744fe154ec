/** The `userResume` table as an in-memory sequence of records, and the
    Prisma queries the route handlers issue against it. */
module Store {
  import opened Basics
  import opened JsonValues
  import opened Seqs

  type UserId = string
  type ResumeId = string

  const PROCESSING: string := "Processing"
  const COMPLETED: string := "Completed"

  /** One uploaded résumé. An unset `text` column is the empty string (the
      handlers test it only for falsiness); unset JSON columns are `JNull`;
      `uploadedAt` is the creation timestamp, used only for ordering. */
  datatype Resume = Resume(
    id: ResumeId,
    userId: UserId,
    fileName: string,
    fileUrl: string,
    text: string,
    atsScore: Option<int>,
    status: string,
    aiAnalysis: Json,
    jobMatch: Json,
    uploadedAt: int)

  type Records = seq<Resume>

  /** The primary-key constraint on `id`. */
  ghost predicate UniqueIds(store: Records) {
    forall a, b :: 0 <= a < b < |store| ==> store[a].id != store[b].id
  }

  predicate HasId(store: Records, id: ResumeId) {
    exists k :: 0 <= k < |store| && store[k].id == id
  }

  /** `findUnique({ where: { id } })`. */
  function FindUnique(store: Records, id: ResumeId): (r: Option<Resume>)
    ensures r.None? <==> !HasId(store, id)
    ensures r.Some? ==> r.value in store && r.value.id == id
  {
    if |store| == 0 then None
    else if store[0].id == id then Some(store[0])
    else
      var r := FindUnique(store[1..], id);
      assert forall k :: 0 < k < |store| ==> store[k] == store[1..][k - 1];
      r
  }

  /** `findFirst({ where: { id, userId } })`: the record only when it belongs
      to `user`; someone else's record is indistinguishable from none. */
  function FindOwned(store: Records, id: ResumeId, user: UserId): (r: Option<Resume>)
    ensures r.None? <==> forall x :: x in store ==> x.id != id || x.userId != user
    ensures r.Some? ==> r.value in store && r.value.id == id && r.value.userId == user
  {
    if |store| == 0 then None
    else if store[0].id == id && store[0].userId == user then Some(store[0])
    else
      var r := FindOwned(store[1..], id, user);
      assert forall x :: x in store ==> x == store[0] || x in store[1..];
      r
  }

  /** `update({ where: { id }, data })`: `change` applied to the record with
      that id, every other record left as it was. */
  function UpdateWhere(store: Records, id: ResumeId, change: Resume -> Resume): (s': Records)
    ensures |s'| == |store|
    ensures forall k :: 0 <= k < |store| && store[k].id != id ==> s'[k] == store[k]
    ensures forall k :: 0 <= k < |store| && store[k].id == id ==> s'[k] == change(store[k])
  {
    seq(|store|, k requires 0 <= k < |store| => if store[k].id == id then change(store[k]) else store[k])
  }

  /** Descending `uploadedAt`, the order of `orderBy: { uploadedAt: "desc" }`:
      no record is newer than the one before it. */
  predicate NewestFirst(s: Records) {
    forall k :: 0 < k < |s| ==> s[k - 1].uploadedAt >= s[k].uploadedAt
  }

  function InsertByDate(x: Resume, s: Records): (r: Records)
    requires NewestFirst(s)
    ensures NewestFirst(r)
    ensures multiset(r) == multiset(s) + multiset{x}
    ensures |r| == |s| + 1 && (r[0] == x || (|s| > 0 && r[0] == s[0]))
    decreases |s|
  {
    if |s| == 0 || x.uploadedAt >= s[0].uploadedAt then
      [x] + s
    else
      var rest := InsertByDate(x, s[1..]);
      assert s == [s[0]] + s[1..];
      [s[0]] + rest
  }

  /** The same records, newest first. */
  function SortNewestFirst(s: Records): (r: Records)
    ensures NewestFirst(r)
    ensures multiset(r) == multiset(s)
    decreases |s|
  {
    if |s| == 0 then []
    else
      assert s == [s[0]] + s[1..];
      InsertByDate(s[0], SortNewestFirst(s[1..]))
  }

  /** `findMany({ where: { userId }, orderBy: { uploadedAt: "desc" } })`:
      exactly the records of `user`, each once, newest first. */
  function FindManyByOwner(store: Records, user: UserId): (r: Records)
    ensures forall x :: x in r ==> x.userId == user
    ensures forall x :: x in store && x.userId == user ==> x in r
    ensures forall x :: multiset(r)[x] == if x.userId == user then multiset(store)[x] else 0
    ensures NewestFirst(r)
  {
    var owned := Keep(store, (x: Resume) => x.userId == user);
    KeepCounts(store, (x: Resume) => x.userId == user);
    var r := SortNewestFirst(owned);
    assert forall x :: x in r <==> x in multiset(owned);
    r
  }

  /** The lifecycle every record keeps: it is either still processing, with
      no score, or completed, with one. */
  predicate LifecycleOk(r: Resume) {
    && (r.status == PROCESSING || r.status == COMPLETED)
    && (r.status == PROCESSING <==> r.atsScore.None?)
  }

  ghost predicate Valid(store: Records) {
    && UniqueIds(store)
    && forall k :: 0 <= k < |store| ==> LifecycleOk(store[k])
  }
}
