/** app/history/page.tsx, lines 39-53: the search box and status filter of
    the history page, applied to the fetched list. */
module History {
  import opened Text
  import opened Seqs
  import opened Store

  const ALL_STATUSES: string := "all"

  /** `r.fileName.toLowerCase().includes(search.toLowerCase())`. */
  predicate NameMatches(r: Resume, search: string) {
    Contains(Lower(r.fileName), Lower(search))
  }

  /** Whether a record is shown, stated as one condition: an empty search
      and the "all" choice each impose nothing. */
  predicate Shown(r: Resume, search: string, statusFilter: string) {
    && (search == "" || NameMatches(r, search))
    && (statusFilter == ALL_STATUSES || r.status == statusFilter)
  }

  function NameTest(search: string): Resume -> bool {
    (x: Resume) => NameMatches(x, search)
  }

  function StatusTest(statusFilter: string): Resume -> bool {
    (x: Resume) => x.status == statusFilter
  }

  function ShownTest(search: string, statusFilter: string): Resume -> bool {
    (x: Resume) => Shown(x, search, statusFilter)
  }

  /** The first pass (lines 42-46), skipped for an empty search. */
  function ByName(resumes: Records, search: string): (r: Records)
    ensures IsSubsequence(r, resumes)
    ensures forall x :: multiset(r)[x] == if search == "" || NameMatches(x, search) then multiset(resumes)[x] else 0
  {
    if search != "" then
      KeepCounts(resumes, NameTest(search));
      KeepIsSubsequence(resumes, NameTest(search));
      Keep(resumes, NameTest(search))
    else
      SubsequenceReflexive(resumes);
      resumes
  }

  /** The second pass (lines 48-50), skipped for "all". */
  function ByStatus(resumes: Records, statusFilter: string): (r: Records)
    ensures IsSubsequence(r, resumes)
    ensures forall x :: multiset(r)[x] == if statusFilter == ALL_STATUSES || x.status == statusFilter then multiset(resumes)[x] else 0
  {
    if statusFilter != ALL_STATUSES then
      KeepCounts(resumes, StatusTest(statusFilter));
      KeepIsSubsequence(resumes, StatusTest(statusFilter));
      Keep(resumes, StatusTest(statusFilter))
    else
      SubsequenceReflexive(resumes);
      resumes
  }

  /** The effect body: the records shown, in their fetched order. */
  function Filtered(resumes: Records, search: string, statusFilter: string): (r: Records)
    ensures IsSubsequence(r, resumes)
    ensures forall x :: x in r <==> x in resumes && Shown(x, search, statusFilter)
    ensures forall x :: multiset(r)[x] == if Shown(x, search, statusFilter) then multiset(resumes)[x] else 0
  {
    var byName := ByName(resumes, search);
    var r := ByStatus(byName, statusFilter);
    SubsequenceTransitive(r, byName, resumes);
    assert forall x :: x in r <==> x in multiset(r);
    assert forall x :: x in resumes <==> x in multiset(resumes);
    r
  }

  /** The two passes equal a single filter on `Shown`. */
  lemma FilteredIsOnePass(resumes: Records, search: string, statusFilter: string)
    ensures Filtered(resumes, search, statusFilter) == Keep(resumes, ShownTest(search, statusFilter))
  {
    var shown := ShownTest(search, statusFilter);
    if search != "" && statusFilter != ALL_STATUSES {
      BothPasses(resumes, search, statusFilter);
    } else if search != "" {
      KeepSame(resumes, NameTest(search), shown);
    } else if statusFilter != ALL_STATUSES {
      KeepSame(resumes, StatusTest(statusFilter), shown);
    } else {
      KeepEverything(resumes, shown);
    }
  }

  lemma BothPasses(resumes: Records, search: string, statusFilter: string)
    requires search != "" && statusFilter != ALL_STATUSES
    ensures Keep(Keep(resumes, NameTest(search)), StatusTest(statusFilter))
            == Keep(resumes, ShownTest(search, statusFilter))
  {
    KeepKeep(resumes, NameTest(search), StatusTest(statusFilter), ShownTest(search, statusFilter));
  }

  /** With no search and "all" statuses every record is shown, in order. */
  lemma NoFilterShowsAll(resumes: Records)
    ensures Filtered(resumes, "", ALL_STATUSES) == resumes
  {
  }

  /** Filtering the filtered list again with the same choices changes nothing. */
  lemma FilteredIdempotent(resumes: Records, search: string, statusFilter: string)
    ensures Filtered(Filtered(resumes, search, statusFilter), search, statusFilter)
            == Filtered(resumes, search, statusFilter)
  {
    FilteredIsOnePass(resumes, search, statusFilter);
    FilteredIsOnePass(Filtered(resumes, search, statusFilter), search, statusFilter);
    KeepIdempotent(resumes, ShownTest(search, statusFilter));
  }
}
