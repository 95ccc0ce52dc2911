/** Reference counts of pages across a job: the deltas a committing job computes, and what they keep true
    of the whole page graph. */
module PageRefCounts {
  import opened Common
  import opened PageTrace
  import opened SetSum

  /** The delta that takes a count from one to zero, the least 32-bit integer. */
  const ONE_TO_ZERO: int := -0x8000_0000

  function Get(m: map<PageId, int>, p: PageId): int { if p in m then m[p] else 0 }

  /** The pages a job adds, with their references; its changes to the root set; the pages it deletes. */
  datatype Job = Job(newPages: Pages, rootDelta: map<PageId, int>, deleted: set<PageId>)

  /** All live pages with their references, counts, and references from the root set. */
  datatype Store = Store(pages: Pages, counts: map<PageId, int>, roots: map<PageId, int>)

  function Live(s: Store): set<PageId> { s.pages.Keys }

  // ---------------------------------------------------------------- the page graph

  /** References lead to live pages, or nowhere. */
  predicate NoDangling(pages: Pages, targets: set<PageId>) {
    forall p, q :: p in pages && q in pages[p] ==> q == NO_PAGE || q in targets
  }

  ghost predicate CountAt(s: Store, p: PageId)
    requires p in s.counts
  {
    s.counts[p] == 1 + Get(s.roots, p) + RefsTo(s.pages, Live(s), p)
  }

  /** A live page's count is one, plus its references from the root set, plus those from live pages. */
  ghost predicate CountInv(s: Store) {
    && NO_PAGE !in Live(s) && s.counts.Keys == Live(s) && NoDangling(s.pages, Live(s))
    && (forall p :: p in s.roots ==> s.roots[p] >= 0 && (s.roots[p] > 0 ==> p in Live(s)))
    && (forall p :: p in Live(s) ==> CountAt(s, p))
  }

  /** What the client of a job is responsible for: new ids, deleting only pages of count one, never taking
      away a root reference that is not there, and no reference to a page that is neither live nor new. */
  ghost predicate JobOk(s: Store, job: Job) {
    && job.newPages.Keys !! Live(s) && NO_PAGE !in job.newPages && job.deleted <= Live(s)
    && (forall d :: d in job.deleted ==> Get(s.counts, d) == 1 && d in job.rootDelta && job.rootDelta[d] == ONE_TO_ZERO)
    && (forall p :: p in job.rootDelta && p !in job.deleted ==>
          p in Live(s) + job.newPages.Keys && Get(s.roots, p) + job.rootDelta[p] >= 0)
    && NoDangling(job.newPages, Live(s) + job.newPages.Keys)
  }

  /** Nothing refers to a page of count one, so deleted pages never refer to each other. */
  lemma NobodyRefersToDeleted(s: Store, job: Job, d: PageId, from: set<PageId>)
    requires CountInv(s) && JobOk(s, job) && d in job.deleted && from <= Live(s)
    ensures Get(s.roots, d) == 0 && RefsTo(s.pages, from, d) == 0
  {
    assert CountAt(s, d);
    SumSplit(RefsFrom(s.pages, d), Live(s), from);
  }

  // ---------------------------------------------------------------- computing the deltas

  function Times(ids: multiset<PageId>, p: PageId): nat { if p == NO_PAGE then 0 else ids[p] }

  /** Adds one for every valid id reported, in whatever order. */
  method AddAll(delta0: map<PageId, int>, ids: multiset<PageId>) returns (delta: map<PageId, int>)
    ensures delta0.Keys <= delta.Keys && forall p :: Get(delta, p) == Get(delta0, p) + Times(ids, p)
  {
    delta := delta0;
    var rest := ids;
    while rest != multiset{}
      invariant rest <= ids && delta0.Keys <= delta.Keys
      invariant forall p :: Get(delta, p) == Get(delta0, p) + Times(ids, p) - Times(rest, p)
      decreases |rest|
    {
      var id :| id in rest;
      if id != NO_PAGE {
        delta := delta[id := Get(delta, id) + 1];
      }
      rest := rest - multiset{id};
    }
  }

  /** Subtracts one for every valid reference of a page. */
  method SubtractRefs(delta0: map<PageId, int>, refs: seq<PageId>) returns (delta: map<PageId, int>)
    ensures delta0.Keys <= delta.Keys && forall p :: Get(delta, p) == Get(delta0, p) - Times(multiset(refs), p)
  {
    delta := delta0;
    var k := 0;
    while k < |refs|
      invariant k <= |refs| && delta0.Keys <= delta.Keys
      invariant forall p :: Get(delta, p) == Get(delta0, p) - Times(multiset(refs[..k]), p)
    {
      forall p { ReportOne(refs, k, p); }
      if refs[k] != NO_PAGE {
        delta := delta[refs[k] := Get(delta, refs[k]) - 1];
      }
      k := k + 1;
    }
    assert refs[..k] == refs;
  }

  /** The pages that are new in the root set, where tracing starts. */
  function NewRoots(job: Job): set<PageId> { set p | p in job.newPages && Get(job.rootDelta, p) > 0 }

  /** Every new page is reachable from a new root, which pruning the job ensures. */
  ghost predicate Pruned(job: Job) { forall p :: p in job.newPages ==> Reachable(job.newPages, NewRoots(job), p) }

  /** The delta of page `p` before deleted pages are traced. */
  ghost function Added(job: Job, p: PageId): int {
    Get(job.rootDelta, p) + AsNat(p in job.newPages)
    + if p == NO_PAGE then 0 else RefsTo(job.newPages, job.newPages.Keys, p)
  }

  /** The delta of page `p`. */
  ghost function Delta(s: Store, job: Job, p: PageId): int {
    Added(job, p) - if p == NO_PAGE then 0 else RefsTo(s.pages, job.deleted, p)
  }

  /** The first half of `get_page_ref_count_updates`: root set, new pages, references of new pages. */
  method TraceAdded(job: Job) returns (delta: map<PageId, int>)
    requires NO_PAGE !in job.newPages && Pruned(job)
    ensures job.rootDelta.Keys <= delta.Keys && forall p :: Get(delta, p) == Added(job, p)
  {
    delta := AddAll(job.rootDelta, multiset(job.newPages.Keys));
    var roots := ListOf(NewRoots(job));
    var visited, reported := TraceRefs(job.newPages, roots);
    assert visited == job.newPages.Keys;
    ghost var before := delta;
    delta := AddAll(delta, reported);
    forall p ensures Get(delta, p) == Added(job, p) {
      assert Get(before, p) == Get(job.rootDelta, p) + Times(multiset(job.newPages.Keys), p);
      assert reported[p] == RefsTo(job.newPages, job.newPages.Keys, p);
    }
  }

  /** The elements of a set, in some order. */
  method ListOf(s: set<PageId>) returns (r: seq<PageId>)
    ensures Distinct(r) && Elements(r) == s
  {
    r := [];
    var rest := s;
    while rest != {}
      invariant rest <= s && Distinct(r) && Elements(r) == s - rest
      decreases |rest|
    {
      var x :| x in rest;
      assert x !in Elements(r) && Elements(r + [x]) == Elements(r) + {x};
      r, rest := r + [x], rest - {x};
    }
  }

  /** A new page refers to deleted page `d`. */
  ghost predicate Resurrected(job: Job, d: PageId) { RefsTo(job.newPages, job.newPages.Keys, d) > 0 }

  ghost predicate NoneResurrected(job: Job, deleted: set<PageId>) { forall d :: d in deleted ==> !Resurrected(job, d) }

  /** Part way through the deleted pages. */
  ghost predicate Subtracting(s: Store, job: Job, delta: map<PageId, int>, done: set<PageId>) {
    && done <= job.deleted && job.rootDelta.Keys <= delta.Keys
    && forall p :: p != NO_PAGE ==> Get(delta, p) == Added(job, p) - RefsTo(s.pages, done, p)
  }

  /** A page marked for deletion, to which no deleted page refers. */
  ghost predicate CleanDeleted(s: Store, job: Job, d: PageId) {
    && d in s.pages && d != NO_PAGE && d !in job.newPages && d in job.rootDelta && job.rootDelta[d] == ONE_TO_ZERO
    && RefsTo(s.pages, job.deleted, d) == 0
  }

  ghost predicate AllClean(s: Store, job: Job) { forall d :: d in job.deleted ==> CleanDeleted(s, job, d) }

  lemma DeletedAreClean(s: Store, job: Job)
    requires CountInv(s) && JobOk(s, job)
    ensures AllClean(s, job)
  {
    forall d | d in job.deleted ensures CleanDeleted(s, job, d) { NobodyRefersToDeleted(s, job, d, job.deleted); }
  }

  /** Whatever deleted pages came before, the check on a deleted page fails exactly if a new page refers to it. */
  lemma CheckOnDeleted(s: Store, job: Job, delta: map<PageId, int>, done: set<PageId>, d: PageId)
    requires CleanDeleted(s, job, d) && Subtracting(s, job, delta, done)
    ensures d in delta && (delta[d] == ONE_TO_ZERO <==> !Resurrected(job, d))
  {
    SumSplit(RefsFrom(s.pages, d), job.deleted, done);
    assert Get(delta, d) == Added(job, d) - RefsTo(s.pages, done, d);
  }

  lemma SubtractOne(s: Store, job: Job, delta: map<PageId, int>, done: set<PageId>, d: PageId, delta': map<PageId, int>)
    requires Subtracting(s, job, delta, done) && d in job.deleted && d !in done && d in s.pages
             && delta.Keys <= delta'.Keys
    requires forall p :: Get(delta', p) == Get(delta, p) - Times(multiset(s.pages[d]), p)
    ensures Subtracting(s, job, delta', done + {d})
  {
    forall p | p != NO_PAGE ensures Get(delta', p) == Added(job, p) - RefsTo(s.pages, done + {d}, p) {
      SumAdd(RefsFrom(s.pages, p), done, d);
    }
  }

  /** The first `k` deleted pages passed their checks. */
  ghost predicate Halfway(s: Store, job: Job, delta: map<PageId, int>, list: seq<PageId>, k: nat)
    requires k <= |list|
  {
    Subtracting(s, job, delta, Elements(list[..k])) && NoneResurrected(job, Elements(list[..k]))
  }

  lemma NextElement(list: seq<PageId>, k: nat)
    requires Distinct(list) && k < |list|
    ensures Elements(list[..k + 1]) == Elements(list[..k]) + {list[k]} && list[k] !in Elements(list[..k])
  {}

  /** One deleted page: its check, then its references. */
  method SubtractPage(s: Store, job: Job, delta0: map<PageId, int>, list: seq<PageId>, k: nat)
    returns (ok: bool, delta: map<PageId, int>)
    requires Distinct(list) && k < |list| && list[k] in job.deleted && CleanDeleted(s, job, list[k])
    requires Halfway(s, job, delta0, list, k)
    ensures ok <==> !Resurrected(job, list[k])
    ensures ok ==> Halfway(s, job, delta, list, k + 1)
  {
    var d := list[k];
    CheckOnDeleted(s, job, delta0, Elements(list[..k]), d);
    delta := delta0;
    ok := delta[d] == ONE_TO_ZERO;
    if ok {
      delta := SubtractRefs(delta0, s.pages[d]);
      NextElement(list, k);
      SubtractOne(s, job, delta0, Elements(list[..k]), d, delta);
    }
  }

  /** `get_page_ref_count_updates`, with the pages in any order: the delta of every page, or none if the
      check on a deleted page fails, which it does exactly when some new page refers to a deleted one. */
  method RefCountUpdates(s: Store, job: Job) returns (r: Option<map<PageId, int>>)
    requires CountInv(s) && JobOk(s, job) && Pruned(job)
    ensures r.Some? <==> NoneResurrected(job, job.deleted)
    ensures r.Some? ==> forall p :: p != NO_PAGE ==> Get(r.value, p) == Delta(s, job, p)
  {
    var delta := TraceAdded(job);
    NothingSubtracted(s, job, delta);
    DeletedAreClean(s, job);
    r := SubtractDeleted(s, job, delta);
  }

  lemma NothingSubtracted(s: Store, job: Job, delta: map<PageId, int>)
    requires job.rootDelta.Keys <= delta.Keys && forall p :: Get(delta, p) == Added(job, p)
    ensures Subtracting(s, job, delta, {})
  {}

  /** The deleted pages, in some order, with none of them done yet. */
  ghost predicate Ready(s: Store, job: Job, delta: map<PageId, int>, list: seq<PageId>) {
    && Distinct(list) && Halfway(s, job, delta, list, 0)
    && forall k :: 0 <= k < |list| ==> list[k] in job.deleted && CleanDeleted(s, job, list[k])
  }

  lemma GetReady(s: Store, job: Job, delta: map<PageId, int>, list: seq<PageId>)
    requires AllClean(s, job) && Subtracting(s, job, delta, {}) && Distinct(list) && Elements(list) == job.deleted
    ensures Ready(s, job, delta, list)
  {
    assert Elements(list[..0]) == {};
    forall k | 0 <= k < |list| ensures list[k] in job.deleted && CleanDeleted(s, job, list[k]) {
      assert list[k] in Elements(list);
    }
  }

  lemma AllSubtracted(s: Store, job: Job, delta: map<PageId, int>, list: seq<PageId>)
    requires Halfway(s, job, delta, list, |list|) && Elements(list) == job.deleted
    ensures Subtracting(s, job, delta, job.deleted) && NoneResurrected(job, job.deleted)
  {
    assert list[..|list|] == list;
  }

  /** The loop over the deleted pages. */
  method SubtractDeleted(s: Store, job: Job, delta0: map<PageId, int>) returns (r: Option<map<PageId, int>>)
    requires AllClean(s, job) && Subtracting(s, job, delta0, {})
    ensures r.Some? <==> NoneResurrected(job, job.deleted)
    ensures r.Some? ==> Subtracting(s, job, r.value, job.deleted)
  {
    var list := ListOf(job.deleted);
    GetReady(s, job, delta0, list);
    r := SubtractList(s, job, delta0, list);
    if r.Some? { AllSubtracted(s, job, r.value, list); }
  }

  method SubtractList(s: Store, job: Job, delta0: map<PageId, int>, list: seq<PageId>)
    returns (r: Option<map<PageId, int>>)
    requires Ready(s, job, delta0, list)
    ensures r.Some? ==> Halfway(s, job, r.value, list, |list|)
    ensures r.None? ==> exists k :: 0 <= k < |list| && Resurrected(job, list[k])
  {
    var delta := delta0;
    var k: nat := 0;
    while k < |list|
      invariant k <= |list| && Halfway(s, job, delta, list, k)
    {
      var ok, next := SubtractPage(s, job, delta, list, k);
      if !ok {
        return None;
      }
      delta, k := next, k + 1;
    }
    r := Some(delta);
  }

  // ---------------------------------------------------------------- applying the deltas

  /** The store after the job: deleted pages gone, new pages there, every delta applied. */
  ghost function After(s: Store, job: Job): Store {
    var live := Live(s) - job.deleted + job.newPages.Keys;
    Store(map p | p in live :: if p in job.newPages then job.newPages[p] else s.pages[p],
          map p | p in live :: Get(s.counts, p) + Delta(s, job, p),
          map p | p in live :: Get(s.roots, p) + Get(job.rootDelta, p))
  }

  lemma RefsAfter(s: Store, job: Job, p: PageId)
    requires job.newPages.Keys !! Live(s) && job.deleted <= Live(s)
    ensures var t := After(s, job);
            RefsTo(t.pages, Live(t), p)
            == RefsTo(s.pages, Live(s), p) - RefsTo(s.pages, job.deleted, p)
               + RefsTo(job.newPages, job.newPages.Keys, p)
  {
    var t := After(s, job);
    var kept := Live(s) - job.deleted;
    assert Live(t) == kept + job.newPages.Keys;
    SumUnion(RefsFrom(t.pages, p), kept, job.newPages.Keys);
    assert SumOver(RefsFrom(t.pages, p), kept) == SumOver(RefsFrom(s.pages, p), kept) by {
      forall q | q in kept ensures RefsFrom(t.pages, p)(q) == RefsFrom(s.pages, p)(q) {}
      SumSame(RefsFrom(t.pages, p), RefsFrom(s.pages, p), kept);
    }
    assert SumOver(RefsFrom(t.pages, p), job.newPages.Keys)
        == SumOver(RefsFrom(job.newPages, p), job.newPages.Keys) by {
      forall q | q in job.newPages ensures RefsFrom(t.pages, p)(q) == RefsFrom(job.newPages, p)(q) {}
      SumSame(RefsFrom(t.pages, p), RefsFrom(job.newPages, p), job.newPages.Keys);
    }
    SumSplit(RefsFrom(s.pages, p), Live(s), job.deleted);
  }

  /** No page has a reference to a page that is not there. */
  lemma NoRefs(pages: Pages, targets: set<PageId>, p: PageId, from: set<PageId>)
    requires NoDangling(pages, targets) && p != NO_PAGE && p !in targets
    ensures RefsTo(pages, from, p) == 0
  {
    SumZero(RefsFrom(pages, p), from);
  }

  lemma CountAfter(s: Store, job: Job, p: PageId)
    requires CountInv(s) && JobOk(s, job) && p in Live(After(s, job))
    ensures CountAt(After(s, job), p)
  {
    RefsAfter(s, job, p);
    if p in Live(s) {
      assert CountAt(s, p);
    } else {
      NoRefs(s.pages, Live(s), p, Live(s));
      NoRefs(s.pages, Live(s), p, job.deleted);
    }
  }

  /** A page with references to it from a set of pages is among the references of none, if they add up to none. */
  lemma NotReferred(pages: Pages, from: set<PageId>, p: PageId, q: PageId)
    requires RefsTo(pages, from, q) == 0 && p in from && p in pages
    ensures q !in pages[p]
  {
    SumZero(RefsFrom(pages, q), from);
    assert RefsFrom(pages, q)(p) == 0;
  }

  lemma ReferenceSurvives(s: Store, job: Job, p: PageId, q: PageId)
    requires CountInv(s) && JobOk(s, job) && NoneResurrected(job, job.deleted)
    requires p in After(s, job).pages && q in After(s, job).pages[p]
    ensures q == NO_PAGE || q in Live(After(s, job))
  {
    if q in job.deleted {
      if p in job.newPages {
        assert !Resurrected(job, q);
        NotReferred(job.newPages, job.newPages.Keys, p, q);
      } else {
        NobodyRefersToDeleted(s, job, q, Live(s));
        NotReferred(s.pages, Live(s), p, q);
      }
    }
  }

  lemma ReferencesSurvive(s: Store, job: Job)
    requires CountInv(s) && JobOk(s, job) && NoneResurrected(job, job.deleted)
    ensures NoDangling(After(s, job).pages, Live(After(s, job)))
  {
    var t := After(s, job);
    forall p, q | p in t.pages && q in t.pages[p] ensures q == NO_PAGE || q in Live(t) {
      ReferenceSurvives(s, job, p, q);
    }
  }

  lemma RootsAfter(s: Store, job: Job)
    requires CountInv(s) && JobOk(s, job)
    ensures var t := After(s, job);
            && NO_PAGE !in Live(t) && t.counts.Keys == Live(t)
            && forall p :: p in t.roots ==> t.roots[p] >= 0 && (t.roots[p] > 0 ==> p in Live(t))
  {
    var t := After(s, job);
    forall p | p in t.roots ensures t.roots[p] >= 0 {
      if p in s.roots { assert s.roots[p] >= 0; }
    }
  }

  /** Reference counts are conserved: after a job whose check passes, every live page's count is again one
      plus its root references plus its references from live pages. */
  lemma CountsAreConserved(s: Store, job: Job)
    requires CountInv(s) && JobOk(s, job) && NoneResurrected(job, job.deleted)
    ensures CountInv(After(s, job))
  {
    ReferencesSurvive(s, job);
    RootsAfter(s, job);
    forall p | p in Live(After(s, job)) ensures CountAt(After(s, job), p) { CountAfter(s, job, p); }
  }

  // ---------------------------------------------------------------- the allocator's own checks

  /** `calculate_new_ref_count`. */
  function NewCount(count: int, delta: int): int { if delta == ONE_TO_ZERO then 0 else count + delta }

  /** `run_ref_count_update_sanity_checks`: none of its checks fails. */
  predicate Sane(delta: int, before: int, after: int) {
    && before >= 0 && after >= 0
    && if before == after then delta == 0
       else if delta == 0 then false
       else if after == 0 then before == 1 && delta == ONE_TO_ZERO
       else if before == 1 || delta == ONE_TO_ZERO then false
       else before + delta == after && (before == 0 ==> after >= 2)
  }

  /** Updates that its checks let through: the last reference but one of a page goes, a page is deleted, a new page
      gets two; and some that they do not: a delta without effect or an effect without delta, a page deleted by an
      ordinary delta, a page of count one brought back, a new page of count one, a count below zero. */
  lemma SanityChecks()
    ensures Sane(-1, 2, 1) && Sane(ONE_TO_ZERO, 1, 0) && Sane(2, 0, 2) && Sane(0, 3, 3)
    ensures !Sane(1, 2, 2) && !Sane(0, 2, 3) && !Sane(-1, 1, 0) && !Sane(1, 1, 2) && !Sane(1, 0, 1) && !Sane(-3, 2, -1)
    ensures !Sane(ONE_TO_ZERO, 2, 0) && !Sane(ONE_TO_ZERO, 3, 1) && !Sane(2, 3, 4)
  {}

  /** A new page of a pruned job is a new root, or another new page refers to it. */
  lemma NewPageIsUsed(job: Job, p: PageId)
    requires Pruned(job) && p in job.newPages
    ensures Get(job.rootDelta, p) > 0 || RefsTo(job.newPages, job.newPages.Keys, p) > 0
  {
    if p !in NewRoots(job) {
      var path: seq<PageId> :| IsPath(job.newPages, NewRoots(job), path, p);
      var k := |path| - 1;
      var before := k - 1;
      assert k == before + 1 && path[k] in job.newPages[path[before]];
      SumPick(RefsFrom(job.newPages, p), job.newPages.Keys, path[before]);
    }
  }

  lemma NewPageDelta(s: Store, job: Job, p: PageId)
    requires CountInv(s) && JobOk(s, job) && Pruned(job) && p in job.newPages
    ensures Delta(s, job, p) >= 2
  {
    assert Get(job.rootDelta, p) > 0 || RefsTo(job.newPages, job.newPages.Keys, p) > 0 by { NewPageIsUsed(job, p); }
    assert RefsTo(s.pages, job.deleted, p) == 0 by { NoRefs(s.pages, Live(s), p, job.deleted); }
    assert Get(job.rootDelta, p) >= 0 by { NoRootYet(s, job, p); }
  }

  lemma NoRootYet(s: Store, job: Job, p: PageId)
    requires CountInv(s) && JobOk(s, job) && p in job.newPages
    ensures Get(job.rootDelta, p) >= 0
  {
    assert p !in Live(s) && p !in job.deleted;
    assert Get(s.roots, p) == 0 by { if p in s.roots { assert s.roots[p] >= 0; } }
  }

  lemma DeletedDelta(s: Store, job: Job, p: PageId)
    requires CountInv(s) && JobOk(s, job) && NoneResurrected(job, job.deleted) && p in job.deleted
    ensures Delta(s, job, p) == ONE_TO_ZERO
  {
    NobodyRefersToDeleted(s, job, p, job.deleted);
    assert !Resurrected(job, p);
  }

  lemma KeptCount(s: Store, job: Job, p: PageId)
    requires CountInv(s) && JobOk(s, job) && p in Live(s) && p !in job.deleted
    ensures Get(s.counts, p) >= 1 && Get(s.counts, p) + Delta(s, job, p) >= 1
  {
    assert CountAt(s, p);
    CountAfter(s, job, p);
  }

  /** The allocator's checks on an update pass for every new and every deleted page, and for any other page
      if and only if its count was not one: a page whose last reference is gone may only be deleted. */
  lemma UpdatesAreSane(s: Store, job: Job, p: PageId)
    requires CountInv(s) && JobOk(s, job) && Pruned(job) && NoneResurrected(job, job.deleted)
    requires p in Live(s) + job.newPages.Keys && Delta(s, job, p) != 0 && Get(s.counts, p) < 0x8000_0000
    ensures var before, delta := Get(s.counts, p), Delta(s, job, p);
            Sane(delta, before, NewCount(before, delta)) <==> before != 1 || p in job.deleted
  {
    if p in job.deleted {
      DeletedDelta(s, job, p);
    } else if p in Live(s) {
      KeptCount(s, job, p);
    } else {
      NewPageDelta(s, job, p);
    }
  }

  /** No other page is ever updated. */
  lemma OthersUntouched(s: Store, job: Job, p: PageId)
    requires CountInv(s) && JobOk(s, job) && p != NO_PAGE && p !in Live(s) + job.newPages.Keys
    ensures Delta(s, job, p) == 0
  {
    NoRefs(s.pages, Live(s), p, job.deleted);
    NoRefs(job.newPages, Live(s) + job.newPages.Keys, p, job.newPages.Keys);
  }

  // ---------------------------------------------------------------- any number of jobs

  /** The store after a sequence of jobs. */
  ghost function AfterAll(s: Store, jobs: seq<Job>): Store {
    if jobs == [] then s else After(AfterAll(s, jobs[..|jobs| - 1]), jobs[|jobs| - 1])
  }

  /** Each job is well-formed for the store it meets, and its check passes. */
  ghost predicate AllOk(s: Store, jobs: seq<Job>) {
    jobs != [] ==>
      var job := jobs[|jobs| - 1];
      && AllOk(s, jobs[..|jobs| - 1])
      && JobOk(AfterAll(s, jobs[..|jobs| - 1]), job) && NoneResurrected(job, job.deleted)
  }

  /** Nothing refers to page `p`, from the root set or from a live page. */
  ghost predicate Garbage(s: Store, p: PageId) { Get(s.roots, p) == 0 && forall q :: q in s.pages ==> p !in s.pages[q] }

  lemma GarbageIff(s: Store, p: PageId)
    requires p in s.counts && CountAt(s, p) && Get(s.roots, p) >= 0
    ensures s.counts[p] == 1 <==> Garbage(s, p)
  {
    var refs := RefsFrom(s.pages, p);
    SumZero(refs, Live(s));
    forall q | q in s.pages ensures refs(q) == 0 <==> p !in s.pages[q] {}
  }

  /** Whatever jobs commit, one after the other, a live page has count one exactly when nothing refers to it. */
  lemma CountOneMeansGarbage(s: Store, jobs: seq<Job>, p: PageId)
    requires CountInv(s) && AllOk(s, jobs) && p in Live(AfterAll(s, jobs))
    ensures CountInv(AfterAll(s, jobs))
    ensures AfterAll(s, jobs).counts[p] == 1 <==> Garbage(AfterAll(s, jobs), p)
  {
    var t := AfterAll(s, jobs);
    JobsKeepCounts(s, jobs);
    assert CountAt(t, p);
    GarbageIff(t, p);
  }

  lemma {:induction false} JobsKeepCounts(s: Store, jobs: seq<Job>)
    requires CountInv(s) && AllOk(s, jobs)
    ensures CountInv(AfterAll(s, jobs))
  {
    if jobs != [] {
      JobsKeepCounts(s, jobs[..|jobs| - 1]);
      CountsAreConserved(AfterAll(s, jobs[..|jobs| - 1]), jobs[|jobs| - 1]);
    }
  }

  // ---------------------------------------------------------------- jobs on which a check fails

  const EMPTY_STORE: Store := Store(map[], map[], map[])

  /** A page that entered the root set and left it again: count one, nothing refers to it. */
  const ORPHAN: Store := Store(map[1 := []], map[1 := 1], map[1 := 0])

  const ADD_PAGE: Job := Job(map[1 := []], map[1 := 1], {})
  const DROP_ROOT: Job := Job(map[], map[1 := -1], {})

  lemma RefsToFromOne(pages: Pages, q: PageId, p: PageId)
    ensures RefsTo(pages, {q}, p) == if q in pages then multiset(pages[q])[p] else 0
  {
    SumPick(RefsFrom(pages, p), {q}, q);
    assert {q} - {q} == {};
  }

  lemma AddPageEffect(t: Store)
    requires t == Store(map[1 := []], map[1 := 2], map[1 := 1])
    ensures After(EMPTY_STORE, ADD_PAGE) == t && After(t, DROP_ROOT) == ORPHAN
  {
    RefsToFromOne(ADD_PAGE.newPages, 1, 1);
    assert ADD_PAGE.newPages.Keys == {1} && DROP_ROOT.newPages.Keys == {};
    assert Live(EMPTY_STORE) == {} && Live(t) == {1};
  }

  lemma AddPageOk(t: Store)
    requires t == Store(map[1 := []], map[1 := 2], map[1 := 1])
    ensures JobOk(EMPTY_STORE, ADD_PAGE) && JobOk(t, DROP_ROOT)
  {
    assert ADD_PAGE.newPages.Keys == {1} && DROP_ROOT.newPages.Keys == {};
    assert Live(EMPTY_STORE) == {} && Live(t) == {1};
  }

  lemma FirstJobs(s: Store, a: Job, b: Job)
    requires JobOk(s, a) && NoneResurrected(a, a.deleted) && JobOk(After(s, a), b) && NoneResurrected(b, b.deleted)
    ensures AllOk(s, [a, b]) && AfterAll(s, [a, b]) == After(After(s, a), b)
  {
    var jobs := [a, b];
    assert jobs[..1] == [a] && [a][..0] == [];
    assert AfterAll(s, []) == s && AllOk(s, []);
    assert AfterAll(s, [a]) == After(s, a) && AllOk(s, [a]);
  }

  lemma EmptyStoreOk()
    ensures CountInv(EMPTY_STORE)
  {}

  /** Such a page comes about in two jobs. */
  lemma OrphanIsReached()
    ensures AllOk(EMPTY_STORE, [ADD_PAGE, DROP_ROOT]) && AfterAll(EMPTY_STORE, [ADD_PAGE, DROP_ROOT]) == ORPHAN
    ensures CountInv(ORPHAN)
  {
    var jobs, t := [ADD_PAGE, DROP_ROOT], Store(map[1 := []], map[1 := 2], map[1 := 1]);
    AddPageEffect(t);
    AddPageOk(t);
    FirstJobs(EMPTY_STORE, ADD_PAGE, DROP_ROOT);
    EmptyStoreOk();
    JobsKeepCounts(EMPTY_STORE, jobs);
  }

  /** A job with a new page, in the root set, that refers to the orphan. */
  function Adopting(delta: map<PageId, int>, deleted: set<PageId>): Job { Job(map[2 := [1]], delta[2 := 1], deleted) }

  lemma AdoptingIsPruned(delta: map<PageId, int>, deleted: set<PageId>)
    ensures Pruned(Adopting(delta, deleted)) && Resurrected(Adopting(delta, deleted), 1)
    ensures RefsTo(Adopting(delta, deleted).newPages, Adopting(delta, deleted).newPages.Keys, 1) == 1
  {
    var job := Adopting(delta, deleted);
    RootReachable(job.newPages, NewRoots(job), 2);
    assert job.newPages.Keys == {2};
    RefsToFromOne(job.newPages, 2, 1);
  }

  lemma AdoptingIsOk(delta: map<PageId, int>, deleted: set<PageId>)
    requires (delta == map[] && deleted == {}) || (delta == map[1 := ONE_TO_ZERO] && deleted == {1})
    ensures JobOk(ORPHAN, Adopting(delta, deleted))
  {
    var job := Adopting(delta, deleted);
    assert Live(ORPHAN) == {1} && job.newPages.Keys == {2};
    assert NoDangling(job.newPages, {1, 2}) && Live(ORPHAN) + job.newPages.Keys == {1, 2};
  }

  /** The check on deleted pages fails for a job that deletes the orphan and also refers to it. */
  lemma DeletedCheckCanFail()
    ensures var job := Adopting(map[1 := ONE_TO_ZERO], {1});
            JobOk(ORPHAN, job) && Pruned(job) && !NoneResurrected(job, job.deleted)
  {
    AdoptingIsPruned(map[1 := ONE_TO_ZERO], {1});
    AdoptingIsOk(map[1 := ONE_TO_ZERO], {1});
  }

  /** The allocator's check fails for a job that refers to the orphan and leaves it. */
  lemma AllocatorCheckCanFail()
    ensures var job := Adopting(map[], {});
            && JobOk(ORPHAN, job) && Pruned(job) && NoneResurrected(job, job.deleted)
            && Delta(ORPHAN, job, 1) == 1 && !Sane(1, ORPHAN.counts[1], NewCount(ORPHAN.counts[1], 1))
  {
    AdoptingIsPruned(map[], {});
    AdoptingIsOk(map[], {});
  }
}
