/** Tracing page references: the worklist that visits every new page reachable from the new roots, and
    pruning, which drops the others. */
module PageTrace {
  import opened SetSum

  type PageId = nat

  /** The invalid page id. */
  const NO_PAGE: PageId := 0

  /** The pages a job may trace through, with their references in order. */
  type Pages = map<PageId, seq<PageId>>

  /** A chain of references from a root, through the given pages, to page `p`. */
  ghost predicate IsPath(pages: Pages, roots: set<PageId>, path: seq<PageId>, p: PageId) {
    && path != [] && path[0] in roots && path[|path| - 1] == p
    && (forall i :: 0 <= i < |path| ==> path[i] in pages)
    && (forall i, j :: 0 <= i < j < |path| && j == i + 1 ==> path[j] in pages[path[i]])
  }

  ghost predicate Reachable(pages: Pages, roots: set<PageId>, p: PageId) {
    exists path: seq<PageId> :: IsPath(pages, roots, path, p)
  }

  lemma RootReachable(pages: Pages, roots: set<PageId>, p: PageId)
    requires p in roots && p in pages
    ensures Reachable(pages, roots, p)
  {
    assert IsPath(pages, roots, [p], p);
  }

  lemma StepReachable(pages: Pages, roots: set<PageId>, p: PageId, q: PageId)
    requires Reachable(pages, roots, p) && p in pages && q in pages && q in pages[p]
    ensures Reachable(pages, roots, q)
  {
    var path: seq<PageId> :| IsPath(pages, roots, path, p);
    assert IsPath(pages, roots, path + [q], q);
  }

  /** A set that has the roots and is closed under references has everything reachable. */
  lemma {:induction false} ClosedHasPath(
      pages: Pages, roots: set<PageId>, closed: set<PageId>, path: seq<PageId>, p: PageId)
    requires IsPath(pages, roots, path, p) && roots <= closed && Closed(pages, closed)
    ensures p in closed
    decreases |path|
  {
    var k := |path| - 1;
    if k > 0 {
      var before := k - 1;
      assert k == before + 1 && path[k] in pages[path[before]];
      assert IsPath(pages, roots, path[..k], path[before]);
      ClosedHasPath(pages, roots, closed, path[..k], path[before]);
    }
  }

  predicate Closed(pages: Pages, closed: set<PageId>) {
    forall p, q :: p in closed && p in pages && q in pages[p] && q in pages ==> q in closed
  }

  /** How often page `p` is referenced from page `q`. */
  function RefsFrom(pages: Pages, p: PageId): PageId -> nat {
    (q: PageId) => if q in pages then multiset(pages[q])[p] else 0
  }

  /** How often page `p` is referenced from a set of pages. */
  ghost function RefsTo(pages: Pages, from: set<PageId>, p: PageId): nat { SumOver(RefsFrom(pages, p), from) }

  /** What tracing does: it visits exactly the reachable pages and reports each of their references once. */
  ghost predicate Traced(pages: Pages, roots: set<PageId>, visited: set<PageId>, reported: multiset<PageId>) {
    && visited <= pages.Keys
    && (forall p :: p in visited <==> Reachable(pages, roots, p))
    && (forall p :: reported[p] == RefsTo(pages, visited, p))
  }

  function Elements(s: seq<PageId>): set<PageId> { set p | p in s }

  predicate Distinct(s: seq<PageId>) { forall i, j :: 0 <= i < j < |s| ==> s[i] != s[j] }

  /** Part way through page `next`, of which `k` references are done: everything pushed is reachable, and of
      the pages pushed the ones neither pending nor `next` are finished. */
  ghost predicate Tracing(pages: Pages, roots: set<PageId>, pushed: set<PageId>, pending: seq<PageId>,
                          finished: set<PageId>, reported: multiset<PageId>, next: PageId, k: nat) {
    && roots <= pushed <= pages.Keys && next in pushed && k <= |pages[next]|
    && (forall p :: p in pushed ==> Reachable(pages, roots, p))
    && Distinct(pending) && next !in pending && next !in finished
    && pushed == finished + Elements(pending) + {next} && finished !! Elements(pending)
    && (forall p, q :: p in finished && q in pages[p] && q in pages ==> q in pushed)
    && (forall i :: 0 <= i < k && pages[next][i] in pages ==> pages[next][i] in pushed)
    && (forall p :: reported[p] == RefsTo(pages, finished, p) + multiset(pages[next][..k])[p])
  }

  /** Between pages. */
  ghost predicate Resting(pages: Pages, roots: set<PageId>, pushed: set<PageId>, pending: seq<PageId>,
                          finished: set<PageId>, reported: multiset<PageId>) {
    && roots <= pushed <= pages.Keys
    && (forall p :: p in pushed ==> Reachable(pages, roots, p))
    && Distinct(pending) && pushed == finished + Elements(pending) && finished !! Elements(pending)
    && (forall p, q :: p in finished && q in pages[p] && q in pages ==> q in pushed)
    && (forall p :: reported[p] == RefsTo(pages, finished, p))
  }

  lemma ReportOne(refs: seq<PageId>, k: nat, p: PageId)
    requires k < |refs|
    ensures multiset(refs[..k + 1])[p] == multiset(refs[..k])[p] + multiset{refs[k]}[p]
  {
    assert refs[..k + 1] == refs[..k] + [refs[k]];
  }

  /** A reference to a page already seen, or to one that is not traced, is only reported. */
  lemma OldReference(pages: Pages, roots: set<PageId>, pushed: set<PageId>, pending: seq<PageId>,
                     finished: set<PageId>, reported: multiset<PageId>, next: PageId, k: nat)
    requires Tracing(pages, roots, pushed, pending, finished, reported, next, k) && k < |pages[next]|
    requires pages[next][k] in pushed || pages[next][k] !in pages
    ensures Tracing(pages, roots, pushed, pending, finished, reported + multiset{pages[next][k]}, next, k + 1)
  {
    forall p { ReportOne(pages[next], k, p); }
  }

  /** A page to trace that was not seen yet is also pushed. */
  lemma NewReference(pages: Pages, roots: set<PageId>, pushed: set<PageId>, pending: seq<PageId>,
                     finished: set<PageId>, reported: multiset<PageId>, next: PageId, k: nat)
    requires Tracing(pages, roots, pushed, pending, finished, reported, next, k) && k < |pages[next]|
    requires pages[next][k] !in pushed && pages[next][k] in pages
    ensures var id := pages[next][k];
            Tracing(pages, roots, pushed + {id}, pending + [id], finished, reported + multiset{id}, next, k + 1)
  {
    var id := pages[next][k];
    PushKeeps(pages, roots, pushed, pending, finished, reported, next, k, id);
    OldReference(pages, roots, pushed + {id}, pending + [id], finished, reported, next, k);
  }

  lemma PushKeeps(pages: Pages, roots: set<PageId>, pushed: set<PageId>, pending: seq<PageId>,
                  finished: set<PageId>, reported: multiset<PageId>, next: PageId, k: nat, id: PageId)
    requires Tracing(pages, roots, pushed, pending, finished, reported, next, k)
    requires id !in pushed && id in pages && id in pages[next]
    ensures Tracing(pages, roots, pushed + {id}, pending + [id], finished, reported, next, k)
  {
    StepReachable(pages, roots, next, id);
    assert Elements(pending + [id]) == Elements(pending) + {id};
    assert Distinct(pending + [id]) by { assert id !in Elements(pending); }
  }

  lemma PageDone(pages: Pages, roots: set<PageId>, pushed: set<PageId>, pending: seq<PageId>,
                 finished: set<PageId>, reported: multiset<PageId>, next: PageId)
    requires next in pages && Tracing(pages, roots, pushed, pending, finished, reported, next, |pages[next]|)
    ensures Resting(pages, roots, pushed, pending, finished + {next}, reported)
  {
    var refs := pages[next];
    assert refs[..|refs|] == refs;
    forall p ensures reported[p] == RefsTo(pages, finished + {next}, p) {
      SumAdd(RefsFrom(pages, p), finished, next);
    }
    forall p, q | p in finished + {next} && q in pages[p] && q in pages ensures q in pushed {
      if p == next { var i :| 0 <= i < |refs| && refs[i] == q; }
    }
  }

  lemma AllDone(
      pages: Pages, roots: set<PageId>, pushed: set<PageId>, finished: set<PageId>, reported: multiset<PageId>)
    requires Resting(pages, roots, pushed, [], finished, reported)
    ensures Traced(pages, roots, pushed, reported)
  {
    assert pushed == finished;
    forall p | Reachable(pages, roots, p) ensures p in pushed {
      var path: seq<PageId> :| IsPath(pages, roots, path, p);
      ClosedHasPath(pages, roots, pushed, path, p);
    }
  }

  /** One reference: it is reported, and pushed if it leads to a page to trace that was not seen yet. */
  method TraceOne(pages: Pages, ghost roots: set<PageId>, pushed0: set<PageId>, pending0: seq<PageId>,
                  ghost finished: set<PageId>, reported0: multiset<PageId>, next: PageId, k: nat)
    returns (pushed: set<PageId>, pending: seq<PageId>, reported: multiset<PageId>)
    requires Tracing(pages, roots, pushed0, pending0, finished, reported0, next, k) && k < |pages[next]|
    ensures Tracing(pages, roots, pushed, pending, finished, reported, next, k + 1)
  {
    var id := pages[next][k];
    pushed, pending, reported := pushed0, pending0, reported0 + multiset{id};
    if id !in pushed && id in pages {
      NewReference(pages, roots, pushed, pending, finished, reported0, next, k);
      pushed, pending := pushed + {id}, pending + [id];
    } else {
      OldReference(pages, roots, pushed, pending, finished, reported0, next, k);
    }
  }

  /** The references of one page. */
  method TracePage(pages: Pages, ghost roots: set<PageId>, pushed0: set<PageId>, pending0: seq<PageId>,
                   ghost finished: set<PageId>, reported0: multiset<PageId>, next: PageId)
    returns (pushed: set<PageId>, pending: seq<PageId>, reported: multiset<PageId>)
    requires next in pages && Tracing(pages, roots, pushed0, pending0, finished, reported0, next, 0)
    ensures Resting(pages, roots, pushed, pending, finished + {next}, reported)
  {
    pushed, pending, reported := pushed0, pending0, reported0;
    var k: nat := 0;
    while k < |pages[next]|
      invariant k <= |pages[next]| && Tracing(pages, roots, pushed, pending, finished, reported, next, k)
    {
      pushed, pending, reported := TraceOne(pages, roots, pushed, pending, finished, reported, next, k);
      k := k + 1;
    }
    PageDone(pages, roots, pushed, pending, finished, reported, next);
  }

  lemma TraceStart(pages: Pages, roots: seq<PageId>)
    requires Distinct(roots) && Elements(roots) <= pages.Keys
    ensures Resting(pages, Elements(roots), Elements(roots), roots, {}, multiset{})
  {
    forall p | p in Elements(roots) ensures Reachable(pages, Elements(roots), p) {
      RootReachable(pages, Elements(roots), p);
    }
  }

  /** `trace_refs_recursive`, from roots that are themselves pages to trace. */
  method TraceRefs(pages: Pages, roots: seq<PageId>) returns (visited: set<PageId>, reported: multiset<PageId>)
    requires Distinct(roots) && Elements(roots) <= pages.Keys
    ensures Traced(pages, Elements(roots), visited, reported)
  {
    TraceStart(pages, roots);
    var pending := roots;
    visited, reported := Elements(roots), multiset{};
    ghost var finished: set<PageId> := {};
    while pending != []
      invariant Resting(pages, Elements(roots), visited, pending, finished, reported)
      decreases pages.Keys - finished
    {
      var next := pending[|pending| - 1];
      visited, pending, reported :=
        TracePage(pages, Elements(roots), visited, pending[..|pending| - 1], finished, reported, next);
      finished := finished + {next};
    }
    AllDone(pages, Elements(roots), visited, finished, reported);
  }

  // ---------------------------------------------------------------- pruning

  function Keep(pages: Pages, visited: set<PageId>): Pages { map p | p in pages && p in visited :: pages[p] }

  /** Dropping the pages that are not reachable leaves every other page just as reachable. */
  lemma PathSurvives(pages: Pages, roots: set<PageId>, visited: set<PageId>, path: seq<PageId>, p: PageId)
    requires IsPath(pages, roots, path, p) && forall q :: q in visited <==> Reachable(pages, roots, q)
    ensures IsPath(Keep(pages, visited), roots, path, p)
  {
    forall i | 0 <= i < |path| ensures path[i] in Keep(pages, visited) {
      assert IsPath(pages, roots, path[..i + 1], path[i]);
    }
  }

  lemma KeptReachable(pages: Pages, roots: set<PageId>, visited: set<PageId>)
    requires forall q :: q in visited <==> Reachable(pages, roots, q)
    ensures forall p :: p in Keep(pages, visited) ==> Reachable(Keep(pages, visited), roots, p)
  {
    forall p | p in Keep(pages, visited) ensures Reachable(Keep(pages, visited), roots, p) {
      var path: seq<PageId> :| IsPath(pages, roots, path, p);
      PathSurvives(pages, roots, visited, path, p);
    }
  }

  /** The pages visited are the roots and the traced pages that were reported. */
  lemma VisitedIsReported(pages: Pages, roots: set<PageId>, visited: set<PageId>, reported: multiset<PageId>, p: PageId)
    requires Traced(pages, roots, visited, reported) && p in pages
    ensures p in visited <==> p in roots || p in reported
  {
    if p in reported {
      SumZero(RefsFrom(pages, p), visited);
      var q :| q in visited && RefsFrom(pages, p)(q) != 0;
      StepReachable(pages, roots, q, p);
    } else if p in roots {
      RootReachable(pages, roots, p);
    } else if p in visited {
      NotReported(pages, roots, visited, reported, p);
    }
  }

  lemma NotReported(pages: Pages, roots: set<PageId>, visited: set<PageId>, reported: multiset<PageId>, p: PageId)
    requires Traced(pages, roots, visited, reported) && p in visited && p !in roots
    ensures p in reported
  {
    var path: seq<PageId> :| IsPath(pages, roots, path, p);
    var k := |path| - 1;
    var before := k - 1;
    assert k == before + 1 && path[k] in pages[path[before]];
    assert IsPath(pages, roots, path[..k], path[before]);
    SumPick(RefsFrom(pages, p), visited, path[before]);
  }

  lemma KeepReported(
      pages: Pages, roots: set<PageId>, visited: set<PageId>, reported: multiset<PageId>, toPrune: set<PageId>)
    requires Traced(pages, roots, visited, reported)
    requires toPrune == set p | p in pages.Keys - roots && p !in reported
    ensures Keep(pages, pages.Keys - toPrune) == Keep(pages, visited)
  {
    forall p | p in pages ensures p in toPrune <==> p !in visited {
      VisitedIsReported(pages, roots, visited, reported, p);
    }
  }

  /** What pruning promises. */
  ghost predicate PrunedTo(pages: Pages, roots: set<PageId>, kept: Pages) {
    && (forall p :: p in kept <==> p in pages && Reachable(pages, roots, p))
    && (forall p :: p in kept ==> kept[p] == pages[p])
    && (forall p :: p in kept ==> Reachable(kept, roots, p))
  }

  lemma KeepIsPruned(pages: Pages, roots: set<PageId>, visited: set<PageId>)
    requires forall q :: q in visited <==> Reachable(pages, roots, q)
    ensures PrunedTo(pages, roots, Keep(pages, visited))
  {
    KeptReachable(pages, roots, visited);
  }

  /** `prune`: exactly the new pages that cannot be reached from a new root are dropped, and tracing what is
      left visits every page that is left. */
  method Prune(pages: Pages, roots: seq<PageId>) returns (kept: Pages)
    requires Distinct(roots) && Elements(roots) <= pages.Keys
    ensures PrunedTo(pages, Elements(roots), kept)
  {
    var toPrune := pages.Keys - Elements(roots);
    var visited, reported := TraceRefs(pages, roots);
    toPrune := set p | p in toPrune && p !in reported;
    kept := Keep(pages, pages.Keys - toPrune);
    KeepReported(pages, Elements(roots), visited, reported, toPrune);
    KeepIsPruned(pages, Elements(roots), visited);
  }
}
