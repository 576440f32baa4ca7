/**
 * The page loop of `fetch_zkill_data`: pages 1 to 10 in turn, each one
 * hydrated before the stop rule looks at its cached times.
 */
module Pagination {
  import opened Wrappers
  import opened Models
  import opened Link
  import opened Hydrate

  const MaxPages: nat := 10

  /** What one call of the pipeline works with besides the caches. */
  datatype FetchContext = FetchContext(
    entity: EntityRef,
    startCutoff: int,
    now: int,
    up: Upstream,
    parseTime: string -> Option<int>)

  /** How the page loop ends: the items or an error, the detail cache, and the pages requested. */
  datatype PageRun = PageRun(result: Result<seq<RawZKillItem>, FetchError>, cache: map<int, EsiKillmail>, requested: seq<nat>)

  /** What one page of the loop comes to. */
  datatype PageStep =
    | PageFailed(error: FetchError)                                // the loop returns the error
    | Exhausted                                                    // an empty page: the loop ends
    | Last(items: seq<RawZKillItem>, cache: map<int, EsiKillmail>) // hydrated, and the stop rule holds
    | Next(items: seq<RawZKillItem>, cache: map<int, EsiKillmail>) // hydrated, on to the next page

  /** Page `page` requested, checked, hydrated and tested against the stop rule. */
  function Step(ctx: FetchContext, page: nat, cache: map<int, EsiKillmail>): PageStep
    requires page >= 1
  {
    match ctx.up.list(PageUrl(ctx.entity, page))
    case ListNetErr => PageFailed(ListTransport)
    case ListResp(status, body) =>
      if !IsSuccess(status) then PageFailed(ListStatus(page, status))
      else
        match body
        case None => PageFailed(ListBadJson(page))
        case Some(items) =>
          if items == [] then Exhausted
          else
            match HydrateSpec(items, cache, ctx.up)
            case Failure(e) => PageFailed(e)
            case Success(cache') =>
              if ShouldStop(items, cache', ctx.now, ctx.startCutoff, ctx.parseTime) then Last(items, cache')
              else Next(items, cache')
  }

  /**
   * What a page's step says about its list response: an empty page is a
   * successful, parsed, empty list; a page that goes on or stops carries the
   * page's items, the cache hydration left, and the stop rule's verdict.
   */
  lemma StepMeaning(ctx: FetchContext, page: nat, cache: map<int, EsiKillmail>)
    requires page >= 1
    ensures var r := Step(ctx, page, cache);
      var resp := ctx.up.list(PageUrl(ctx.entity, page));
      && (resp.ListNetErr? ==> r == PageFailed(ListTransport))
      && (resp.ListResp? && !IsSuccess(resp.status) ==> r == PageFailed(ListStatus(page, resp.status)))
      && (resp.ListResp? && IsSuccess(resp.status) && resp.body.None? ==> r == PageFailed(ListBadJson(page)))
      && (r.PageFailed? && resp.ListResp? && IsSuccess(resp.status) && resp.body.Some? ==>
            && resp.body.value != []
            && HydrateSpec(resp.body.value, cache, ctx.up) == Failure(r.error)
            && r.error.DetailRateLimited? && IsRateLimit(r.error.status))
      && (r.Exhausted? <==> resp.ListResp? && IsSuccess(resp.status) && resp.body == Some([]))
      && (r.Last? || r.Next? ==>
            && resp.ListResp? && IsSuccess(resp.status) && resp.body == Some(r.items) && r.items != []
            && HydrateSpec(r.items, cache, ctx.up) == Success(r.cache)
            && (r.Last? <==> ShouldStop(r.items, r.cache, ctx.now, ctx.startCutoff, ctx.parseTime)))
  {
  }

  /** A page that got as far as hydration only added details to the cache. */
  lemma StepExtendsCache(ctx: FetchContext, page: nat, cache: map<int, EsiKillmail>)
    requires page >= 1 && (Step(ctx, page, cache).Last? || Step(ctx, page, cache).Next?)
    ensures Extends(cache, Step(ctx, page, cache).cache)
  {
    var items := ctx.up.list(PageUrl(ctx.entity, page)).body.value;
    HydrateExtendsCache(items, cache, ctx.up);
  }

  /** A page number; the loop starts at 1. */
  type Page = p: nat | p >= 1 witness 1

  /** What each page comes to, given the detail cache before it. */
  type Steps = (Page, map<int, EsiKillmail>) -> PageStep

  /** The steps of one call of the pipeline. */
  function StepsOf(ctx: FetchContext): Steps {
    (page: Page, cache: map<int, EsiKillmail>) => Step(ctx, page, cache)
  }

  /** Steps that only ever add details to the cache they are handed. */
  ghost predicate StepsExtend(step: Steps) {
    forall page: Page, cache :: step(page, cache).Last? || step(page, cache).Next? ==> Extends(cache, step(page, cache).cache)
  }

  /** The pipeline's steps only add details to the cache. */
  lemma PipelineStepsExtend(ctx: FetchContext)
    ensures StepsExtend(StepsOf(ctx))
  {
    forall page: Page, cache | StepsOf(ctx)(page, cache).Last? || StepsOf(ctx)(page, cache).Next?
      ensures Extends(cache, StepsOf(ctx)(page, cache).cache)
    {
      StepExtendsCache(ctx, page, cache);
    }
  }

  /**
   * The loop from page `page` on, with `acc` already accumulated: up to
   * `MaxPages` pages, each one ending the loop or handing on its cache.
   */
  function Paginate(step: Steps, page: Page, cache: map<int, EsiKillmail>, acc: seq<RawZKillItem>, requested: seq<nat>): PageRun
    decreases MaxPages + 1 - page
  {
    if page > MaxPages then PageRun(Success(acc), cache, requested)
    else
      var requested' := requested + [page];
      match step(page, cache)
      case PageFailed(e) => PageRun(Failure(e), cache, requested')
      case Exhausted => PageRun(Success(acc), cache, requested')
      case Last(items, cache') => PageRun(Success(acc + items), cache', requested')
      case Next(items, cache') => Paginate(step, page + 1, cache', acc + items, requested')
  }

  /** The pages the whole loop requests. */
  function Run(ctx: FetchContext, cache: map<int, EsiKillmail>): (r: PageRun)
    ensures FirstPages(r.requested) && 1 <= |r.requested| <= MaxPages
  {
    PaginateRequestsFirstPages(StepsOf(ctx), 1, cache, [], []);
    Paginate(StepsOf(ctx), 1, cache, [], [])
  }

  /** `requested` is exactly the pages 1, 2, ..., n. */
  ghost predicate FirstPages(requested: seq<nat>) {
    forall i :: 0 <= i < |requested| ==> requested[i] == i + 1
  }

  /** Pages are requested as 1, 2, 3, ... with none skipped, at least one and never more than ten. */
  lemma {:induction false} PaginateRequestsFirstPages(step: Steps, page: Page, cache: map<int, EsiKillmail>, acc: seq<RawZKillItem>, requested: seq<nat>)
    requires page <= MaxPages + 1
    requires |requested| == page - 1 && FirstPages(requested)
    ensures var r := Paginate(step, page, cache, acc, requested);
      && FirstPages(r.requested)
      && |requested| <= |r.requested| <= MaxPages
      && (page <= MaxPages ==> |r.requested| >= page)
    decreases MaxPages + 1 - page
  {
    if page <= MaxPages {
      var requested' := requested + [page];
      assert FirstPages(requested');
      match step(page, cache)
      case Next(items, cache') =>
        PaginateRequestsFirstPages(step, page + 1, cache', acc + items, requested');
      case _ =>
    }
  }

  /**
   * The stop rule on its own: the first page from `page` on whose step is
   * not `Next` (a failure, an empty page, or the cutoff reached), or
   * `MaxPages` when every page says to go on.
   */
  function StopPage(step: Steps, page: Page, cache: map<int, EsiKillmail>): (k: nat)
    ensures page <= MaxPages ==> page <= k <= MaxPages
    ensures page > MaxPages ==> k == page - 1
    decreases MaxPages + 1 - page
  {
    if page > MaxPages then page - 1
    else
      match step(page, cache)
      case Next(_, cache') => StopPage(step, page + 1, cache')
      case _ => page
  }

  /** The pages `from`, `from + 1`, ..., `to`. */
  function PagesFrom(from: nat, to: nat): (r: seq<nat>)
    requires from <= to + 1
    ensures |r| == to + 1 - from && forall i :: 0 <= i < |r| ==> r[i] == from + i
  {
    seq(to + 1 - from, i => from + i)
  }

  /** The loop requests exactly the pages up to where the stop rule ends it, and none after. */
  lemma {:induction false} PaginateStopsAtStopPage(step: Steps, page: Page, cache: map<int, EsiKillmail>, acc: seq<RawZKillItem>, requested: seq<nat>)
    requires page <= MaxPages + 1
    ensures Paginate(step, page, cache, acc, requested).requested == requested + PagesFrom(page, StopPage(step, page, cache))
    decreases MaxPages + 1 - page
  {
    if page <= MaxPages {
      match step(page, cache)
      case Next(items, cache') =>
        PaginateStopsAtStopPage(step, page + 1, cache', acc + items, requested + [page]);
        var k := StopPage(step, page, cache);
        assert [page] + PagesFrom(page + 1, k) == PagesFrom(page, k);
      case _ =>
        assert PagesFrom(page, page) == [page];
    }
  }

  /** A loop whose second page meets the stop rule requests pages 1 and 2 only. */
  lemma StopOnSecondPage(step: Steps, cache: map<int, EsiKillmail>)
    requires step(1, cache).Next? && step(2, step(1, cache).cache).Last?
    ensures Paginate(step, 1, cache, [], []).requested == [1, 2]
  {
    PaginateStopsAtStopPage(step, 1, cache, [], []);
    assert StopPage(step, 1, cache) == 2;
  }

  /** The detail cache only grows across the loop, whatever way it ends. */
  lemma {:induction false} PaginateExtendsCache(step: Steps, page: Page, cache: map<int, EsiKillmail>, acc: seq<RawZKillItem>, requested: seq<nat>)
    requires StepsExtend(step)
    ensures Extends(cache, Paginate(step, page, cache, acc, requested).cache)
    decreases MaxPages + 1 - page
  {
    if page <= MaxPages {
      match step(page, cache)
      case Next(items, cache') =>
        PaginateExtendsCache(step, page + 1, cache', acc + items, requested + [page]);
      case _ =>
    }
  }

  /** A whole run of the pipeline's loop only adds details to the cache. */
  lemma RunExtendsCache(ctx: FetchContext, cache: map<int, EsiKillmail>)
    ensures Extends(cache, Run(ctx, cache).cache)
  {
    PipelineStepsExtend(ctx);
    PaginateExtendsCache(StepsOf(ctx), 1, cache, [], []);
  }

  /**
   * The items returned are the accumulated ones followed by those of later
   * pages, the current page's items first: nothing is dropped.
   */
  lemma {:induction false} PaginateKeepsAccumulated(step: Steps, page: Page, cache: map<int, EsiKillmail>, acc: seq<RawZKillItem>, requested: seq<nat>)
    ensures var r := Paginate(step, page, cache, acc, requested);
      r.result.Success? ==> |acc| <= |r.result.value| && r.result.value[..|acc|] == acc
    ensures var r := Paginate(step, page, cache, acc, requested);
      var s := step(page, cache);
      page <= MaxPages && (s.Last? || s.Next?) && r.result.Success? ==>
        |acc + s.items| <= |r.result.value| && r.result.value[..|acc + s.items|] == acc + s.items
    decreases MaxPages + 1 - page
  {
    if page <= MaxPages {
      match step(page, cache)
      case Last(items, cache') =>
        assert (acc + items)[..|acc|] == acc;
      case Next(items, cache') =>
        assert (acc + items)[..|acc|] == acc;
        PaginateKeepsAccumulated(step, page + 1, cache', acc + items, requested + [page]);
        var r := Paginate(step, page + 1, cache', acc + items, requested + [page]);
        if r.result.Success? {
          assert r.result.value[..|acc|] == r.result.value[..|acc + items|][..|acc|];
        }
      case _ =>
    }
  }

  /** The cache the loop hands to page `k`, following the pages from `page` that go on. */
  function CacheBefore(step: Steps, page: Page, cache: map<int, EsiKillmail>, k: nat): map<int, EsiKillmail>
    requires page <= k
    decreases k - page
  {
    if page == k then cache
    else
      match step(page, cache)
      case Next(_, cache') => CacheBefore(step, page + 1, cache', k)
      case _ => cache
  }

  /** The items of the pages from `page` to `k` that were hydrated, in page order. */
  function ItemsThrough(step: Steps, page: Page, cache: map<int, EsiKillmail>, k: nat): seq<RawZKillItem>
    decreases k + 1 - page
  {
    if page > k then []
    else
      match step(page, cache)
      case Next(items, cache') => items + ItemsThrough(step, page + 1, cache', k)
      case Last(items, _) => items
      case _ => []
  }

  /**
   * What the loop returns, in terms of the page where it stops: the error of
   * that page when it failed, otherwise every hydrated page's items in page
   * order after those already gathered.
   */
  lemma {:induction false} PaginateResult(step: Steps, page: Page, cache: map<int, EsiKillmail>, acc: seq<RawZKillItem>, requested: seq<nat>)
    requires page <= MaxPages
    ensures var r := Paginate(step, page, cache, acc, requested);
      var k := StopPage(step, page, cache);
      var s := step(k, CacheBefore(step, page, cache, k));
      && (r.result.Failure? <==> s.PageFailed?)
      && (s.PageFailed? ==> r.result.error == s.error)
      && (!s.PageFailed? ==> r.result.value == acc + ItemsThrough(step, page, cache, k))
    decreases MaxPages + 1 - page
  {
    match step(page, cache)
    case Next(items, cache') =>
      if page < MaxPages {
        var k := StopPage(step, page + 1, cache');
        var rest := ItemsThrough(step, page + 1, cache', k);
        assert StopPage(step, page, cache) == k;
        assert CacheBefore(step, page, cache, k) == CacheBefore(step, page + 1, cache', k);
        assert ItemsThrough(step, page, cache, k) == items + rest;
        PaginateResult(step, page + 1, cache', acc + items, requested + [page]);
        assert acc + items + rest == acc + (items + rest);
      } else {
        assert StopPage(step, page, cache) == page && CacheBefore(step, page, cache, page) == cache;
        assert ItemsThrough(step, page + 1, cache', page) == [];
        assert ItemsThrough(step, page, cache, page) == items + [] == items;
      }
    case Last(items, _) =>
      assert StopPage(step, page, cache) == page && CacheBefore(step, page, cache, page) == cache;
    case _ =>
      assert StopPage(step, page, cache) == page && CacheBefore(step, page, cache, page) == cache;
  }

  /**
   * The cache the loop ends with: the stopping page's when that page was
   * hydrated, and the one it was handed otherwise.
   */
  lemma {:induction false} PaginateCache(step: Steps, page: Page, cache: map<int, EsiKillmail>, acc: seq<RawZKillItem>, requested: seq<nat>)
    requires page <= MaxPages
    ensures var k := StopPage(step, page, cache);
      var before := CacheBefore(step, page, cache, k);
      var s := step(k, before);
      Paginate(step, page, cache, acc, requested).cache == (if s.Last? || s.Next? then s.cache else before)
    decreases MaxPages + 1 - page
  {
    match step(page, cache)
    case Next(items, cache') =>
      if page < MaxPages {
        var k := StopPage(step, page + 1, cache');
        assert StopPage(step, page, cache) == k;
        assert CacheBefore(step, page, cache, k) == CacheBefore(step, page + 1, cache', k);
        PaginateCache(step, page + 1, cache', acc + items, requested + [page]);
      } else {
        assert StopPage(step, page, cache) == page && CacheBefore(step, page, cache, page) == cache;
      }
    case _ =>
      assert StopPage(step, page, cache) == page && CacheBefore(step, page, cache, page) == cache;
  }

  /** What a whole run of the pipeline's loop returns, from the page where it stops. */
  lemma RunResult(ctx: FetchContext, cache: map<int, EsiKillmail>)
    ensures var r := Run(ctx, cache);
      var step := StepsOf(ctx);
      var k := StopPage(step, 1, cache);
      var before := CacheBefore(step, 1, cache, k);
      var s := Step(ctx, k, before);
      && (r.result.Failure? <==> s.PageFailed?)
      && (s.PageFailed? ==> r.result.error == s.error)
      && (!s.PageFailed? ==> r.result.value == ItemsThrough(step, 1, cache, k))
      && r.cache == (if s.Last? || s.Next? then s.cache else before)
  {
    PaginateResult(StepsOf(ctx), 1, cache, [], []);
    PaginateCache(StepsOf(ctx), 1, cache, [], []);
    assert [] + ItemsThrough(StepsOf(ctx), 1, cache, StopPage(StepsOf(ctx), 1, cache)) == ItemsThrough(StepsOf(ctx), 1, cache, StopPage(StepsOf(ctx), 1, cache));
  }

  /**
   * Page after page until a page fails, comes back empty, or passes the stop
   * rule; `requested` records the pages asked for.
   */
  method FetchPages(state: AppState, ctx: FetchContext) returns (res: Result<seq<RawZKillItem>, FetchError>, ghost requested: seq<nat>)
    modifies state`esiCache
    ensures var run := Run(ctx, old(state.esiCache));
      res == run.result && state.esiCache == run.cache && requested == run.requested
  {
    ghost var goal := Run(ctx, state.esiCache);
    var allRawItems: seq<RawZKillItem> := [];
    requested := [];
    var page := 1;
    while page <= MaxPages
      invariant 1 <= page <= MaxPages + 1
      invariant Paginate(StepsOf(ctx), page, state.esiCache, allRawItems, requested) == goal
    {
      ghost var before := state.esiCache;
      var step := FetchPage(state, ctx, page);
      assert StepsOf(ctx)(page, before) == step;
      requested := requested + [page];
      match step
      case PageFailed(e) =>
        return Failure(e), requested;
      case Exhausted =>
        return Success(allRawItems), requested;
      case Last(pageItems, _) =>
        return Success(allRawItems + pageItems), requested;
      case Next(pageItems, _) =>
        allRawItems := allRawItems + pageItems;
      page := page + 1;
    }
    res := Success(allRawItems);
  }

  /** One pass of the page loop: request, check, hydrate and test one page. */
  method FetchPage(state: AppState, ctx: FetchContext, page: Page) returns (step: PageStep)
    modifies state`esiCache
    ensures step == Step(ctx, page, old(state.esiCache))
    ensures step.Last? || step.Next? ==> state.esiCache == step.cache
    ensures step.PageFailed? || step.Exhausted? ==> state.esiCache == old(state.esiCache)
  {
    var pageUrl := PageUrl(ctx.entity, page);
    var resp := ctx.up.list(pageUrl);
    if resp.ListNetErr? {
      return PageFailed(ListTransport);
    }
    if !IsSuccess(resp.status) {
      return PageFailed(ListStatus(page, resp.status));
    }
    if resp.body.None? {
      return PageFailed(ListBadJson(page));
    }
    var pageItems := resp.body.value;
    if pageItems == [] {
      return Exhausted;
    }
    var hydrated := HydratePage(state, pageItems, ctx.up);
    if hydrated.Failure? {
      return PageFailed(hydrated.error);
    }
    var oldest, valid := ScanBatch(pageItems, state.esiCache, ctx.now, ctx.parseTime);
    if valid && oldest < ctx.startCutoff {
      return Last(pageItems, state.esiCache);
    }
    return Next(pageItems, state.esiCache);
  }
}
