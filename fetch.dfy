/**
 * `fetch_zkill_data` end to end: parse the link, run the page loop,
 * keep the valuable kills, resolve the missing names chunk by chunk, and
 * assemble the display records from the two caches.
 */
module Fetch {
  import opened Wrappers
  import opened Models
  import opened Collections
  import opened Link
  import opened Hydrate
  import opened Pagination
  import opened Names
  import opened Assemble

  /**
   * What one `fetch_zkill_data` call does, from the caches `esi0`/`names0`
   * before it to `esi1`/`names1` after it, returning `r`: a bad link
   * changes nothing; otherwise the call goes on as `FetchedFrom` says.
   */
  ghost predicate Fetched(userUrl: string, startCutoff: int, now: int, up: Upstream, parseTime: string -> Option<int>,
                          esi0: map<int, EsiKillmail>, names0: map<int, string>,
                          esi1: map<int, EsiKillmail>, names1: map<int, string>,
                          r: Result<seq<Killmail>, FetchError>) {
    && (ParseLink(userUrl).Failure? ==>
          r == Failure(ParseLink(userUrl).error) && esi1 == esi0 && names1 == names0)
    && (ParseLink(userUrl).Success? ==>
          FetchedFrom(FetchContext(ParseLink(userUrl).value, startCutoff, now, up, parseTime), esi0, names0, esi1, names1, r))
  }

  /**
   * The call once the link is parsed: the page loop fills the detail cache,
   * and on success the kept kills' missing names are resolved and the
   * records assembled from the two caches.
   */
  ghost predicate FetchedFrom(ctx: FetchContext,
                              esi0: map<int, EsiKillmail>, names0: map<int, string>,
                              esi1: map<int, EsiKillmail>, names1: map<int, string>,
                              r: Result<seq<Killmail>, FetchError>) {
    var run := Run(ctx, esi0);
    && esi1 == run.cache
    && (run.result.Failure? ==> r == Failure(run.result.error) && names1 == names0)
    && (run.result.Success? ==>
          var kept := Worthwhile(run.result.value);
          && Extends(esi0, esi1)
          && ResolvedFrom(IdsToResolve(kept, esi1, names0), names0, ctx.up,
                          Resolution(if r.Failure? then Some(r.error) else None, names1))
          && (r.Success? ==> r.value == AssembleKills(kept, esi1, names1)))
  }

  method FetchZkillData(
    userUrl: string, state: AppState, startCutoff: int, now: int,
    up: Upstream, parseTime: string -> Option<int>)
    returns (r: Result<seq<Killmail>, FetchError>, ghost requested: seq<nat>)
    modifies state`esiCache, state`nameCache
    ensures Fetched(userUrl, startCutoff, now, up, parseTime, old(state.esiCache), old(state.nameCache),
                    state.esiCache, state.nameCache, r)
    ensures ParseLink(userUrl).Failure? ==> requested == []
    ensures ParseLink(userUrl).Success? ==>
      requested == Run(FetchContext(ParseLink(userUrl).value, startCutoff, now, up, parseTime), old(state.esiCache)).requested
  {
    var link := ParseLink(userUrl);
    if link.Failure? {
      return Failure(link.error), [];
    }
    var ctx := FetchContext(link.value, startCutoff, now, up, parseTime);
    r, requested := FetchFromLink(state, ctx);
  }

  /** Steps 2 to 5, for a parsed link: the page loop, the pre-filter, then resolution and assembly. */
  method FetchFromLink(state: AppState, ctx: FetchContext)
    returns (r: Result<seq<Killmail>, FetchError>, ghost requested: seq<nat>)
    modifies state`esiCache, state`nameCache
    ensures FetchedFrom(ctx, old(state.esiCache), old(state.nameCache), state.esiCache, state.nameCache, r)
    ensures requested == Run(ctx, old(state.esiCache)).requested
  {
    ghost var run := Run(ctx, state.esiCache);
    var pages;
    pages, requested := FetchPages(state, ctx);
    assert pages == run.result && state.esiCache == run.cache;
    if pages.Failure? {
      return Failure(pages.error), requested;
    }
    RunExtendsCache(ctx, old(state.esiCache));
    var worthwhileKills := Worthwhile(pages.value);
    r := ResolveAndAssemble(state, worthwhileKills, ctx.up);
  }

  /** Steps 4 and 5: the missing names resolved, then the display records built from the caches. */
  method ResolveAndAssemble(state: AppState, kept: seq<RawZKillItem>, up: Upstream)
    returns (r: Result<seq<Killmail>, FetchError>)
    modifies state`nameCache
    ensures ResolvedFrom(IdsToResolve(kept, state.esiCache, old(state.nameCache)), old(state.nameCache), up,
                         Resolution(if r.Failure? then Some(r.error) else None, state.nameCache))
    ensures r.Success? ==> r.value == AssembleKills(kept, state.esiCache, state.nameCache)
  {
    var idsToResolve := CollectNameIds(kept, state.esiCache, state.nameCache);
    if idsToResolve != {} {
      var idsVec := SetToSeq(idsToResolve);
      assert Elements(idsVec) == idsToResolve;
      var error := ResolveNames(state, idsVec, up);
      if error.Some? {
        return Failure(error.value);
      }
    } else {
      NothingToResolve(state.nameCache, up);
    }
    var finalKills := BuildFinalKills(kept, state.esiCache, state.nameCache);
    r := Success(finalKills);
  }
}
