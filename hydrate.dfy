/**
 * One page's hydration in `fetch_zkill_data`: choose the kills whose detail
 * is not cached, fetch each detail, abort on a rate-limit status before
 * anything is merged, merge the parsed details, and compute the oldest
 * cached time of the page for the stop rule.
 */
module Hydrate {
  import opened Wrappers
  import opened Models

  /** What one detail task yields: a parsed detail, a silent miss, or a failing status. */
  datatype TaskResult = Hydrated(id: int, detail: EsiKillmail) | SoftMiss | Failed(status: int)

  /** The outcome of the detail request for one list item. */
  function TaskOutcome(item: RawZKillItem, up: Upstream): (r: TaskResult)
    ensures var resp := up.detail(item.killmailId, item.zkb.hash);
      && (r.Hydrated? <==> resp.DetailResp? && IsSuccess(resp.status) && resp.body.Some?)
      && (r.Hydrated? ==> r.id == item.killmailId && r.detail == resp.body.value)
      && (r.Failed? <==> resp.DetailResp? && !IsSuccess(resp.status))
      && (r.Failed? ==> r.status == resp.status)
  {
    match up.detail(item.killmailId, item.zkb.hash)
    case DetailNetErr => SoftMiss
    case DetailResp(status, body) =>
      if IsSuccess(status) then
        match body
        case Some(d) => Hydrated(item.killmailId, d)
        case None => SoftMiss
      else Failed(status)
  }

  /** The items of the page whose kill id is not a key of the detail cache, in page order. */
  function ToFetch(items: seq<RawZKillItem>, cache: map<int, EsiKillmail>): (r: seq<RawZKillItem>)
    ensures |r| <= |items|
    ensures forall x :: x in r <==> x in items && x.killmailId !in cache
    decreases |items|
  {
    if items == [] then []
    else
      var init, last := items[..|items| - 1], items[|items| - 1];
      assert items == init + [last];
      if last.killmailId in cache then ToFetch(init, cache) else ToFetch(init, cache) + [last]
  }

  /** The selection keeps page order: selecting from two runs of items is selecting from each in turn. */
  lemma {:induction false} ToFetchAppend(a: seq<RawZKillItem>, b: seq<RawZKillItem>, cache: map<int, EsiKillmail>)
    ensures ToFetch(a + b, cache) == ToFetch(a, cache) + ToFetch(b, cache)
    decreases |b|
  {
    if b == [] {
      assert a + b == a;
    } else {
      var init, last := b[..|b| - 1], b[|b| - 1];
      assert (a + b)[..|a + b| - 1] == a + init;
      assert (a + b)[|a + b| - 1] == last;
      ToFetchAppend(a, init, cache);
    }
  }

  /** One item is selected exactly when its kill id is not cached. */
  lemma ToFetchOne(x: RawZKillItem, cache: map<int, EsiKillmail>)
    ensures ToFetch([x], cache) == (if x.killmailId in cache then [] else [x])
  {
    assert [x][..0] == [];
  }

  method SelectUncached(items: seq<RawZKillItem>, cache: map<int, EsiKillmail>) returns (toFetch: seq<RawZKillItem>)
    ensures toFetch == ToFetch(items, cache)
  {
    toFetch := [];
    var i := 0;
    while i < |items|
      invariant 0 <= i <= |items|
      invariant toFetch == ToFetch(items[..i], cache)
    {
      assert items[..i + 1][..i] == items[..i];
      if items[i].killmailId !in cache {
        toFetch := toFetch + [items[i]];
      }
      i := i + 1;
    }
    assert items[..i] == items;
  }

  /** The joined results of the batch, one per item, in item order. */
  function TaskResults(toFetch: seq<RawZKillItem>, up: Upstream): (r: seq<TaskResult>) {
    seq(|toFetch|, i requires 0 <= i < |toFetch| => TaskOutcome(toFetch[i], up))
  }

  /** The batch of detail requests, issued one after the other. */
  method RunBatch(toFetch: seq<RawZKillItem>, up: Upstream) returns (results: seq<TaskResult>)
    ensures |results| == |toFetch|
    ensures forall i :: 0 <= i < |toFetch| ==> results[i] == TaskOutcome(toFetch[i], up)
  {
    results := [];
    var i := 0;
    while i < |toFetch|
      invariant 0 <= i <= |toFetch| && |results| == i
      invariant forall k :: 0 <= k < i ==> results[k] == TaskOutcome(toFetch[k], up)
    {
      var outcome := TaskOutcome(toFetch[i], up);
      results := results + [outcome];
      i := i + 1;
    }
  }

  predicate RateLimited(t: TaskResult) {
    t.Failed? && IsRateLimit(t.status)
  }

  /** The status of the first rate-limited result, if any. */
  function FirstRateLimit(results: seq<TaskResult>): (r: Option<int>)
    ensures r.None? <==> forall i :: 0 <= i < |results| ==> !RateLimited(results[i])
    ensures r.Some? ==> IsRateLimit(r.value)
    ensures r.Some? ==> exists i :: 0 <= i < |results| && results[i] == Failed(r.value)
                                    && forall j :: 0 <= j < i ==> !RateLimited(results[j])
    decreases |results|
  {
    if results == [] then None
    else if RateLimited(results[0]) then Some(results[0].status)
    else
      var r := FirstRateLimit(results[1..]);
      assert forall i :: 1 <= i < |results| ==> results[i] == results[1..][i - 1];
      if r.Some? then
        var i :| 0 <= i < |results[1..]| && results[1..][i] == Failed(r.value)
                 && forall j :: 0 <= j < i ==> !RateLimited(results[1..][j]);
        assert results[i + 1] == Failed(r.value);
        assert forall j :: 0 <= j < i + 1 ==> !RateLimited(results[j]);
        r
      else r
  }

  method ScanRateLimit(results: seq<TaskResult>) returns (limited: Option<int>)
    ensures limited == FirstRateLimit(results)
  {
    var i := 0;
    while i < |results|
      invariant 0 <= i <= |results|
      invariant FirstRateLimit(results) == FirstRateLimit(results[i..])
    {
      assert results[i..][1..] == results[i + 1..];
      if RateLimited(results[i]) {
        return Some(results[i].status);
      }
      i := i + 1;
    }
    limited := None;
  }

  /** The ids the batch hydrated. */
  function HydratedIds(results: seq<TaskResult>): set<int> {
    set i | 0 <= i < |results| && results[i].Hydrated? :: results[i].id
  }

  /** The hydrated ids of all results are those of all but the last, and the last's if it is hydrated. */
  lemma HydratedIdsStep(results: seq<TaskResult>)
    requires results != []
    ensures var init, last := results[..|results| - 1], results[|results| - 1];
      HydratedIds(results) == HydratedIds(init) + (if last.Hydrated? then {last.id} else {})
  {
    var init := results[..|results| - 1];
    assert forall i :: 0 <= i < |init| ==> init[i] == results[i];
  }

  /** The cache after `cache.insert(id, data)` for every hydrated result, in order. */
  function MergeParsed(cache: map<int, EsiKillmail>, results: seq<TaskResult>): (r: map<int, EsiKillmail>)
    ensures r.Keys == cache.Keys + HydratedIds(results)
    ensures forall k :: k in cache && k !in HydratedIds(results) ==> r[k] == cache[k]
    ensures forall k :: k in r && k !in cache ==> Hydrated(k, r[k]) in results
    decreases |results|
  {
    if results == [] then cache
    else
      var init, last := results[..|results| - 1], results[|results| - 1];
      assert results == init + [last];
      HydratedIdsStep(results);
      var m := MergeParsed(cache, init);
      if last.Hydrated? then m[last.id := last.detail] else m
  }

  /** `cache.insert` of every hydrated result into the shared detail cache. */
  method MergeIntoCache(state: AppState, results: seq<TaskResult>)
    modifies state`esiCache
    ensures state.esiCache == MergeParsed(old(state.esiCache), results)
  {
    var cache := state.esiCache;
    var i := 0;
    while i < |results|
      invariant 0 <= i <= |results|
      invariant cache == MergeParsed(old(state.esiCache), results[..i])
    {
      assert results[..i + 1][..i] == results[..i];
      if results[i].Hydrated? {
        cache := cache[results[i].id := results[i].detail];
      }
      i := i + 1;
    }
    assert results[..i] == results;
    state.esiCache := cache;
  }

  /** Every key of `m` is in `m'` with the same value. */
  ghost predicate Extends<K, V>(m: map<K, V>, m': map<K, V>) {
    forall k :: k in m ==> k in m' && m'[k] == m[k]
  }

  /** The detail cache after hydrating one page, or the rate-limit error. */
  function HydrateSpec(items: seq<RawZKillItem>, cache: map<int, EsiKillmail>, up: Upstream): (r: Result<map<int, EsiKillmail>, FetchError>)
    ensures r.Failure? ==> r.error.DetailRateLimited? && IsRateLimit(r.error.status)
    ensures r.Failure? ==> exists x :: x in items && x.killmailId !in cache && TaskOutcome(x, up) == Failed(r.error.status)
  {
    var toFetch := ToFetch(items, cache);
    if toFetch == [] then Success(cache)
    else
      var results := TaskResults(toFetch, up);
      match FirstRateLimit(results)
      case Some(status) =>
        var i :| 0 <= i < |results| && results[i] == Failed(status) && forall j :: 0 <= j < i ==> !RateLimited(results[j]);
        assert toFetch[i] in toFetch;
        Failure(DetailRateLimited(status))
      case None => Success(MergeParsed(cache, results))
  }

  /**
   * Hydration never removes or changes a cached detail; it adds exactly the
   * parsed details, and a detail obtained once is never requested again.
   */
  lemma HydrateExtendsCache(items: seq<RawZKillItem>, cache: map<int, EsiKillmail>, up: Upstream)
    requires HydrateSpec(items, cache, up).Success?
    ensures Extends(cache, HydrateSpec(items, cache, up).value)
    ensures forall x :: x in items && TaskOutcome(x, up).Hydrated? ==> x.killmailId in HydrateSpec(items, cache, up).value
    ensures forall k :: k in HydrateSpec(items, cache, up).value && k !in cache ==>
      exists x :: x in items && TaskOutcome(x, up) == Hydrated(k, HydrateSpec(items, cache, up).value[k])
  {
    var toFetch := ToFetch(items, cache);
    var results := TaskResults(toFetch, up);
    var c' := HydrateSpec(items, cache, up).value;
    if toFetch != [] {
      assert c' == MergeParsed(cache, results);
      HydratedNotCached(items, cache, up);
      forall x | x in items && TaskOutcome(x, up).Hydrated? ensures x.killmailId in c' {
        if x.killmailId !in cache {
          HydratedReachesCache(items, cache, up, x);
        }
      }
      forall k | k in c' && k !in cache
        ensures exists x :: x in items && TaskOutcome(x, up) == Hydrated(k, c'[k])
      {
        var i :| 0 <= i < |results| && results[i] == Hydrated(k, c'[k]);
        assert toFetch[i] in items;
      }
    }
  }

  /** The batch only hydrates ids that were not cached. */
  lemma HydratedNotCached(items: seq<RawZKillItem>, cache: map<int, EsiKillmail>, up: Upstream)
    ensures forall k :: k in HydratedIds(TaskResults(ToFetch(items, cache), up)) ==> k !in cache
  {
    var toFetch := ToFetch(items, cache);
    var results := TaskResults(toFetch, up);
    forall k | k in HydratedIds(results) ensures k !in cache {
      var i :| 0 <= i < |results| && results[i].Hydrated? && results[i].id == k;
      assert toFetch[i] in toFetch;
    }
  }

  /** An uncached item whose detail request parses is among the hydrated ids. */
  lemma HydratedReachesCache(items: seq<RawZKillItem>, cache: map<int, EsiKillmail>, up: Upstream, x: RawZKillItem)
    requires x in items && x.killmailId !in cache && TaskOutcome(x, up).Hydrated?
    ensures x.killmailId in HydratedIds(TaskResults(ToFetch(items, cache), up))
  {
    var toFetch := ToFetch(items, cache);
    var results := TaskResults(toFetch, up);
    var i :| 0 <= i < |toFetch| && toFetch[i] == x;
    assert results[i].Hydrated? && results[i].id == x.killmailId;
  }

  /**
   * A 420 or 429 answer to any detail request of the page aborts the page
   * with the rate-limit error; the cache is then left alone (`HydratePage`).
   */
  lemma RateLimitAbortsPage(items: seq<RawZKillItem>, cache: map<int, EsiKillmail>, up: Upstream, x: RawZKillItem)
    requires x in items && x.killmailId !in cache
    requires up.detail(x.killmailId, x.zkb.hash).DetailResp? && IsRateLimit(up.detail(x.killmailId, x.zkb.hash).status)
    ensures HydrateSpec(items, cache, up).Failure?
    ensures HydrateSpec(items, cache, up).error.DetailRateLimited?
    ensures IsRateLimit(HydrateSpec(items, cache, up).error.status)
  {
    var toFetch := ToFetch(items, cache);
    var results := TaskResults(toFetch, up);
    var i :| 0 <= i < |toFetch| && toFetch[i] == x;
    assert RateLimited(results[i]);
  }

  /** Hydrating a page a second time, after a success, requests no detail that was obtained. */
  lemma SecondHydrationSkipsHydrated(items: seq<RawZKillItem>, cache: map<int, EsiKillmail>, up: Upstream)
    requires HydrateSpec(items, cache, up).Success?
    ensures forall x :: x in ToFetch(items, HydrateSpec(items, cache, up).value) ==> !TaskOutcome(x, up).Hydrated?
  {
    HydrateExtendsCache(items, cache, up);
  }

  /**
   * Fetch the page's uncached details, abort on the first rate-limited
   * status (before any merge), otherwise merge the parsed ones.
   */
  method HydratePage(state: AppState, items: seq<RawZKillItem>, up: Upstream) returns (r: Result<(), FetchError>)
    modifies state`esiCache
    ensures var spec := HydrateSpec(items, old(state.esiCache), up);
      && (r.Success? <==> spec.Success?)
      && (spec.Success? ==> state.esiCache == spec.value)
      && (spec.Failure? ==> r.error == spec.error && state.esiCache == old(state.esiCache))
  {
    var toFetch := SelectUncached(items, state.esiCache);
    if toFetch != [] {
      var results := RunBatch(toFetch, up);
      assert results == TaskResults(toFetch, up);
      var limited := ScanRateLimit(results);
      if limited.Some? {
        return Failure(DetailRateLimited(limited.value));
      }
      MergeIntoCache(state, results);
    }
    r := Success(());
  }

  /** The time of an item's cached detail, when it has one that parses. */
  function CachedTime(item: RawZKillItem, cache: map<int, EsiKillmail>, parseTime: string -> Option<int>): Option<int> {
    if item.killmailId in cache then parseTime(cache[item.killmailId].killmailTime) else None
  }

  /** `oldest`: `now` lowered to every parseable cached time of the page. */
  function Oldest(items: seq<RawZKillItem>, cache: map<int, EsiKillmail>, now: int, parseTime: string -> Option<int>): (r: int)
    ensures r <= now
    ensures forall i :: 0 <= i < |items| && CachedTime(items[i], cache, parseTime).Some? ==>
      r <= CachedTime(items[i], cache, parseTime).value
    ensures r == now || exists i :: 0 <= i < |items| && CachedTime(items[i], cache, parseTime) == Some(r)
    decreases |items|
  {
    if items == [] then now
    else
      var init, last := items[..|items| - 1], items[|items| - 1];
      assert items == init + [last];
      var o := Oldest(init, cache, now, parseTime);
      assert forall i :: 0 <= i < |init| ==> items[i] == init[i];
      match CachedTime(last, cache, parseTime)
      case Some(t) => if t < o then t else o
      case None => o
  }

  /** `valid`: some item of the page has a cached detail, parseable or not. */
  predicate BatchValid(items: seq<RawZKillItem>, cache: map<int, EsiKillmail>) {
    exists i :: 0 <= i < |items| && items[i].killmailId in cache
  }

  method ScanBatch(items: seq<RawZKillItem>, cache: map<int, EsiKillmail>, now: int, parseTime: string -> Option<int>)
    returns (oldest: int, valid: bool)
    ensures oldest == Oldest(items, cache, now, parseTime)
    ensures valid == BatchValid(items, cache)
  {
    oldest, valid := now, false;
    var i := 0;
    while i < |items|
      invariant 0 <= i <= |items|
      invariant oldest == Oldest(items[..i], cache, now, parseTime)
      invariant valid == BatchValid(items[..i], cache)
    {
      ScanStep(items, i, cache, now, parseTime);
      if items[i].killmailId in cache {
        var t := parseTime(cache[items[i].killmailId].killmailTime);
        if t.Some? && t.value < oldest {
          oldest := t.value;
        }
        valid := true;
      }
      i := i + 1;
    }
    assert items[..i] == items;
  }

  /** `Oldest` and `BatchValid` over one more item. */
  lemma ScanStep(items: seq<RawZKillItem>, i: nat, cache: map<int, EsiKillmail>, now: int, parseTime: string -> Option<int>)
    requires i < |items|
    ensures var o := Oldest(items[..i], cache, now, parseTime);
      Oldest(items[..i + 1], cache, now, parseTime)
        == match CachedTime(items[i], cache, parseTime) case Some(t) => (if t < o then t else o) case None => o
    ensures BatchValid(items[..i + 1], cache) == (BatchValid(items[..i], cache) || items[i].killmailId in cache)
  {
    assert items[..i + 1][..i] == items[..i];
    assert forall k :: 0 <= k < i ==> items[..i + 1][k] == items[..i][k];
  }

  /** The stop test after a non-empty page. */
  predicate ShouldStop(items: seq<RawZKillItem>, cache: map<int, EsiKillmail>, now: int, cutoff: int, parseTime: string -> Option<int>) {
    BatchValid(items, cache) && Oldest(items, cache, now, parseTime) < cutoff
  }

  /**
   * The loop stops exactly when some item of the page is cached and either a
   * cached time is before the cutoff, or the clock itself is.
   */
  lemma ShouldStopMeaning(items: seq<RawZKillItem>, cache: map<int, EsiKillmail>, now: int, cutoff: int, parseTime: string -> Option<int>)
    ensures ShouldStop(items, cache, now, cutoff, parseTime) <==>
      BatchValid(items, cache) &&
      (now < cutoff || exists i :: 0 <= i < |items| && CachedTime(items[i], cache, parseTime).Some? && CachedTime(items[i], cache, parseTime).value < cutoff)
  {
  }
}
