/**
 * Name resolution in `fetch_zkill_data`: the ids the kept kills mention
 * that the name cache lacks, split into chunks of at most 1000 and posted
 * one chunk after the other to the bulk name endpoint.
 */
module Names {
  import opened Wrappers
  import opened Models
  import opened Collections

  function OptionIds(id: Option<int>): set<int> {
    if id.Some? then {id.value} else {}
  }

  function AttackerIds(attackers: seq<EsiAttacker>): set<int> {
    set i | 0 <= i < |attackers| && attackers[i].characterId.Some? :: attackers[i].characterId.value
  }

  /** The ids the victim part of a detail record names: character, corporation, ship type, and the system. */
  function VictimIds(d: EsiKillmail): set<int> {
    OptionIds(d.victim.characterId) + OptionIds(d.victim.corporationId) + {d.victim.shipTypeId, d.solarSystemId}
  }

  /** The ids a detail record names: the victim's, the system, and the attacker characters. */
  function DetailNameIds(d: EsiKillmail): set<int> {
    VictimIds(d) + AttackerIds(d.attackers)
  }

  /** A kept kill whose cached detail names `x`. */
  predicate NamedBy(item: RawZKillItem, esiCache: map<int, EsiKillmail>, x: int) {
    item.killmailId in esiCache && x in DetailNameIds(esiCache[item.killmailId])
  }

  /** `ids_to_resolve`: the loop over the kept kills, each cached detail adding its ids the name cache lacks. */
  function IdsToResolve(kept: seq<RawZKillItem>, esiCache: map<int, EsiKillmail>, nameCache: map<int, string>): (r: set<int>)
    ensures forall x :: x in r ==> x !in nameCache
    decreases |kept|
  {
    if kept == [] then {}
    else
      var last := kept[|kept| - 1];
      IdsToResolve(kept[..|kept| - 1], esiCache, nameCache)
      + (if last.killmailId in esiCache then DetailNameIds(esiCache[last.killmailId]) - nameCache.Keys else {})
  }

  /** An id is to be resolved exactly when the name cache lacks it and some kept kill's cached detail names it. */
  lemma {:induction false} IdsToResolveMeaning(kept: seq<RawZKillItem>, esiCache: map<int, EsiKillmail>,
                                               nameCache: map<int, string>, x: int)
    ensures x in IdsToResolve(kept, esiCache, nameCache) <==>
            x !in nameCache && exists i :: 0 <= i < |kept| && NamedBy(kept[i], esiCache, x)
    decreases |kept|
  {
    if kept != [] {
      var init := kept[..|kept| - 1];
      IdsToResolveMeaning(init, esiCache, nameCache, x);
      assert forall i :: 0 <= i < |init| ==> kept[i] == init[i];
      if exists i :: 0 <= i < |kept| && NamedBy(kept[i], esiCache, x) {
        var i :| 0 <= i < |kept| && NamedBy(kept[i], esiCache, x);
        if i < |init| {
          assert NamedBy(init[i], esiCache, x);
        }
      }
    }
  }

  /** The loop over the kept kills that fills `ids_to_resolve`. */
  method CollectNameIds(kept: seq<RawZKillItem>, esiCache: map<int, EsiKillmail>, nameCache: map<int, string>)
    returns (ids: set<int>)
    ensures ids == IdsToResolve(kept, esiCache, nameCache)
  {
    ids := {};
    var i := 0;
    while i < |kept|
      invariant 0 <= i <= |kept|
      invariant ids == IdsToResolve(kept[..i], esiCache, nameCache)
    {
      assert kept[..i + 1][..i] == kept[..i];
      if kept[i].killmailId in esiCache {
        ids := AddDetailIds(ids, esiCache[kept[i].killmailId], nameCache);
      }
      i := i + 1;
    }
    assert kept[..i] == kept;
  }

  /** The inserts for one cached detail, each id only when the name cache lacks it. */
  method AddDetailIds(ids0: set<int>, d: EsiKillmail, nameCache: map<int, string>) returns (ids: set<int>)
    ensures ids == ids0 + (DetailNameIds(d) - nameCache.Keys)
  {
    ids := AddVictimIds(ids0, d, nameCache);
    ids := AddAttackerIds(ids, d.attackers, nameCache);
  }

  /** The four inserts for the victim part of one detail. */
  method AddVictimIds(ids0: set<int>, d: EsiKillmail, nameCache: map<int, string>) returns (ids: set<int>)
    ensures ids == ids0 + (VictimIds(d) - nameCache.Keys)
  {
    ids := ids0;
    if d.victim.characterId.Some? && d.victim.characterId.value !in nameCache {
      ids := ids + {d.victim.characterId.value};
    }
    if d.victim.corporationId.Some? && d.victim.corporationId.value !in nameCache {
      ids := ids + {d.victim.corporationId.value};
    }
    if d.victim.shipTypeId !in nameCache {
      ids := ids + {d.victim.shipTypeId};
    }
    if d.solarSystemId !in nameCache {
      ids := ids + {d.solarSystemId};
    }
  }

  /** The inner loop over the attackers of one detail. */
  method AddAttackerIds(ids0: set<int>, attackers: seq<EsiAttacker>, nameCache: map<int, string>) returns (ids: set<int>)
    ensures ids == ids0 + (AttackerIds(attackers) - nameCache.Keys)
  {
    ids := ids0;
    var j := 0;
    while j < |attackers|
      invariant 0 <= j <= |attackers|
      invariant ids == ids0 + (AttackerIds(attackers[..j]) - nameCache.Keys)
    {
      AttackerIdsStep(attackers, j);
      var id := attackers[j].characterId;
      if id.Some? && id.value !in nameCache {
        ids := ids + {id.value};
      }
      j := j + 1;
    }
    assert attackers[..j] == attackers;
  }

  lemma AttackerIdsStep(attackers: seq<EsiAttacker>, j: nat)
    requires j < |attackers|
    ensures AttackerIds(attackers[..j + 1]) == AttackerIds(attackers[..j]) + OptionIds(attackers[j].characterId)
  {
    assert forall k :: 0 <= k < j ==> attackers[..j + 1][k] == attackers[..j][k];
  }

  function Min(a: int, b: int): int {
    if a <= b then a else b
  }

  /** `ids.chunks(1000)`: consecutive slices of 1000 ids (ESI's bulk limit), the last one shorter. */
  function Chunks(ids: seq<int>): (r: seq<seq<int>>)
    ensures forall j :: 0 <= j < |r| ==> 1 <= |r[j]| <= 1000
    ensures |r| * 1000 >= |ids| && (|r| == 0 || (|r| - 1) * 1000 < |ids|)
    decreases |ids|
  {
    if ids == [] then []
    else if |ids| <= 1000 then [ids]
    else [ids[..1000]] + Chunks(ids[1000..])
  }

  /** Chunk `j` is the slice of ids from position `1000 * j`. */
  lemma {:induction false} ChunkAt(ids: seq<int>, j: nat)
    requires j < |Chunks(ids)|
    ensures j * 1000 < |ids| && Chunks(ids)[j] == ids[j * 1000..Min(j * 1000 + 1000, |ids|)]
    decreases |ids|
  {
    if j == 0 {
      if |ids| <= 1000 {
        assert ids[0..|ids|] == ids;
      }
    } else {
      assert |ids| <= 1000 ==> |Chunks(ids)| <= 1;
      var rest := ids[1000..];
      ChunkAt(rest, j - 1);
      var a := (j - 1) * 1000;
      assert a + 1000 == j * 1000;
      assert Chunks(ids) == [ids[..1000]] + Chunks(rest);
      assert Chunks(ids)[j] == Chunks(rest)[j - 1];
      var e := Min(a + 1000, |rest|);
      assert e + 1000 == Min(j * 1000 + 1000, |ids|);
      SliceOfDrop(ids, 1000, a, e);
    }
  }

  lemma SliceOfDrop(s: seq<int>, n: nat, x: nat, y: nat)
    requires n <= |s| && x <= y <= |s| - n
    ensures s[n..][x..y] == s[n + x..n + y]
  {
  }

  /** Every id lands in a chunk: id `i` in chunk `i / 1000`. */
  lemma ChunksCover(ids: seq<int>, i: nat)
    requires i < |ids|
    ensures i / 1000 < |Chunks(ids)| && ids[i] in Chunks(ids)[i / 1000]
  {
    var j := i / 1000;
    assert j * 1000 <= i < j * 1000 + 1000;
    ChunkAt(ids, j);
    assert Chunks(ids)[j][i - j * 1000] == ids[i];
  }

  /** Distinct ids land in one chunk only. */
  lemma ChunksDisjoint(ids: seq<int>, x: int, j: nat, k: nat)
    requires Distinct(ids)
    requires j < |Chunks(ids)| && k < |Chunks(ids)| && x in Chunks(ids)[j] && x in Chunks(ids)[k]
    ensures j == k
  {
    var cs := Chunks(ids);
    ChunkAt(ids, j);
    ChunkAt(ids, k);
    var a :| 0 <= a < |cs[j]| && cs[j][a] == x;
    var b :| 0 <= b < |cs[k]| && cs[k][b] == x;
    assert ids[j * 1000 + a] == x == ids[k * 1000 + b];
    assert j * 1000 + a == k * 1000 + b;
  }

  /** Distinct ids land each in exactly one chunk. */
  lemma ChunksPartition(ids: seq<int>)
    requires Distinct(ids)
    ensures forall x :: x in ids ==> exists j :: 0 <= j < |Chunks(ids)| && x in Chunks(ids)[j]
    ensures forall x, j, k :: 0 <= j < |Chunks(ids)| && 0 <= k < |Chunks(ids)| && x in Chunks(ids)[j] && x in Chunks(ids)[k] ==> j == k
  {
    forall x | x in ids ensures exists j :: 0 <= j < |Chunks(ids)| && x in Chunks(ids)[j] {
      var i :| 0 <= i < |ids| && ids[i] == x;
      ChunksCover(ids, i);
    }
    forall x, j, k | 0 <= j < |Chunks(ids)| && 0 <= k < |Chunks(ids)| && x in Chunks(ids)[j] && x in Chunks(ids)[k]
      ensures j == k
    {
      ChunksDisjoint(ids, x, j, k);
    }
  }

  function EntryIds(entries: seq<EsiNameEntry>): set<int> {
    set i | 0 <= i < |entries| :: entries[i].id
  }

  /** No later entry carries the id of entry `i`: its name is the one a map insert keeps. */
  predicate LastWithId(entries: seq<EsiNameEntry>, i: nat)
    requires i < |entries|
  {
    forall j :: i < j < |entries| ==> entries[j].id != entries[i].id
  }

  /** The name cache after `name_cache.insert(entry.id, entry.name)` for each entry in turn. */
  function InsertNames(m: map<int, string>, entries: seq<EsiNameEntry>): (r: map<int, string>)
    ensures r.Keys == m.Keys + EntryIds(entries)
    ensures forall k :: k in m && k !in EntryIds(entries) ==> r[k] == m[k]
    decreases |entries|
  {
    if entries == [] then m
    else
      var init, last := entries[..|entries| - 1], entries[|entries| - 1];
      assert forall i :: 0 <= i < |init| ==> entries[i] == init[i];
      assert EntryIds(entries) == EntryIds(init) + {last.id} by {
        forall x | x in EntryIds(entries) ensures x in EntryIds(init) + {last.id} {
          var i :| 0 <= i < |entries| && entries[i].id == x;
          if i < |init| { assert init[i].id == x; }
        }
      }
      InsertNames(m, init)[last.id := last.name]
  }

  /** Of several entries with one id, the last one's name is what the cache keeps. */
  lemma {:induction false} InsertNamesLastWins(m: map<int, string>, entries: seq<EsiNameEntry>, i: nat)
    requires i < |entries| && LastWithId(entries, i)
    ensures InsertNames(m, entries)[entries[i].id] == entries[i].name
    decreases |entries|
  {
    var init, last := entries[..|entries| - 1], entries[|entries| - 1];
    if i < |init| {
      assert entries[i] == init[i];
      assert LastWithId(init, i) by {
        forall j | i < j < |init| ensures init[j].id != init[i].id {
          assert init[j] == entries[j];
        }
      }
      assert last.id != entries[i].id;
      InsertNamesLastWins(m, init, i);
    }
  }

  /** Every entry's id is a key afterwards. */
  lemma EntryInserted(m: map<int, string>, entries: seq<EsiNameEntry>, e: EsiNameEntry)
    requires e in entries
    ensures e.id in InsertNames(m, entries)
  {
    var i :| 0 <= i < |entries| && entries[i] == e;
    assert e.id in EntryIds(entries);
  }

  /** How resolution ends: the rate-limit error if one came, and the name cache. */
  datatype Resolution = Resolution(error: Option<FetchError>, names: map<int, string>)

  predicate RateLimitedAnswer(resp: NamesResponse) {
    resp.NamesResp? && !IsSuccess(resp.status) && IsRateLimit(resp.status)
  }

  /** The entries an answer contributes: those of a successful, parsed answer, else none. */
  function AnswerEntries(resp: NamesResponse): seq<EsiNameEntry> {
    if resp.NamesResp? && IsSuccess(resp.status) && resp.body.Some? then resp.body.value else []
  }

  /** How many chunks come before the first rate-limited answer (all of them if none is). */
  function PostedBeforeLimit(chunks: seq<seq<int>>, up: Upstream): (n: nat)
    ensures n <= |chunks|
    ensures forall j :: 0 <= j < n ==> !RateLimitedAnswer(up.names(chunks[j]))
    ensures n < |chunks| ==> RateLimitedAnswer(up.names(chunks[n]))
    decreases |chunks|
  {
    if chunks == [] then 0
    else if RateLimitedAnswer(up.names(chunks[0])) then 0
    else
      assert forall j :: 1 <= j < |chunks| ==> chunks[j] == chunks[1..][j - 1];
      1 + PostedBeforeLimit(chunks[1..], up)
  }

  /** The name cache after merging the answers to `chunks`, in order. */
  function MergeAnswers(names: map<int, string>, chunks: seq<seq<int>>, up: Upstream): map<int, string>
    decreases |chunks|
  {
    if chunks == [] then names
    else MergeAnswers(InsertNames(names, AnswerEntries(up.names(chunks[0]))), chunks[1..], up)
  }

  /** The chunks posted in order: answers merged, a rate limit stops, other failures skip the chunk. */
  function ResolveChunks(names: map<int, string>, chunks: seq<seq<int>>, up: Upstream): (r: Resolution)
    ensures names.Keys <= r.names.Keys
    ensures r.error.Some? <==> exists j :: 0 <= j < |chunks| && RateLimitedAnswer(up.names(chunks[j]))
    ensures r.error.Some? ==> r.error.value == NameRateLimited
    decreases |chunks|
  {
    if chunks == [] then Resolution(None, names)
    else
      var resp := up.names(chunks[0]);
      assert forall j :: 1 <= j < |chunks| ==> chunks[j] == chunks[1..][j - 1];
      match resp
      case NamesNetErr => ResolveChunks(names, chunks[1..], up)
      case NamesResp(status, body) =>
        if IsSuccess(status) then
          ResolveChunks(if body.Some? then InsertNames(names, body.value) else names, chunks[1..], up)
        else if IsRateLimit(status) then Resolution(Some(NameRateLimited), names)
        else ResolveChunks(names, chunks[1..], up)
  }

  /**
   * Resolution is the stop rule and the merge apart: the answers to the
   * chunks before the first rate-limited one are merged in order, and the
   * error is reported exactly when such a chunk exists.
   */
  lemma {:induction false} ResolveChunksMerges(names: map<int, string>, chunks: seq<seq<int>>, up: Upstream)
    ensures ResolveChunks(names, chunks, up).error.Some? <==> PostedBeforeLimit(chunks, up) < |chunks|
    ensures ResolveChunks(names, chunks, up).names == MergeAnswers(names, chunks[..PostedBeforeLimit(chunks, up)], up)
    decreases |chunks|
  {
    if chunks != [] && !RateLimitedAnswer(up.names(chunks[0])) {
      var next := InsertNames(names, AnswerEntries(up.names(chunks[0])));
      ResolveChunksMerges(next, chunks[1..], up);
      ResolveChunksStep(names, chunks, up);
      MergeAnswersStep(names, chunks, up, PostedBeforeLimit(chunks, up));
    } else {
      assert chunks[..0] == [];
    }
  }

  /** A chunk that is not rate-limited merges its answer and hands on to the next chunk. */
  lemma ResolveChunksStep(names: map<int, string>, chunks: seq<seq<int>>, up: Upstream)
    requires chunks != [] && !RateLimitedAnswer(up.names(chunks[0]))
    ensures ResolveChunks(names, chunks, up)
            == ResolveChunks(InsertNames(names, AnswerEntries(up.names(chunks[0]))), chunks[1..], up)
    ensures PostedBeforeLimit(chunks, up) == 1 + PostedBeforeLimit(chunks[1..], up)
  {
    var resp := up.names(chunks[0]);
    assert AnswerEntries(resp) == [] ==> InsertNames(names, AnswerEntries(resp)) == names;
  }

  lemma MergeAnswersStep(names: map<int, string>, chunks: seq<seq<int>>, up: Upstream, n: nat)
    requires 1 <= n <= |chunks|
    ensures MergeAnswers(names, chunks[..n], up)
            == MergeAnswers(InsertNames(names, AnswerEntries(up.names(chunks[0]))), chunks[1..][..n - 1], up)
  {
    assert chunks[..n][1..] == chunks[1..][..n - 1];
    assert chunks[..n][0] == chunks[0];
  }

  /** Once a chunk is rate-limited, no later chunk is posted: their answers do not matter. */
  lemma LaterChunksNotPosted(names: map<int, string>, chunks: seq<seq<int>>, up: Upstream, other: Upstream)
    requires PostedBeforeLimit(chunks, up) < |chunks|
    requires forall j :: 0 <= j <= PostedBeforeLimit(chunks, up) ==> other.names(chunks[j]) == up.names(chunks[j])
    ensures ResolveChunks(names, chunks, other) == ResolveChunks(names, chunks, up)
  {
    var n := PostedBeforeLimit(chunks, up);
    MergeAnswersPrefix(names, chunks[..n], up, other);
    PostedBeforeLimitAgrees(chunks, up, other, n);
    ResolveChunksMerges(names, chunks, up);
    ResolveChunksMerges(names, chunks, other);
  }

  lemma {:induction false} PostedBeforeLimitAgrees(chunks: seq<seq<int>>, up: Upstream, other: Upstream, n: nat)
    requires n == PostedBeforeLimit(chunks, up) < |chunks|
    requires forall j :: 0 <= j <= n ==> other.names(chunks[j]) == up.names(chunks[j])
    ensures PostedBeforeLimit(chunks, other) == n
  {
    var m := PostedBeforeLimit(chunks, other);
    assert RateLimitedAnswer(other.names(chunks[n]));
    assert m <= n;
    assert forall j :: 0 <= j < m ==> !RateLimitedAnswer(up.names(chunks[j]));
  }

  lemma {:induction false} MergeAnswersPrefix(names: map<int, string>, chunks: seq<seq<int>>, up: Upstream, other: Upstream)
    requires forall j :: 0 <= j < |chunks| ==> other.names(chunks[j]) == up.names(chunks[j])
    ensures MergeAnswers(names, chunks, other) == MergeAnswers(names, chunks, up)
    decreases |chunks|
  {
    if chunks != [] {
      assert forall j :: 1 <= j < |chunks| ==> chunks[1..][j - 1] == chunks[j];
      MergeAnswersPrefix(InsertNames(names, AnswerEntries(up.names(chunks[0]))), chunks[1..], up, other);
    }
  }

  /** Every id named by an answer posted before the rate limit ends up in the name cache. */
  lemma {:induction false} AnsweredNamesStored(names: map<int, string>, chunks: seq<seq<int>>, up: Upstream, j: nat, e: EsiNameEntry)
    requires j < PostedBeforeLimit(chunks, up)
    requires e in AnswerEntries(up.names(chunks[j]))
    ensures e.id in ResolveChunks(names, chunks, up).names
  {
    var n := PostedBeforeLimit(chunks, up);
    MergeAnswersStores(names, chunks[..n], up, j, e);
    ResolveChunksMerges(names, chunks, up);
  }

  lemma {:induction false} MergeAnswersStores(names: map<int, string>, chunks: seq<seq<int>>, up: Upstream, j: nat, e: EsiNameEntry)
    requires j < |chunks| && e in AnswerEntries(up.names(chunks[j]))
    ensures e.id in MergeAnswers(names, chunks, up)
    decreases |chunks|
  {
    var first := InsertNames(names, AnswerEntries(up.names(chunks[0])));
    MergeAnswersGrows(first, chunks[1..], up);
    if j == 0 {
      EntryInserted(names, AnswerEntries(up.names(chunks[0])), e);
    } else {
      assert chunks[1..][j - 1] == chunks[j];
      MergeAnswersStores(first, chunks[1..], up, j - 1, e);
    }
  }

  lemma {:induction false} MergeAnswersGrows(names: map<int, string>, chunks: seq<seq<int>>, up: Upstream)
    ensures names.Keys <= MergeAnswers(names, chunks, up).Keys
    decreases |chunks|
  {
    if chunks != [] {
      MergeAnswersGrows(InsertNames(names, AnswerEntries(up.names(chunks[0]))), chunks[1..], up);
    }
  }

  /** The inner loop: one `name_cache.insert` per entry of an answer. */
  method StoreNames(state: AppState, entries: seq<EsiNameEntry>)
    modifies state`nameCache
    ensures state.nameCache == InsertNames(old(state.nameCache), entries)
  {
    var names := state.nameCache;
    var k := 0;
    while k < |entries|
      invariant 0 <= k <= |entries|
      invariant names == InsertNames(old(state.nameCache), entries[..k])
    {
      assert entries[..k + 1][..k] == entries[..k];
      names := names[entries[k].id := entries[k].name];
      k := k + 1;
    }
    assert entries[..k] == entries;
    state.nameCache := names;
  }

  /**
   * `res` is how resolving `ids` ends, the ids listed once each in some
   * order (a hash set's), cut into chunks and posted in turn.
   */
  ghost predicate ResolvedFrom(ids: set<int>, names: map<int, string>, up: Upstream, res: Resolution) {
    exists order: seq<int> :: Distinct(order) && Elements(order) == ids && res == ResolveChunks(names, Chunks(order), up)
  }

  /** With nothing to resolve, nothing is posted and the name cache stays as it was. */
  lemma NothingToResolve(names: map<int, string>, up: Upstream)
    ensures ResolvedFrom({}, names, up, Resolution(None, names))
  {
    var order: seq<int> := [];
    assert Distinct(order) && Elements(order) == {};
    assert ResolveChunks(names, Chunks(order), up) == Resolution(None, names);
  }

  /** The chunked POST loop over the name cache. */
  method ResolveNames(state: AppState, ids: seq<int>, up: Upstream) returns (error: Option<FetchError>)
    modifies state`nameCache
    ensures Resolution(error, state.nameCache) == ResolveChunks(old(state.nameCache), Chunks(ids), up)
  {
    var chunks := Chunks(ids);
    var i := 0;
    while i < |chunks|
      invariant 0 <= i <= |chunks|
      invariant ResolveChunks(state.nameCache, chunks[i..], up) == ResolveChunks(old(state.nameCache), chunks, up)
    {
      assert chunks[i..][1..] == chunks[i + 1..];
      var resp := up.names(chunks[i]);
      if resp.NamesResp? {
        if IsSuccess(resp.status) {
          if resp.body.Some? {
            StoreNames(state, resp.body.value);
          }
        } else if IsRateLimit(resp.status) {
          return Some(NameRateLimited);
        }
      }
      i := i + 1;
    }
    error := None;
  }
}
