/**
 * The tail of `fetch_zkill_data`: the kills worth keeping, and the display
 * records built from the cached details and cached names.
 */
module Assemble {
  import opened Wrappers
  import opened Models
  import opened Collections

  /** The pre-filter: kills whose dropped value is positive, in their original order. */
  function Worthwhile(items: seq<RawZKillItem>): (r: seq<RawZKillItem>)
    ensures |r| <= |items|
    ensures forall x :: x in r <==> x in items && x.zkb.droppedValue > 0.0
    decreases |items|
  {
    if items == [] then []
    else
      var init, last := items[..|items| - 1], items[|items| - 1];
      assert items == init + [last];
      Worthwhile(init) + (if last.zkb.droppedValue > 0.0 then [last] else [])
  }

  /** The filter distributes over concatenation, so it keeps the relative order of what it keeps. */
  lemma {:induction false} WorthwhileAppend(a: seq<RawZKillItem>, b: seq<RawZKillItem>)
    ensures Worthwhile(a + b) == Worthwhile(a) + Worthwhile(b)
    decreases |b|
  {
    if b == [] {
      assert a + b == a;
    } else {
      var init, last := b[..|b| - 1], b[|b| - 1];
      var tail := if last.zkb.droppedValue > 0.0 then [last] else [];
      assert (a + b)[..|a + b| - 1] == a + init && (a + b)[|a + b| - 1] == last;
      assert Worthwhile(a + b) == Worthwhile(a + init) + tail;
      assert Worthwhile(b) == Worthwhile(init) + tail;
      WorthwhileAppend(a, init);
    }
  }

  function Lookup(names: map<int, string>, id: int): Option<string> {
    if id in names then Some(names[id]) else None
  }

  function LookupOpt(names: map<int, string>, id: Option<int>): Option<string> {
    if id.Some? then Lookup(names, id.value) else None
  }

  function DisplayAttacker(a: EsiAttacker, names: map<int, string>): Attacker {
    Attacker(a.characterId, LookupOpt(names, a.characterId), a.corporationId, a.finalBlow)
  }

  /** The attackers of a detail as displayed, in their original order. */
  method DisplayAttackers(attackers: seq<EsiAttacker>, names: map<int, string>) returns (shown: seq<Attacker>)
    ensures |shown| == |attackers|
    ensures forall i :: 0 <= i < |attackers| ==> shown[i] == DisplayAttacker(attackers[i], names)
  {
    shown := [];
    var i := 0;
    while i < |attackers|
      invariant 0 <= i <= |attackers| && |shown| == i
      invariant forall k :: 0 <= k < i ==> shown[k] == DisplayAttacker(attackers[k], names)
    {
      shown := shown + [DisplayAttacker(attackers[i], names)];
      i := i + 1;
    }
  }

  /** The display record of a kept kill with its detail: every name an optional lookup, `is_active` true. */
  function BuildKillmail(item: RawZKillItem, d: EsiKillmail, names: map<int, string>): (r: Killmail)
    ensures r.killmailId == item.killmailId && r.zkb == item.zkb
    ensures r.killmailTime == d.killmailTime && r.solarSystemId == d.solarSystemId && r.isActive
    ensures r.solarSystemName.Some? <==> d.solarSystemId in names
    ensures r.solarSystemName.Some? ==> r.solarSystemName.value == names[d.solarSystemId]
    ensures r.victim.Some? && r.victim.value.characterId == d.victim.characterId
    ensures r.victim.value.characterName.Some? <==> d.victim.characterId.Some? && d.victim.characterId.value in names
    ensures r.victim.value.characterName.Some? ==> r.victim.value.characterName.value == names[d.victim.characterId.value]
    ensures r.victim.value.corporationName.Some? <==> d.victim.corporationId.Some? && d.victim.corporationId.value in names
    ensures r.victim.value.corporationName.Some? ==> r.victim.value.corporationName.value == names[d.victim.corporationId.value]
    ensures r.victim.value.shipTypeId == d.victim.shipTypeId
    ensures r.victim.value.shipTypeName.Some? <==> d.victim.shipTypeId in names
    ensures r.victim.value.shipTypeName.Some? ==> r.victim.value.shipTypeName.value == names[d.victim.shipTypeId]
    ensures |r.attackers| == |d.attackers|
    ensures forall i :: 0 <= i < |d.attackers| ==>
      && r.attackers[i].characterId == d.attackers[i].characterId
      && r.attackers[i].corporationId == d.attackers[i].corporationId
      && r.attackers[i].finalBlow == d.attackers[i].finalBlow
      && (r.attackers[i].characterName.Some? <==> d.attackers[i].characterId.Some? && d.attackers[i].characterId.value in names)
      && (r.attackers[i].characterName.Some? ==> r.attackers[i].characterName.value == names[d.attackers[i].characterId.value])
  {
    var victim := Victim(
      d.victim.characterId,
      LookupOpt(names, d.victim.characterId),
      LookupOpt(names, d.victim.corporationId),
      d.victim.shipTypeId,
      Lookup(names, d.victim.shipTypeId));
    var attackers := seq(|d.attackers|, i requires 0 <= i < |d.attackers| => DisplayAttacker(d.attackers[i], names));
    Killmail(item.killmailId, item.zkb, Some(victim), attackers, d.killmailTime,
             d.solarSystemId, Lookup(names, d.solarSystemId), true)
  }

  /** The kept kills that have a cached detail, in kept order. */
  function CachedItems(kept: seq<RawZKillItem>, esiCache: map<int, EsiKillmail>): (r: seq<RawZKillItem>)
    ensures |r| <= |kept|
    ensures forall x :: x in r <==> x in kept && x.killmailId in esiCache
    decreases |kept|
  {
    if kept == [] then []
    else
      var init, last := kept[..|kept| - 1], kept[|kept| - 1];
      assert kept == init + [last];
      CachedItems(init, esiCache) + (if last.killmailId in esiCache then [last] else [])
  }

  /** The selection keeps kept order: selecting from two runs of kills is selecting from each in turn. */
  lemma CachedItemsAppend(a: seq<RawZKillItem>, b: seq<RawZKillItem>, esiCache: map<int, EsiKillmail>)
    ensures CachedItems(a + b, esiCache) == CachedItems(a, esiCache) + CachedItems(b, esiCache)
  {
    CachedItemsIsFilter(a + b, esiCache);
    CachedItemsIsFilter(a, esiCache);
    CachedItemsIsFilter(b, esiCache);
    FilterAppend(a, b, HasCachedDetail(esiCache));
  }

  function HasCachedDetail(esiCache: map<int, EsiKillmail>): RawZKillItem -> bool {
    (x: RawZKillItem) => x.killmailId in esiCache
  }

  /** The selection is the generic filter by "the detail is cached". */
  lemma {:induction false} CachedItemsIsFilter(kept: seq<RawZKillItem>, esiCache: map<int, EsiKillmail>)
    ensures CachedItems(kept, esiCache) == Filter(kept, HasCachedDetail(esiCache))
    decreases |kept|
  {
    if kept != [] {
      CachedItemsIsFilter(kept[..|kept| - 1], esiCache);
    }
  }

  /** One kill is selected, once, exactly when its detail is cached. */
  lemma CachedItemsOne(x: RawZKillItem, esiCache: map<int, EsiKillmail>)
    ensures CachedItems([x], esiCache) == (if x.killmailId in esiCache then [x] else [])
  {
    assert [x][..0] == [];
  }

  /** `final_kills`: one record per kept kill with a cached detail, in kept order, built from that detail. */
  function AssembleKills(kept: seq<RawZKillItem>, esiCache: map<int, EsiKillmail>, names: map<int, string>): (r: seq<Killmail>)
    ensures |r| == |CachedItems(kept, esiCache)|
    ensures forall j :: 0 <= j < |r| ==>
      var item := CachedItems(kept, esiCache)[j];
      item.killmailId in esiCache && r[j] == BuildKillmail(item, esiCache[item.killmailId], names)
    decreases |kept|
  {
    if kept == [] then []
    else
      var init, last := kept[..|kept| - 1], kept[|kept| - 1];
      AssembleKills(init, esiCache, names)
      + (if last.killmailId in esiCache then [BuildKillmail(last, esiCache[last.killmailId], names)] else [])
  }

  /** The loop that pushes each hydrated kept kill into `final_kills`. */
  method BuildFinalKills(kept: seq<RawZKillItem>, esiCache: map<int, EsiKillmail>, names: map<int, string>)
    returns (finalKills: seq<Killmail>)
    ensures finalKills == AssembleKills(kept, esiCache, names)
  {
    finalKills := [];
    var i := 0;
    while i < |kept|
      invariant 0 <= i <= |kept|
      invariant finalKills == AssembleKills(kept[..i], esiCache, names)
    {
      assert kept[..i + 1][..i] == kept[..i];
      var item := kept[i];
      if item.killmailId in esiCache {
        var d := esiCache[item.killmailId];
        var victim := Victim(
          d.victim.characterId,
          LookupOpt(names, d.victim.characterId),
          LookupOpt(names, d.victim.corporationId),
          d.victim.shipTypeId,
          Lookup(names, d.victim.shipTypeId));
        var attackers := DisplayAttackers(d.attackers, names);
        var kill := Killmail(item.killmailId, item.zkb, Some(victim), attackers, d.killmailTime,
                             d.solarSystemId, Lookup(names, d.solarSystemId), true);
        assert attackers == BuildKillmail(item, d, names).attackers;
        assert kill == BuildKillmail(item, d, names);
        finalKills := finalKills + [kill];
      }
      i := i + 1;
    }
    assert kept[..i] == kept;
  }

  /** A kill without a positive dropped value never reaches the output, whatever is cached. */
  lemma NoWorthlessOutput(items: seq<RawZKillItem>, esiCache: map<int, EsiKillmail>, names: map<int, string>, x: RawZKillItem)
    requires x in items && x.zkb.droppedValue <= 0.0
    requires forall y :: y in items && y.killmailId == x.killmailId ==> y == x
    ensures forall k :: k in AssembleKills(Worthwhile(items), esiCache, names) ==> k.killmailId != x.killmailId
  {
    var kept := Worthwhile(items);
    var out := AssembleKills(kept, esiCache, names);
    forall k | k in out ensures k.killmailId != x.killmailId {
      var j :| 0 <= j < |out| && out[j] == k;
      var item := CachedItems(kept, esiCache)[j];
      assert item in CachedItems(kept, esiCache);
      assert item in kept;
    }
  }

  /**
   * Kills 1, 2 and 3 with dropped values 100, 0 and 50, where the detail of
   * kill 3 failed silently: only kill 1 is in the output.
   */
  lemma ThreeKillsExample(z100: ZkbStats, z0: ZkbStats, z50: ZkbStats, d1: EsiKillmail, names: map<int, string>)
    requires z100.droppedValue == 100.0 && z0.droppedValue == 0.0 && z50.droppedValue == 50.0
    ensures var items := [RawZKillItem(1, z100), RawZKillItem(2, z0), RawZKillItem(3, z50)];
      var out := AssembleKills(Worthwhile(items), map[1 := d1], names);
      |out| == 1 && out[0].killmailId == 1
  {
    var k1, k2, k3 := RawZKillItem(1, z100), RawZKillItem(2, z0), RawZKillItem(3, z50);
    var items := [k1, k2, k3];
    assert items[..2] == [k1, k2] && [k1, k2][..1] == [k1] && [k1][..0] == [];
    assert Worthwhile([k1]) == [k1];
    assert Worthwhile([k1, k2]) == [k1];
    var kept := Worthwhile(items);
    assert kept == [k1, k3];
    assert kept[..1] == [k1];
    assert AssembleKills([k1], map[1 := d1], names) == [BuildKillmail(k1, d1, names)];
  }
}
