/**
 * Step 7 of `process_data`: the active kills grouped by the date part of
 * their time stamp, the groups listed newest date first.
 */
module Grouping {
  import opened Wrappers
  import opened Text
  import opened Models
  import opened Ordering
  import opened Collections

  /**
   * `killmail_time.split('T').next()`: the text before the first `T`, the
   * whole time when there is none. `split` always yields a first piece, so
   * the `"Unknown"` fallback is never taken.
   */
  function DateKey(time: string): (d: string)
    ensures |d| <= |time| && time[..|d|] == d && 'T' !in d
    ensures |d| < |time| ==> time[|d|] == 'T'
  {
    SplitHead(time, 'T');
    Split(time, 'T')[0]
  }

  /** The kills of one date, in their order. */
  function KillsOn(kills: seq<Killmail>, date: string): (r: seq<Killmail>)
    ensures forall k :: k in r <==> k in kills && DateKey(k.killmailTime) == date
    decreases |kills|
  {
    if kills == [] then []
    else
      var init, last := kills[..|kills| - 1], kills[|kills| - 1];
      assert kills == init + [last];
      KillsOn(init, date) + (if DateKey(last.killmailTime) == date then [last] else [])
  }

  /** A date's kills keep their order: the kills of two runs are those of each in turn. */
  lemma {:induction false} KillsOnAppend(a: seq<Killmail>, b: seq<Killmail>, date: string)
    ensures KillsOn(a + b, date) == KillsOn(a, date) + KillsOn(b, date)
    decreases |b|
  {
    if b == [] {
      assert a + b == a;
    } else {
      var init, last := b[..|b| - 1], b[|b| - 1];
      var tail := if DateKey(last.killmailTime) == date then [last] else [];
      assert (a + b)[..|a + b| - 1] == a + init && (a + b)[|a + b| - 1] == last;
      assert KillsOn(a + b, date) == KillsOn(a + init, date) + tail;
      assert KillsOn(b, date) == KillsOn(init, date) + tail;
      KillsOnAppend(a, init, date);
    }
  }

  /** One kill is in a date's group, once, exactly when it falls on that date. */
  lemma KillsOnOne(k: Killmail, date: string)
    ensures KillsOn([k], date) == (if DateKey(k.killmailTime) == date then [k] else [])
  {
    assert [k][..0] == [];
  }

  /** The dates the kills fall on. */
  function Dates(kills: seq<Killmail>): set<string> {
    set i | 0 <= i < |kills| :: DateKey(kills[i].killmailTime)
  }

  /** A date none of the kills fall on has no kills. */
  lemma {:induction false} NoKillsOffDates(kills: seq<Killmail>, date: string)
    requires date !in Dates(kills)
    ensures KillsOn(kills, date) == []
    decreases |kills|
  {
    if kills != [] {
      var init := kills[..|kills| - 1];
      assert Dates(init) <= Dates(kills) by {
        assert forall i :: 0 <= i < |init| ==> init[i] == kills[i];
      }
      NoKillsOffDates(init, date);
      assert DateKey(kills[|kills| - 1].killmailTime) in Dates(kills);
    }
  }

  /** `groups_map`: each kill pushed onto the list of its date. */
  function GroupsMap(kills: seq<Killmail>): map<string, seq<Killmail>>
    decreases |kills|
  {
    if kills == [] then map[]
    else
      var g := GroupsMap(kills[..|kills| - 1]);
      var last := kills[|kills| - 1];
      var d := DateKey(last.killmailTime);
      g[d := (if d in g then g[d] else []) + [last]]
  }

  /** `groups_map` has a key per date, holding that date's kills in order. */
  lemma {:induction false} GroupsMapMeaning(kills: seq<Killmail>)
    ensures GroupsMap(kills).Keys == Dates(kills)
    ensures forall d :: d in GroupsMap(kills) ==> GroupsMap(kills)[d] == KillsOn(kills, d)
    decreases |kills|
  {
    if kills != [] {
      var init, last := kills[..|kills| - 1], kills[|kills| - 1];
      GroupsMapMeaning(init);
      var d := DateKey(last.killmailTime);
      assert Dates(kills) == Dates(init) + {d} by {
        assert forall i :: 0 <= i < |init| ==> kills[i] == init[i];
      }
      forall e | e in GroupsMap(kills) ensures GroupsMap(kills)[e] == KillsOn(kills, e) {
        assert KillsOn(kills, e) == KillsOn(init, e) + (if d == e then [last] else []);
        if e != d {
          assert e in GroupsMap(init);
        } else if d !in GroupsMap(init) {
          NoKillsOffDates(init, e);
        }
      }
    }
  }

  /** One group of the page (`DailyGroup`). */
  datatype DailyGroup = DailyGroup(dateDisplay: string, kills: seq<Killmail>)

  function DateOf(g: DailyGroup): string {
    g.dateDisplay
  }

  function Itself(s: string): string {
    s
  }

  /** The page's groups for `kills`: newest date first, one group per date, each with that date's kills. */
  ghost predicate IsDailyGrouping(kills: seq<Killmail>, groups: seq<DailyGroup>) {
    && StrictlySortedBy(groups, DateOf, true)
    && (set j | 0 <= j < |groups| :: groups[j].dateDisplay) == Dates(kills)
    && (forall j :: 0 <= j < |groups| ==> groups[j].kills == KillsOn(kills, groups[j].dateDisplay))
  }

  /** In a grouping every kill sits in exactly one group. */
  lemma EachKillInOneGroup(kills: seq<Killmail>, groups: seq<DailyGroup>)
    requires IsDailyGrouping(kills, groups)
    ensures forall k :: k in kills ==> exists j :: 0 <= j < |groups| && k in groups[j].kills
    ensures forall k, j1, j2 :: 0 <= j1 < |groups| && 0 <= j2 < |groups| && k in groups[j1].kills && k in groups[j2].kills
                              ==> j1 == j2
  {
    forall k | k in kills ensures exists j :: 0 <= j < |groups| && k in groups[j].kills {
      var i :| 0 <= i < |kills| && kills[i] == k;
      assert DateKey(kills[i].killmailTime) in Dates(kills);
      var j :| 0 <= j < |groups| && groups[j].dateDisplay == DateKey(kills[i].killmailTime);
      assert k in KillsOn(kills, groups[j].dateDisplay);
    }
    forall k, j1, j2 | 0 <= j1 < |groups| && 0 <= j2 < |groups| && k in groups[j1].kills && k in groups[j2].kills
      ensures j1 == j2
    {
      assert k in KillsOn(kills, groups[j1].dateDisplay) && k in KillsOn(kills, groups[j2].dateDisplay);
    }
  }

  /** Sorting distinct dates newest first leaves them strictly descending. */
  lemma DistinctDatesStrict(dates: seq<string>)
    requires SortedBy(dates, Itself, true) && Distinct(dates)
    ensures StrictlySortedBy(dates, Itself, true)
  {
  }

  /** The keys of a set listed once each and sorted newest first are strictly descending and still the same keys. */
  lemma SortedKeys(keySet: set<string>, keys: seq<string>, dates: seq<string>)
    requires Distinct(keys) && forall d :: d in keys <==> d in keySet
    requires SortedBy(dates, Itself, true) && multiset(dates) == multiset(keys)
    ensures Distinct(dates) && StrictlySortedBy(dates, Itself, true)
    ensures Elements(dates) == keySet
    ensures forall j :: 0 <= j < |dates| ==> dates[j] in keySet
  {
    DistinctPermutation(keys, dates);
    DistinctDatesStrict(dates);
    ElementsOfPermutation(keys, dates);
    assert Elements(keys) == keySet;
  }

  /** The loop that pushes every kill onto the list of its date. */
  method BuildGroupsMap(kills: seq<Killmail>) returns (groupsMap: map<string, seq<Killmail>>)
    ensures groupsMap.Keys == Dates(kills)
    ensures forall d :: d in groupsMap ==> groupsMap[d] == KillsOn(kills, d)
  {
    groupsMap := map[];
    var i := 0;
    while i < |kills|
      invariant 0 <= i <= |kills|
      invariant groupsMap == GroupsMap(kills[..i])
    {
      assert kills[..i + 1][..|kills[..i + 1]| - 1] == kills[..i];
      var date := DateKey(kills[i].killmailTime);
      groupsMap := groupsMap[date := (if date in groupsMap then groupsMap[date] else []) + [kills[i]]];
      i := i + 1;
    }
    assert kills[..i] == kills;
    GroupsMapMeaning(kills);
  }

  /** The loop over the sorted dates that moves each date's list out of `groups_map`. */
  method Drain(groupsMap: map<string, seq<Killmail>>, dates: seq<string>) returns (groups: seq<DailyGroup>)
    requires Distinct(dates) && forall j :: 0 <= j < |dates| ==> dates[j] in groupsMap
    ensures |groups| == |dates|
    ensures forall j :: 0 <= j < |dates| ==> groups[j] == DailyGroup(dates[j], groupsMap[dates[j]])
  {
    var remaining := groupsMap;
    groups := [];
    var k := 0;
    while k < |dates|
      invariant 0 <= k <= |dates|
      invariant |groups| == k
      invariant forall j :: 0 <= j < k ==> groups[j] == DailyGroup(dates[j], groupsMap[dates[j]])
      invariant forall j :: k <= j < |dates| ==> dates[j] in remaining
      invariant forall d :: d in remaining ==> d in groupsMap && remaining[d] == groupsMap[d]
    {
      var date := dates[k];
      if date in remaining {
        groups := groups + [DailyGroup(date, remaining[date])];
        remaining := remaining - {date};
      }
      k := k + 1;
    }
  }

  /** Groups built from a date map in strictly descending key order form the daily grouping. */
  lemma DrainedIsGrouping(kills: seq<Killmail>, groupsMap: map<string, seq<Killmail>>, dates: seq<string>,
                          groups: seq<DailyGroup>)
    requires groupsMap.Keys == Dates(kills)
    requires forall d :: d in groupsMap ==> groupsMap[d] == KillsOn(kills, d)
    requires StrictlySortedBy(dates, Itself, true) && Elements(dates) == groupsMap.Keys
    requires |groups| == |dates|
    requires forall j :: 0 <= j < |dates| ==> groups[j] == DailyGroup(dates[j], groupsMap[dates[j]])
    ensures IsDailyGrouping(kills, groups)
  {
    assert forall j :: 0 <= j < |groups| ==> DateOf(groups[j]) == Itself(dates[j]);
    assert (set j | 0 <= j < |groups| :: groups[j].dateDisplay) == Elements(dates) by {
      forall d | d in Elements(dates) ensures d in set j | 0 <= j < |groups| :: groups[j].dateDisplay {
        var j :| 0 <= j < |dates| && dates[j] == d;
        assert groups[j].dateDisplay == d;
      }
    }
  }

  /** Step 7: the map by date, its keys sorted newest first, one group per key. */
  method GroupByDate(kills: seq<Killmail>) returns (groups: seq<DailyGroup>)
    ensures IsDailyGrouping(kills, groups)
  {
    var groupsMap := BuildGroupsMap(kills);
    var keys := SetToSeq(groupsMap.Keys);
    var dates := SortBy(keys, Itself, true);
    SortedKeys(groupsMap.Keys, keys, dates);
    groups := Drain(groupsMap, dates);
    DrainedIsGrouping(kills, groupsMap, dates, groups);
  }
}
