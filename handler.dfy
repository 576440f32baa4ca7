/**
 * The `POST /process` handler (`process_data`): the window guard, the
 * mapping update, the optional fetch, and the report over the stored kills.
 */
module Handler {
  import opened Wrappers
  import opened Models
  import opened Ordering
  import opened Text
  import opened Link
  import opened Fetch
  import opened Request
  import opened Payout
  import opened Grouping

  /** The submitted form (`FetchParams`); absent dates arrive as empty strings. */
  datatype FetchParams = FetchParams(
    zkillLink: string,
    mappingInput: string,
    excludedKills: Option<string>,
    excludedBeneficiaries: Option<string>,
    startDate: string,
    endDate: string)

  /** The two messages the page can show. */
  datatype PageError = TimeframeTooLong | FailedToFetch(FetchError)

  /** The rendered page (`IndexTemplate`), the payout total before `format_isk`. */
  datatype IndexPage = IndexPage(
    dailyGroups: seq<DailyGroup>,
    mappingText: string,
    zkillLink: string,
    startDate: string,
    endDate: string,
    totalPayout: real,
    totalHumans: nat,
    beneficiaries: seq<Beneficiary>,
    error: Option<PageError>)

  /** The UTC day (days since the epoch) of an instant. */
  function DayOf(now: int): int {
    now / NanosPerDay
  }

  /** `start_cutoff`: 00:00:00 of the given day, or of the day seven days before today when it does not parse. */
  function StartCutoff(startDate: string, parseDate: string -> Option<int>, now: int): (r: int)
    ensures r % NanosPerDay == 0
    ensures r / NanosPerDay == if parseDate(startDate).Some? then parseDate(startDate).value else DayOf(now) - 7
  {
    (if parseDate(startDate).Some? then parseDate(startDate).value else DayOf(now) - 7) * NanosPerDay
  }

  /** `end_cutoff`: 23:59:59 of the given day, or of today when it does not parse. */
  function EndCutoff(endDate: string, parseDate: string -> Option<int>, now: int): (r: int)
    ensures r % NanosPerDay == 86_399 * NanosPerSecond
    ensures r / NanosPerDay == if parseDate(endDate).Some? then parseDate(endDate).value else DayOf(now)
  {
    (if parseDate(endDate).Some? then parseDate(endDate).value else DayOf(now)) * NanosPerDay + 86_399 * NanosPerSecond
  }

  /** Without dates the window is the last seven days and today, which the guard accepts. */
  lemma DefaultWindowAccepted(params: FetchParams, parseDate: string -> Option<int>, now: int)
    requires parseDate(params.startDate).None? && parseDate(params.endDate).None?
    ensures !WindowTooLong(StartCutoff(params.startDate, parseDate, now), EndCutoff(params.endDate, parseDate, now))
  {
    WindowInDays(DayOf(now) - 7, DayOf(now));
  }

  /** The guard in calendar days: parsed dates more than 30 days apart are refused. */
  lemma ParsedWindowGuard(params: FetchParams, parseDate: string -> Option<int>, now: int)
    requires parseDate(params.startDate).Some? && parseDate(params.endDate).Some?
    ensures WindowTooLong(StartCutoff(params.startDate, parseDate, now), EndCutoff(params.endDate, parseDate, now))
            <==> parseDate(params.endDate).value - parseDate(params.startDate).value > 30
  {
    WindowInDays(parseDate(params.startDate).value, parseDate(params.endDate).value);
  }

  /** The page that refuses a window longer than 30 days: the form echoed and nothing else. */
  function TooLongPage(params: FetchParams): IndexPage {
    IndexPage([], params.mappingInput, params.zkillLink, params.startDate, params.endDate, 0.0, 0, [],
              Some(TimeframeTooLong))
  }

  /** The report part of a page (`daily_groups`, the payout total, `total_humans`, `beneficiaries`). */
  datatype Report = Report(dailyGroups: seq<DailyGroup>, totalPayout: real, totalHumans: nat, beneficiaries: seq<Beneficiary>)

  /** What the report says about the active kills, given the mapping and the excluded names. */
  ghost predicate Reports(report: Report, kills: seq<Killmail>, characterMap: map<string, string>, excludedNames: set<string>) {
    var seen := SeenMains(kills, characterMap);
    var wallets := Wallets(kills, characterMap, excludedNames);
    && IsDailyGrouping(kills, report.dailyGroups)
    && report.totalPayout == TotalDropped(kills)
    && StrictlySortedBy(report.beneficiaries, NameOf, false)
    && (forall m :: m in seen <==> exists i :: 0 <= i < |report.beneficiaries| && report.beneficiaries[i].name == m)
    && (forall i :: 0 <= i < |report.beneficiaries| ==>
          report.beneficiaries[i] == Describe(report.beneficiaries[i].name, wallets, excludedNames))
    && report.totalHumans == |seen - excludedNames|
  }

  /** Steps 5 to 7 over `final_kills`: the tally, the beneficiary list and the grouping by date. */
  method BuildReport(finalKills: seq<Killmail>, characterMap: map<string, string>, excludedNames: set<string>)
    returns (report: Report)
    ensures Reports(report, finalKills, characterMap, excludedNames)
  {
    var allSeenMains, mainWallets, totalDropped := Tally(finalKills, characterMap, excludedNames);
    var beneficiaries, activeHumans := ListBeneficiaries(allSeenMains, mainWallets, excludedNames);
    var dailyGroups := GroupByDate(finalKills);
    report := Report(dailyGroups, totalDropped, activeHumans, beneficiaries);
  }

  /**
   * How step 3 leaves the stored kills and the message: a fetch exactly when
   * a link was given, its kills stored on success, and its error shown only
   * when there is no earlier list to show instead.
   */
  ghost predicate Stored(zkillLink: string, oldKills: seq<Killmail>, kills: seq<Killmail>, errorMsg: Option<PageError>,
                         fetched: Option<Result<seq<Killmail>, FetchError>>) {
    && (fetched.None? <==> zkillLink == [])
    && (fetched.None? ==> kills == oldKills && errorMsg == None)
    && (fetched.Some? && ParseLink(zkillLink).Failure? ==> fetched.value == Failure(ParseLink(zkillLink).error))
    && (fetched.Some? && fetched.value.Success? ==> kills == fetched.value.value && errorMsg == None)
    && (fetched.Some? && fetched.value.Failure? ==>
          && kills == oldKills
          && errorMsg == (if oldKills == [] then Some(FailedToFetch(fetched.value.error)) else None))
  }

  /** Step 3 and the store into `current_kills`. */
  method FetchAndStore(state: AppState, zkillLink: string, startCutoff: int, now: int, up: Upstream,
                       parseTime: string -> Option<int>)
    returns (errorMsg: Option<PageError>, ghost fetched: Option<Result<seq<Killmail>, FetchError>>)
    modifies state`currentKills, state`esiCache, state`nameCache
    ensures Stored(zkillLink, old(state.currentKills), state.currentKills, errorMsg, fetched)
    ensures fetched.None? ==> state.esiCache == old(state.esiCache) && state.nameCache == old(state.nameCache)
    ensures fetched.Some? ==>
      Fetched(zkillLink, startCutoff, now, up, parseTime, old(state.esiCache), old(state.nameCache),
              state.esiCache, state.nameCache, fetched.value)
  {
    errorMsg := None;
    fetched := None;
    if zkillLink != [] {
      var res, _ := FetchZkillData(zkillLink, state, startCutoff, now, up, parseTime);
      fetched := Some(res);
      if res.Success? {
        state.currentKills := res.value;
      } else if state.currentKills == [] {
        errorMsg := Some(FailedToFetch(res.error));
      }
    }
  }

  method ProcessData(
    state: AppState, params: FetchParams, now: int, up: Upstream,
    parseDate: string -> Option<int>, parseTime: string -> Option<int>)
    returns (page: IndexPage, ghost fetched: Option<Result<seq<Killmail>, FetchError>>)
    modifies state
    ensures var startCutoff := StartCutoff(params.startDate, parseDate, now);
            var endCutoff := EndCutoff(params.endDate, parseDate, now);
      && (WindowTooLong(startCutoff, endCutoff) ==>
            page == TooLongPage(params) && fetched == None && unchanged(state))
      && (!WindowTooLong(startCutoff, endCutoff) ==>
            && state.characterMap == ParseMapping(params.mappingInput)
            && Stored(params.zkillLink, old(state.currentKills), state.currentKills, page.error, fetched)
            && (fetched.None? ==> state.esiCache == old(state.esiCache) && state.nameCache == old(state.nameCache))
            && (fetched.Some? ==>
                  Fetched(params.zkillLink, startCutoff, now, up, parseTime, old(state.esiCache), old(state.nameCache),
                          state.esiCache, state.nameCache, fetched.value))
            && page.mappingText == params.mappingInput && page.zkillLink == params.zkillLink
            && page.startDate == params.startDate && page.endDate == params.endDate
            && Reports(Report(page.dailyGroups, page.totalPayout, page.totalHumans, page.beneficiaries),
                       ActiveKills(state.currentKills, startCutoff, endCutoff, ExcludedIds(params.excludedKills), parseTime),
                       state.characterMap, ExcludedNames(params.excludedBeneficiaries)))
  {
    var startCutoff := StartCutoff(params.startDate, parseDate, now);
    var endCutoff := EndCutoff(params.endDate, parseDate, now);
    if WindowTooLong(startCutoff, endCutoff) {
      return TooLongPage(params), None;
    }
    ghost var esiCache0, nameCache0 := state.esiCache, state.nameCache;
    UpdateMapping(state, params.mappingInput);
    assert state.esiCache == esiCache0 && state.nameCache == nameCache0;
    var errorMsg;
    errorMsg, fetched := FetchAndStore(state, params.zkillLink, startCutoff, now, up, parseTime);
    var excludedIds := ExcludedIds(params.excludedKills);
    var excludedNames := ExcludedNames(params.excludedBeneficiaries);
    var finalKills := ActiveKills(state.currentKills, startCutoff, endCutoff, excludedIds, parseTime);
    var report := BuildReport(finalKills, state.characterMap, excludedNames);
    page := IndexPage(report.dailyGroups, params.mappingInput, params.zkillLink, params.startDate, params.endDate,
                      report.totalPayout, report.totalHumans, report.beneficiaries, errorMsg);
  }
}
