# eve-looter: the fetch pipeline and the payout page, modelled in Dafny

eve-looter is a small web service for EVE Online corporations. A user pastes
a zKillboard link for a corporation, alliance, character, system or region.
The service pulls that entity's recent kills from zKillboard. It hydrates each
kill with its detail record from ESI, the game's API, and resolves the ids
in it to names. It then splits the ISK dropped by each kill in a date window
evenly among the "mains" who took part. A main is the owner of one or more
characters: an alt-to-main mapping typed into the form maps alt characters
to their main.

This project models two functions.

- `fetch_zkill_data` in `src/logic.rs` is the pipeline. It has these parts:
  - the link pattern and its table of entity types;
  - the page loop, up to ten pages;
  - hydration of the uncached kills of each page, with the rate-limit abort;
  - the stop rule that ends the loop once a page reaches back past the start date;
  - the zero-value filter;
  - collection of the ids to resolve, and their resolution in chunks of 1000;
  - assembly of the displayed kills.
- `process_data` in `src/main.rs` is the request handler. It has these parts:
  - the 30-day window guard;
  - the rebuild of the alt-to-main mapping;
  - the optional fetch, and the store of its result;
  - the excluded kill ids and excluded beneficiary names;
  - the filter to active kills;
  - the tally of wallets per main;
  - the sorted beneficiary list;
  - the grouping of kills by date, newest first.

`AppState` is a class with four fields. The model reassigns them where the
Rust code updates them in place under a mutex:

- `currentKills`, the kills on display;
- `characterMap`, the alt-to-main mapping;
- `esiCache`, the detail cache;
- `nameCache`, the name cache.

Each loop of the Rust code is a `method` with a `while` loop. It is proved
against a recursive function, and the properties are proved about that
function. Three kinds of input are parameters:

- the three HTTP endpoints, as an `Upstream` value of three total functions: the list by URL, the detail by kill id and hash, and the names by chunk;
- the clock, as `now`;
- the date and time parsers, as `parseDate` and `parseTime`.

Modules, one file each:

| file | module | models |
|---|---|---|
| wrappers.dfy | Wrappers | `Option`, `Result` |
| models.dfy | Models | the records of `src/models.rs`, `AppState`, the upstream endpoints, `FetchError` |
| text.dfy | Text | `str::split`, `split_once`, `lines`, `trim`, `parse::<i32>`, `\w` and `\d` |
| collections.dfy | Collections | distinct sequences; a `HashSet` drained in some order; order-keeping filters |
| ordering.dfy | Ordering | byte-wise string order; `sort_by` as an insertion sort that places equal keys in input order |
| link.dfy | Link | `ZKILL_URL_REGEX`, the entity-type table, the page URLs |
| hydrate.dfy | Hydrate | `to_fetch`, the detail tasks, the rate-limit scan, the merge, the oldest-time scan |
| pagination.dfy | Pagination | the page loop |
| names.dfy | Names | `ids_to_resolve` and the chunked name resolution |
| assemble.dfy | Assemble | the zero-value filter and the final `Killmail` list |
| fetch.dfy | Fetch | `fetch_zkill_data` as a whole |
| request.dfy | Request | the window guard, the mapping, the two exclusion lists |
| payout.dfy | Payout | the active-kill filter, the tally, the beneficiary list |
| grouping.dfy | Grouping | the grouping by date |
| handler.dfy | Handler | `process_data` as a whole |

## Behaviour of the code worth knowing

- **A rate-limited batch merges nothing.** The rate-limit scan returns
  (`src/logic.rs:147`) before the merge loop (`src/logic.rs:158-165`) runs.
  So a batch with one 420 or 429 answer leaves the detail cache as it was,
  even when other tasks of that batch succeeded. `Hydrate.HydratePage`
  states this.
- **Names come only from kept kills.** The ids to resolve are collected
  from the cached details of the kills with a dropped value above zero
  (`src/logic.rs:214-215`), not from every cached detail.
  `Names.IdsToResolveMeaning` states this.
- **Names can be replaced.** Every entry the name endpoint returns is
  inserted (`src/logic.rs:258-260`), so an id that is already named gets the
  new name. `Names.InsertNamesLastWins` states which name is kept.
- **The date of a kill.** The grouping keys each kill on
  `split('T').next().unwrap_or("Unknown")` (`src/main.rs:269-274`). `split`
  always yields a first piece, so the `"Unknown"` fallback is never taken. A
  time with no `T` groups under the whole time (`Grouping.DateKey`).

## Model

| member | source | states |
|---|---|---|
| Models.AppState.constructor | src/models.rs:28-36 | A new state has no kills, an empty mapping and two empty caches. |
| Link.WordRun | src/logic.rs:13 | `\w+` from a position: the longest run of word characters, ending at the end of the text or at a non-word character. |
| Link.DigitRun | src/logic.rs:13 | `\d+` from a position: the longest run of digits. |
| Link.MatchAt | src/logic.rs:13 | A match at a position starts with the literal `zkillboard.com/`. Its type capture is a non-empty word run and its id capture a non-empty digit run. |
| Link.FindMatch | src/logic.rs:21-23 | The leftmost match: none exactly when the pattern matches at no position. Otherwise the match at some position, with no match at any earlier position. |
| Link.MatchAtSound | src/logic.rs:12-13 | A match found at a position is the literal `zkillboard.com/`, a word run, `/`, and a digit run at that position. The digit run is followed by a non-digit or the end of the text, as greedy `\d+` requires. |
| Link.MatchAtComplete | src/logic.rs:12-13 | Wherever that shape occurs, the matcher finds a match there with the same type word. The greedy `\w+` backtracking cannot choose another split. |
| Link.MatchAtExact | src/logic.rs:12-13 | Where the shape occurs with a digit run that cannot be extended, the matcher captures exactly that type word and that id. |
| Link.DigitRunExact | src/logic.rs:13 | A digit run followed by a non-digit or the end is measured exactly. |
| Link.WordRunExact | src/logic.rs:13 | A word run followed by a non-word character is measured exactly. |
| Link.ParseLink | src/logic.rs:21-34 | "Invalid link" exactly when the pattern occurs nowhere. An unsupported type exactly when the type word of the leftmost match is outside the table. Otherwise the entity of the leftmost match: its type, its whole digit run as the id, and the table's query parameter. No other error. |
| Link.InvalidOnlyWithoutPattern | src/logic.rs:21-23 | A link containing the pattern is never refused as malformed. |
| Link.ParseLinkLeftmost | src/logic.rs:21-34 | Given the leftmost occurrence of the pattern with a full digit run, the parse is exactly that entity, or the unsupported-type error for its type word. |
| Link.DigitKindUnsupported | src/logic.rs:13-34 | An all-digit type word matches `\w+` but is in no row of the table, so the link is an unsupported type. |
| Link.PageUrl | src/logic.rs:49-56 | Every page's URL starts with the entity's list URL. Page 1 uses it as it is, and only page 1 does. A later page adds `page/`, its decimal number and `/`. |
| Link.PageUrlInjective | src/logic.rs:49-56 | Different page numbers give different list URLs. |
| Hydrate.TaskOutcome | src/logic.rs:108-134 | A task yields a detail exactly when its answer is a success with a parsed body, and then that body for its own kill id. It fails exactly when the answer has a non-success status, and then with that status. A transport error or an unparsed body yields neither. |
| Hydrate.ToFetch | src/logic.rs:85-93 | The page items whose kill id is not in the detail cache, and no others. |
| Hydrate.ToFetchAppend | src/logic.rs:85-93 | The selection of a concatenation is the concatenation of the selections, so page order is kept. |
| Hydrate.ToFetchOne | src/logic.rs:85-93 | One item is selected exactly when its kill id is not cached. |
| Hydrate.SelectUncached | src/logic.rs:85-93 | The selection loop yields exactly `ToFetch`. |
| Hydrate.RunBatch | src/logic.rs:101-137 | One result per selected item, each that item's task outcome, in order. |
| Hydrate.FirstRateLimit | src/logic.rs:139-156 | None exactly when no result failed with 420 or 429. Otherwise the status of the first result, in task order, that failed with 420 or 429. |
| Hydrate.ScanRateLimit | src/logic.rs:139-156 | The scan loop returns the first rate-limit status, as `FirstRateLimit`. |
| Hydrate.HydratedIdsStep | src/logic.rs:160-164 | Each further result adds its id to the hydrated ids exactly when it carries a parsed detail. |
| Hydrate.MergeParsed | src/logic.rs:158-165 | The cache's keys become the old keys plus the hydrated ids. Entries not hydrated are kept. Every new entry is a detail some task returned. |
| Hydrate.MergeIntoCache | src/logic.rs:158-165 | The merge loop leaves the detail cache as `MergeParsed` of the old cache. |
| Hydrate.HydrateSpec | src/logic.rs:85-166 | A page's hydration fails only with the detail rate-limit error, whose status is 420 or 429 and is the failure of the task of some uncached page item. |
| Hydrate.RateLimitAbortsPage | src/logic.rs:139-156 | An uncached page item whose detail is answered 420 or 429 makes the page's hydration fail with the rate-limit error. |
| Hydrate.HydrateExtendsCache | src/logic.rs:85-165 | A page that is not rate-limited only adds details to the cache and never changes a cached one. Every item whose task returned a detail is cached. Every new entry is what the detail endpoint returned for a page item. |
| Hydrate.HydratedNotCached | src/logic.rs:85-93 | Only kills absent from the cache are fetched, so no hydrated id overwrites a cached entry. |
| Hydrate.HydratedReachesCache | src/logic.rs:85-165 | An uncached page item whose task returns a detail is among the ids merged. |
| Hydrate.SecondHydrationSkipsHydrated | src/logic.rs:85-93 | Hydrating the same page again fetches no kill that the first pass hydrated. |
| Hydrate.HydratePage | src/logic.rs:85-166 | The cache after a page's hydration is `HydrateSpec`'s. On a rate limit it is the error with the cache unchanged. |
| Hydrate.Oldest | src/logic.rs:168-185 | `oldest_in_batch` is at most `now` and at most every parsed time of a cached item. It is `now` or one of those times. |
| Hydrate.ScanBatch | src/logic.rs:168-185 | The scan loop returns `Oldest` and whether any page item is cached. |
| Hydrate.ScanStep | src/logic.rs:173-183 | One more item lowers the oldest time to its parsed time when that is earlier. It makes the batch valid when the item is cached. |
| Hydrate.ShouldStopMeaning | src/logic.rs:189-195 | The loop stops exactly when some item of the page is cached, and either the clock is before the cutoff or some cached item's parsed time is before it. |
| Pagination.StepExtendsCache | src/logic.rs:60-185 | A page that gets past hydration only adds details to the cache. |
| Pagination.StepMeaning | src/logic.rs:60-197 | A transport error fails the page with `ListTransport`, a non-2xx status with `ListStatus(page, status)`, and an unparsed body with `ListBadJson(page)`. Any other failure is hydration's: a non-empty page whose detail fetch was rate-limited, with that 420/429 status. An empty page is a successful, parsed, empty list. A page that goes on or stops is a successful non-empty list whose items were hydrated into the cache it hands on. It stops exactly when the stop rule holds. |
| Pagination.Run | src/logic.rs:44-198 | The whole loop asks for pages 1, 2, … in order, at least one and at most ten. |
| Pagination.PaginateResult | src/logic.rs:48-198 | With k the page where the loop stops, the loop fails exactly when page k failed, and with that page's error. Otherwise it returns the items gathered so far followed by every hydrated page's items up to k, in page order, including the stopping page's. |
| Pagination.PaginateCache | src/logic.rs:48-198 | With k the page where the loop stops, the loop ends with page k's cache when that page was hydrated, and otherwise with the cache page k was handed. |
| Pagination.RunResult | src/logic.rs:44-198 | The same for a whole run from page 1 with nothing gathered: the error of the stopping page, or the items of pages 1 to k in page order, and the cache as `PaginateCache` says. |
| Pagination.StopPage | src/logic.rs:48-197 | The page where the loop ends lies between the first page and the tenth. |
| Pagination.PaginateStopsAtStopPage | src/logic.rs:48-197 | The loop requests exactly the pages from its start up to the first page that fails, comes back empty or meets the stop rule, or up to page ten, and no later page. |
| Pagination.StopOnSecondPage | src/logic.rs:189-195 | When page 1 goes on and page 2 meets the stop rule, pages 1 and 2 are requested and nothing more. |
| Pagination.PipelineStepsExtend | src/logic.rs:48-198 | Every page of the pipeline only adds details to the cache. |
| Pagination.PaginateRequestsFirstPages | src/logic.rs:45-48 | The pages requested are 1, 2, … in order, at most ten. When the loop starts at or below ten, they include the page it starts from. |
| Pagination.PaginateExtendsCache | src/logic.rs:48-198 | After the whole loop, the detail cache extends the one before it. |
| Pagination.RunExtendsCache | src/logic.rs:44-198 | A whole run of the loop only adds details to the cache. |
| Pagination.PaginateKeepsAccumulated | src/logic.rs:187 | Items already gathered stay at the front of the result, in order. When the current page was hydrated and the loop succeeds, that page's items follow them directly. |
| Pagination.FetchPage | src/logic.rs:49-185 | One page as `Step` specifies it. The cache is replaced after hydration and unchanged on a failed or empty page. |
| Pagination.FetchPages | src/logic.rs:44-198 | The loop returns `Run`'s items or error, leaves the cache as `Run`'s, and requests `Run`'s pages. |
| Assemble.Worthwhile | src/logic.rs:202-206 | The kept items are those with a dropped value above zero, none added. |
| Assemble.WorthwhileAppend | src/logic.rs:202-206 | The filter of a concatenation is the concatenation of the filters, so order is kept. |
| Assemble.DisplayAttackers | src/logic.rs:303-311 | One displayed attacker per detail attacker, in order, each with its name looked up. |
| Assemble.BuildKillmail | src/logic.rs:289-325 | The displayed kill has the item's id and zkb, and the detail's time and system, and is active. Each name is present exactly when its id is named in the cache, and is then the cached name: system, victim character, victim corporation, ship type, and each attacker character. Attackers keep their order, ids and final-blow flags. |
| Assemble.CachedItems | src/logic.rs:287-288 | The kept items that have a cached detail, and only those. |
| Assemble.CachedItemsAppend | src/logic.rs:286-288 | The selection of a concatenation is the concatenation of the selections, so kept order is kept. |
| Assemble.CachedItemsOne | src/logic.rs:287-288 | One kept item is selected, once, exactly when its detail is cached. |
| Assemble.AssembleKills | src/logic.rs:282-327 | One displayed kill per kept item with a cached detail, in kept order. Each is `BuildKillmail` of that item and its cached detail. |
| Assemble.BuildFinalKills | src/logic.rs:282-327 | The assembly loop yields exactly `AssembleKills`. |
| Assemble.NoWorthlessOutput | src/logic.rs:202-288 | A kill with no dropped value never reaches the output. |
| Assemble.ThreeKillsExample | src/logic.rs:202-325 | Kills worth 100, 0 and 50, with only the first hydrated, give one displayed kill, the first. |
| Names.IdsToResolveMeaning | src/logic.rs:209-241 | An id is to resolve exactly when it has no name yet and a kept, cached kill names it: victim character, victim corporation, ship type, system or attacker character. |
| Names.IdsToResolve | src/logic.rs:209-241 | No id to resolve already has a name. |
| Names.CollectNameIds | src/logic.rs:209-241 | The collection loop yields exactly `IdsToResolve`. |
| Names.AddDetailIds | src/logic.rs:215-238 | One detail adds its unnamed ids to the set. |
| Names.AddVictimIds | src/logic.rs:216-231 | The victim's character, corporation and ship, and the system, are added when unnamed. |
| Names.AddAttackerIds | src/logic.rs:232-238 | The attackers' unnamed character ids are added. |
| Names.AttackerIdsStep | src/logic.rs:232-238 | Each attacker adds its character id, if any. |
| Names.Chunks | src/logic.rs:250 | Each chunk holds between 1 and 1000 ids. The number of chunks is the number of ids divided by 1000, rounded up. |
| Names.ChunkAt | src/logic.rs:250 | Chunk j is the slice of ids from j·1000 to (j+1)·1000 or the end. |
| Names.ChunksCover | src/logic.rs:250 | Every id is in the chunk of its index divided by 1000. |
| Names.ChunksDisjoint | src/logic.rs:248-250 | Distinct ids sit in one chunk only. |
| Names.ChunksPartition | src/logic.rs:248-250 | The chunks of distinct ids partition them. |
| Names.InsertNames | src/logic.rs:258-260 | The name cache gains exactly the answered ids and keeps every name that was not answered. |
| Names.InsertNamesLastWins | src/logic.rs:258-260 | An answered id gets the name of the last entry that carries it. |
| Names.EntryInserted | src/logic.rs:258-260 | Every entry's id is in the cache afterwards. |
| Names.PostedBeforeLimit | src/logic.rs:250-279 | The chunks before the first one answered 420 or 429: none of them is rate-limited, and the chunk after them is. |
| Names.ResolveChunks | src/logic.rs:250-279 | The name cache only grows. An error comes exactly when some chunk is answered 420 or 429, and it is the name rate-limit error. |
| Names.ResolveChunksMerges | src/logic.rs:250-279 | The name cache is the answers of the chunks before the first rate-limited one, merged in order. The error comes exactly when a rate-limited chunk exists. |
| Names.LaterChunksNotPosted | src/logic.rs:265-273 | After a rate-limited chunk, no later chunk is posted: changing their answers changes nothing. |
| Names.AnsweredNamesStored | src/logic.rs:255-260 | Every id in a successful answer before the rate limit is in the name cache at the end. |
| Names.StoreNames | src/logic.rs:257-260 | The insertion loop leaves the name cache as `InsertNames`. |
| Names.NothingToResolve | src/logic.rs:243 | With no ids to resolve, nothing is asked and the cache stays. |
| Names.ResolveNames | src/logic.rs:250-279 | The chunk loop stops at the first rate-limited chunk, and leaves the error and the name cache as `ResolveChunks`. |
| Fetch.ResolveAndAssemble | src/logic.rs:208-327 | The names are resolved for the ids `IdsToResolve` gives, in some order of the set. On success the result is `AssembleKills` over the caches after resolution. |
| Fetch.FetchZkillData | src/logic.rs:15-328 | The call satisfies `Fetched`: a bad link returns its error and touches nothing. Otherwise it goes on as `FetchedFrom` says for the parsed link. The pages requested are `Run`'s. |
| Fetch.FetchFromLink | src/logic.rs:44-328 | For a parsed link the call satisfies `FetchedFrom`: the page loop runs as `Run`, and a loop error returns with the name cache unchanged. After the loop, the detail cache only grew, the names were resolved for the kept kills, and the result is those kills assembled. The pages requested are `Run`'s. |
| Request.WindowTooLongMeaning | src/main.rs:125 | `num_days() > 30` truncates: the window is refused exactly when it spans 31 days or more. |
| Request.WindowInDays | src/main.rs:113-125 | From 00:00:00 of one day to 23:59:59 of another, the window is refused exactly when the days are more than 30 apart. |
| Request.Pairs | src/main.rs:146-149 | One optional pair per line, each the `MappingPair` of its line. |
| Request.MappingPair | src/main.rs:147-148 | None exactly when the line has no `:` or `=`. Otherwise the trimmed text before the first of them and the trimmed text after it. |
| Request.BuildMapping | src/main.rs:146-149 | Every entry of the mapping is the pair of some line. |
| Request.ParseMapping | src/main.rs:143-151 | Every mapped alt and its main come from one line of the input split at its first separator. |
| Request.BuildMappingStep | src/main.rs:146-149 | Each line inserts its pair, if any, into the mapping so far. |
| Request.MappingKeys | src/main.rs:143-151 | After `clear`, an alt is mapped exactly when some line splits into it. |
| Request.MappingLastWins | src/main.rs:146-149 | An alt maps to the main of the last line that names it. |
| Request.UpdateMapping | src/main.rs:143-151 | The map is cleared and rebuilt as `ParseMapping` of the mapping input. |
| Request.IdsIn | src/main.rs:177-183 | An id is excluded exactly when some comma-separated piece, trimmed, parses as an `i32` to it. Every excluded id is within `i32`. |
| Request.ExcludedNames | src/main.rs:185-192 | A name is excluded exactly when it is non-empty and some piece trims to it. No excluded name starts or ends with whitespace. |
| Request.NothingExcludedWhenAbsent | src/main.rs:177-192 | A missing field excludes nothing. |
| Request.IdStringFacts | src/main.rs:182 | The decimal form of an `i32` has no comma, is unchanged by `trim`, and parses back to the same value. |
| Request.IdsInWritten | src/main.rs:177-183 | Pieces that are already trimmed and parse give exactly their ids. |
| Request.ExcludedIdsRoundTrip | src/main.rs:177-183 | Ids written as a comma-separated list are read back as exactly that set. |
| Text.SplitOnce | src/main.rs:147 | `split_once([':', '='])`: none exactly when the line has neither character. Otherwise the text before the first one and the text after it. |
| Text.Lines | src/main.rs:146 | `lines()`: no line holds a newline, and there are none only for empty input. The content of the lines is stated by `LinesAsSplit` and `LinesJoin`. |
| Text.LinesAsSplit | src/main.rs:146 | Without carriage returns, the lines are `split('\n')` of the text less one final newline. |
| Text.LinesJoin | src/main.rs:146 | Without carriage returns, the lines joined by newlines give the text back, less one final newline. |
| Text.Trim | src/main.rs:148 | `trim()`, used on mapping lines and exclusion pieces: the trimmed text neither starts nor ends with whitespace. |
| Text.TrimSlice | src/main.rs:148 | The trimmed text is a slice of the original with only whitespace cut on either side. |
| Text.TrimUnchanged | src/main.rs:182 | Trimming a text without whitespace at its ends leaves it as it is. |
| Text.Split | src/main.rs:181 | `split(c)`, for the exclusion lists and the date of a kill, yields at least one piece, none holding `c`. |
| Text.SplitHead | src/main.rs:269-274 | The first piece is the text up to the first separator, or all of it. |
| Text.JoinSplit | src/main.rs:181 | Joining the pieces with `c` gives the text back. |
| Text.SplitJoin | src/main.rs:181 | Splitting pieces joined with `c` gives the pieces back, when none holds `c`. |
| Text.ParseI32 | src/main.rs:182 | `parse::<i32>` succeeds only on an optional sign followed by at least one digit, and only within the `i32` range. Digits, `+digits` and `-digits` give their value, or nothing when out of range. |
| Text.ParseI32OfIntToString | src/main.rs:182 | Parsing the decimal form of an `i32` gives it back. |
| Text.NatToStringInjective | src/logic.rs:52-55 | Different page numbers print differently. |
| Payout.ActiveKills | src/main.rs:195-213 | Only kills in the window with a dropped value above zero are kept, each marked active exactly when its id is not excluded. Every such stored kill appears, and nothing else. |
| Payout.ActiveKillsAppend | src/main.rs:195-213 | The filter keeps order: the filter of a concatenation is the concatenation of the filters. |
| Payout.ExclusionOnlyMarks | src/main.rs:208-212 | Excluding kills never drops a kill from the list. It changes only the active marks. |
| Payout.KillMains | src/main.rs:231-238 | The mains of a kill are the mapped mains of its named attackers. An unmapped name is its own main. |
| Payout.SeenMains | src/main.rs:219-239 | The seen mains are exactly the mains of the active kills' named attackers, excluded mains included. |
| Payout.Wallets | src/main.rs:219-251 | No excluded name has a wallet. |
| Payout.TotalDroppedBounds | src/main.rs:219-229 | The total is not negative when no value is, and is zero when no kill is active. |
| Payout.CreditKillMeaning | src/main.rs:241-250 | An active kill gives each participant an equal share of its value, starting a missing wallet at zero. Every other wallet stays. |
| Payout.WalletHolders | src/main.rs:219-251 | A wallet exists exactly for the mains seen on active kills who are not excluded. |
| Payout.WalletsPositive | src/main.rs:241-250 | With positive dropped values, every wallet holds a positive amount. |
| Payout.SharePositive | src/main.rs:245-246 | A positive value split among one or more mains gives a positive share. |
| Payout.CreditPositive | src/main.rs:248-250 | Crediting a positive share keeps every wallet positive. |
| Payout.Tally | src/main.rs:219-251 | The tally loop yields the seen mains, the wallets and the total as `SeenMains`, `Wallets` and `TotalDropped`. |
| Payout.TallyStep | src/main.rs:223-251 | An active kill adds its mains to the seen mains and its value to the total, and credits its share. An inactive kill changes nothing. |
| Payout.KillMainsStep | src/main.rs:231-238 | Each named attacker adds its main. |
| Payout.TallyKill | src/main.rs:223-251 | One kill of the tally loop, as `TallyStep` says. |
| Payout.TallyAttackers | src/main.rs:230-239 | The attacker loop yields the seen mains and the participants: the kill's mains that are not excluded. |
| Payout.CreditNone | src/main.rs:248-250 | Crediting no one leaves the wallets as they were. |
| Payout.CreditOneMore | src/main.rs:248-250 | Crediting one more main is one more `entry(..).or_insert(0.0) += share`. |
| Payout.Pay | src/main.rs:248-250 | The payment loop adds the share once to each participant's wallet, creating it at zero. |
| Payout.ActiveNamesStep | src/main.rs:264 | Each further row adds its name to the active names when it is active. |
| Payout.CountActiveNames | src/main.rs:264 | With distinct names, the active count is the number of active names. |
| Payout.DescribedRowsStrict | src/main.rs:253-263 | Distinct rows, each built from its name and sorted by name, are strictly sorted. |
| Payout.DescribedRowsDistinct | src/main.rs:255-262 | Rows built from distinct mains are distinct. |
| Payout.SortedRows | src/main.rs:253-264 | The sorted rows hold every seen main once, strictly by name. Each row has its wallet, or 0.0, and is active exactly when the main is not excluded. |
| Payout.ListBeneficiaries | src/main.rs:253-264 | One row per seen main, strictly ascending by name, each row its wallet and active flag. `total_humans` is the number of seen mains not excluded. |
| Ordering.SortBy | src/main.rs:263 | `sort_by`, for the beneficiaries and the dates: the result is sorted by the key, ascending or descending, and is a permutation of the input. |
| Ordering.SortByStableOnEqualKeys | src/main.rs:263 | The sort is stable: elements whose keys are all equal come out in their input order. |
| Ordering.InsertAfterEqual | src/main.rs:263 | Inserted into a sorted run of elements whose keys equal its own, an element goes last. |
| Ordering.SortedDistinctIsStrict | src/main.rs:263 | A sorted list of distinct keys is strictly sorted. |
| Grouping.DateKey | src/main.rs:269-274 | The date is the prefix of the time before its first `T`, or the whole time when there is none. It holds no `T`. |
| Grouping.KillsOn | src/main.rs:275 | The kills of a date are exactly the kills whose time has that date. |
| Grouping.KillsOnAppend | src/main.rs:268-276 | The kills of a date in a concatenation are those of each part in turn, so a group keeps the kills' order. |
| Grouping.KillsOnOne | src/main.rs:268-276 | One kill is in a date's group, once, exactly when its time has that date. |
| Grouping.NoKillsOffDates | src/main.rs:267-276 | A date that no kill falls on has no kills. |
| Grouping.GroupsMapMeaning | src/main.rs:267-276 | `groups_map` has one key per date that occurs. Each key holds that date's kills in their order. |
| Grouping.BuildGroupsMap | src/main.rs:267-276 | The grouping loop builds the map of dates to their kills. |
| Grouping.Drain | src/main.rs:282-289 | One group per date, in the order of the dates, each holding that date's list. |
| Grouping.DrainedIsGrouping | src/main.rs:278-289 | Groups taken in strictly descending date order from the map form the daily grouping. |
| Grouping.SortedKeys | src/main.rs:279-280 | The map's keys, sorted newest first, are strictly descending and are exactly the keys. |
| Grouping.DistinctDatesStrict | src/main.rs:279-280 | Distinct dates sorted newest first are strictly descending. |
| Grouping.EachKillInOneGroup | src/main.rs:266-289 | In the daily grouping, every kill sits in exactly one group. |
| Grouping.GroupByDate | src/main.rs:266-289 | The groups are strictly newest date first, with exactly the dates of the kills, each holding that date's kills in order. |
| Handler.DefaultWindowAccepted | src/main.rs:113-125 | Without dates, the window of the last seven days and today passes the guard. |
| Handler.ParsedWindowGuard | src/main.rs:113-125 | With both dates parsed, the page is refused exactly when they are more than 30 days apart. |
| Handler.StartCutoff | src/main.rs:113-116 | The start is midnight of the parsed day, or of seven days before today. |
| Handler.EndCutoff | src/main.rs:118-121 | The end is 23:59:59 of the parsed day, or of today. |
| Handler.BuildReport | src/main.rs:217-289 | The report has these parts: the daily grouping of the active kills; the total dropped value of the active kills; the beneficiary rows of the seen mains; and the count of those not excluded. |
| Handler.FetchAndStore | src/main.rs:153-175 | A fetch happens exactly when a link is given, and it satisfies `Fetched` over the caches before and after. Its kills replace the stored ones on success. On failure the stored kills stay, and the error shows only when there were none. Without a link neither cache changes. |
| Handler.ProcessData | src/main.rs:106-304 | A window over 30 days gives the refusal page and changes nothing. Otherwise the mapping is rebuilt and the fetch, which satisfies `Fetched`, is stored. The page echoes the form and reports on the active kills of the stored list. |

## Left out

- HTTP, JSON decoding and the HTTP client are left out. The three endpoints are total functions of the request. A response is a status with a body that parsed or did not, or a transport error.
- Failure to build the HTTP client (`src/logic.rs:36-42`) is left out. The model has no client to build.
- The concurrent detail tasks (`join_all`) are modelled as one result per task, in order. The locking of the caches and the interleaving of concurrent requests are left out. Each call sees the caches as one sequence of updates.
- The 200 ms pause between pages, and all logging, are left out. The log includes the server-error warning at `src/logic.rs:152-154`, which changes nothing.
- `Utc::now()` is one `now` parameter, read once per call. The source reads the clock again for every page scan and for both default dates.
- `DateTime::parse_from_rfc3339` and `NaiveDate::parse_from_str` are the parameters `parseTime` and `parseDate`. Instants are integers in nanoseconds; dates are day numbers. Calendar arithmetic is not modelled.
- `\w` and `\d` are modelled on ASCII: letters, digits and `_`. The `regex` crate also accepts other Unicode letters and digits.
- The ISK amounts (`f64`) are exact reals. Floating-point rounding in the sums and shares is not modelled.
- `format_isk`, the `formatted_dropped` text and the `total_payout_str` text are left out. The page carries the unformatted amounts.
- The error texts are the `FetchError` datatype. The model does not build the strings.
- HTML rendering with `askama` is left out; the page is the `IndexPage` record.
- The routes other than `POST /process`, and the server setup in `src/main.rs`, are left out.
- The order in which a `HashSet` is drained is left open. The model takes an arbitrary distinct order.
- `sort_by` is the library's sort. It is modelled as an insertion sort that puts each element after those with equal keys. It is specified as sorted and a permutation; stability is proved only for inputs whose keys are all equal. Every key sorted here (beneficiary names, dates) is distinct, so no output depends on it.
- `ParseI32` accepts an optional sign and decimal digits, as `str::parse::<i32>` does. Other inputs are refused.
- Ids are `i32` in `src/models.rs`; the model's ids are unbounded integers. Only the exclusion list parses ids, and it keeps the `i32` range check.
- Fetch.FetchZkillData: the name-cache part is stated as `ResolvedFrom` for some order of the id set, because the `HashSet` order is unspecified. It is not stated for the one order the program uses.
- Names.ResolveChunks: names already cached can be replaced by the answer. The model does not promise that a name stays the same, because the code does not.
- Pagination.Step, Pagination.Paginate, Payout.TotalDropped, Payout.CreditKill and Grouping.GroupsMap: their properties are stated as the lemmas named in their rows (`StepMeaning`, `PaginateStopsAtStopPage`, `PaginateResult`, `PaginateCache`, `TotalDroppedBounds`, `CreditKillMeaning`, `GroupsMapMeaning`) rather than on the functions, to keep the loops that use them cheap to prove.
- Text.Lines: its own contract states the shape only. The content is stated by `LinesAsSplit` and `LinesJoin` for text without carriage returns; a `\r` before a line feed is removed by the definition, and no lemma states that case.
