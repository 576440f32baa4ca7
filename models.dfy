/**
 * The records of src/models.rs, shaped after the fields that src/logic.rs
 * actually reads and writes, the shared application state, and the three
 * upstream endpoints as inputs.
 */
module Models {
  import opened Wrappers

  /** The zKillboard value block of a kill (`ZkbStats`); ISK amounts are reals. */
  datatype ZkbStats = ZkbStats(
    locationId: int,
    hash: string,
    fittedValue: real,
    droppedValue: real,
    destroyedValue: real,
    totalValue: real)

  /** One entry of a zKillboard list page (`RawZKillItem`). */
  datatype RawZKillItem = RawZKillItem(killmailId: int, zkb: ZkbStats)

  datatype EsiVictim = EsiVictim(characterId: Option<int>, corporationId: Option<int>, shipTypeId: int)

  datatype EsiAttacker = EsiAttacker(characterId: Option<int>, corporationId: Option<int>, finalBlow: bool)

  /** The detail record ESI returns for one kill (`EsiKillmail`). */
  datatype EsiKillmail = EsiKillmail(
    killmailTime: string,
    solarSystemId: int,
    victim: EsiVictim,
    attackers: seq<EsiAttacker>)

  /** One answer of the bulk name endpoint (`EsiNameEntry`). */
  datatype EsiNameEntry = EsiNameEntry(id: int, name: string, category: string)

  /** The victim as displayed, with its names looked up. */
  datatype Victim = Victim(
    characterId: Option<int>,
    characterName: Option<string>,
    corporationName: Option<string>,
    shipTypeId: int,
    shipTypeName: Option<string>)

  datatype Attacker = Attacker(
    characterId: Option<int>,
    characterName: Option<string>,
    corporationId: Option<int>,
    finalBlow: bool)

  /** A hydrated kill as the page shows it (`Killmail`). */
  datatype Killmail = Killmail(
    killmailId: int,
    zkb: ZkbStats,
    victim: Option<Victim>,
    attackers: seq<Attacker>,
    killmailTime: string,
    solarSystemId: int,
    solarSystemName: Option<string>,
    isActive: bool)

  /** Why `fetch_zkill_data` gave up; the Rust code formats each as a message. */
  datatype FetchError =
    | InvalidLinkFormat
    | UnsupportedEntityType(kind: string)
    | ListTransport
    | ListStatus(page: nat, status: int)
    | ListBadJson(page: nat)
    | DetailRateLimited(status: int)
    | NameRateLimited

  /** HTTP answers: a transport failure, or a status with a body that parsed or not. */
  datatype ListResponse = ListNetErr | ListResp(status: int, body: Option<seq<RawZKillItem>>)
  datatype DetailResponse = DetailNetErr | DetailResp(status: int, body: Option<EsiKillmail>)
  datatype NamesResponse = NamesNetErr | NamesResp(status: int, body: Option<seq<EsiNameEntry>>)

  /**
   * The upstream services: the zKillboard list by URL, the ESI detail by
   * kill id and hash, and the ESI bulk name lookup by the chunk of ids posted.
   */
  datatype Upstream = Upstream(
    list: string -> ListResponse,
    detail: (int, string) -> DetailResponse,
    names: seq<int> -> NamesResponse)

  /** `StatusCode::is_success`. */
  predicate IsSuccess(status: int) {
    200 <= status <= 299
  }

  /** ESI's error-limit status 420 or 429 Too Many Requests. */
  predicate IsRateLimit(status: int) {
    status == 420 || status == 429
  }

  /** `AppState`: the kill list on display, the alt-to-main map and the two caches. */
  class AppState {
    var currentKills: seq<Killmail>
    var characterMap: map<string, string>
    var esiCache: map<int, EsiKillmail>
    var nameCache: map<int, string>

    constructor ()
      ensures currentKills == [] && characterMap == map[]
      ensures esiCache == map[] && nameCache == map[]
    {
      currentKills := [];
      characterMap := map[];
      esiCache := map[];
      nameCache := map[];
    }
  }
}
