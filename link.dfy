/**
 * The zKillboard link: the pattern `zkillboard\.com/(\w+)/(\d+)` searched
 * leftmost in the user's text, the entity kind mapped to the list API's
 * query parameter, and the list page URLs built from it.
 */
module Link {
  import opened Wrappers
  import opened Text
  import opened Models

  const Host: string := "zkillboard.com/"

  /** The entity a link names: its kind word, the API parameter and the id digits. */
  datatype EntityRef = EntityRef(kind: string, apiType: string, entityId: string)

  /** Length of the longest run of word characters starting at `i`. */
  function WordRun(s: string, i: nat): (n: nat)
    requires i <= |s|
    ensures i + n <= |s| && AllWordChars(s[i..i + n])
    ensures i + n == |s| || !IsWordChar(s[i + n])
    decreases |s| - i
  {
    if i < |s| && IsWordChar(s[i]) then
      var n := WordRun(s, i + 1);
      assert s[i..i + 1 + n] == [s[i]] + s[i + 1..i + 1 + n];
      1 + n
    else 0
  }

  /** Length of the longest run of ASCII digits starting at `i`. */
  function DigitRun(s: string, i: nat): (n: nat)
    requires i <= |s|
    ensures i + n <= |s| && AllDigits(s[i..i + n])
    ensures i + n == |s| || !IsDigit(s[i + n])
    decreases |s| - i
  {
    if i < |s| && IsDigit(s[i]) then
      var n := DigitRun(s, i + 1);
      assert s[i..i + 1 + n] == [s[i]] + s[i + 1..i + 1 + n];
      1 + n
    else 0
  }

  /**
   * The regex tried at position `p`: the host, then the greedy word run
   * (a `/` cannot be inside it, so backtracking never helps), a `/`, and
   * the greedy digit run. Yields the two captures.
   */
  function MatchAt(s: string, p: nat): (r: Option<(string, string)>)
    requires p <= |s|
    ensures r.Some? ==> p + |Host| <= |s| && s[p..p + |Host|] == Host
    ensures r.Some? ==> |r.value.0| > 0 && AllWordChars(r.value.0) && |r.value.1| > 0 && AllDigits(r.value.1)
  {
    if p + |Host| <= |s| && s[p..p + |Host|] == Host then
      var t := p + |Host|;
      var w := WordRun(s, t);
      if w > 0 && t + w < |s| && s[t + w] == '/' then
        var d := DigitRun(s, t + w + 1);
        if d > 0 then Some((s[t..t + w], s[t + w + 1..t + w + 1 + d])) else None
      else None
    else None
  }

  /** `s` holds, at `p`, the host, `kind`, a slash and `id`. */
  ghost predicate PatternAt(s: string, p: nat, kind: string, id: string) {
    && |kind| > 0 && AllWordChars(kind)
    && |id| > 0 && AllDigits(id)
    && p + |Host| + |kind| + 1 + |id| <= |s|
    && var t := p + |Host|;
       && s[p..t] == Host
       && s[t..t + |kind|] == kind
       && s[t + |kind|] == '/'
       && s[t + |kind| + 1..t + |kind| + 1 + |id|] == id
  }

  /**
   * The pattern at `p` with a digit run that cannot be extended: what a
   * greedy `\d+` takes. (The word run is closed by the `/` anyway.)
   */
  ghost predicate MaximalPatternAt(s: string, p: nat, kind: string, id: string) {
    && PatternAt(s, p, kind, id)
    && var e := p + |Host| + |kind| + 1 + |id|;
       e == |s| || !IsDigit(s[e])
  }

  /** No match starts in `[from, p)`. */
  predicate NoMatchBetween(s: string, from: nat, p: nat)
    requires p <= |s|
  {
    forall q :: from <= q < p ==> MatchAt(s, q).None?
  }

  /** The leftmost match at or after `p`. */
  function FindMatch(s: string, p: nat): (r: Option<(string, string)>)
    requires p <= |s|
    ensures r.None? <==> forall q :: p <= q <= |s| ==> MatchAt(s, q).None?
    ensures r.Some? ==> exists q :: p <= q <= |s| && MatchAt(s, q) == r && NoMatchBetween(s, p, q)
    decreases |s| - p, 1
  {
    match MatchAt(s, p)
    case Some(m) =>
      assert NoMatchBetween(s, p, p);
      Some(m)
    case None =>
      if p == |s| then None
      else
        FindMatchSkips(s, p);
        FindMatch(s, p + 1)
  }

  /** A position without a match does not change which match comes first after it. */
  lemma FindMatchSkips(s: string, p: nat)
    requires p < |s| && MatchAt(s, p).None?
    ensures var r := FindMatch(s, p + 1);
      r.Some? ==> exists q :: p <= q <= |s| && MatchAt(s, q) == r && NoMatchBetween(s, p, q)
    decreases |s| - p, 0
  {
    var r := FindMatch(s, p + 1);
    if r.Some? {
      var q :| p + 1 <= q <= |s| && MatchAt(s, q) == r && NoMatchBetween(s, p + 1, q);
      forall q' | p <= q' < q ensures MatchAt(s, q').None? {
        if q' > p {
          assert p + 1 <= q' < q;
        }
      }
      assert NoMatchBetween(s, p, q);
    }
  }

  /** What `MatchAt` captures is an occurrence of the pattern. */
  lemma MatchAtSound(s: string, p: nat)
    requires p <= |s| && MatchAt(s, p).Some?
    ensures MaximalPatternAt(s, p, MatchAt(s, p).value.0, MatchAt(s, p).value.1)
  {
    var t := p + |Host|;
    var w := WordRun(s, t);
    var d := DigitRun(s, t + w + 1);
  }

  /** Every occurrence of the pattern is found by `MatchAt` at its position. */
  lemma MatchAtComplete(s: string, p: nat, kind: string, id: string)
    requires PatternAt(s, p, kind, id)
    ensures p <= |s| && MatchAt(s, p).Some? && MatchAt(s, p).value.0 == kind
  {
    var t := p + |Host|;
    forall i | t <= i < t + |kind| ensures IsWordChar(s[i]) {
      assert s[i] == kind[i - t];
    }
    WordRunExact(s, t, |kind|);
    assert s[t + |kind| + 1] == id[0];
  }

  /** A greedy occurrence is captured by `MatchAt` exactly. */
  lemma MatchAtExact(s: string, p: nat, kind: string, id: string)
    requires MaximalPatternAt(s, p, kind, id)
    ensures p <= |s| && MatchAt(s, p) == Some((kind, id))
  {
    MatchAtComplete(s, p, kind, id);
    var t := p + |Host| + |kind| + 1;
    forall i | t <= i < t + |id| ensures IsDigit(s[i]) {
      assert s[i] == id[i - t];
    }
    DigitRunExact(s, t, |id|);
  }

  lemma {:induction false} DigitRunExact(s: string, i: nat, n: nat)
    requires i + n <= |s|
    requires forall j :: i <= j < i + n ==> IsDigit(s[j])
    requires i + n == |s| || !IsDigit(s[i + n])
    ensures DigitRun(s, i) == n
    decreases n
  {
    if n > 0 {
      DigitRunExact(s, i + 1, n - 1);
    }
  }

  lemma {:induction false} WordRunExact(s: string, i: nat, n: nat)
    requires i + n < |s|
    requires forall j :: i <= j < i + n ==> IsWordChar(s[j])
    requires !IsWordChar(s[i + n])
    ensures WordRun(s, i) == n
    decreases n
  {
    if n > 0 {
      WordRunExact(s, i + 1, n - 1);
    }
  }

  /** The `match entity_type` table of query parameters. */
  function ApiType(kind: string): Option<string> {
    if kind == "corporation" then Some("corporationID")
    else if kind == "alliance" then Some("allianceID")
    else if kind == "character" then Some("characterID")
    else if kind == "system" then Some("solarSystemID")
    else if kind == "region" then Some("regionID")
    else None
  }

  /**
   * The link parse of `fetch_zkill_data`: no occurrence of the pattern is an
   * invalid link; a kind outside the table is unsupported.
   */
  function ParseLink(userUrl: string): (r: Result<EntityRef, FetchError>)
    ensures r == Failure(InvalidLinkFormat) <==> forall p :: 0 <= p <= |userUrl| ==> MatchAt(userUrl, p).None?
    ensures r.Success? ==>
      && ApiType(r.value.kind) == Some(r.value.apiType)
      && exists p :: 0 <= p <= |userUrl| && MaximalPatternAt(userUrl, p, r.value.kind, r.value.entityId)
                     && NoMatchBetween(userUrl, 0, p)
    ensures r.Failure? && r.error.UnsupportedEntityType? ==>
      && ApiType(r.error.kind).None?
      && exists p, id :: 0 <= p <= |userUrl| && MaximalPatternAt(userUrl, p, r.error.kind, id)
                         && NoMatchBetween(userUrl, 0, p)
    ensures r.Failure? ==> r.error.InvalidLinkFormat? || r.error.UnsupportedEntityType?
  {
    match FindMatch(userUrl, 0)
    case None => Failure(InvalidLinkFormat)
    case Some((kind, id)) =>
      var p :| 0 <= p <= |userUrl| && MatchAt(userUrl, p) == Some((kind, id)) && NoMatchBetween(userUrl, 0, p);
      MatchAtSound(userUrl, p);
      match ApiType(kind)
      case None => Failure(UnsupportedEntityType(kind))
      case Some(apiType) => Success(EntityRef(kind, apiType, id))
  }

  /** A link is refused as malformed only when the pattern occurs nowhere in it. */
  lemma InvalidOnlyWithoutPattern(userUrl: string, p: nat, kind: string, id: string)
    requires PatternAt(userUrl, p, kind, id)
    ensures ParseLink(userUrl) != Failure(InvalidLinkFormat)
  {
    MatchAtComplete(userUrl, p, kind, id);
  }

  /**
   * The leftmost greedy occurrence decides the parse: its kind and its whole
   * digit run are what the link names.
   */
  lemma ParseLinkLeftmost(userUrl: string, p: nat, kind: string, id: string)
    requires MaximalPatternAt(userUrl, p, kind, id) && p <= |userUrl|
    requires NoMatchBetween(userUrl, 0, p)
    ensures ApiType(kind).Some? ==> ParseLink(userUrl) == Success(EntityRef(kind, ApiType(kind).value, id))
    ensures ApiType(kind).None? ==> ParseLink(userUrl) == Failure(UnsupportedEntityType(kind))
  {
    MatchAtExact(userUrl, p, kind, id);
    var r := FindMatch(userUrl, 0);
    var q :| 0 <= q <= |userUrl| && MatchAt(userUrl, q) == r && NoMatchBetween(userUrl, 0, q);
    assert q == p;
  }

  /** `\w` matches digits, so an all-digit kind word is an unsupported type, not a bad link. */
  lemma DigitKindUnsupported(kind: string)
    requires |kind| > 0 && AllDigits(kind)
    ensures ApiType(kind).None?
  {
    assert IsDigit(kind[0]);
  }

  /** The list URL of page 1 of the entity, to which later pages add `page/<n>/`. */
  function ListBaseUrl(entity: EntityRef): string {
    "https://zkillboard.com/api/" + entity.apiType + "/" + entity.entityId + "/"
  }

  /**
   * The list URL of a page: the entity's base URL, which page 1 uses as it
   * is, and to which every later page adds `page/`, its number and `/`.
   */
  function PageUrl(entity: EntityRef, page: nat): (r: string)
    requires page >= 1
    ensures var base := ListBaseUrl(entity);
      && |base| <= |r| && r[..|base|] == base
      && (page == 1 <==> r == base)
      && (page > 1 ==> r[|base|..] == "page/" + NatToString(page) + "/")
  {
    if page == 1 then ListBaseUrl(entity)
    else ListBaseUrl(entity) + "page/" + NatToString(page) + "/"
  }

  /** Different pages are requested from different URLs. */
  lemma PageUrlInjective(entity: EntityRef, p: nat, q: nat)
    requires 1 <= p && 1 <= q && p != q
    ensures PageUrl(entity, p) != PageUrl(entity, q)
  {
    var base := ListBaseUrl(entity);
    if p != 1 && q != 1 {
      if PageUrl(entity, p) == PageUrl(entity, q) {
        var u := PageUrl(entity, p);
        var sp, sq := NatToString(p), NatToString(q);
        assert |sp| == |sq|;
        var k := |base| + 5;
        assert u[k..k + |sp|] == sp;
        assert PageUrl(entity, q)[k..k + |sq|] == sq;
        NatToStringInjective(p, q);
      }
    } else {
      assert |PageUrl(entity, p)| != |PageUrl(entity, q)|;
    }
  }
}
