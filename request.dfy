/**
 * The request-parsing steps of `process_data`: the 30-day window guard,
 * the alt-to-main mapping text, and the two exclusion lists.
 */
module Request {
  import opened Wrappers
  import opened Text
  import opened Models

  /** Instants are nanoseconds since the epoch, the precision of chrono's `DateTime`. */
  const NanosPerSecond: int := 1_000_000_000
  const NanosPerDay: int := 86_400_000_000_000

  /** `TimeDelta::num_days`: whole days, truncated toward zero. */
  function NumDays(delta: int): int {
    if delta >= 0 then delta / NanosPerDay else -((-delta) / NanosPerDay)
  }

  /** `(end_cutoff - start_cutoff).num_days() > 30`. */
  predicate WindowTooLong(startCutoff: int, endCutoff: int) {
    NumDays(endCutoff - startCutoff) > 30
  }

  /** The guard rejects exactly the windows of 31 whole days or more. */
  lemma WindowTooLongMeaning(startCutoff: int, endCutoff: int)
    ensures WindowTooLong(startCutoff, endCutoff) <==> endCutoff - startCutoff >= 31 * NanosPerDay
  {
  }

  /**
   * With the start at midnight of day `startDay` and the end at 23:59:59 of
   * day `endDay`, the guard rejects exactly the windows whose days are more
   * than 30 apart.
   */
  lemma WindowInDays(startDay: int, endDay: int)
    ensures WindowTooLong(startDay * NanosPerDay, endDay * NanosPerDay + 86_399 * NanosPerSecond)
            <==> endDay - startDay > 30
  {
    var delta := (endDay - startDay) * NanosPerDay + 86_399 * NanosPerSecond;
    assert endDay * NanosPerDay + 86_399 * NanosPerSecond - startDay * NanosPerDay == delta;
    WindowTooLongMeaning(startDay * NanosPerDay, endDay * NanosPerDay + 86_399 * NanosPerSecond);
    if endDay - startDay > 30 {
      assert (endDay - startDay) * NanosPerDay >= 31 * NanosPerDay;
    } else {
      assert (endDay - startDay) * NanosPerDay <= 30 * NanosPerDay;
    }
  }

  /** One mapping line split at its first `:` or `=`, both sides trimmed. */
  function MappingPair(line: string): (r: Option<(string, string)>)
    ensures r.None? <==> forall i :: 0 <= i < |line| ==> line[i] != ':' && line[i] != '='
    ensures r.Some? ==> exists k :: 0 <= k < |line| && (line[k] == ':' || line[k] == '=')
                         && (forall i :: 0 <= i < k ==> line[i] != ':' && line[i] != '=')
                         && r.value == (Trim(line[..k]), Trim(line[k + 1..]))
  {
    match SplitOnce(line, {':', '='})
    case None => None
    case Some((alt, main)) => Some((Trim(alt), Trim(main)))
  }

  /** The pair of every line, `None` for a line without a separator. */
  function Pairs(lines: seq<string>): (r: seq<Option<(string, string)>>)
    ensures |r| == |lines|
    ensures forall i :: 0 <= i < |lines| ==> r[i] == MappingPair(lines[i])
  {
    seq(|lines|, i requires 0 <= i < |lines| => MappingPair(lines[i]))
  }

  /** A pair whose left side is `alt`. */
  predicate Mentions(pair: Option<(string, string)>, alt: string) {
    pair.Some? && pair.value.0 == alt
  }

  /**
   * The map the loop builds from an empty one: one insert per pair, a later
   * pair for the same alt overwriting an earlier one.
   */
  function BuildMapping(pairs: seq<Option<(string, string)>>): (r: map<string, string>)
    ensures forall alt :: alt in r ==> exists i :: 0 <= i < |pairs| && pairs[i] == Some((alt, r[alt]))
    decreases |pairs|
  {
    if pairs == [] then map[]
    else
      assert forall i :: 0 <= i < |pairs| - 1 ==> pairs[..|pairs| - 1][i] == pairs[i];
      AddPair(BuildMapping(pairs[..|pairs| - 1]), pairs[|pairs| - 1])
  }

  /** One line's insert, if it has a pair. */
  function AddPair(m: map<string, string>, pair: Option<(string, string)>): map<string, string> {
    match pair
    case None => m
    case Some((alt, main)) => m[alt := main]
  }

  /** The map after `i + 1` pairs is the map after `i` pairs and one more insert. */
  lemma BuildMappingStep(pairs: seq<Option<(string, string)>>, i: nat)
    requires i < |pairs|
    ensures BuildMapping(pairs[..i + 1]) == AddPair(BuildMapping(pairs[..i]), pairs[i])
  {
    assert pairs[..i + 1][..i] == pairs[..i];
  }

  /** `character_map` as read from the mapping text. */
  function ParseMapping(mappingInput: string): (r: map<string, string>)
    ensures forall alt :: alt in r ==> exists line :: line in Lines(mappingInput) && MappingPair(line) == Some((alt, r[alt]))
  {
    BuildMapping(Pairs(Lines(mappingInput)))
  }

  /** An alt is mapped exactly when some pair has it on the left. */
  lemma {:induction false} MappingKeys(pairs: seq<Option<(string, string)>>, alt: string)
    ensures alt in BuildMapping(pairs) <==> exists i :: 0 <= i < |pairs| && Mentions(pairs[i], alt)
    decreases |pairs|
  {
    if pairs != [] {
      var init := pairs[..|pairs| - 1];
      MappingKeys(init, alt);
      assert forall i :: 0 <= i < |init| ==> pairs[i] == init[i];
      if exists i :: 0 <= i < |pairs| && Mentions(pairs[i], alt) {
        var i :| 0 <= i < |pairs| && Mentions(pairs[i], alt);
        if i < |init| { assert Mentions(init[i], alt); }
      }
    }
  }

  /** The last pair that has an alt on the left decides its main. */
  lemma {:induction false} MappingLastWins(pairs: seq<Option<(string, string)>>, i: nat, alt: string, main: string)
    requires i < |pairs| && pairs[i] == Some((alt, main))
    requires forall j :: i < j < |pairs| ==> !Mentions(pairs[j], alt)
    ensures alt in BuildMapping(pairs) && BuildMapping(pairs)[alt] == main
    decreases |pairs|
  {
    var init := pairs[..|pairs| - 1];
    if i < |init| {
      assert init[i] == pairs[i];
      assert forall j :: i < j < |init| ==> init[j] == pairs[j];
      MappingLastWins(init, i, alt, main);
      assert !Mentions(pairs[|pairs| - 1], alt);
    }
  }

  /** `character_map` cleared, then one insert per line that has a separator. */
  method UpdateMapping(state: AppState, mappingInput: string)
    modifies state`characterMap
    ensures state.characterMap == ParseMapping(mappingInput)
  {
    var lines := Lines(mappingInput);
    ghost var pairs := Pairs(lines);
    var characterMap: map<string, string> := map[];
    var i := 0;
    while i < |lines|
      invariant 0 <= i <= |lines|
      invariant characterMap == BuildMapping(pairs[..i])
    {
      var pair := MappingPair(lines[i]);
      assert pairs[i] == pair;
      BuildMappingStep(pairs, i);
      if pair.Some? {
        characterMap := characterMap[pair.value.0 := pair.value.1];
      }
      i := i + 1;
    }
    assert pairs[..i] == pairs;
    state.characterMap := characterMap;
  }

  /** The comma-separated pieces of an optional form field, an absent field read as empty. */
  function Pieces(field: Option<string>): seq<string> {
    Split(field.GetOr(""), ',')
  }

  /** The ids among some pieces: those that parse as an `i32` once trimmed. */
  function IdsIn(pieces: seq<string>): (r: set<int>)
    ensures forall x :: x in r <==> exists p :: p in pieces && ParseI32(Trim(p)) == Some(x)
    ensures forall x :: x in r ==> I32Min <= x <= I32Max
  {
    set p | p in pieces && ParseI32(Trim(p)).Some? :: ParseI32(Trim(p)).value
  }

  /** `excluded_ids`: the trimmed pieces that parse as an `i32`; the others are dropped. */
  function ExcludedIds(field: Option<string>): set<int> {
    IdsIn(Pieces(field))
  }

  /** `excluded_names`: the trimmed pieces that are not empty. */
  function ExcludedNames(field: Option<string>): (r: set<string>)
    ensures forall x :: x in r <==> x != [] && exists p :: p in Pieces(field) && Trim(p) == x
    ensures forall x :: x in r ==> !IsWhitespace(x[0]) && !IsWhitespace(x[|x| - 1])
  {
    set p | p in Pieces(field) && Trim(p) != [] :: Trim(p)
  }

  /** An absent field excludes nothing. */
  lemma NothingExcludedWhenAbsent()
    ensures ExcludedIds(None) == {} && ExcludedNames(None) == {}
  {
    assert Pieces(None) == [""] by {
      assert FindFirst("", {','}).None?;
    }
    assert Trim("") == "";
  }

  /** The decimal ids of a list of 32-bit ids. */
  function IdStrings(ids: seq<int>): (r: seq<string>)
    ensures |r| == |ids|
  {
    seq(|ids|, i requires 0 <= i < |ids| => IntToString(ids[i]))
  }

  /** A 32-bit id written out has no comma, no white space at its ends, and parses back. */
  lemma IdStringFacts(v: int)
    requires I32Min <= v <= I32Max
    ensures ',' !in IntToString(v) && Trim(IntToString(v)) == IntToString(v)
    ensures ParseI32(IntToString(v)) == Some(v)
  {
    var digits := NatToString(if v < 0 then -v else v);
    assert AllDigits(digits);
    var t := IntToString(v);
    assert t[|t| - 1] == digits[|digits| - 1];
    assert !IsWhitespace(t[0]) && !IsWhitespace(t[|t| - 1]);
    TrimUnchanged(t);
    ParseI32OfIntToString(v);
  }

  /** Pieces that are each an id written out yield exactly those ids. */
  lemma IdsInWritten(strs: seq<string>, ids: seq<int>)
    requires |strs| == |ids|
    requires forall i :: 0 <= i < |strs| ==> Trim(strs[i]) == strs[i] && ParseI32(strs[i]) == Some(ids[i])
    ensures IdsIn(strs) == set i | 0 <= i < |ids| :: ids[i]
  {
    var r := IdsIn(strs);
    forall x | x in r ensures x in set i | 0 <= i < |ids| :: ids[i] {
      var p :| p in strs && ParseI32(Trim(p)) == Some(x);
      var i :| 0 <= i < |strs| && strs[i] == p;
    }
    forall i | 0 <= i < |ids| ensures ids[i] in r {
      assert strs[i] in strs;
    }
  }

  /** Writing 32-bit ids out comma-separated and reading them back gives the same ids. */
  lemma ExcludedIdsRoundTrip(ids: seq<int>)
    requires |ids| >= 1
    requires forall i :: 0 <= i < |ids| ==> I32Min <= ids[i] <= I32Max
    ensures ExcludedIds(Some(Join(IdStrings(ids), ','))) == set i | 0 <= i < |ids| :: ids[i]
  {
    var strs := IdStrings(ids);
    forall i | 0 <= i < |strs|
      ensures ',' !in strs[i] && Trim(strs[i]) == strs[i] && ParseI32(strs[i]) == Some(ids[i])
    {
      IdStringFacts(ids[i]);
    }
    SplitJoin(strs, ',');
    IdsInWritten(strs, ids);
  }
}
