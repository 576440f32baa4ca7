/**
 * The payout steps of `process_data`: the stored kills narrowed to the
 * window and marked active or excluded, the tally of mains and their equal
 * shares of each active kill's dropped value, and the sorted list of
 * beneficiaries.
 */
module Payout {
  import opened Wrappers
  import opened Models
  import opened Ordering
  import opened Collections

  /** Kept by the filter: something dropped, and a time that parses and lies in the window. */
  predicate InWindow(k: Killmail, startCutoff: int, endCutoff: int, parseTime: string -> Option<int>) {
    && k.zkb.droppedValue > 0.0
    && parseTime(k.killmailTime).Some?
    && startCutoff <= parseTime(k.killmailTime).value <= endCutoff
  }

  /** The kill with `is_active` set from the excluded ids. */
  function Marked(k: Killmail, excludedIds: set<int>): Killmail {
    k.(isActive := k.killmailId !in excludedIds)
  }

  /** `final_kills`: the stored kills in the window, in stored order, each marked. */
  function ActiveKills(stored: seq<Killmail>, startCutoff: int, endCutoff: int, excludedIds: set<int>,
                       parseTime: string -> Option<int>): (r: seq<Killmail>)
    ensures |r| <= |stored|
    ensures forall j :: 0 <= j < |r| ==>
      InWindow(r[j], startCutoff, endCutoff, parseTime) && r[j].isActive == (r[j].killmailId !in excludedIds)
    ensures forall k :: k in stored && InWindow(k, startCutoff, endCutoff, parseTime) ==> Marked(k, excludedIds) in r
    ensures forall k :: k in r ==> exists s :: s in stored && k == Marked(s, excludedIds)
    decreases |stored|
  {
    if stored == [] then []
    else
      var init, last := stored[..|stored| - 1], stored[|stored| - 1];
      assert stored == init + [last];
      ActiveKills(init, startCutoff, endCutoff, excludedIds, parseTime)
      + (if InWindow(last, startCutoff, endCutoff, parseTime) then [Marked(last, excludedIds)] else [])
  }

  /** The filter works kill by kill, so it keeps the stored order across any split. */
  lemma {:induction false} ActiveKillsAppend(a: seq<Killmail>, b: seq<Killmail>, startCutoff: int, endCutoff: int,
                                             excludedIds: set<int>, parseTime: string -> Option<int>)
    ensures ActiveKills(a + b, startCutoff, endCutoff, excludedIds, parseTime)
         == ActiveKills(a, startCutoff, endCutoff, excludedIds, parseTime)
          + ActiveKills(b, startCutoff, endCutoff, excludedIds, parseTime)
    decreases |b|
  {
    if b == [] {
      assert a + b == a;
    } else {
      var init := b[..|b| - 1];
      assert (a + b)[..|a + b| - 1] == a + init;
      assert (a + b)[|a + b| - 1] == b[|b| - 1];
      ActiveKillsAppend(a, init, startCutoff, endCutoff, excludedIds, parseTime);
    }
  }

  /** Excluding kills by id only changes their mark: the same kills stay, in the same order. */
  lemma {:induction false} ExclusionOnlyMarks(stored: seq<Killmail>, startCutoff: int, endCutoff: int,
                                              e1: set<int>, e2: set<int>, parseTime: string -> Option<int>)
    ensures |ActiveKills(stored, startCutoff, endCutoff, e1, parseTime)| == |ActiveKills(stored, startCutoff, endCutoff, e2, parseTime)|
    ensures forall j :: 0 <= j < |ActiveKills(stored, startCutoff, endCutoff, e1, parseTime)| ==>
      ActiveKills(stored, startCutoff, endCutoff, e1, parseTime)[j]
      == Marked(ActiveKills(stored, startCutoff, endCutoff, e2, parseTime)[j], e1)
    decreases |stored|
  {
    if stored != [] {
      ExclusionOnlyMarks(stored[..|stored| - 1], startCutoff, endCutoff, e1, e2, parseTime);
    }
  }

  /** `current_map.get(name).unwrap_or(name)`: the main of a pilot, the pilot itself when unmapped. */
  function MainOf(characterMap: map<string, string>, name: string): string {
    if name in characterMap then characterMap[name] else name
  }

  /** The mains behind the named attackers of a kill. */
  function KillMains(attackers: seq<Attacker>, characterMap: map<string, string>): (r: set<string>)
    ensures forall m :: m in r <==> exists i :: 0 <= i < |attackers| && attackers[i].characterName.Some?
                                            && MainOf(characterMap, attackers[i].characterName.value) == m
    decreases |attackers|
  {
    if attackers == [] then {}
    else
      var init, last := attackers[..|attackers| - 1], attackers[|attackers| - 1];
      assert forall i :: 0 <= i < |init| ==> attackers[i] == init[i];
      KillMains(init, characterMap)
      + (if last.characterName.Some? then {MainOf(characterMap, last.characterName.value)} else {})
  }

  /** `kill_participants`: the mains of a kill who are not excluded. */
  function Participants(k: Killmail, characterMap: map<string, string>, excludedNames: set<string>): set<string> {
    KillMains(k.attackers, characterMap) - excludedNames
  }

  /** `all_seen_mains`: every main on an active kill, excluded or not. */
  function SeenMains(kills: seq<Killmail>, characterMap: map<string, string>): (r: set<string>)
    ensures forall m :: m in r ==> exists i :: 0 <= i < |kills| && kills[i].isActive && m in KillMains(kills[i].attackers, characterMap)
    ensures forall i, m :: 0 <= i < |kills| && kills[i].isActive && m in KillMains(kills[i].attackers, characterMap) ==> m in r
    decreases |kills|
  {
    if kills == [] then {}
    else
      var last := kills[|kills| - 1];
      assert forall i :: 0 <= i < |kills| - 1 ==> kills[..|kills| - 1][i] == kills[i];
      SeenMains(kills[..|kills| - 1], characterMap) + (if last.isActive then KillMains(last.attackers, characterMap) else {})
  }

  /** `total_dropped_value`: the dropped value of the active kills. */
  function TotalDropped(kills: seq<Killmail>): real
    decreases |kills|
  {
    if kills == [] then 0.0
    else
      var last := kills[|kills| - 1];
      TotalDropped(kills[..|kills| - 1]) + (if last.isActive then last.zkb.droppedValue else 0.0)
  }

  /** The total is never negative when no kill has a negative value, and is zero when no kill is active. */
  lemma {:induction false} TotalDroppedBounds(kills: seq<Killmail>)
    ensures (forall i :: 0 <= i < |kills| ==> kills[i].zkb.droppedValue >= 0.0) ==> TotalDropped(kills) >= 0.0
    ensures (forall i :: 0 <= i < |kills| ==> !kills[i].isActive) ==> TotalDropped(kills) == 0.0
    decreases |kills|
  {
    if kills != [] {
      assert forall i :: 0 <= i < |kills| - 1 ==> kills[..|kills| - 1][i] == kills[i];
      TotalDroppedBounds(kills[..|kills| - 1]);
    }
  }

  /** Each of `mains` credited `share`, a main without a wallet starting from zero. */
  function Credit(wallets: map<string, real>, mains: set<string>, share: real): map<string, real> {
    map m | m in wallets.Keys + mains :: (if m in wallets then wallets[m] else 0.0) + (if m in mains then share else 0.0)
  }

  /** One active kill's dropped value split equally among its participants; nothing when it has none. */
  function CreditKill(wallets: map<string, real>, k: Killmail, characterMap: map<string, string>,
                      excludedNames: set<string>): map<string, real>
  {
    var ps := Participants(k, characterMap, excludedNames);
    if !k.isActive || ps == {} then wallets
    else Credit(wallets, ps, k.zkb.droppedValue / (|ps| as real))
  }

  /**
   * An active kill with participants gives each of them an equal share of its
   * dropped value, a participant without a wallet starting from zero; every
   * other wallet, and every wallet when the kill is inactive, stays as it was.
   */
  lemma CreditKillMeaning(wallets: map<string, real>, k: Killmail, characterMap: map<string, string>, excludedNames: set<string>)
    ensures var r := CreditKill(wallets, k, characterMap, excludedNames);
      var ps := Participants(k, characterMap, excludedNames);
      && r.Keys == wallets.Keys + (if k.isActive then ps else {})
      && (forall m :: m in wallets && (!k.isActive || m !in ps) ==> r[m] == wallets[m])
      && (k.isActive ==> forall m :: m in ps ==>
            r[m] == (if m in wallets then wallets[m] else 0.0) + k.zkb.droppedValue / (|ps| as real))
  {
  }

  lemma CreditKillKeys(wallets: map<string, real>, k: Killmail, characterMap: map<string, string>, excludedNames: set<string>)
    ensures CreditKill(wallets, k, characterMap, excludedNames).Keys
            == wallets.Keys + (if k.isActive then Participants(k, characterMap, excludedNames) else {})
  {
  }

  /** `main_wallets`: the kills credited in order, starting from no wallets. */
  function Wallets(kills: seq<Killmail>, characterMap: map<string, string>, excludedNames: set<string>): (r: map<string, real>)
    ensures forall m :: m in r ==> m !in excludedNames
    decreases |kills|
  {
    if kills == [] then map[]
    else CreditKill(Wallets(kills[..|kills| - 1], characterMap, excludedNames), kills[|kills| - 1], characterMap, excludedNames)
  }

  /** The mains holding a wallet are exactly the seen mains that are not excluded. */
  lemma {:induction false} WalletHolders(kills: seq<Killmail>, characterMap: map<string, string>, excludedNames: set<string>)
    ensures Wallets(kills, characterMap, excludedNames).Keys == SeenMains(kills, characterMap) - excludedNames
    decreases |kills|
  {
    if kills != [] {
      var init := kills[..|kills| - 1];
      WalletHolders(init, characterMap, excludedNames);
      WalletHoldersStep(kills, characterMap, excludedNames);
    }
  }

  /** One more kill adds to the wallet holders the participants it adds to the seen mains. */
  lemma WalletHoldersStep(kills: seq<Killmail>, characterMap: map<string, string>, excludedNames: set<string>)
    requires kills != []
    requires Wallets(kills[..|kills| - 1], characterMap, excludedNames).Keys
             == SeenMains(kills[..|kills| - 1], characterMap) - excludedNames
    ensures Wallets(kills, characterMap, excludedNames).Keys == SeenMains(kills, characterMap) - excludedNames
  {
    var init, last := kills[..|kills| - 1], kills[|kills| - 1];
    var w := Wallets(init, characterMap, excludedNames);
    CreditKillKeys(w, last, characterMap, excludedNames);
  }


  /** When every active kill dropped something, every wallet holds a positive amount. */
  lemma {:induction false} WalletsPositive(kills: seq<Killmail>, characterMap: map<string, string>, excludedNames: set<string>)
    requires forall i :: 0 <= i < |kills| && kills[i].isActive ==> kills[i].zkb.droppedValue > 0.0
    ensures forall m :: m in Wallets(kills, characterMap, excludedNames) ==> Wallets(kills, characterMap, excludedNames)[m] > 0.0
    decreases |kills|
  {
    if kills != [] {
      var init, last := kills[..|kills| - 1], kills[|kills| - 1];
      assert forall i :: 0 <= i < |init| ==> init[i] == kills[i];
      WalletsPositive(init, characterMap, excludedNames);
      var w := Wallets(init, characterMap, excludedNames);
      assert Wallets(kills, characterMap, excludedNames) == CreditKill(w, last, characterMap, excludedNames);
      var ps := Participants(last, characterMap, excludedNames);
      if last.isActive && ps != {} {
        SharePositive(last.zkb.droppedValue, |ps|);
        CreditPositive(w, ps, last.zkb.droppedValue / (|ps| as real));
      }
    }
  }

  /** A positive value split among some mains gives each a positive share. */
  lemma SharePositive(value: real, n: nat)
    requires value > 0.0 && n > 0
    ensures value / (n as real) > 0.0
  {
    assert value / (n as real) * (n as real) == value;
  }

  /** A positive share keeps every wallet positive. */
  lemma CreditPositive(wallets: map<string, real>, mains: set<string>, share: real)
    requires forall m :: m in wallets ==> wallets[m] > 0.0
    requires share > 0.0
    ensures forall m :: m in Credit(wallets, mains, share) ==> Credit(wallets, mains, share)[m] > 0.0
  {
  }

  /** The tally loop over `final_kills`; it returns `all_seen_mains`, `main_wallets` and `total_dropped_value`. */
  method Tally(kills: seq<Killmail>, characterMap: map<string, string>, excludedNames: set<string>)
    returns (allSeenMains: set<string>, mainWallets: map<string, real>, totalDropped: real)
    ensures allSeenMains == SeenMains(kills, characterMap)
    ensures mainWallets == Wallets(kills, characterMap, excludedNames)
    ensures totalDropped == TotalDropped(kills)
  {
    allSeenMains, mainWallets, totalDropped := {}, map[], 0.0;
    var i := 0;
    while i < |kills|
      invariant 0 <= i <= |kills|
      invariant allSeenMains == SeenMains(kills[..i], characterMap)
      invariant mainWallets == Wallets(kills[..i], characterMap, excludedNames)
      invariant totalDropped == TotalDropped(kills[..i])
    {
      TallyStep(kills, i, characterMap, excludedNames);
      allSeenMains, mainWallets, totalDropped := TallyKill(kills[i], characterMap, excludedNames,
                                                           allSeenMains, mainWallets, totalDropped);
      i := i + 1;
    }
    assert kills[..i] == kills;
  }

  /** The three folds over one more kill. */
  lemma TallyStep(kills: seq<Killmail>, i: nat, characterMap: map<string, string>, excludedNames: set<string>)
    requires i < |kills|
    ensures SeenMains(kills[..i + 1], characterMap)
            == SeenMains(kills[..i], characterMap) + (if kills[i].isActive then KillMains(kills[i].attackers, characterMap) else {})
    ensures Wallets(kills[..i + 1], characterMap, excludedNames)
            == CreditKill(Wallets(kills[..i], characterMap, excludedNames), kills[i], characterMap, excludedNames)
    ensures TotalDropped(kills[..i + 1]) == TotalDropped(kills[..i]) + (if kills[i].isActive then kills[i].zkb.droppedValue else 0.0)
  {
    assert kills[..i + 1][..i] == kills[..i];
  }

  /** `KillMains` over one more attacker. */
  lemma KillMainsStep(attackers: seq<Attacker>, j: nat, characterMap: map<string, string>)
    requires j < |attackers|
    ensures KillMains(attackers[..j + 1], characterMap)
            == KillMains(attackers[..j], characterMap)
               + (if attackers[j].characterName.Some? then {MainOf(characterMap, attackers[j].characterName.value)} else {})
  {
    assert attackers[..j + 1][..j] == attackers[..j];
  }

  /** One pass of the tally loop: an inactive kill is skipped, an active one seen, totalled and paid out. */
  method TallyKill(kill: Killmail, characterMap: map<string, string>, excludedNames: set<string>,
                   seen0: set<string>, wallets0: map<string, real>, total0: real)
    returns (seen: set<string>, wallets: map<string, real>, total: real)
    ensures seen == seen0 + (if kill.isActive then KillMains(kill.attackers, characterMap) else {})
    ensures wallets == CreditKill(wallets0, kill, characterMap, excludedNames)
    ensures total == total0 + (if kill.isActive then kill.zkb.droppedValue else 0.0)
  {
    seen, wallets, total := seen0, wallets0, total0;
    if !kill.isActive {
      return;
    }
    total := total + kill.zkb.droppedValue;
    var participants;
    seen, participants := TallyAttackers(kill.attackers, characterMap, excludedNames, seen);
    if participants == {} {
      return;
    }
    var share := kill.zkb.droppedValue / (|participants| as real);
    wallets := Pay(wallets, participants, share);
  }

  /** The loop over one kill's attackers: each named attacker's main seen, and a participant unless excluded. */
  method TallyAttackers(attackers: seq<Attacker>, characterMap: map<string, string>, excludedNames: set<string>,
                        seen0: set<string>)
    returns (seen: set<string>, participants: set<string>)
    ensures seen == seen0 + KillMains(attackers, characterMap)
    ensures participants == KillMains(attackers, characterMap) - excludedNames
  {
    seen, participants := seen0, {};
    var j := 0;
    while j < |attackers|
      invariant 0 <= j <= |attackers|
      invariant seen == seen0 + KillMains(attackers[..j], characterMap)
      invariant participants == KillMains(attackers[..j], characterMap) - excludedNames
    {
      KillMainsStep(attackers, j, characterMap);
      var name := attackers[j].characterName;
      if name.Some? {
        var main := MainOf(characterMap, name.value);
        seen := seen + {main};
        if main !in excludedNames {
          participants := participants + {main};
        }
      }
      j := j + 1;
    }
    assert attackers[..j] == attackers;
  }

  /** `*wallets.entry(main).or_insert(0.0) += share`. */
  function Bump(wallets: map<string, real>, main: string, share: real): map<string, real> {
    wallets[main := (if main in wallets then wallets[main] else 0.0) + share]
  }

  /** Crediting nobody changes nothing. */
  lemma CreditNone(wallets0: map<string, real>, share: real)
    ensures Credit(wallets0, {}, share) == wallets0
  {
  }

  /** Crediting one more main is one more `Bump`. */
  lemma CreditOneMore(wallets0: map<string, real>, paid: set<string>, main: string, share: real)
    requires main !in paid
    ensures Credit(wallets0, paid + {main}, share) == Bump(Credit(wallets0, paid, share), main, share)
  {
    var w := Credit(wallets0, paid, share);
    var lhs := Credit(wallets0, paid + {main}, share);
    var rhs := Bump(w, main, share);
    assert lhs.Keys == rhs.Keys;
    forall m | m in lhs ensures lhs[m] == rhs[m] {
      if m != main {
        assert m in w;
      }
    }
  }

  /** `*main_wallets.entry(main).or_insert(0.0) += share` for each participant, in hash-set order. */
  method Pay(wallets0: map<string, real>, participants: set<string>, share: real) returns (wallets: map<string, real>)
    ensures wallets == Credit(wallets0, participants, share)
  {
    var mains := SetToSeq(participants);
    wallets := wallets0;
    ghost var paid: set<string> := {};
    CreditNone(wallets0, share);
    var k := 0;
    while k < |mains|
      invariant 0 <= k <= |mains|
      invariant paid == Elements(mains[..k])
      invariant wallets == Credit(wallets0, paid, share)
    {
      var main := mains[k];
      DistinctFresh(mains, k);
      CreditOneMore(wallets0, paid, main, share);
      ElementsPrefix(mains, k);
      paid := paid + {main};
      wallets := Bump(wallets, main, share);
      k := k + 1;
    }
    assert paid == participants by {
      assert mains[..k] == mains;
    }
  }

  /** One row of the beneficiary table (`BeneficiaryDisplay`), the amount before `format_isk`. */
  datatype Beneficiary = Beneficiary(name: string, amount: real, isActive: bool)

  function NameOf(b: Beneficiary): string {
    b.name
  }

  /** The row for a main: its wallet or zero, active unless excluded by name. */
  function Describe(main: string, mainWallets: map<string, real>, excludedNames: set<string>): Beneficiary {
    Beneficiary(main, if main in mainWallets then mainWallets[main] else 0.0, main !in excludedNames)
  }

  /** `beneficiaries.iter().filter(|b| b.is_active).count()`. */
  function CountActive(bs: seq<Beneficiary>): nat
    decreases |bs|
  {
    if bs == [] then 0 else CountActive(bs[..|bs| - 1]) + (if bs[|bs| - 1].isActive then 1 else 0)
  }

  /** The names on the active rows. */
  function ActiveNames(bs: seq<Beneficiary>): set<string> {
    set i | 0 <= i < |bs| && bs[i].isActive :: bs[i].name
  }

  /** The active names of a list are those of all but its last row, and the last row's if active. */
  lemma ActiveNamesStep(bs: seq<Beneficiary>)
    requires bs != []
    ensures ActiveNames(bs) == ActiveNames(bs[..|bs| - 1]) + (if bs[|bs| - 1].isActive then {bs[|bs| - 1].name} else {})
  {
    var init := bs[..|bs| - 1];
    assert forall i :: 0 <= i < |init| ==> init[i] == bs[i];
  }

  /** With no name twice, the active count is the number of active names. */
  lemma {:induction false} CountActiveNames(bs: seq<Beneficiary>)
    requires forall i, j :: 0 <= i < j < |bs| ==> bs[i].name != bs[j].name
    ensures CountActive(bs) == |ActiveNames(bs)|
    decreases |bs|
  {
    if bs != [] {
      var init, last := bs[..|bs| - 1], bs[|bs| - 1];
      assert forall i :: 0 <= i < |init| ==> init[i] == bs[i];
      CountActiveNames(init);
      ActiveNamesStep(bs);
      assert last.name !in ActiveNames(init);
    }
  }

  /** Distinct rows that are each the row of their own name are strictly sorted once sorted. */
  lemma DescribedRowsStrict(bs: seq<Beneficiary>, mainWallets: map<string, real>, excludedNames: set<string>)
    requires SortedBy(bs, NameOf, false) && Distinct(bs)
    requires forall i :: 0 <= i < |bs| ==> bs[i] == Describe(bs[i].name, mainWallets, excludedNames)
    ensures StrictlySortedBy(bs, NameOf, false)
  {
  }

  /** The rows of distinct mains are distinct. */
  lemma DescribedRowsDistinct(mains: seq<string>, rows: seq<Beneficiary>, mainWallets: map<string, real>, excludedNames: set<string>)
    requires Distinct(mains) && |rows| == |mains|
    requires forall j :: 0 <= j < |rows| ==> rows[j] == Describe(mains[j], mainWallets, excludedNames)
    ensures Distinct(rows)
  {
    forall i, j | 0 <= i < j < |rows| ensures rows[i] != rows[j] {
      assert rows[i].name == mains[i] && rows[j].name == mains[j];
    }
  }

  /** The sorted rows of distinct mains: one row per main, each its own, strictly by name. */
  lemma SortedRows(allSeenMains: set<string>, mains: seq<string>, rows: seq<Beneficiary>, bs: seq<Beneficiary>,
                   mainWallets: map<string, real>, excludedNames: set<string>)
    requires forall m :: m in mains <==> m in allSeenMains
    requires Distinct(mains) && |rows| == |mains|
    requires forall j :: 0 <= j < |rows| ==> rows[j] == Describe(mains[j], mainWallets, excludedNames)
    requires SortedBy(bs, NameOf, false) && multiset(bs) == multiset(rows)
    ensures StrictlySortedBy(bs, NameOf, false)
    ensures forall m :: m in allSeenMains <==> exists i :: 0 <= i < |bs| && bs[i].name == m
    ensures forall i :: 0 <= i < |bs| ==> bs[i] == Describe(bs[i].name, mainWallets, excludedNames)
    ensures ActiveNames(bs) == allSeenMains - excludedNames
  {
    DescribedRowsDistinct(mains, rows, mainWallets, excludedNames);
    DistinctPermutation(rows, bs);
    forall i | 0 <= i < |bs|
      ensures bs[i] == Describe(bs[i].name, mainWallets, excludedNames) && bs[i].name in allSeenMains
    {
      assert bs[i] in multiset(rows);
      var j :| 0 <= j < |rows| && rows[j] == bs[i];
      assert mains[j] in mains;
    }
    DescribedRowsStrict(bs, mainWallets, excludedNames);
    forall m | m in allSeenMains ensures exists i :: 0 <= i < |bs| && bs[i].name == m {
      var j :| 0 <= j < |mains| && mains[j] == m;
      assert rows[j] in multiset(bs);
      var i :| 0 <= i < |bs| && bs[i] == rows[j];
    }
  }

  /**
   * Step 6 of `process_data`: one row per seen main, sorted by name, and the
   * number of active rows (`total_humans`).
   */
  method ListBeneficiaries(allSeenMains: set<string>, mainWallets: map<string, real>, excludedNames: set<string>)
    returns (beneficiaries: seq<Beneficiary>, activeHumans: nat)
    ensures StrictlySortedBy(beneficiaries, NameOf, false)
    ensures forall m :: m in allSeenMains <==> exists i :: 0 <= i < |beneficiaries| && beneficiaries[i].name == m
    ensures forall i :: 0 <= i < |beneficiaries| ==>
      beneficiaries[i] == Describe(beneficiaries[i].name, mainWallets, excludedNames)
    ensures activeHumans == |allSeenMains - excludedNames|
  {
    var mains := SetToSeq(allSeenMains);
    var rows := [];
    var k := 0;
    while k < |mains|
      invariant 0 <= k <= |mains|
      invariant |rows| == k
      invariant forall j :: 0 <= j < k ==> rows[j] == Describe(mains[j], mainWallets, excludedNames)
    {
      rows := rows + [Describe(mains[k], mainWallets, excludedNames)];
      k := k + 1;
    }
    beneficiaries := SortBy(rows, NameOf, false);
    SortedRows(allSeenMains, mains, rows, beneficiaries, mainWallets, excludedNames);
    CountActiveNames(beneficiaries);
    activeHumans := CountActive(beneficiaries);
  }
}
