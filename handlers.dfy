/** The request handlers' decisions, as functions of the form fields and the
    tables: which check turns a request away, and what a request that passes
    them all writes. The class `Pool.DraftPool` is proved to decide the same. */
module Handlers {
  import opened Wrappers
  import opened Catalog
  import opened PyText
  import opened Helpers
  import opened Tables
  import opened Writes

  // ----------------------------------------------------------------- update_pick

  /** What `update_pick` does with a request; every outcome but the last ends
      the request without writing anything. `PickNumberTooLong` is the
      `ValueError` that `int()` raises on a digit string over CPython's length
      limit, which the handler does not catch; the others send the
      administrator back. */
  datatype AdminPickOutcome =
    | PickNumberNotDigits
    | PickNumberTooLong
    | PickNumberOutOfRange
    | PlayerNameMissing
    | PlayerNotListed
    | PickRecorded(pickNumber: int, playerName: string)

  /** `update_pick`'s checks, in the order it makes them: the pick number is a
      string of digits that `int()` converts (at most IntMaxStrDigits long),
      its value lies in 1..MaxPickNumber, the stripped player name is
      non-empty and in the catalog. */
  function AdminPickVerdict(pickNumberText: string, playerNameText: string, catalog: seq<string>): (v: AdminPickOutcome)
    ensures v.PickRecorded? <==>
              && IsDigits(pickNumberText) && |pickNumberText| <= IntMaxStrDigits
              && 1 <= DigitsValue(pickNumberText) <= MaxPickNumber
              && Strip(playerNameText) != "" && Strip(playerNameText) in catalog
    ensures v.PickRecorded? ==> 1 <= v.pickNumber <= MaxPickNumber && v.playerName != "" && v.playerName in catalog
    ensures v.PickRecorded? ==>
              IsDigits(pickNumberText) && v == PickRecorded(DigitsValue(pickNumberText), Strip(playerNameText))
    ensures v.PickNumberNotDigits? <==> !IsDigits(pickNumberText)
    ensures v.PickNumberTooLong? <==> IsDigits(pickNumberText) && |pickNumberText| > IntMaxStrDigits
  {
    var playerName := Strip(playerNameText);
    if !IsDigits(pickNumberText) then PickNumberNotDigits
    else if |pickNumberText| > IntMaxStrDigits then PickNumberTooLong
    else
      var pickNum := DigitsValue(pickNumberText);
      if pickNum < 1 || pickNum > MaxPickNumber then PickNumberOutOfRange
      else if playerName == "" then PlayerNameMissing
      else if playerName !in catalog then PlayerNotListed
      else PickRecorded(pickNum, playerName)
  }

  /** A pick number written as `str(n)`, maybe behind leading zeros up to
      `int()`'s length limit, and a player from the catalog, maybe padded with
      whitespace on either side: such a request is recorded as exactly that
      pick and player. */
  lemma AdminPickAcceptsListedPlayer(zeros: string, n: nat, left: string, name: string, right: string,
                                     catalog: seq<string>)
    requires AllZeros(zeros) && |zeros| + |NatToDigits(n)| <= IntMaxStrDigits
    requires 1 <= n <= MaxPickNumber
    requires name in catalog && name != "" && !IsSpace(name[0]) && !IsSpace(name[|name| - 1])
    requires AllSpace(left) && AllSpace(right)
    ensures AdminPickVerdict(zeros + NatToDigits(n), left + name + right, catalog) == PickRecorded(n, name)
  {
    DigitsValueOfNatToDigits(n);
    DigitsValueAfterZeros(zeros, NatToDigits(n));
    StripPadded(left, name, right);
  }

  // ------------------------------------------------- submit_picks and save_team

  /** What an entry handler does with a request; only `EntrySaved` writes. */
  datatype EntryOutcome =
    | DuplicatePicks(picks: set<int>)
    | PlayerNotInCatalog(player: string)
    | EntrantNameMissing
    | TeamNotFound
    | EntrySaved(entrantId: nat)

  /** The form checks both entry handlers make, in order: first every pick
      whose player is entered twice is flagged, then the first pick whose
      player is not in the catalog is named. */
  function FormRejection(pickMap: map<int, string>, catalog: seq<string>): (v: Option<EntryOutcome>)
    ensures v.None? <==> NamesDistinct(pickMap) && AllInCatalog(pickMap, catalog)
    ensures v.Some? && v.value.DuplicatePicks? <==> !NamesDistinct(pickMap)
    ensures v.Some? && v.value.DuplicatePicks? ==>
              v.value.picks != {} && forall k :: k in v.value.picks <==>
                k in pickMap && exists k' :: k' in pickMap && k' != k && pickMap[k'] == pickMap[k] != ""
    ensures v.Some? && v.value.PlayerNotInCatalog? ==>
              && NamesDistinct(pickMap)
              && v.value.player != "" && v.value.player !in catalog
              && exists k :: FirstUnlisted(pickMap, catalog, 1) == Some(k) && v.value.player == Slot(pickMap, k)
    ensures v.Some? ==> v.value.DuplicatePicks? || v.value.PlayerNotInCatalog?
  {
    NoDuplicatesIffDistinct(pickMap);
    var duplicates := DuplicatePickNumbers(pickMap);
    if duplicates != {} then Some(DuplicatePicks(duplicates))
    else match FirstUnlisted(pickMap, catalog, 1)
      case Some(k) => Some(PlayerNotInCatalog(Slot(pickMap, k)))
      case None => None
  }

  /** The form checks as the entry handlers run them: the duplicate scan,
      then the catalog loop. */
  method CheckForm(pickMap: map<int, string>, catalog: seq<string>) returns (rejection: Option<EntryOutcome>)
    ensures rejection == FormRejection(pickMap, catalog)
  {
    var duplicates := FindDuplicatePickNumbers(pickMap);
    if duplicates != {} {
      return Some(DuplicatePicks(duplicates));
    }
    var bad := FindNameNotInCatalog(pickMap, catalog);
    if bad.Some? {
      return Some(PlayerNotInCatalog(pickMap[bad.value]));
    }
    return None;
  }

  /** `submit_picks`' checks, in order: the form checks, then a non-empty
      entrant name. */
  function SubmitRejection(catalog: seq<string>, entrantNameText: string, form: map<int, string>): (v: Option<EntryOutcome>)
    ensures v.None? <==>
              && NamesDistinct(PickMap(form)) && AllInCatalog(PickMap(form), catalog)
              && Strip(entrantNameText) != ""
    ensures FormRejection(PickMap(form), catalog).Some? ==> v == FormRejection(PickMap(form), catalog)
    ensures v == Some(EntrantNameMissing) <==>
              FormRejection(PickMap(form), catalog).None? && Strip(entrantNameText) == ""
    ensures v.Some? ==> !v.value.TeamNotFound? && !v.value.EntrySaved?
  {
    match FormRejection(PickMap(form), catalog)
    case Some(rejection) => Some(rejection)
    case None => if Strip(entrantNameText) == "" then Some(EntrantNameMissing) else None
  }

  /** The checks as `submit_picks` runs them, on the form it reads. */
  method CheckSubmission(catalog: seq<string>, entrantNameText: string, form: map<int, string>)
    returns (pickMap: map<int, string>, rejection: Option<EntryOutcome>)
    ensures pickMap == PickMap(form)
    ensures rejection == SubmitRejection(catalog, entrantNameText, form)
  {
    pickMap := ReadPickMap(form);
    rejection := CheckForm(pickMap, catalog);
    if rejection.None? && Strip(entrantNameText) == "" {
      rejection := Some(EntrantNameMissing);
    }
  }

  /** `submit_picks`' answer: a rejection, or the id of the entrant found or
      created under the name. */
  function SubmitOutcome(db: Db, catalog: seq<string>, entrantNameText: string, teamNameText: string,
                         form: map<int, string>): (v: EntryOutcome)
    ensures v.EntrySaved? <==>
              && NamesDistinct(PickMap(form)) && AllInCatalog(PickMap(form), catalog)
              && Strip(entrantNameText) != ""
    ensures !v.TeamNotFound?
    ensures !v.EntrySaved? ==> Some(v) == SubmitRejection(catalog, entrantNameText, form)
  {
    match SubmitRejection(catalog, entrantNameText, form)
    case Some(rejection) => rejection
    case None => EntrySaved(RegisterEntrant(db.entrants, Strip(entrantNameText), Strip(teamNameText)).id)
  }

  /** An accepted submission answers with the id that the entrant name is
      registered under afterwards, and that entrant keeps a non-empty team
      name given with it. */
  lemma SubmitSavedUnderName(db: Db, catalog: seq<string>, entrantNameText: string, teamNameText: string,
                             form: map<int, string>)
    requires WellFormed(db)
    requires SubmitOutcome(db, catalog, entrantNameText, teamNameText, form).EntrySaved?
    ensures var id := SubmitOutcome(db, catalog, entrantNameText, teamNameText, form).entrantId;
            var after := SubmitEntry(db, Strip(entrantNameText), Strip(teamNameText), PickMap(form));
      && id in Ids(after.entrants)
      && (forall x :: x in after.entrants && x.name == Strip(entrantNameText) ==> x.id == id)
      && (exists x :: x in after.entrants && x.name == Strip(entrantNameText) && x.id == id
                      && (Strip(teamNameText) != "" ==> x.teamName == Strip(teamNameText)))
  {
    RegisterEntrantFinds(db.entrants, Strip(entrantNameText), Strip(teamNameText));
  }

  /** Because an empty slot leaves the stored pick alone, a second submission
      under the same name can leave one player at two picks. The entrant
      `name` holds `player` at pick 1; the second form names only `player`,
      at pick 2, the player is in the catalog, and the request is accepted,
      yet afterwards that player sits at picks 1 and 2. */
  lemma ResubmissionCanRepeatPlayer(catalog: seq<string>, name: string, player: string)
    requires name != "" && !IsSpace(name[0]) && !IsSpace(name[|name| - 1])
    requires player in catalog && player != "" && !IsSpace(player[0]) && !IsSpace(player[|player| - 1])
    ensures var db := Db([Entrant(1, name, "")], [Prediction(1, 1, player, 0)], map[], map[]);
            var form := map[2 := player];
            var after := SubmitEntry(db, name, "", PickMap(form));
      && SubmitOutcome(db, catalog, name, "", form) == EntrySaved(1)
      && PlayerAt(after.predictions, 1, 1) == Some(player)
      && PlayerAt(after.predictions, 1, 2) == Some(player)
  {
    var db := Db([Entrant(1, name, "")], [Prediction(1, 1, player, 0)], map[], map[]);
    var pickMap := PickMap(map[2 := player]);
    var after := SubmitEntry(db, name, "", pickMap);
    OnePlayerForm(catalog, player);
    assert Strip(name) == name by {
      StripPadded("", name, "");
      assert "" + name + "" == name;
    }
    assert Strip("") == "" by {
      StripPadded("", "", "");
    }
    assert RegisterEntrant(db.entrants, name, "").id == 1 by {
      assert HasName(name)(db.entrants[0]);
    }
    assert PlayerAt(after.predictions, 1, 1) == Some(player) by {
      SubmitEntryStoresPicks(db, name, "", pickMap, 1, 1);
      assert AtSlot(1, 1)(db.predictions[0]);
    }
    assert PlayerAt(after.predictions, 1, 2) == Some(player) by {
      SubmitEntryStoresPicks(db, name, "", pickMap, 1, 2);
      assert !AtSlot(1, 2)(db.predictions[0]);
    }
  }

  /** A form that names one listed, already trimmed player at pick 2 and
      leaves every other field out reads as that player at pick 2 and ""
      elsewhere, and passes both form checks. */
  lemma OnePlayerForm(catalog: seq<string>, player: string)
    requires player in catalog && player != "" && !IsSpace(player[0]) && !IsSpace(player[|player| - 1])
    ensures Slot(PickMap(map[2 := player]), 2) == player
    ensures forall k :: k != 2 ==> Slot(PickMap(map[2 := player]), k) == ""
    ensures NamesDistinct(PickMap(map[2 := player])) && AllInCatalog(PickMap(map[2 := player]), catalog)
  {
    var form := map[2 := player];
    var pickMap := PickMap(form);
    assert Slot(pickMap, 2) == player by {
      StripPadded("", player, "");
      assert "" + player + "" == player;
      assert Slot(form, 2) == player;
    }
    assert forall k :: k != 2 ==> Slot(pickMap, k) == "" by {
      forall k | k != 2 ensures Slot(pickMap, k) == "" {
        assert k !in form;
      }
    }
    OneNameMap(pickMap, catalog, player);
  }

  /** A pick map whose only non-empty entry is a listed player at pick 2
      passes both form checks. */
  lemma OneNameMap(pickMap: map<int, string>, catalog: seq<string>, player: string)
    requires player in catalog && Slot(pickMap, 2) == player
    requires forall k :: k != 2 ==> Slot(pickMap, k) == ""
    ensures NamesDistinct(pickMap) && AllInCatalog(pickMap, catalog)
  {
    forall k, k' | k in pickMap && k' in pickMap && k != k' && pickMap[k] != ""
      ensures pickMap[k] != pickMap[k']
    {
      assert Slot(pickMap, k) != "";
      assert Slot(pickMap, k') == "";
    }
  }

  /** `save_team`'s answer: the first entrant with the team name, then the
      form checks. */
  function SaveOutcome(db: Db, catalog: seq<string>, teamName: string, form: map<int, string>): (v: EntryOutcome)
    ensures v.TeamNotFound? <==> forall x :: x in db.entrants ==> x.teamName != teamName
    ensures v.EntrySaved? <==>
              && (exists x :: x in db.entrants && x.teamName == teamName)
              && NamesDistinct(PickMap(form)) && AllInCatalog(PickMap(form), catalog)
    ensures v.EntrySaved? ==> exists i :: 0 <= i < |db.entrants| && db.entrants[i].id == v.entrantId
                                && db.entrants[i].teamName == teamName
                                && forall j :: 0 <= j < i ==> db.entrants[j].teamName != teamName
    ensures (exists x :: x in db.entrants && x.teamName == teamName) && !v.EntrySaved? ==>
              Some(v) == FormRejection(PickMap(form), catalog)
    ensures !v.EntrantNameMissing?
  {
    match FirstIndex(db.entrants, HasTeam(teamName))
    case None => TeamNotFound
    case Some(i) =>
      match FormRejection(PickMap(form), catalog)
      case Some(rejection) => rejection
      case None => EntrySaved(db.entrants[i].id)
  }

  // ------------------------------------------------------------------ delete_team

  /** The entrant `delete_team` removes: both fields must be non-empty, and the
      id field must name an existing entrant. The team name is not compared. */
  function DeleteTarget(db: Db, teamNameText: string, entrantIdText: string): (r: Option<nat>)
    ensures r.Some? <==> teamNameText != "" && IsDigits(entrantIdText) && DigitsValue(entrantIdText) in Ids(db.entrants)
    ensures r.Some? ==> IsDigits(entrantIdText) && r.value == DigitsValue(entrantIdText) && r.value in Ids(db.entrants)
  {
    if teamNameText == "" || entrantIdText == "" || !IsDigits(entrantIdText) then None
    else
      var id := DigitsValue(entrantIdText);
      match FirstIndex(db.entrants, HasId(id))
      case None => None
      case Some(i) => Some(db.entrants[i].id)
  }

  /** The administrator's delete button sends the entrant's id as `str(id)`:
      such a request removes exactly that entrant, whatever team name it
      carries. */
  lemma DeleteTargetOfListedEntrant(db: Db, x: Entrant, teamNameText: string)
    requires x in db.entrants && teamNameText != ""
    ensures DeleteTarget(db, teamNameText, NatToDigits(x.id)) == Some(x.id)
  {
    DigitsValueOfNatToDigits(x.id);
    assert x.id in Ids(db.entrants);
  }
}
