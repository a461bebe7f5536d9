/** The draft pool as the web application runs it: four tables that the
    request handlers update in place. Each method is proved to perform the
    state change that `Tables` and `Handlers` specify. The four handler
    methods and the two store steps they call are also proved to keep the
    invariant `Valid`: the tables well formed, every prediction scored against
    the recorded picks, every standing equal to its entrant's total, and only
    catalog players stored. */
module Pool {
  import opened Wrappers
  import opened Catalog
  import opened PyText
  import opened Helpers
  import opened Tables
  import opened Scoring
  import opened Writes
  import opened Handlers

  class DraftPool {
    /** The players the handlers accept. */
    const catalog: seq<string>
    var entrants: seq<Entrant>
    var predictions: seq<Prediction>
    var actualPicks: map<int, string>
    var standings: map<nat, int>

    function State(): Db
      reads this
    {
      Db(entrants, predictions, actualPicks, standings)
    }

    ghost predicate Valid()
      reads this
    {
      && WellFormed(State()) && Consistent(State())
      && PredictionsListed(predictions, catalog) && PicksListed(actualPicks, catalog)
    }

    /** Empty tables, accepting the players of `PLAYER_NAME_SUGGESTIONS`. */
    constructor ()
      ensures Valid()
      ensures catalog == PlayerNameSuggestions
      ensures State() == Db([], [], map[], map[])
    {
      catalog := PlayerNameSuggestions;
      entrants := [];
      predictions := [];
      actualPicks := map[];
      standings := map[];
    }

    // ---------------------------------------------------------- scoring engine

    /** `recalc_scores_for_pick(n, a)`: award `n` points to every prediction of
        pick `n` that names `a` and 0 to the others at that pick, then upsert
        every entrant's standing with the sum of its points. */
    method RecalcScoresForPick(n: int, a: string)
      modifies this
      ensures State() == RecalcForPick(old(State()), n, a)
    {
      RescoreRows(n, a);
      UpsertStandings();
    }

    /** The first loop of `recalc_scores_for_pick`, over the predictions. */
    method RescoreRows(n: int, a: string)
      modifies this
      ensures predictions == RescorePick(old(predictions), n, a)
      ensures entrants == old(entrants) && actualPicks == old(actualPicks) && standings == old(standings)
    {
      ghost var rescored := RescorePick(predictions, n, a);
      var i := 0;
      while i < |predictions|
        invariant 0 <= i <= |predictions| == |rescored|
        invariant forall j :: 0 <= j < i ==> predictions[j] == rescored[j]
        invariant forall j :: i <= j < |predictions| ==> predictions[j] == old(predictions)[j]
        invariant entrants == old(entrants) && actualPicks == old(actualPicks) && standings == old(standings)
      {
        if predictions[i].pickNumber == n {
          var points := if predictions[i].playerName == a then n else 0;
          predictions := predictions[i := predictions[i].(points := points)];
        }
        i := i + 1;
      }
    }

    /** The second loop of `recalc_scores_for_pick`: every entrant's standing
        is created or overwritten with the sum of its points. */
    method UpsertStandings()
      modifies this
      ensures standings == old(standings) + Totals(entrants, predictions)
      ensures entrants == old(entrants) && predictions == old(predictions) && actualPicks == old(actualPicks)
    {
      var j := 0;
      while j < |entrants|
        invariant 0 <= j <= |entrants|
        invariant entrants == old(entrants) && actualPicks == old(actualPicks) && predictions == old(predictions)
        invariant standings == old(standings) + Totals(entrants[..j], predictions)
      {
        var e := entrants[j].id;
        var totalPoints := Total(predictions, e);
        TotalsStep(old(standings), entrants, j, predictions);
        standings := standings[e := totalPoints];
        j := j + 1;
      }
      assert entrants[..j] == entrants;
    }

    /** `recalc_all_picks()`: `recalc_scores_for_pick` for every recorded pick,
        in whatever order the picks come. */
    method RecalcAllPicks()
      modifies this
      ensures State() == RecalcAll(old(State()))
    {
      RestrictEnds(predictions, actualPicks);
      var rest := actualPicks.Keys;
      ghost var done: set<int> := {};
      while rest != {}
        invariant rest + done == actualPicks.Keys && rest !! done
        invariant entrants == old(entrants) && actualPicks == old(actualPicks)
        invariant predictions == RescoreAll(old(predictions), Restrict(actualPicks, done))
        invariant standings == if done == {} then old(standings)
                               else old(standings) + Totals(entrants, predictions)
        decreases rest
      {
        ghost var _ := NonEmptyHasMember(rest);
        var pickNumber: int :| pickNumber in rest;
        ghost var scoredBefore := predictions;
        RescoreAllStep(old(predictions), actualPicks, done, pickNumber);
        RecalcScoresForPick(pickNumber, actualPicks[pickNumber]);
        StandingsOverwrite(old(standings), entrants, scoredBefore, predictions);
        rest := rest - {pickNumber};
        done := done + {pickNumber};
      }
    }

    // ------------------------------------------------------------------ handlers

    /** `update_pick`: the administrator records the player taken at a pick,
        and that pick is rescored. */
    method UpdatePick(pickNumberText: string, playerNameText: string) returns (outcome: AdminPickOutcome)
      requires Valid()
      modifies this
      ensures Valid()
      ensures outcome == AdminPickVerdict(pickNumberText, playerNameText, catalog)
      ensures outcome.PickRecorded? ==>
                State() == RecordActualPick(old(State()), outcome.pickNumber, outcome.playerName)
      ensures !outcome.PickRecorded? ==> State() == old(State())
    {
      var playerName := Strip(playerNameText);
      if !IsDigits(pickNumberText) {
        return PickNumberNotDigits;
      }
      if |pickNumberText| > IntMaxStrDigits {
        return PickNumberTooLong;
      }
      var pickNum := DigitsValue(pickNumberText);
      if pickNum < 1 || pickNum > MaxPickNumber {
        return PickNumberOutOfRange;
      }
      if playerName == "" {
        return PlayerNameMissing;
      }
      if playerName !in catalog {
        return PlayerNotListed;
      }
      actualPicks := actualPicks[pickNum := playerName];
      RecalcScoresForPick(pickNum, playerName);
      RecordActualPickConsistent(old(State()), pickNum, playerName);
      return PickRecorded(pickNum, playerName);
    }

    /** `submit_picks`: a participant enters a name, a team name and players
        for the picks; the entry is stored under the name and everything is
        rescored. */
    method SubmitPicks(entrantNameText: string, teamNameText: string, form: map<int, string>)
      returns (outcome: EntryOutcome)
      requires Valid()
      modifies this
      ensures Valid()
      ensures outcome == SubmitOutcome(old(State()), catalog, entrantNameText, teamNameText, form)
      ensures outcome.EntrySaved? ==>
                State() == SubmitEntry(old(State()), Strip(entrantNameText), Strip(teamNameText), PickMap(form))
      ensures !outcome.EntrySaved? ==> State() == old(State())
    {
      var pickMap, rejection := CheckSubmission(catalog, entrantNameText, form);
      if rejection.Some? {
        return rejection.value;
      }
      var id := StoreEntry(Strip(entrantNameText), Strip(teamNameText), pickMap);
      return EntrySaved(id);
    }

    /** The writes of `submit_picks` once its checks pass: find or create the
        entrant, save its picks, rescore everything. */
    method StoreEntry(entrantName: string, teamName: string, pickMap: map<int, string>) returns (id: nat)
      requires Valid() && AllInCatalog(pickMap, catalog)
      modifies this
      ensures Valid()
      ensures id == RegisterEntrant(old(entrants), entrantName, teamName).id
      ensures State() == SubmitEntry(old(State()), entrantName, teamName, pickMap)
    {
      id := FindOrCreateEntrant(entrantName, teamName);
      SavePicks(id, pickMap, false);
      RecalcAllPicks();
      SubmitEntryConsistent(old(State()), catalog, entrantName, teamName, pickMap);
    }

    /** `save_team`: the administrator edits the picks of the first entrant
        with a team name; an empty field blanks the stored pick. */
    method SaveTeam(teamName: string, form: map<int, string>) returns (outcome: EntryOutcome)
      requires Valid()
      modifies this
      ensures Valid()
      ensures outcome == SaveOutcome(old(State()), catalog, teamName, form)
      ensures outcome.EntrySaved? ==> State() == SaveEntry(old(State()), outcome.entrantId, PickMap(form))
      ensures !outcome.EntrySaved? ==> State() == old(State())
    {
      var found := FirstIndex(entrants, HasTeam(teamName));
      if found.None? {
        return TeamNotFound;
      }
      var id := entrants[found.value].id;

      var pickMap := ReadPickMap(form);
      var rejection := CheckForm(pickMap, catalog);
      if rejection.Some? {
        return rejection.value;
      }
      assert id in Ids(entrants);
      StoreTeamEdit(id, pickMap);
      return EntrySaved(id);
    }

    /** The writes of `save_team` once its checks pass: save the entrant's
        picks, blanking the empty ones, and rescore everything. */
    method StoreTeamEdit(id: nat, pickMap: map<int, string>)
      requires Valid() && AllInCatalog(pickMap, catalog) && id in Ids(entrants)
      modifies this
      ensures Valid()
      ensures State() == SaveEntry(old(State()), id, pickMap)
    {
      SavePicks(id, pickMap, true);
      RecalcAllPicks();
      SaveEntryConsistent(old(State()), catalog, id, pickMap);
    }

    /** `delete_team`: the administrator removes an entrant, its predictions
        and its standing. */
    method DeleteTeam(teamNameText: string, entrantIdText: string) returns (deleted: Option<nat>)
      requires Valid()
      modifies this
      ensures Valid()
      ensures deleted == DeleteTarget(old(State()), teamNameText, entrantIdText)
      ensures deleted.Some? ==> State() == RemoveEntrant(old(State()), deleted.value)
      ensures deleted.None? ==> State() == old(State())
    {
      if teamNameText == "" || entrantIdText == "" {
        return None;
      }
      if !IsDigits(entrantIdText) {
        return None;
      }
      var found := FirstIndex(entrants, HasId(DigitsValue(entrantIdText)));
      if found.None? {
        return None;
      }
      var id := entrants[found.value].id;
      predictions := WithoutRows(predictions, id);
      standings := standings - {id};
      entrants := WithoutEntrant(entrants, id);
      RemoveEntrantConsistent(old(State()), catalog, id);
      return Some(id);
    }

    // ------------------------------------------------------- shared write steps

    /** Find the entrant by name, or add it with the next row id; a non-empty
        team name replaces the stored one. */
    method FindOrCreateEntrant(name: string, teamName: string) returns (id: nat)
      modifies this
      ensures var reg := RegisterEntrant(old(entrants), name, teamName);
              entrants == reg.entrants && id == reg.id
      ensures predictions == old(predictions) && actualPicks == old(actualPicks) && standings == old(standings)
    {
      var found := FirstIndex(entrants, HasName(name));
      if found.None? {
        id := if entrants == [] then 1 else entrants[|entrants| - 1].id + 1;
        entrants := entrants + [Entrant(id, name, teamName)];
      } else {
        id := entrants[found.value].id;
        if teamName != "" {
          entrants := entrants[found.value := entrants[found.value].(teamName := teamName)];
        }
      }
    }

    /** The save loop over picks 1..MaxPickNumber: a non-empty player updates
        the entrant's prediction or inserts one with 0 points; an empty one is
        skipped, or with `clearEmpty` blanks an existing prediction. */
    method SavePicks(id: nat, pickMap: map<int, string>, clearEmpty: bool)
      modifies this
      ensures predictions == WriteSlots(old(predictions), id, pickMap, 1, clearEmpty)
      ensures entrants == old(entrants) && actualPicks == old(actualPicks) && standings == old(standings)
    {
      for k := 1 to MaxPickNumber + 1
        invariant WriteSlots(predictions, id, pickMap, k, clearEmpty) == WriteSlots(old(predictions), id, pickMap, 1, clearEmpty)
        invariant entrants == old(entrants) && actualPicks == old(actualPicks) && standings == old(standings)
      {
        ghost var before := predictions;
        var player := Slot(pickMap, k);
        var pred := FindPrediction(predictions, id, k);
        if player != "" {
          if pred.None? {
            predictions := predictions + [Prediction(id, k, player, 0)];
          } else {
            predictions := predictions[pred.value := predictions[pred.value].(playerName := player)];
          }
        } else if clearEmpty && pred.Some? {
          predictions := predictions[pred.value := predictions[pred.value].(playerName := "")];
        }
        assert predictions == WriteSlot(before, id, k, player, clearEmpty);
      }
    }
  }
}
