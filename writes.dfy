/** What the write handlers do to the tables: the save loop of `submit_picks`
    and `save_team`, the find-or-create of an entrant, and the cascade of
    `delete_team`. Each keeps the shape of the tables (`Tables.WellFormed`)
    and, followed by the rescoring the handler runs, the scoring invariant
    (`Tables.Consistent`). */
module Writes {
  import opened Wrappers
  import opened Catalog
  import opened Helpers
  import opened Tables
  import Scoring

  /** Every stored prediction names a player of the catalog or is blank. */
  ghost predicate PredictionsListed(ps: seq<Prediction>, catalog: seq<string>) {
    forall p :: p in ps ==> p.playerName == "" || p.playerName in catalog
  }

  /** Every recorded pick names a (non-empty) player of the catalog. */
  ghost predicate PicksListed(actual: map<int, string>, catalog: seq<string>) {
    forall n :: n in actual ==> actual[n] != "" && actual[n] in catalog
  }

  // ------------------------------------------------------------ the save loop

  /** One slot of the save loop keeps one row per (entrant, pick), every row
      in range, unrecorded picks at 0 points, and only listed players. */
  lemma WriteSlotKeepsShape(ps: seq<Prediction>, ids: set<nat>, actual: map<int, string>, catalog: seq<string>,
                            e: nat, k: int, name: string, clearEmpty: bool)
    requires RowsInRange(ps, ids) && OneRowPerSlot(ps)
    requires e in ids && 1 <= k <= MaxPickNumber
    ensures RowsInRange(WriteSlot(ps, e, k, name, clearEmpty), ids)
    ensures OneRowPerSlot(WriteSlot(ps, e, k, name, clearEmpty))
    ensures PendingZero(ps, actual) ==> PendingZero(WriteSlot(ps, e, k, name, clearEmpty), actual)
    ensures PredictionsListed(ps, catalog) && (name == "" || name in catalog) ==>
              PredictionsListed(WriteSlot(ps, e, k, name, clearEmpty), catalog)
  {
    var r := WriteSlot(ps, e, k, name, clearEmpty);
    if name != "" || clearEmpty {
      match FindPrediction(ps, e, k)
      case None =>
        if name != "" {
          assert r == ps + [Prediction(e, k, name, 0)];
          forall i, j | 0 <= i < j < |r|
            ensures r[i].entrantId != r[j].entrantId || r[i].pickNumber != r[j].pickNumber
          {
            if j == |ps| {
              assert !AtSlot(e, k)(ps[i]);
            }
          }
        }
      case Some(j) =>
        var newName := if name != "" then name else "";
        assert r == ps[j := ps[j].(playerName := newName)];
        forall p | p in r
          ensures p.entrantId in ids && 1 <= p.pickNumber <= MaxPickNumber
          ensures p.pickNumber !in actual && PendingZero(ps, actual) ==> p.points == 0
          ensures PredictionsListed(ps, catalog) && (name == "" || name in catalog) ==>
                    p.playerName == "" || p.playerName in catalog
        {
          var i :| 0 <= i < |r| && r[i] == p;
          assert ps[i] in ps;
        }
    }
  }

  /** The save loop from pick `k` on keeps the same facts as one slot does. */
  lemma {:induction false} WriteSlotsKeepShape(ps: seq<Prediction>, ids: set<nat>, actual: map<int, string>,
                                               catalog: seq<string>, e: nat, pickMap: map<int, string>,
                                               k: int, clearEmpty: bool)
    requires RowsInRange(ps, ids) && OneRowPerSlot(ps)
    requires e in ids && 1 <= k
    ensures RowsInRange(WriteSlots(ps, e, pickMap, k, clearEmpty), ids)
    ensures OneRowPerSlot(WriteSlots(ps, e, pickMap, k, clearEmpty))
    ensures PendingZero(ps, actual) ==> PendingZero(WriteSlots(ps, e, pickMap, k, clearEmpty), actual)
    ensures PredictionsListed(ps, catalog) && AllInCatalog(pickMap, catalog) ==>
              PredictionsListed(WriteSlots(ps, e, pickMap, k, clearEmpty), catalog)
    decreases MaxPickNumber + 1 - k
  {
    if k <= MaxPickNumber {
      var name := Slot(pickMap, k);
      WriteSlotKeepsShape(ps, ids, actual, catalog, e, k, name, clearEmpty);
      WriteSlotsKeepShape(WriteSlot(ps, e, k, name, clearEmpty), ids, actual, catalog, e, pickMap, k + 1, clearEmpty);
    }
  }

  /** One slot of the save loop changes the stored player of that slot, as
      `PlayerAfterWrite` says, and of no other. */
  lemma WriteSlotPlayerAt(ps: seq<Prediction>, e: nat, k: int, name: string, clearEmpty: bool, e2: nat, k2: int)
    ensures PlayerAt(WriteSlot(ps, e, k, name, clearEmpty), e2, k2) ==
      if e2 == e && k2 == k then PlayerAfterWrite(PlayerAt(ps, e, k), name, clearEmpty)
      else PlayerAt(ps, e2, k2)
  {
    var m := AtSlot(e2, k2);
    if name != "" || clearEmpty {
      match FindPrediction(ps, e, k)
      case None =>
        if name != "" {
          var row := Prediction(e, k, name, 0);
          FirstIndexAfterAppend(ps, row, m);
          var after := FindPrediction(ps + [row], e2, k2);
          if after.Some? {
            assert (ps + [row])[after.value] == if after.value < |ps| then ps[after.value] else row;
          }
        }
      case Some(j) =>
        var newName := if name != "" then name else "";
        FirstIndexAfterUpdate(ps, j, ps[j].(playerName := newName), m);
    }
  }

  /** The save loop from pick `k` on: the stored player of each of the
      entrant's slots `k`..MaxPickNumber is what `PlayerAfterWrite` makes of
      the form's entry; every other slot, and every other entrant, keeps its
      player. */
  lemma {:induction false} WriteSlotsPlayerAt(ps: seq<Prediction>, e: nat, pickMap: map<int, string>, k: int,
                                              clearEmpty: bool, e2: nat, k2: int)
    ensures PlayerAt(WriteSlots(ps, e, pickMap, k, clearEmpty), e2, k2) ==
      if e2 == e && k <= k2 <= MaxPickNumber
      then PlayerAfterWrite(PlayerAt(ps, e, k2), Slot(pickMap, k2), clearEmpty)
      else PlayerAt(ps, e2, k2)
    decreases MaxPickNumber + 1 - k
  {
    if k <= MaxPickNumber {
      var ps1 := WriteSlot(ps, e, k, Slot(pickMap, k), clearEmpty);
      WriteSlotsPlayerAt(ps1, e, pickMap, k + 1, clearEmpty, e2, k2);
      WriteSlotPlayerAt(ps, e, k, Slot(pickMap, k), clearEmpty, e2, k2);
    }
  }

  /** Rescoring changes points only, so every slot keeps its player. */
  lemma PlayerAtAfterRescore(ps: seq<Prediction>, qs: seq<Prediction>, e: nat, k: int)
    requires |qs| == |ps|
    requires forall i :: 0 <= i < |ps| ==> qs[i] == ps[i].(points := qs[i].points)
    ensures PlayerAt(qs, e, k) == PlayerAt(ps, e, k)
  {
    var m := AtSlot(e, k);
    var a := FirstIndex(ps, m);
    var b := FirstIndex(qs, m);
    assert forall i :: 0 <= i < |ps| ==> m(qs[i]) == m(ps[i]);
    if a.Some? && b.Some? {
      assert !(a.value < b.value) && !(b.value < a.value);
    }
  }

  // ------------------------------------------------------ find-or-create entrant

  /** Registering keeps ids increasing and names unique, and adds at most the
      new id. */
  lemma RegisterEntrantKeepsShape(es: seq<Entrant>, name: string, teamName: string)
    requires EntrantsOrdered(es) && NamesUnique(es)
    ensures EntrantsOrdered(RegisterEntrant(es, name, teamName).entrants)
    ensures NamesUnique(RegisterEntrant(es, name, teamName).entrants)
    ensures Ids(RegisterEntrant(es, name, teamName).entrants) == Ids(es) + {RegisterEntrant(es, name, teamName).id}
  {
    match FirstIndex(es, HasName(name))
    case None => RegisterNewKeepsShape(es, name, teamName);
    case Some(i) => RegisterExistingKeepsShape(es, name, teamName, i);
  }

  lemma RegisterNewKeepsShape(es: seq<Entrant>, name: string, teamName: string)
    requires EntrantsOrdered(es) && NamesUnique(es)
    requires FirstIndex(es, HasName(name)).None?
    ensures EntrantsOrdered(RegisterEntrant(es, name, teamName).entrants)
    ensures NamesUnique(RegisterEntrant(es, name, teamName).entrants)
    ensures Ids(RegisterEntrant(es, name, teamName).entrants) == Ids(es) + {RegisterEntrant(es, name, teamName).id}
  {
    var reg := RegisterEntrant(es, name, teamName);
    var x := Entrant(NextEntrantId(es), name, teamName);
    assert reg.entrants == es + [x];
    forall y | y in es ensures y.id < x.id && y.name != x.name {
      var i :| 0 <= i < |es| && es[i] == y;
      assert !HasName(name)(es[i]);
    }
    AppendEntrant(es, x);
  }

  /** An entrant behind an ordered, uniquely named table, with a larger id
      and a name of its own, keeps it ordered and uniquely named, and adds
      just its id. */
  lemma AppendEntrant(es: seq<Entrant>, x: Entrant)
    requires EntrantsOrdered(es) && NamesUnique(es)
    requires forall y :: y in es ==> y.id < x.id && y.name != x.name
    ensures EntrantsOrdered(es + [x]) && NamesUnique(es + [x])
    ensures Ids(es + [x]) == Ids(es) + {x.id}
  {
    var r := es + [x];
    forall i, j | 0 <= i < j < |r| ensures r[i].id < r[j].id && r[i].name != r[j].name {
      assert r[i] == es[i];
      if j == |es| {
        assert es[i] in es;
      } else {
        assert r[j] == es[j];
      }
    }
    forall y | y in Ids(r) ensures y in Ids(es) + {x.id} {
      var z :| z in r && z.id == y;
    }
  }

  lemma RegisterExistingKeepsShape(es: seq<Entrant>, name: string, teamName: string, i: nat)
    requires EntrantsOrdered(es) && NamesUnique(es)
    requires FirstIndex(es, HasName(name)) == Some(i)
    ensures EntrantsOrdered(RegisterEntrant(es, name, teamName).entrants)
    ensures NamesUnique(RegisterEntrant(es, name, teamName).entrants)
    ensures Ids(RegisterEntrant(es, name, teamName).entrants) == Ids(es) + {RegisterEntrant(es, name, teamName).id}
  {
    var reg := RegisterEntrant(es, name, teamName);
    if teamName != "" {
      assert reg.entrants == es[i := es[i].(teamName := teamName)];
      assert Ids(reg.entrants) == Ids(es) by {
        forall y | y in Ids(es) ensures y in Ids(reg.entrants) {
          var j :| 0 <= j < |es| && es[j].id == y;
          assert reg.entrants[j].id == y;
        }
        forall y | y in Ids(reg.entrants) ensures y in Ids(es) {
          var j :| 0 <= j < |reg.entrants| && reg.entrants[j].id == y;
          assert es[j].id == y;
        }
      }
    }
    assert es[i].id in Ids(es);
  }

  /** After registering, exactly one entrant carries the name, with the
      returned id; a non-empty team name is stored on it, an empty one leaves
      an existing entrant's team name as it was; a name not seen before gets a
      fresh id; every other entrant is kept as it was. */
  lemma RegisterEntrantFinds(es: seq<Entrant>, name: string, teamName: string)
    requires EntrantsOrdered(es) && NamesUnique(es)
    ensures var reg := RegisterEntrant(es, name, teamName);
      && (forall x :: x in reg.entrants && x.name == name ==> x.id == reg.id)
      && (exists x :: x in reg.entrants && x.name == name && x.id == reg.id
                      && (teamName != "" ==> x.teamName == teamName))
      && ((forall x :: x in es ==> x.name != name) ==> reg.id !in Ids(es))
      && (forall x :: x in es && x.name != name ==> x in reg.entrants)
      && (forall i :: 0 <= i < |es| && es[i].name == name ==>
            && reg.id == es[i].id && |reg.entrants| == |es|
            && reg.entrants[i] == es[i].(teamName := if teamName != "" then teamName else es[i].teamName))
  {
    var reg := RegisterEntrant(es, name, teamName);
    RegisterEntrantKeepsShape(es, name, teamName);
    match FirstIndex(es, HasName(name))
    case None =>
      var x := Entrant(NextEntrantId(es), name, teamName);
      assert reg.entrants == es + [x];
      assert reg.entrants[|es|] == x;
      forall y | y in reg.entrants && y.name == name ensures y.id == reg.id {
        var j :| 0 <= j < |reg.entrants| && reg.entrants[j] == y;
      }
    case Some(i) =>
      var x := reg.entrants[i];
      assert x.name == name && x.id == reg.id;
      forall y | y in reg.entrants && y.name == name ensures y.id == reg.id {
        var j :| 0 <= j < |reg.entrants| && reg.entrants[j] == y;
        assert reg.entrants[j].name == es[j].name;
      }
      forall y | y in es && y.name != name ensures y in reg.entrants {
        var j :| 0 <= j < |es| && es[j] == y;
        assert reg.entrants[j] == y;
      }
  }

  // --------------------------------------------------------------- removal

  /** An entrant ahead of an ordered, uniquely named table, with a smaller id
      and a name of its own, keeps it ordered and uniquely named. */
  lemma PrependEntrant(x: Entrant, rest: seq<Entrant>)
    requires EntrantsOrdered(rest) && NamesUnique(rest)
    requires forall y :: y in rest ==> x.id < y.id && x.name != y.name
    ensures EntrantsOrdered([x] + rest) && NamesUnique([x] + rest)
  {
    var r := [x] + rest;
    forall i, j | 0 <= i < j < |r| ensures r[i].id < r[j].id && r[i].name != r[j].name {
      assert r[j] == rest[j - 1];
      if i > 0 {
        assert r[i] == rest[i - 1];
      }
    }
  }

  /** Dropping an entrant keeps the table ordered and uniquely named. */
  lemma {:induction false} WithoutEntrantKeepsShape(es: seq<Entrant>, id: nat)
    requires EntrantsOrdered(es) && NamesUnique(es)
    ensures EntrantsOrdered(WithoutEntrant(es, id)) && NamesUnique(WithoutEntrant(es, id))
    decreases |es|
  {
    if es != [] {
      var tail := es[1..];
      assert EntrantsOrdered(tail) && NamesUnique(tail) by {
        forall i, j | 0 <= i < j < |tail| ensures tail[i].id < tail[j].id && tail[i].name != tail[j].name {
          assert tail[i] == es[i + 1] && tail[j] == es[j + 1];
        }
      }
      WithoutEntrantKeepsShape(tail, id);
      if es[0].id != id {
        var rest := WithoutEntrant(tail, id);
        forall y | y in rest ensures es[0].id < y.id && es[0].name != y.name {
          var k :| 0 <= k < |tail| && tail[k] == y;
          assert es[k + 1] == y;
        }
        PrependEntrant(es[0], rest);
      }
    }
  }

  lemma IdsWithoutEntrant(es: seq<Entrant>, id: nat)
    ensures Ids(WithoutEntrant(es, id)) == Ids(es) - {id}
  {
    var r := WithoutEntrant(es, id);
    forall y | y in Ids(es) - {id} ensures y in Ids(r) {
      var x :| x in es && x.id == y;
      assert x in r;
    }
  }

  /** A row ahead of rows for other slots keeps one row per slot. */
  lemma PrependRow(p: Prediction, rest: seq<Prediction>)
    requires OneRowPerSlot(rest)
    requires forall q :: q in rest ==> p.entrantId != q.entrantId || p.pickNumber != q.pickNumber
    ensures OneRowPerSlot([p] + rest)
  {
    var r := [p] + rest;
    forall i, j | 0 <= i < j < |r|
      ensures r[i].entrantId != r[j].entrantId || r[i].pickNumber != r[j].pickNumber
    {
      assert r[j] == rest[j - 1];
      if i > 0 {
        assert r[i] == rest[i - 1];
      }
    }
  }

  /** Dropping an entrant's rows keeps one row per slot. */
  lemma {:induction false} WithoutRowsKeepsSlots(ps: seq<Prediction>, id: nat)
    requires OneRowPerSlot(ps)
    ensures OneRowPerSlot(WithoutRows(ps, id))
    decreases |ps|
  {
    if ps != [] {
      var tail := ps[1..];
      assert OneRowPerSlot(tail) by {
        forall i, j | 0 <= i < j < |tail|
          ensures tail[i].entrantId != tail[j].entrantId || tail[i].pickNumber != tail[j].pickNumber
        {
          assert tail[i] == ps[i + 1] && tail[j] == ps[j + 1];
        }
      }
      WithoutRowsKeepsSlots(tail, id);
      if ps[0].entrantId != id {
        var rest := WithoutRows(tail, id);
        forall q | q in rest ensures ps[0].entrantId != q.entrantId || ps[0].pickNumber != q.pickNumber {
          var k :| 0 <= k < |tail| && tail[k] == q;
          assert ps[k + 1] == q;
        }
        PrependRow(ps[0], rest);
      }
    }
  }

  /** Dropping one entrant's rows leaves every other entrant's total as it was. */
  lemma {:induction false} TotalWithoutRows(ps: seq<Prediction>, id: nat, e: nat)
    requires e != id
    ensures Total(WithoutRows(ps, id), e) == Total(ps, e)
    decreases |ps|
  {
    if ps != [] {
      TotalWithoutRows(ps[1..], id, e);
      if ps[0].entrantId != id {
        var rest := WithoutRows(ps[1..], id);
        assert ([ps[0]] + rest)[1..] == rest;
      }
    }
  }

  // ------------------------------------------------ the handlers' transitions

  /** `submit_picks` keeps the tables well formed, scored and listed, once its
      checks pass. */
  lemma SubmitEntryConsistent(db: Db, catalog: seq<string>, name: string, teamName: string,
                              pickMap: map<int, string>)
    requires WellFormed(db) && Consistent(db)
    requires PredictionsListed(db.predictions, catalog) && PicksListed(db.actualPicks, catalog)
    requires AllInCatalog(pickMap, catalog)
    ensures WellFormed(SubmitEntry(db, name, teamName, pickMap))
    ensures Consistent(SubmitEntry(db, name, teamName, pickMap))
    ensures PredictionsListed(SubmitEntry(db, name, teamName, pickMap).predictions, catalog)
    ensures PicksListed(SubmitEntry(db, name, teamName, pickMap).actualPicks, catalog)
  {
    var reg := RegisterEntrant(db.entrants, name, teamName);
    RegisterEntrantKeepsShape(db.entrants, name, teamName);
    var ids := Ids(reg.entrants);
    assert RowsInRange(db.predictions, ids);
    var ps := WriteSlots(db.predictions, reg.id, pickMap, 1, false);
    WriteSlotsKeepShape(db.predictions, ids, db.actualPicks, catalog, reg.id, pickMap, 1, false);
    var written := db.(entrants := reg.entrants, predictions := ps);
    RecalcAllAfterWrite(db, written);
    RescoreKeepsListed(ps, db.actualPicks, catalog);
  }

  /** `save_team` keeps the tables well formed, scored and listed, once its
      checks pass. */
  lemma SaveEntryConsistent(db: Db, catalog: seq<string>, id: nat, pickMap: map<int, string>)
    requires WellFormed(db) && Consistent(db)
    requires PredictionsListed(db.predictions, catalog) && PicksListed(db.actualPicks, catalog)
    requires AllInCatalog(pickMap, catalog)
    requires id in Ids(db.entrants)
    ensures WellFormed(SaveEntry(db, id, pickMap))
    ensures Consistent(SaveEntry(db, id, pickMap))
    ensures PredictionsListed(SaveEntry(db, id, pickMap).predictions, catalog)
    ensures PicksListed(SaveEntry(db, id, pickMap).actualPicks, catalog)
  {
    var ps := WriteSlots(db.predictions, id, pickMap, 1, true);
    WriteSlotsKeepShape(db.predictions, Ids(db.entrants), db.actualPicks, catalog, id, pickMap, 1, true);
    RecalcAllAfterWrite(db, db.(predictions := ps));
    RescoreKeepsListed(ps, db.actualPicks, catalog);
  }

  /** The rescoring that ends both entry handlers restores the scoring
      invariant after a write that only grew the entrants and wrote names. */
  lemma RecalcAllAfterWrite(db: Db, written: Db)
    requires WellFormed(db) && Consistent(db)
    requires written.actualPicks == db.actualPicks && written.standings == db.standings
    requires EntrantsOrdered(written.entrants) && NamesUnique(written.entrants)
    requires Ids(db.entrants) <= Ids(written.entrants)
    requires RowsInRange(written.predictions, Ids(written.entrants)) && OneRowPerSlot(written.predictions)
    requires PendingZero(db.predictions, db.actualPicks) ==> PendingZero(written.predictions, db.actualPicks)
    ensures WellFormed(RecalcAll(written)) && Consistent(RecalcAll(written))
  {
    if db.actualPicks == map[] {
      forall e | e in db.standings ensures db.standings[e] == 0 {
        assert db.standings[e] == Total(db.predictions, e);
      }
    }
    Scoring.RecalcAllConsistent(written);
  }

  lemma RescoreKeepsListed(ps: seq<Prediction>, actual: map<int, string>, catalog: seq<string>)
    requires PredictionsListed(ps, catalog)
    ensures PredictionsListed(RescoreAll(ps, actual), catalog)
  {
    var r := RescoreAll(ps, actual);
    forall p | p in r ensures p.playerName == "" || p.playerName in catalog {
      var i :| 0 <= i < |r| && r[i] == p;
      assert ps[i] in ps;
    }
  }

  /** `delete_team` keeps the tables well formed and scored: the entrant, its
      rows and its standing go, and every other entrant's total stays. */
  lemma RemoveEntrantConsistent(db: Db, catalog: seq<string>, id: nat)
    requires WellFormed(db) && Consistent(db)
    requires PredictionsListed(db.predictions, catalog) && PicksListed(db.actualPicks, catalog)
    ensures WellFormed(RemoveEntrant(db, id)) && Consistent(RemoveEntrant(db, id))
    ensures PredictionsListed(RemoveEntrant(db, id).predictions, catalog)
    ensures PicksListed(RemoveEntrant(db, id).actualPicks, catalog)
    ensures Ids(RemoveEntrant(db, id).entrants) == Ids(db.entrants) - {id}
    ensures forall e :: e != id ==> Total(RemoveEntrant(db, id).predictions, e) == Total(db.predictions, e)
    ensures forall x :: x in RemoveEntrant(db, id).entrants <==> x in db.entrants && x.id != id
    ensures forall p :: p in RemoveEntrant(db, id).predictions <==> p in db.predictions && p.entrantId != id
    ensures forall e :: e in RemoveEntrant(db, id).standings <==> e in db.standings && e != id
  {
    var r := RemoveEntrant(db, id);
    WithoutEntrantKeepsShape(db.entrants, id);
    IdsWithoutEntrant(db.entrants, id);
    WithoutRowsKeepsSlots(db.predictions, id);
    forall e | e != id ensures Total(r.predictions, e) == Total(db.predictions, e) {
      TotalWithoutRows(db.predictions, id, e);
    }
  }

  // -------------------------------------------------- what the entry handlers store

  /** After `submit_picks`, the entrant registered under the name holds the
      form's player at each non-empty slot and keeps its earlier player at
      each empty one; no other entrant's slot changes. */
  lemma SubmitEntryStoresPicks(db: Db, name: string, teamName: string, pickMap: map<int, string>, e: nat, k: int)
    ensures var reg := RegisterEntrant(db.entrants, name, teamName);
      PlayerAt(SubmitEntry(db, name, teamName, pickMap).predictions, e, k) ==
        if e == reg.id && 1 <= k <= MaxPickNumber
        then (if Slot(pickMap, k) != "" then Some(Slot(pickMap, k)) else PlayerAt(db.predictions, e, k))
        else PlayerAt(db.predictions, e, k)
  {
    var reg := RegisterEntrant(db.entrants, name, teamName);
    var ps := WriteSlots(db.predictions, reg.id, pickMap, 1, false);
    WriteSlotsPlayerAt(db.predictions, reg.id, pickMap, 1, false, e, k);
    PlayerAtAfterRescore(ps, RescoreAll(ps, db.actualPicks), e, k);
  }

  /** A first submission under a new name stores exactly the form's non-empty
      entries for the new entrant. */
  lemma SubmitNewEntrantStoresForm(db: Db, name: string, teamName: string, pickMap: map<int, string>, k: int)
    requires WellFormed(db)
    requires forall x :: x in db.entrants ==> x.name != name
    requires 1 <= k <= MaxPickNumber
    ensures var reg := RegisterEntrant(db.entrants, name, teamName);
      PlayerAt(SubmitEntry(db, name, teamName, pickMap).predictions, reg.id, k) ==
        if Slot(pickMap, k) != "" then Some(Slot(pickMap, k)) else None
  {
    var reg := RegisterEntrant(db.entrants, name, teamName);
    RegisterEntrantFinds(db.entrants, name, teamName);
    SubmitEntryStoresPicks(db, name, teamName, pickMap, reg.id, k);
    var m := AtSlot(reg.id, k);
    forall i | 0 <= i < |db.predictions| ensures !m(db.predictions[i]) {
      assert db.predictions[i] in db.predictions;
    }
  }

  /** After `save_team`, each of the entrant's slots holds the form's player
      when it is non-empty, and is blanked when it is empty and a row exists;
      no other entrant's slot changes. */
  lemma SaveEntryStoresPicks(db: Db, id: nat, pickMap: map<int, string>, e: nat, k: int)
    ensures PlayerAt(SaveEntry(db, id, pickMap).predictions, e, k) ==
      if e == id && 1 <= k <= MaxPickNumber
      then (if Slot(pickMap, k) != "" then Some(Slot(pickMap, k))
            else if PlayerAt(db.predictions, e, k).Some? then Some("") else None)
      else PlayerAt(db.predictions, e, k)
  {
    var ps := WriteSlots(db.predictions, id, pickMap, 1, true);
    WriteSlotsPlayerAt(db.predictions, id, pickMap, 1, true, e, k);
    PlayerAtAfterRescore(ps, RescoreAll(ps, db.actualPicks), e, k);
  }
}
