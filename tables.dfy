/** The four tables of the pool as values, the queries the handlers run on
    them, and the state changes of the scoring engine and of the write
    handlers as functions from one set of tables to the next. The class
    `Pool.DraftPool` performs these changes step by step; the lemmas here say
    what they mean. */
module Tables {
  import opened Wrappers
  import opened Catalog
  import opened Helpers

  /** A row of `entrants`. A team name that was never given is "". */
  datatype Entrant = Entrant(id: nat, name: string, teamName: string)

  /** A row of `predictions`. The row's own primary key is left implicit: rows
      are kept in the order they were inserted. */
  datatype Prediction = Prediction(entrantId: nat, pickNumber: int, playerName: string, points: int)

  /** The whole store: entrants and predictions in row order, actual picks
      keyed by pick number, standings keyed by entrant id. */
  datatype Db = Db(
    entrants: seq<Entrant>,
    predictions: seq<Prediction>,
    actualPicks: map<int, string>,
    standings: map<nat, int>)

  // ------------------------------------------------------------------ queries

  /** `.first()` of a filtered query: the first row, in row order, that matches. */
  function FirstIndex<T>(rows: seq<T>, matches: T -> bool): (r: Option<nat>)
    ensures r.None? <==> forall i :: 0 <= i < |rows| ==> !matches(rows[i])
    ensures r.Some? ==> r.value < |rows| && matches(rows[r.value])
                        && forall i :: 0 <= i < r.value ==> !matches(rows[i])
  {
    if rows == [] then None
    else if matches(rows[0]) then Some(0)
    else match FirstIndex(rows[1..], matches)
      case None => None
      case Some(j) => Some(j + 1)
  }

  /** Replacing a row by one that matches exactly when it did leaves the
      first match where it was. */
  lemma FirstIndexAfterUpdate<T>(rows: seq<T>, j: nat, x: T, matches: T -> bool)
    requires j < |rows| && matches(x) == matches(rows[j])
    ensures FirstIndex(rows[j := x], matches) == FirstIndex(rows, matches)
  {
    var before := FirstIndex(rows, matches);
    var after := FirstIndex(rows[j := x], matches);
    if before.Some? {
      assert matches(rows[j := x][before.value]);
    }
  }

  /** Appending a row changes the first match only when there was none. */
  lemma {:induction false} FirstIndexAfterAppend<T>(rows: seq<T>, x: T, matches: T -> bool)
    ensures FirstIndex(rows + [x], matches) ==
      if FirstIndex(rows, matches).Some? then FirstIndex(rows, matches)
      else if matches(x) then Some(|rows|) else None
    decreases |rows|
  {
    if rows == [] {
      assert rows + [x] == [x];
    } else {
      assert (rows + [x])[0] == rows[0];
      assert (rows + [x])[1..] == rows[1..] + [x];
      FirstIndexAfterAppend(rows[1..], x, matches);
    }
  }

  function HasName(name: string): Entrant -> bool {
    (x: Entrant) => x.name == name
  }

  function HasTeam(teamName: string): Entrant -> bool {
    (x: Entrant) => x.teamName == teamName
  }

  function HasId(id: nat): Entrant -> bool {
    (x: Entrant) => x.id == id
  }

  function AtSlot(entrantId: nat, pickNumber: int): Prediction -> bool {
    (p: Prediction) => p.entrantId == entrantId && p.pickNumber == pickNumber
  }

  /** `Prediction.query.filter_by(entrant_id=e, pick_number=k).first()`. */
  function FindPrediction(ps: seq<Prediction>, entrantId: nat, pickNumber: int): Option<nat> {
    FirstIndex(ps, AtSlot(entrantId, pickNumber))
  }

  /** The player name stored for entrant `e` at pick `k`, if a row exists. */
  function PlayerAt(ps: seq<Prediction>, e: nat, k: int): Option<string> {
    match FindPrediction(ps, e, k)
    case None => None
    case Some(j) => Some(ps[j].playerName)
  }

  function Ids(es: seq<Entrant>): set<nat> {
    set x | x in es :: x.id
  }

  /** `func.sum(points_awarded)` over one entrant's rows, `or 0` when it has none. */
  function Total(ps: seq<Prediction>, e: nat): (total: int)
    ensures (forall p :: p in ps && p.entrantId == e ==> p.points == 0) ==> total == 0
  {
    if ps == [] then 0
    else
      assert forall p :: p in ps[1..] ==> p in ps;
      (if ps[0].entrantId == e then ps[0].points else 0) + Total(ps[1..], e)
  }

  /** The total of every entrant, keyed by entrant id. */
  function Totals(es: seq<Entrant>, ps: seq<Prediction>): map<nat, int> {
    map e | e in Ids(es) :: Total(ps, e)
  }

  // -------------------------------------------------------------- invariants

  /** Entrant ids grow along the table, as SQLite row ids do. */
  ghost predicate EntrantsOrdered(es: seq<Entrant>) {
    forall i, j :: 0 <= i < j < |es| ==> es[i].id < es[j].id
  }

  /** No two entrants share a display name. */
  ghost predicate NamesUnique(es: seq<Entrant>) {
    forall i, j :: 0 <= i < j < |es| ==> es[i].name != es[j].name
  }

  /** Every prediction belongs to a known entrant and to a pick 1..MaxPickNumber. */
  ghost predicate RowsInRange(ps: seq<Prediction>, ids: set<nat>) {
    forall p :: p in ps ==> p.entrantId in ids && 1 <= p.pickNumber <= MaxPickNumber
  }

  /** At most one prediction per (entrant, pick number). */
  ghost predicate OneRowPerSlot(ps: seq<Prediction>) {
    forall i, j :: 0 <= i < j < |ps| ==>
      ps[i].entrantId != ps[j].entrantId || ps[i].pickNumber != ps[j].pickNumber
  }

  ghost predicate PicksInRange(actual: map<int, string>) {
    forall n :: n in actual ==> 1 <= n <= MaxPickNumber
  }

  /** The shape of the tables, whatever their scores. */
  ghost predicate WellFormed(db: Db) {
    && EntrantsOrdered(db.entrants)
    && NamesUnique(db.entrants)
    && RowsInRange(db.predictions, Ids(db.entrants))
    && OneRowPerSlot(db.predictions)
    && PicksInRange(db.actualPicks)
    && db.standings.Keys <= Ids(db.entrants)
  }

  /** The points a prediction is worth against the recorded picks: its pick
      number when its player is the one recorded there, else 0. */
  function ExpectedPoints(p: Prediction, actual: map<int, string>): int {
    if p.pickNumber in actual && p.playerName == actual[p.pickNumber] then p.pickNumber else 0
  }

  ghost predicate Scored(ps: seq<Prediction>, actual: map<int, string>) {
    forall p :: p in ps ==> p.points == ExpectedPoints(p, actual)
  }

  /** Rows at a pick with no recorded player still hold 0 points. */
  ghost predicate PendingZero(ps: seq<Prediction>, actual: map<int, string>) {
    forall p :: p in ps && p.pickNumber !in actual ==> p.points == 0
  }

  /** Every standing is its entrant's total; once any pick is recorded, every
      entrant has a standing. */
  ghost predicate StandingsAgree(db: Db) {
    && (forall e :: e in db.standings ==> db.standings[e] == Total(db.predictions, e))
    && (db.actualPicks != map[] ==> Ids(db.entrants) <= db.standings.Keys)
  }

  /** The scoring invariant that every write handler re-establishes. */
  ghost predicate Consistent(db: Db) {
    Scored(db.predictions, db.actualPicks) && StandingsAgree(db)
  }

  // ------------------------------------------------------------ scoring engine

  /** The first loop of `recalc_scores_for_pick(n, a)`: every row at pick `n`
      is re-awarded against player `a`; no other row changes. */
  function RescorePick(ps: seq<Prediction>, n: int, a: string): (r: seq<Prediction>)
    ensures |r| == |ps|
    ensures forall i :: 0 <= i < |ps| ==> r[i] == ps[i].(points := r[i].points)
    ensures forall i :: 0 <= i < |ps| && ps[i].pickNumber == n ==>
              r[i].points == (if ps[i].playerName == a then n else 0)
    ensures forall i :: 0 <= i < |ps| && ps[i].pickNumber != n ==> r[i] == ps[i]
  {
    seq(|ps|, i requires 0 <= i < |ps| =>
      if ps[i].pickNumber == n
      then ps[i].(points := if ps[i].playerName == a then n else 0)
      else ps[i])
  }

  /** Every row at a recorded pick re-awarded against that pick's player. */
  function RescoreAll(ps: seq<Prediction>, actual: map<int, string>): (r: seq<Prediction>)
    ensures |r| == |ps|
    ensures forall i :: 0 <= i < |ps| ==> r[i] == ps[i].(points := r[i].points)
    ensures forall i :: 0 <= i < |ps| && ps[i].pickNumber in actual ==>
              r[i].points == ExpectedPoints(ps[i], actual)
    ensures forall i :: 0 <= i < |ps| && ps[i].pickNumber !in actual ==> r[i] == ps[i]
  {
    seq(|ps|, i requires 0 <= i < |ps| =>
      var k := ps[i].pickNumber;
      if k in actual
      then ps[i].(points := if ps[i].playerName == actual[k] then k else 0)
      else ps[i])
  }

  /** `recalc_scores_for_pick(n, a)`: rescore pick `n`, then upsert every
      entrant's standing with its new total. */
  function RecalcForPick(db: Db, n: int, a: string): (r: Db)
    ensures r.entrants == db.entrants && r.actualPicks == db.actualPicks
    ensures r.standings.Keys == db.standings.Keys + Ids(db.entrants)
    ensures forall e :: e in Ids(db.entrants) ==> r.standings[e] == Total(r.predictions, e)
    ensures forall e :: e in db.standings && e !in Ids(db.entrants) ==> r.standings[e] == db.standings[e]
  {
    var ps := RescorePick(db.predictions, n, a);
    db.(predictions := ps, standings := db.standings + Totals(db.entrants, ps))
  }

  /** `recalc_all_picks()`: `recalc_scores_for_pick` for every recorded pick;
      with no recorded pick nothing is touched. */
  function RecalcAll(db: Db): (r: Db)
    ensures r.entrants == db.entrants && r.actualPicks == db.actualPicks
    ensures db.actualPicks == map[] ==> r.standings == db.standings
    ensures db.actualPicks != map[] ==>
              && r.standings.Keys == db.standings.Keys + Ids(db.entrants)
              && forall e :: e in Ids(db.entrants) ==> r.standings[e] == Total(r.predictions, e)
  {
    var ps := RescoreAll(db.predictions, db.actualPicks);
    db.(predictions := ps,
        standings := if db.actualPicks == map[] then db.standings
                     else db.standings + Totals(db.entrants, ps))
  }

  // --------------------------------------------------------------- the writes

  /** Insert a prediction for (e, k) or overwrite the player of the existing one. */
  function UpsertPrediction(ps: seq<Prediction>, e: nat, k: int, name: string): (r: seq<Prediction>)
    ensures |r| == if PlayerAt(ps, e, k).Some? then |ps| else |ps| + 1
  {
    match FindPrediction(ps, e, k)
    case None =>
      var row := Prediction(e, k, name, 0);
      FirstIndexAfterAppend(ps, row, AtSlot(e, k));
      ps + [row]
    case Some(j) =>
      var row := ps[j].(playerName := name);
      FirstIndexAfterUpdate(ps, j, row, AtSlot(e, k));
      ps[j := row]
  }

  /** Blank the player of the prediction for (e, k), keeping the row, if any. */
  function ClearPrediction(ps: seq<Prediction>, e: nat, k: int): (r: seq<Prediction>)
    ensures |r| == |ps|
  {
    match FindPrediction(ps, e, k)
    case None => ps
    case Some(j) =>
      var row := ps[j].(playerName := "");
      FirstIndexAfterUpdate(ps, j, row, AtSlot(e, k));
      ps[j := row]
  }

  /** One slot of the save loop: a non-empty name is upserted; an empty one is
      skipped (`submit_picks`) or blanks an existing row (`save_team`). */
  function WriteSlot(ps: seq<Prediction>, e: nat, k: int, name: string, clearEmpty: bool): (r: seq<Prediction>)
    ensures |r| == if name != "" && PlayerAt(ps, e, k).None? then |ps| + 1 else |ps|
  {
    if name != "" then UpsertPrediction(ps, e, k, name)
    else if clearEmpty then ClearPrediction(ps, e, k)
    else ps
  }

  /** The save loop over picks `k`..MaxPickNumber, in pick order. */
  function WriteSlots(ps: seq<Prediction>, e: nat, pickMap: map<int, string>, k: int, clearEmpty: bool)
    : (r: seq<Prediction>)
    ensures |ps| <= |r|
    ensures 1 <= k <= MaxPickNumber + 1 ==> |r| <= |ps| + MaxPickNumber + 1 - k
    decreases MaxPickNumber + 1 - k
  {
    if k > MaxPickNumber then ps
    else WriteSlots(WriteSlot(ps, e, k, Slot(pickMap, k), clearEmpty), e, pickMap, k + 1, clearEmpty)
  }

  /** What a slot's stored player becomes: the new name when there is one;
      otherwise blanked (when `clearEmpty` and a row exists) or left alone. */
  function PlayerAfterWrite(before: Option<string>, name: string, clearEmpty: bool): Option<string> {
    if name != "" then Some(name)
    else if clearEmpty && before.Some? then Some("")
    else before
  }

  /** SQLite's choice of a new row id: one past the largest, 1 in an empty table. */
  function NextEntrantId(es: seq<Entrant>): (id: nat)
    ensures id >= 1
    ensures EntrantsOrdered(es) ==> forall x :: x in es ==> x.id < id
  {
    if es == [] then 1 else es[|es| - 1].id + 1
  }

  datatype Registration = Registration(entrants: seq<Entrant>, id: nat)

  /** Find the entrant by name or create it; an existing entrant's team name is
      overwritten only by a non-empty one. */
  function RegisterEntrant(es: seq<Entrant>, name: string, teamName: string): (r: Registration)
    ensures |es| <= |r.entrants| <= |es| + 1
    ensures forall i :: 0 <= i < |es| ==> r.entrants[i] == es[i].(teamName := r.entrants[i].teamName)
    ensures exists i :: 0 <= i < |r.entrants| && r.entrants[i].name == name && r.entrants[i].id == r.id
  {
    match FirstIndex(es, HasName(name))
    case None =>
      var id := NextEntrantId(es);
      var entrants := es + [Entrant(id, name, teamName)];
      assert entrants[|es|].name == name;
      Registration(entrants, id)
    case Some(i) =>
      var entrants := if teamName != "" then es[i := es[i].(teamName := teamName)] else es;
      assert entrants[i].name == name;
      Registration(entrants, es[i].id)
  }

  /** `update_pick` once its guards pass: record the pick, then rescore it. */
  function RecordActualPick(db: Db, n: int, name: string): (r: Db)
    ensures r.entrants == db.entrants && r.actualPicks == db.actualPicks[n := name]
    ensures |r.predictions| == |db.predictions|
    ensures forall i :: 0 <= i < |r.predictions| && r.predictions[i].pickNumber == n ==>
              r.predictions[i].points == ExpectedPoints(r.predictions[i], r.actualPicks)
    ensures Ids(db.entrants) <= r.standings.Keys
  {
    RecalcForPick(db.(actualPicks := db.actualPicks[n := name]), n, name)
  }

  /** `submit_picks` once its guards pass. */
  function SubmitEntry(db: Db, name: string, teamName: string, pickMap: map<int, string>): (r: Db)
    ensures r.actualPicks == db.actualPicks
    ensures Ids(db.entrants) <= Ids(r.entrants)
    ensures exists x :: x in r.entrants && x.name == name
    ensures |db.predictions| <= |r.predictions| <= |db.predictions| + MaxPickNumber
  {
    var reg := RegisterEntrant(db.entrants, name, teamName);
    assert Ids(db.entrants) <= Ids(reg.entrants) by {
      forall y | y in Ids(db.entrants) ensures y in Ids(reg.entrants) {
        var i :| 0 <= i < |db.entrants| && db.entrants[i].id == y;
        assert reg.entrants[i] in reg.entrants;
      }
    }
    RecalcAll(db.(entrants := reg.entrants,
                  predictions := WriteSlots(db.predictions, reg.id, pickMap, 1, false)))
  }

  /** `save_team` once its guards pass, for the entrant with id `id`. */
  function SaveEntry(db: Db, id: nat, pickMap: map<int, string>): (r: Db)
    ensures r.entrants == db.entrants && r.actualPicks == db.actualPicks
    ensures |db.predictions| <= |r.predictions| <= |db.predictions| + MaxPickNumber
  {
    RecalcAll(db.(predictions := WriteSlots(db.predictions, id, pickMap, 1, true)))
  }

  function WithoutEntrant(es: seq<Entrant>, id: nat): (r: seq<Entrant>)
    ensures forall x :: x in r <==> x in es && x.id != id
  {
    if es == [] then []
    else if es[0].id == id then WithoutEntrant(es[1..], id)
    else [es[0]] + WithoutEntrant(es[1..], id)
  }

  function WithoutRows(ps: seq<Prediction>, id: nat): (r: seq<Prediction>)
    ensures forall p :: p in r <==> p in ps && p.entrantId != id
  {
    if ps == [] then []
    else if ps[0].entrantId == id then WithoutRows(ps[1..], id)
    else [ps[0]] + WithoutRows(ps[1..], id)
  }

  /** `delete_team` once its guards pass: the entrant, its predictions and its
      standing go. */
  function RemoveEntrant(db: Db, id: nat): (r: Db)
    ensures r.actualPicks == db.actualPicks
    ensures forall x :: x in r.entrants <==> x in db.entrants && x.id != id
    ensures forall p :: p in r.predictions <==> p in db.predictions && p.entrantId != id
    ensures r.standings.Keys == db.standings.Keys - {id}
  {
    Db(WithoutEntrant(db.entrants, id), WithoutRows(db.predictions, id),
       db.actualPicks, db.standings - {id})
  }
}
