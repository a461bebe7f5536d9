/** What the scoring engine guarantees: `recalc_scores_for_pick` and
    `recalc_all_picks` are idempotent, leave every entrant with one standing
    equal to the sum of its points, and, with the pick handler, keep the
    scoring invariant `Tables.Consistent`. */
module Scoring {
  import opened Catalog
  import opened Tables

  /** Rescoring a pick a second time changes nothing. */
  lemma RescorePickIdempotent(ps: seq<Prediction>, n: int, a: string)
    ensures RescorePick(RescorePick(ps, n, a), n, a) == RescorePick(ps, n, a)
  {
    var once := RescorePick(ps, n, a);
    var twice := RescorePick(once, n, a);
    forall i | 0 <= i < |ps| ensures twice[i] == once[i] {
      assert once[i].pickNumber == ps[i].pickNumber && once[i].playerName == ps[i].playerName;
    }
  }

  /** `recalc_scores_for_pick(n, a)` is idempotent. */
  lemma RecalcForPickIdempotent(db: Db, n: int, a: string)
    ensures RecalcForPick(RecalcForPick(db, n, a), n, a) == RecalcForPick(db, n, a)
  {
    RescorePickIdempotent(db.predictions, n, a);
    var once := RecalcForPick(db, n, a);
    var totals := Totals(db.entrants, once.predictions);
    assert (once.standings + totals) == once.standings;
  }

  /** `recalc_all_picks()` is idempotent. */
  lemma RecalcAllIdempotent(db: Db)
    ensures RecalcAll(RecalcAll(db)) == RecalcAll(db)
  {
    var once := RecalcAll(db);
    var twice := RecalcAll(once);
    forall i | 0 <= i < |db.predictions| ensures twice.predictions[i] == once.predictions[i] {
      assert once.predictions[i] == db.predictions[i].(points := once.predictions[i].points);
    }
    if db.actualPicks != map[] {
      var totals := Totals(db.entrants, once.predictions);
      assert once.standings + totals == once.standings;
    }
  }

  /** After `recalc_scores_for_pick(n, a)` every row at pick `n` scores `n`
      exactly when it names `a`, rows at other picks are untouched, and every
      entrant has a standing equal to the sum of its points. */
  lemma RecalcForPickEffect(db: Db, n: int, a: string)
    requires WellFormed(db)
    ensures var r := RecalcForPick(db, n, a);
      && WellFormed(r)
      && |r.predictions| == |db.predictions|
      && (forall i :: 0 <= i < |r.predictions| && db.predictions[i].pickNumber == n ==>
            (r.predictions[i].points == n <==> db.predictions[i].playerName == a || n == 0)
            && (r.predictions[i].points != n ==> r.predictions[i].points == 0))
      && (forall i :: 0 <= i < |r.predictions| && db.predictions[i].pickNumber != n ==>
            r.predictions[i] == db.predictions[i])
      && r.standings.Keys == Ids(db.entrants)
      && (forall e :: e in r.standings ==> r.standings[e] == Total(r.predictions, e))
  {
    var r := RecalcForPick(db, n, a);
    SameKeysKeepShape(db, r);
  }

  /** Changing only points keeps the shape of the tables. */
  lemma SameKeysKeepShape(db: Db, r: Db)
    requires WellFormed(db)
    requires r.entrants == db.entrants && PicksInRange(r.actualPicks)
    requires |r.predictions| == |db.predictions|
    requires forall i :: 0 <= i < |db.predictions| ==>
               r.predictions[i] == db.predictions[i].(points := r.predictions[i].points)
    requires r.standings.Keys <= Ids(db.entrants)
    ensures WellFormed(r)
  {
    forall p | p in r.predictions
      ensures p.entrantId in Ids(r.entrants) && 1 <= p.pickNumber <= MaxPickNumber
    {
      var i :| 0 <= i < |r.predictions| && r.predictions[i] == p;
      assert db.predictions[i] in db.predictions;
    }
  }

  /** Rescoring pick `n` against the player just recorded there keeps every
      row scored against the updated picks. */
  lemma RescorePickKeepsScored(ps: seq<Prediction>, actual: map<int, string>, n: int, name: string)
    requires Scored(ps, actual)
    ensures Scored(RescorePick(ps, n, name), actual[n := name])
  {
    var r := RescorePick(ps, n, name);
    forall p | p in r ensures p.points == ExpectedPoints(p, actual[n := name]) {
      var i :| 0 <= i < |r| && r[i] == p;
      assert ps[i] in ps;
    }
  }

  /** `update_pick`'s write keeps the scoring invariant: the new pick is
      scored, the others were already. */
  lemma RecordActualPickConsistent(db: Db, n: int, name: string)
    requires WellFormed(db) && Consistent(db)
    requires 1 <= n <= MaxPickNumber
    ensures WellFormed(RecordActualPick(db, n, name))
    ensures Consistent(RecordActualPick(db, n, name))
  {
    var recorded := db.(actualPicks := db.actualPicks[n := name]);
    assert WellFormed(recorded);
    RecalcForPickEffect(recorded, n, name);
    RescorePickKeepsScored(db.predictions, db.actualPicks, n, name);
    assert n in recorded.actualPicks;
  }

  /** `recalc_all_picks()` restores the scoring invariant after writes that
      changed player names but left every unrecorded pick at 0 points. */
  lemma RecalcAllConsistent(db: Db)
    requires WellFormed(db)
    requires PendingZero(db.predictions, db.actualPicks)
    requires db.actualPicks == map[] ==> forall e :: e in db.standings ==> db.standings[e] == 0
    ensures WellFormed(RecalcAll(db))
    ensures Consistent(RecalcAll(db))
  {
    var r := RecalcAll(db);
    SameKeysKeepShape(db, r);
    RescoreAllScored(db.predictions, db.actualPicks);
  }

  /** Rows at unrecorded picks hold 0 points, so once every recorded pick is
      rescored every row is scored. */
  lemma RescoreAllScored(ps: seq<Prediction>, actual: map<int, string>)
    requires PendingZero(ps, actual)
    ensures Scored(RescoreAll(ps, actual), actual)
  {
    var r := RescoreAll(ps, actual);
    forall p | p in r ensures p.points == ExpectedPoints(p, actual) {
      var i :| 0 <= i < |r| && r[i] == p;
      assert ps[i] in ps;
    }
  }

  // ------------------------------------------------ the loops of the engine

  /** The recorded picks whose pick numbers are in `done`. */
  function Restrict(actual: map<int, string>, done: set<int>): map<int, string> {
    map k | k in actual && k in done :: actual[k]
  }

  /** Rescoring one more recorded pick after the ones in `done` is rescoring
      against all of them, whatever order the picks come in. */
  lemma RescoreAllStep(ps: seq<Prediction>, actual: map<int, string>, done: set<int>, n: int)
    requires n in actual && n !in done
    ensures RescorePick(RescoreAll(ps, Restrict(actual, done)), n, actual[n])
            == RescoreAll(ps, Restrict(actual, done + {n}))
  {
    var before := RescoreAll(ps, Restrict(actual, done));
    var stepped := RescorePick(before, n, actual[n]);
    var after := RescoreAll(ps, Restrict(actual, done + {n}));
    forall i | 0 <= i < |ps| ensures stepped[i] == after[i] {
      assert before[i] == ps[i].(points := before[i].points);
    }
  }

  /** Before any pick is rescored nothing has changed; once all are, the
      predictions are scored against every recorded pick. */
  lemma RestrictEnds(ps: seq<Prediction>, actual: map<int, string>)
    ensures RescoreAll(ps, Restrict(actual, {})) == ps
    ensures Restrict(actual, actual.Keys) == actual
  {
    var none := RescoreAll(ps, Restrict(actual, {}));
    assert forall i :: 0 <= i < |ps| ==> none[i] == ps[i];
  }

  /** The standings loop, one entrant further: upserting its total extends
      the standings by one more entrant's total. */
  lemma TotalsStep(st: map<nat, int>, es: seq<Entrant>, j: nat, ps: seq<Prediction>)
    requires j < |es|
    ensures (st + Totals(es[..j], ps))[es[j].id := Total(ps, es[j].id)] == st + Totals(es[..j + 1], ps)
  {
    TotalsSnoc(es, j, ps);
    UnionThenUpdate(st, Totals(es[..j], ps), es[j].id, Total(ps, es[j].id));
  }

  lemma TotalsSnoc(es: seq<Entrant>, j: nat, ps: seq<Prediction>)
    requires j < |es|
    ensures Totals(es[..j + 1], ps) == Totals(es[..j], ps)[es[j].id := Total(ps, es[j].id)]
  {
    assert es[..j + 1] == es[..j] + [es[j]];
    assert Ids(es[..j + 1]) == Ids(es[..j]) + {es[j].id};
  }

  lemma UnionThenUpdate(st: map<nat, int>, t: map<nat, int>, k: nat, v: int)
    ensures (st + t)[k := v] == st + t[k := v]
  {
  }

  /** Upserting every entrant's total a second time overwrites the first. */
  lemma StandingsOverwrite(st: map<nat, int>, es: seq<Entrant>, ps: seq<Prediction>, qs: seq<Prediction>)
    ensures st + Totals(es, ps) + Totals(es, qs) == st + Totals(es, qs)
  {
  }

  /** An entrant's stored standing is the sum of its prediction points; an
      entrant has no standing only while no pick is recorded, when that sum
      is 0. */
  lemma StandingIsTotal(db: Db, x: Entrant)
    requires WellFormed(db) && Consistent(db)
    requires x in db.entrants
    ensures x.id in db.standings ==> db.standings[x.id] == Total(db.predictions, x.id)
    ensures x.id !in db.standings ==> db.actualPicks == map[] && Total(db.predictions, x.id) == 0
  {
    if x.id !in db.standings {
      assert x.id in Ids(db.entrants);
      assert db.actualPicks == map[];
    }
  }

  /** Although the scoring expression has no guard against an empty recorded
      name, a blanked prediction never scores while every recorded name is
      non-empty. */
  lemma BlankPredictionScoresZero(db: Db, p: Prediction)
    requires Consistent(db)
    requires forall n :: n in db.actualPicks ==> db.actualPicks[n] != ""
    requires p in db.predictions && p.playerName == ""
    ensures p.points == 0
  {
  }
}
