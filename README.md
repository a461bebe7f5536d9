# Draft pool: scoring, validation and writes

This project models the core of a small web application that runs a
first-round NFL draft prediction pool. Participants submit a player for each
of the picks 1..32. The administrator records the players actually taken.
A correct prediction at pick `n` earns `n` points, and each entrant's
standing is the sum of its points.

The model covers:
- the four tables (entrants, predictions, actual picks, standings), as the
  fields of the class `Pool.DraftPool`;
- the scoring engine `recalc_scores_for_pick` / `recalc_all_picks`;
- the pure helpers `find_duplicate_pick_numbers` and `chunk_list`;
- the state-changing logic of the four write handlers: `update_pick`,
  `submit_picks`, `save_team` and `delete_team`.

Layout, one module per file:

- `wrappers.dfy`: `Option`.
- `text.dfy` (`PyText`): Python's `str.strip()`, `str.isdigit()` and
  `int()` on digit strings, with `str()` of a natural number as the
  inverse of `int()`.
- `catalog.dfy` (`Catalog`): `MAX_PICK_NUMBER`, `CHUNK_SIZE` and the 179
  names of `PLAYER_NAME_SUGGESTIONS`.
- `helpers.dfy` (`Helpers`): `chunk_list`, the duplicate scan, the catalog
  loop and the reading of the pick form.
- `tables.dfy` (`Tables`): the rows and tables as values, the queries
  (`.first()`, `SUM`), the invariants, and every state change as a
  function from one `Db` to the next.
- `scoring.dfy` (`Scoring`): what the scoring engine guarantees.
- `writes.dfy` (`Writes`): what the save loop, find-or-create and the
  delete cascade guarantee.
- `handlers.dfy` (`Handlers`): each handler's checks, in order, and its
  answer.
- `pool.dfy` (`Pool`): the class whose methods perform the handlers step by
  step. Each method is proved to perform exactly the state change its
  function in `Tables` or `Handlers` specifies. The four handler methods
  (`UpdatePick`, `SubmitPicks`, `SaveTeam`, `DeleteTeam`) and the two store
  steps they call (`StoreEntry`, `StoreTeamEdit`) are also proved to preserve
  `Valid()`. The inner steps (`RescoreRows`, `UpsertStandings`,
  `RecalcScoresForPick`, `RecalcAllPicks`, `FindOrCreateEntrant`,
  `SavePicks`) carry no `Valid()` contract; what they keep is proved about
  their specification functions in `Scoring` and `Writes`.

`Valid()` says four things:
- the tables are well formed:
  - entrant ids increase along the table;
  - entrant names are unique;
  - every prediction belongs to a known entrant and to a pick 1..32;
  - there is at most one prediction per (entrant, pick);
  - every recorded pick lies in 1..32;
  - every standing belongs to an entrant.
- every prediction holds the points its pick's recorded player gives it;
- every standing equals its entrant's total, and once any pick is recorded
  every entrant has a standing;
- only catalog players (or `""`) are stored.

`update_pick`, `submit_picks`, `save_team` and `delete_team` each preserve
`Valid()`.

The submission rules have one consequence worth knowing: an empty slot in a
second submission keeps the earlier pick. So an entrant can end up with the
same player at two picks even though each form passed the duplicate check
(`Handlers.ResubmissionCanRepeatPlayer`).

The comment above `PLAYER_NAME_SUGGESTIONS` (app.py:54) speaks of a
200-player list. The list itself has 179 names, and the model uses those.

## Model

| member | source | states |
|---|---|---|
| PyText.IsSpace | app.py:1139 | the characters `str.strip()` removes (Python's `str.isspace()`); none of them is a decimal digit |
| PyText.SkipSpaces | app.py:1139 | the left scan of `str.strip()`: everything skipped is whitespace, and it stops at a non-space character or the end |
| PyText.SkipSpacesBack | app.py:1139 | the right scan of `str.strip()`: everything skipped is whitespace, and it stops at a non-space character or the left cut |
| PyText.Strip | app.py:1139 | `str.strip()`: no longer than the input, and starts and ends with a non-space character (or is empty) |
| PyText.StripIsInfix | app.py:1139 | the stripped value is the infix of the input between an all-whitespace prefix and an all-whitespace suffix |
| PyText.StripEmptyIffBlank | app.py:1148 | a field strips to `""`, which the handlers' `if not name` rejects, exactly when it is all whitespace |
| PyText.StripIdempotent | app.py:1202 | stripping an already stripped value changes nothing |
| PyText.StripPadded | app.py:1139 | stripping whitespace padding around a trimmed string gives that string back |
| PyText.IsDigits | app.py:1142 | `str.isdigit()` on ASCII: non-empty, all digits; so it neither starts nor ends with whitespace |
| PyText.DigitsValue | app.py:1144 | `int()` of a digit string: its last digit is the value's last decimal digit |
| PyText.DigitsValueOfZeros | app.py:1144 | `int()` of a string of zeros is 0 |
| PyText.DigitsValueAfterZeros | app.py:1142-1144 | leading zeros keep a digit string a digit string and do not change its value, so "07" is pick 7 |
| PyText.NatToDigits | app.py:1144 | `str(n)` is a non-empty digit string without a leading zero |
| PyText.DigitsValueOfNatToDigits | app.py:1144 | `int(str(n)) == n` |
| Helpers.ChunkList | app.py:1054-1057 | for a positive size, the chunks concatenate back to the list, each is non-empty and at most the size, and all but the last are exactly the size; for a negative size there are none |
| Helpers.DuplicatePickNumbers | app.py:1059-1071 | the flagged pick numbers are keys of the pick map, and none of them holds an empty name |
| Helpers.NoDuplicatesIffDistinct | app.py:1059-1071 | nothing is flagged exactly when no non-empty name is entered under two pick numbers |
| Helpers.GroupByPlayer | app.py:1062-1067 | the first loop builds, for each non-empty name, the list of pick numbers it is entered under, each once |
| Helpers.GroupSizeMeansReuse | app.py:1068-1070 | a player's group holds more than one pick number exactly when the name is entered under another pick number |
| Helpers.FindDuplicatePickNumbers | app.py:1059-1071 | the result is exactly the pick numbers whose non-empty name appears under another pick number; it is empty iff all non-empty names are distinct |
| Helpers.FirstUnlisted | app.py:1223-1224 | the first pick, in pick order, whose non-empty name is not in the catalog; none exactly when every non-empty name is listed |
| Helpers.FindNameNotInCatalog | app.py:1223-1237 | the catalog loop stops at that first unlisted pick, and finds none exactly when every name is listed |
| Helpers.PickMap | app.py:1200-1203 | the pick map holds exactly the pick numbers 1..32; a pick without a form field holds `""` |
| Helpers.TabulateStep | app.py:1201-1203 | one more turn of the form-reading loop adds the entry for one more pick number |
| Helpers.PickMapTabulated | app.py:1200-1203 | the pick map is the stripped field of each pick number 1..32 |
| Helpers.ReadPickMap | app.py:1200-1203 | the form-reading loop builds exactly `PickMap`: for every pick 1..32 the stripped field, a missing field as `""` |
| Tables.FirstIndex | app.py:1243 | `.first()`: no index when no row matches; otherwise the index of a matching row with no match before it |
| Tables.FirstIndexAfterUpdate | app.py:1266 | updating a row without changing whether it matches leaves the first match in place |
| Tables.FirstIndexAfterAppend | app.py:1264 | appending a row changes the first match only when there was none before |
| Tables.Total | app.py:1037-1038 | `SUM(points) or 0`: an entrant whose rows all hold 0 points, or who has no rows, totals 0 |
| Tables.RescorePick | app.py:1028-1032 | every row at pick `n` gets `n` points if it names the player and 0 otherwise; rows at other picks are untouched; only points change |
| Tables.RescoreAll | app.py:1048-1052 | every row at a recorded pick gets the points that pick's player gives it; rows at unrecorded picks are untouched |
| Tables.RecalcForPick | app.py:1026-1046 | entrants and recorded picks unchanged; afterwards every entrant has a standing equal to its total, and standings of ids without an entrant are kept |
| Tables.RecalcAll | app.py:1048-1052 | entrants and recorded picks unchanged; with no recorded pick the standings are untouched; otherwise every entrant has a standing equal to its total |
| Tables.UpsertPrediction | app.py:1256-1266 | adds a row exactly when the (entrant, pick) slot has none, and otherwise keeps the row count |
| Tables.ClearPrediction | app.py:1385-1387 | blanking never adds or removes a row |
| Tables.WriteSlot | app.py:1256-1266 | one slot of the save loop adds a row exactly when the name is non-empty and the slot has no row |
| Tables.WriteSlots | app.py:1254-1267 | the save loop never removes a row and adds at most one per remaining pick |
| Tables.NextEntrantId | app.py:1244-1246 | a new entrant's id is at least 1 and larger than every id in an ordered table |
| Tables.RegisterEntrant | app.py:1243-1251 | find-or-create adds at most one entrant, changes no existing entrant but its team name, and returns the id of an entrant with the name |
| Tables.RecordActualPick | app.py:1155-1163 | records the player at pick `n` (inserting or overwriting), keeps entrants and the row count, rescores pick `n`'s rows and gives every entrant a standing |
| Tables.SubmitEntry | app.py:1243-1269 | keeps the recorded picks and every existing entrant id, leaves an entrant with the name, and adds at most 32 rows |
| Tables.SaveEntry | app.py:1374-1390 | keeps entrants and recorded picks, and adds at most 32 rows |
| Tables.RemoveEntrant | app.py:1173-1178 | exactly that entrant, its predictions and its standing go; the recorded picks stay |
| Tables.WithoutEntrant | app.py:1177 | exactly the entrants with another id remain |
| Tables.WithoutRows | app.py:1175 | exactly the predictions of other entrants remain |
| Scoring.RescorePickIdempotent | app.py:1028-1032 | rescoring a pick twice is rescoring it once |
| Scoring.RecalcForPickIdempotent | app.py:1026-1046 | `recalc_scores_for_pick(n, a)` is idempotent, standings included |
| Scoring.RecalcAllIdempotent | app.py:1048-1052 | `recalc_all_picks()` is idempotent |
| Scoring.RecalcForPickEffect | app.py:1026-1046 | afterwards rows at pick `n` hold `n` exactly when they name `a` (else 0), other rows are unchanged, every entrant has exactly one standing, and it equals the sum of its points |
| Scoring.RescorePickKeepsScored | app.py:1028-1032 | rescoring the pick just recorded keeps every row scored against the updated picks |
| Scoring.RecordActualPickConsistent | app.py:1155-1163 | recording a pick and rescoring it keeps the tables well formed and the scores and standings consistent |
| Scoring.RecalcAllConsistent | app.py:1048-1052 | rescoring every recorded pick restores consistency after writes that left unrecorded picks at 0 points |
| Scoring.RescoreAllScored | app.py:1048-1052 | when rows at unrecorded picks hold 0 points, rescoring every recorded pick leaves every row scored |
| Scoring.RescoreAllStep | app.py:1050-1052 | rescoring one more recorded pick, in any order, is rescoring against the picks visited so far plus that one |
| Scoring.RestrictEnds | app.py:1048-1052 | before the loop over recorded picks nothing is rescored; after it every recorded pick is |
| Scoring.StandingsOverwrite | app.py:1035-1046 | upserting every entrant's total again overwrites the totals upserted for an earlier pick |
| Scoring.TotalsStep | app.py:1036-1046 | one more turn of the standings loop upserts one more entrant's total |
| Scoring.StandingIsTotal | app.py:1035-1046 | a stored standing equals the entrant's total; a standing is missing only while no pick is recorded, when the total is 0 |
| Scoring.BlankPredictionScoresZero | app.py:1030 | although the scoring expression does not guard against an empty recorded name, a blanked prediction scores 0 while every recorded name is non-empty |
| Writes.WriteSlotKeepsShape | app.py:1256-1266 | one slot of the save loop keeps one row per (entrant, pick), rows in range, unrecorded picks at 0 points and only listed players |
| Writes.WriteSlotsKeepShape | app.py:1254-1267 | the whole save loop keeps the same facts |
| Writes.WriteSlotPlayerAt | app.py:1256-1266 | one slot of the save loop changes the stored player of that slot only: a new name is stored, an empty one blanks an existing row (`save_team`) or leaves it (`submit_picks`) |
| Writes.WriteSlotsPlayerAt | app.py:1254-1267 | after the save loop each slot of the entrant holds what that rule makes of the form's entry; other entrants' slots are unchanged |
| Writes.PlayerAtAfterRescore | app.py:1028-1032 | rescoring never changes a stored player |
| Writes.RegisterEntrantKeepsShape | app.py:1243-1251 | find-or-create keeps ids increasing and names unique, and adds only the returned id |
| Writes.RegisterNewKeepsShape | app.py:1244-1247 | creating an entrant for a new name keeps ids increasing and names unique, and adds only its id |
| Writes.AppendEntrant | app.py:1245-1247 | appending an entrant with a larger id and a name of its own keeps the table ordered and uniquely named |
| Writes.RegisterExistingKeepsShape | app.py:1248-1251 | finding an existing entrant, and maybe overwriting its team name, keeps ids and names as they were |
| Writes.RegisterEntrantFinds | app.py:1243-1251 | afterwards exactly one entrant has the name, with the returned id; a new name gets an id not used before; an existing entrant keeps its id and position and gets the team name only when it is non-empty (an empty one keeps the old); other entrants are kept |
| Writes.WithoutEntrantKeepsShape | app.py:1177 | deleting an entrant keeps ids increasing and names unique |
| Writes.IdsWithoutEntrant | app.py:1177 | deleting an entrant removes exactly its id |
| Writes.WithoutRowsKeepsSlots | app.py:1175 | deleting an entrant's predictions keeps one row per (entrant, pick) |
| Writes.TotalWithoutRows | app.py:1175 | deleting one entrant's predictions leaves every other entrant's total unchanged |
| Writes.SubmitEntryConsistent | app.py:1243-1269 | an accepted submission keeps the tables well formed, consistent and listed |
| Writes.SaveEntryConsistent | app.py:1374-1390 | an accepted team edit keeps the tables well formed, consistent and listed |
| Writes.RecalcAllAfterWrite | app.py:1269 | the closing `recalc_all_picks()` restores consistency after the entry writes |
| Writes.RescoreKeepsListed | app.py:1048-1052 | rescoring keeps only listed players stored |
| Writes.RemoveEntrantConsistent | app.py:1173-1178 | deletion keeps the tables well formed and consistent; exactly that entrant, its predictions and its standing go; every other entrant, row, standing and total stays |
| Writes.SubmitEntryStoresPicks | app.py:1254-1267 | after a submission the entrant holds the form's player at each non-empty slot and its earlier player at each empty one; no other entrant's slot changes |
| Writes.SubmitNewEntrantStoresForm | app.py:1243-1267 | a first submission under a new name stores exactly the form's non-empty slots |
| Writes.SaveEntryStoresPicks | app.py:1374-1388 | after a team edit each slot holds the form's player, or is blanked when empty and a row exists; no row is created for an empty slot; other entrants are unchanged |
| Handlers.AdminPickVerdict | app.py:1138-1153 | the pick is recorded exactly when the pick number is a digit string of at most 4,300 characters with value 1..32 and the stripped name is non-empty and listed, and then it is recorded as `int()` of the pick number with the stripped name; a non-digit pick number is rejected first, and a longer digit string ends the request as `int()` raising, before the range check |
| Handlers.AdminPickAcceptsListedPlayer | app.py:1138-1153 | a pick number sent as `str(n)` behind leading zeros, up to 4,300 characters in all, with a listed player padded by any whitespace on the left and the right, is recorded as exactly that pick and player |
| Handlers.FormRejection | app.py:1206-1237 | duplicates are reported first, flagging exactly the picks whose non-empty name is reused; otherwise the player of the first unlisted pick, in pick order, is named; a form passes exactly when its names are distinct and listed |
| Handlers.CheckForm | app.py:1206-1237 | the handlers' duplicate scan and catalog loop decide as `FormRejection` |
| Handlers.SubmitRejection | app.py:1206-1240 | a submission passes exactly when its names are distinct and listed and the stripped entrant name is non-empty; a form rejection is answered as it is, before the name is looked at; a missing name is reported exactly when the form passes |
| Handlers.CheckSubmission | app.py:1198-1240 | the form reading and checks of `submit_picks` yield `PickMap` and decide as `SubmitRejection` |
| Handlers.SubmitOutcome | app.py:1196-1270 | a submission is saved exactly when all three checks pass; otherwise it answers `SubmitRejection`'s rejection (duplicates with the flagged picks, then the first unlisted player, then the missing name); never "team not found" |
| Handlers.SubmitSavedUnderName | app.py:1243-1251 | the saved submission's id is the one the entrant name is registered under afterwards |
| Handlers.ResubmissionCanRepeatPlayer | app.py:1196-1267 | a second submission under the same name, whose form names one catalog player once, is accepted, and afterwards that player sits at two of the entrant's picks |
| Handlers.SaveOutcome | app.py:1338-1371 | "team not found" exactly when no entrant has the team name; saved exactly when one does and the form passes, for the first such entrant; when one does and the form fails, `FormRejection`'s rejection (duplicates first, then the first unlisted player) |
| Handlers.DeleteTarget | app.py:1168-1174 | an entrant is removed exactly when the team name is non-empty and the id field is a digit string naming an existing entrant, and the one removed is the entrant with that id; the team name is not compared |
| Handlers.DeleteTargetOfListedEntrant | app.py:1168-1174 | an id sent as `str(id)` removes exactly that entrant, whatever non-empty team name comes with it |
| Pool.DraftPool.constructor | app.py:56-236 | empty tables, accepting the players of `PLAYER_NAME_SUGGESTIONS`, valid |
| Pool.DraftPool.RecalcScoresForPick | app.py:1026-1046 | the two loops perform exactly `RecalcForPick` on the tables |
| Pool.DraftPool.RescoreRows | app.py:1028-1032 | the prediction loop performs exactly `RescorePick` |
| Pool.DraftPool.UpsertStandings | app.py:1035-1046 | the standings loop upserts every entrant's total and leaves other standings alone |
| Pool.DraftPool.RecalcAllPicks | app.py:1048-1052 | visiting the recorded picks in any order performs exactly `RecalcAll` |
| Pool.DraftPool.UpdatePick | app.py:1136-1164 | answers as `AdminPickVerdict`, including the failing `int()` on an over-long digit string; records and rescores the pick when accepted; changes nothing otherwise; keeps `Valid()` |
| Pool.DraftPool.SubmitPicks | app.py:1196-1270 | answers as `SubmitOutcome`; performs `SubmitEntry` when saved; changes nothing otherwise; keeps `Valid()` |
| Pool.DraftPool.StoreEntry | app.py:1242-1269 | find-or-create, the save loop and the closing rescore perform `SubmitEntry` and keep `Valid()` |
| Pool.DraftPool.SaveTeam | app.py:1336-1391 | answers as `SaveOutcome`; performs `SaveEntry` for the found entrant when saved; changes nothing otherwise; keeps `Valid()` |
| Pool.DraftPool.StoreTeamEdit | app.py:1373-1390 | the blanking save loop and the closing rescore perform `SaveEntry` and keep `Valid()` |
| Pool.DraftPool.DeleteTeam | app.py:1166-1179 | removes `DeleteTarget`'s entrant with its predictions and standing, or changes nothing; keeps `Valid()` |
| Pool.DraftPool.FindOrCreateEntrant | app.py:1242-1251 | performs `RegisterEntrant`, assigning a new entrant the next row id |
| Pool.DraftPool.SavePicks | app.py:1254-1267 | the save loop performs `WriteSlots` over picks 1..32 (with `clearEmpty`, the loop at app.py:1374-1388) |

## Left out

- HTML templates, `render_template_string`, redirects and the query-string
  echo of errors. Each handler returns an outcome value instead.
- The read-only routes: `standings`, `admin_panel`, `enter_picks`,
  `team_select` and `edit_team`. What the standings page shows
  is covered only by `Scoring.StandingIsTotal` and `Helpers.ChunkList`. Its
  outer join, its ordering and its exception handling depend on the
  database and are not modelled. In particular an entrant without a
  standing (possible only while no pick is recorded) is listed by the outer
  join with an empty score, which the page prints as "None", not 0.
- `initdb`, which creates the schema (`db.create_all()`). The model starts
  from the four tables already existing and empty (`Pool.DraftPool.constructor`).
- The administrator gate (`is_admin` and the `key` check), sessions,
  commits, transactions and concurrency between requests. Each handler
  runs as one atomic step.
- The prediction rows' own primary key. Rows are kept in insertion order,
  which is the order `.first()` sees them in.
- Entrant ids follow SQLite's row-id choice: one past the largest id, or 1
  for an empty table. So the id of a deleted last entrant can be reused.
- A `NULL` team name. The handlers always store a string, so `""` stands
  for none.
- Handlers.AdminPickVerdict: the 4,300-character limit on `int()` is CPython's
  default since 3.11 and the 3.7.14, 3.8.14, 3.9.14 and 3.10.7 security
  releases. An interpreter without the limit, or with it raised or disabled,
  converts an over-long digit string, and the model still answers
  `PickNumberTooLong`. The failing request itself (an uncaught
  `ValueError`, a server error) is modelled only as that outcome with nothing
  written.
- Handlers.AdminPickVerdict: only ASCII digits count as digits. Python's
  `isdigit()` also accepts other Unicode digits. For non-ASCII decimal digits
  (e.g. fullwidth `'３２'`) `int()` succeeds, so the application records such
  a pick (`int('３２') == 32`), where the model rejects it as not digits. For
  digits that are not decimal (e.g. `'²'`) `int()` raises; the model rejects
  those too, and does not model the error.
- Handlers.DeleteTarget: the id field matches only as a string of ASCII
  digits. SQLite's comparison of the text field with an integer column
  would also match some other spellings (e.g. "+5" or "5.0"); those
  are treated as matching no entrant.
- Helpers.ChunkList: Python's `range` raises on a chunk size of 0. The
  model requires a non-zero size.
- `recalc_all_picks` visits the recorded picks in table order. The model
  lets them come in any order; the result is proved the same.
- Form fields sent more than once. A form is a map from pick number to
  text.
