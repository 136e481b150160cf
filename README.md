# Leaderboard score table, modelled in Dafny

The system is a small leaderboard service. Players submit `{name, score, difficulty}`
and the service keeps the best score per player per difficulty in one SQLite table,
`scores(id, name, score, difficulty, created_at)`. `GET /leaderboard` lists the ten best
scores of one difficulty. Two maintenance scripts act on the same table: one adds the
`difficulty` column to a table created before the column existed, the other deletes
every score.

The model treats the table as an abstract relation:

- `ScoreStore` (store.dfy) holds the record type and a `Table` snapshot. The snapshot has
  the column list, the rows in table order, the AUTOINCREMENT counter and a clock.
  Each SQL statement the program issues is a pure function on the snapshot. A method of
  the class `Database` runs that statement in place on its fields. The storage engine's
  failures are injected booleans. A statement that names `difficulty` also fails when the
  schema lacks that column.
- `Ranking` (ranking.dfy) gives `ORDER BY score DESC, created_at ASC LIMIT 10`, with an
  optional `WHERE difficulty = ?`. It is an insertion sort on sequences, proved to
  return a sorted permutation. Lemmas say what the top ten are.
- `Leaderboard` (leaderboard.dfy) is the route. `Submit` is the POST handler as a function
  from table and request to new table and response. `PostLeaderboard` runs it on the
  database object. `Query` is the GET handler with its single fallback. The lemmas cover
  the stored-score invariants over any run of submits.
- `FixDifficultyColumn` (fix_difficulty_column.dfy) is the migration script.
- `ResetLeaderboard` (reset_leaderboard.dfy) is the reset script.

Time is injected as `elapsed: nat`, the amount the clock advances before each INSERT reads
it. Each inserted row's `created_at` is therefore no earlier than any row's, and the store
invariant `WellFormed` includes that `created_at` never decreases in table order. Two rows
can share a value, as two rows can share a second under `CURRENT_TIMESTAMP`. The AUTOINCREMENT counter survives
`DELETE FROM scores`, because SQLite never reuses an AUTOINCREMENT id.

Where the code's comments and its behaviour differ, the model follows the behaviour:

- The comments at routes/leaderboard.js:38 and :45 say the GET handler falls back to all
  scores if the difficulty column does not exist. The test at :43 retries after any error
  of the filtered query, and so does `Query`.
- A newly inserted score is listed next time only if it makes the top ten
  (`InsertedScoreIsListed`, for a difficulty that had fewer than ten records).
- The comment at routes/leaderboard.js:23 says the route adds the difficulty column to
  existing databases. That check never alters the table (see Findings). Only the script
  adds the column.

## Model

| member | source | states |
|---|---|---|
| `ScoreStore.FirstMatch` | routes/leaderboard.js:72-75 | the lookup returns the first row in table order that has the given name and difficulty, and None exactly when no row matches |
| `ScoreStore.SelectScore` | routes/leaderboard.js:72-79 | the lookup fails exactly when the store fails or the schema lacks `difficulty`; otherwise it reports the stored score of the pair or no match |
| `ScoreStore.SetScore` | routes/leaderboard.js:83-85 | the UPDATE changes only the `score` field, only of rows with that name and difficulty; every other row and field stays as it was |
| `ScoreStore.FirstMatchSetScore` | routes/leaderboard.js:83-85 | after the UPDATE, every lookup of any pair finds the same row as before |
| `ScoreStore.FirstMatchAppend` | routes/leaderboard.js:101-103 | appending a row changes the lookup only for a pair that had no row, which now finds the new one |
| `ScoreStore.InsertRow` | routes/leaderboard.js:101-110 | the INSERT appends exactly one row with the given fields, the next id (above every existing id) and a created_at no earlier than any row's; on failure nothing changes |
| `ScoreStore.UpdateScores` | routes/leaderboard.js:83-90 | the UPDATE statement applies fully or not at all, and keeps the store well formed |
| `ScoreStore.DeleteAll` | reset-leaderboard.js:7-12 | a successful DELETE leaves no rows and keeps the schema and the id counter; a failed one changes nothing |
| `ScoreStore.WithDefaultDifficulty` | fix-difficulty-column.js:17 | every row keeps its fields except that `difficulty` reads `'beginner'` |
| `ScoreStore.AddDifficultyColumn` | fix-difficulty-column.js:17-21 | the ALTER succeeds exactly when the store does not fail and the column is absent; it then appends the column and gives every row the default |
| `ScoreStore.Database.Open` | routes/leaderboard.js:7 | the opened handle holds the store's contents and satisfies the store invariant |
| `ScoreStore.Database.Insert` | routes/leaderboard.js:101-103 | running the INSERT in place leaves the fields equal to the INSERT's meaning and keeps the invariant |
| `ScoreStore.Database.Update` | routes/leaderboard.js:83-85 | running the UPDATE in place leaves the fields equal to the UPDATE's meaning and keeps the invariant |
| `ScoreStore.Database.Delete` | reset-leaderboard.js:7 | running the DELETE in place leaves the fields equal to the DELETE's meaning and keeps the invariant |
| `ScoreStore.Database.AlterAddDifficulty` | fix-difficulty-column.js:17 | adding the column and then rewriting each row in a loop gives exactly the ALTER's meaning |
| `Ranking.Matching` | routes/leaderboard.js:40 | the WHERE clause keeps exactly the rows of the difficulty (all rows with no filter), each at most as often as stored |
| `Ranking.MatchingNothing` | routes/leaderboard.js:40 | with no row of the difficulty the filtered rows are empty |
| `Ranking.InsertByRank` | routes/leaderboard.js:40 | inserting into the ranking adds exactly the one record |
| `Ranking.InsertByRankSorted` | routes/leaderboard.js:40 | inserting into a ranking ordered by score descending, then created_at ascending, keeps it ordered |
| `Ranking.SortByRank` | routes/leaderboard.js:40 | ORDER BY yields a permutation of its input, ordered by score descending, then created_at ascending |
| `Ranking.TopRecords` | routes/leaderboard.js:40 | LIMIT 10: never more than ten records |
| `Ranking.TopRecordsSizeAndOrder` | routes/leaderboard.js:40 | the query lists the smaller of ten and the number of matching rows, in rank order; no matches gives none |
| `Ranking.TopRecordsMatch` | routes/leaderboard.js:40 | every listed record is a stored row of the requested difficulty, listed at most as often as it is stored |
| `Ranking.TopRecordsAreTheBest` | routes/leaderboard.js:40 | a matching row that is not listed ranks no higher than the last listed one, so the list is a prefix of the ranked matches |
| `Ranking.ListsAllWhenFew` | routes/leaderboard.js:40 | with at most ten matching rows the query lists all of them |
| `Ranking.PrefixOutranksRest` | routes/leaderboard.js:40 | in a ranked sequence, everything past a non-empty prefix ranks no higher than the prefix's last element |
| `Leaderboard.Submit` | routes/leaderboard.js:64-116 | a missing or empty name or difficulty, or a non-number score, gives 400 and no change; a failed lookup gives 500; an absent pair is inserted with a fresh id larger than every id stored; a strictly higher score replaces only that pair's score; any other score gives 200 with success false and no change; a failed write gives 500 and no change |
| `Leaderboard.PostLeaderboard` | routes/leaderboard.js:64-116 | the handler run on the database object reaches exactly the state and response of `Submit` and keeps the store invariant |
| `Leaderboard.SubmitStoresMaximum` | routes/leaderboard.js:80-110 | after a submit answered with 200, the pair's stored score is the larger of the old one and the submitted one, or the submitted one for a new pair |
| `Leaderboard.SubmitKeepsOtherPairs` | routes/leaderboard.js:72-113 | a submit never changes the stored score of any other pair |
| `Leaderboard.SubmitKeepsPairsUnique` | routes/leaderboard.js:72-113 | from a table with at most one record per pair, a submit leaves at most one record per pair |
| `Leaderboard.SubmitNeverLowersScores` | routes/leaderboard.js:82 | one submit never removes a pair's record and never lowers the score the lookup reports for any pair |
| `Leaderboard.SubmitsNeverLowerScores` | routes/leaderboard.js:80-98 | over any run of submits handled one at a time, no pair loses its record and the score the lookup reports for a pair never goes down |
| `Leaderboard.SubmitNeverLowersRows` | routes/leaderboard.js:80-98 | on a table with at most one row per pair, one submit keeps every row in place with its id, name and difficulty, and lowers no row's score |
| `Leaderboard.SubmitsNeverLowerRows` | routes/leaderboard.js:80-98 | over any run of submits on a table with at most one row per pair, no row disappears and no row's score goes down |
| `Leaderboard.DuplicatePairLowered` | routes/leaderboard.js:72-92 | with two rows of one pair scoring 50 then 90, a POST of 70 beats the first row's 50; the UPDATE sets both rows to 70, and the 90 is lost |
| `Leaderboard.SubmitsKeepPairsUnique` | routes/leaderboard.js:72-113 | over any run of submits handled one at a time, the table keeps at most one record per pair |
| `Leaderboard.Entries` | routes/leaderboard.js:40 | the projection to `name, score, created_at` has one entry per record, in the records' order (the i-th entry is the i-th record's), lists every record's entry, and lists nothing that is not some record's entry |
| `Leaderboard.RunSelect` | routes/leaderboard.js:39-48 | a SELECT fails exactly when the store fails it or when it is the filtered one and the schema lacks `difficulty`; otherwise it gives at most ten entries, each the projection of a stored row the statement admits |
| `Leaderboard.RequestedDifficulty` | routes/leaderboard.js:36 | the query uses the given difficulty when it is non-empty and `'beginner'` otherwise, so never the empty string |
| `Leaderboard.Query` | routes/leaderboard.js:35-61 | at most ten entries; the filtered SELECT for the requested difficulty is issued first; when it fails it is retried exactly once without the filter, with the same order and limit; a second failure gives 500 with an empty list; the entries are the top records of the filtered or the unfiltered query |
| `Leaderboard.QueryBodyRanked` | routes/leaderboard.js:40-57 | whichever SELECT answers, the GET body lists entries by score descending, then created_at ascending |
| `Leaderboard.QueryWithoutMatchesIsEmpty` | routes/leaderboard.js:39-57 | a difficulty without records gives status 200 and an empty list, not an error |
| `Leaderboard.InsertedScoreIsListed` | routes/leaderboard.js:99-110 | a score just inserted for a difficulty that had fewer than ten records appears in that difficulty's next listing |
| `Leaderboard.AliceScenario` | routes/leaderboard.js:35-116 | on a new table, alice's 50 is inserted with id 1, her 30 is refused, her 80 replaces the 50, and the beginner listing is alice with 80 alone |
| `Leaderboard.StartupMigrationAsWritten` | routes/leaderboard.js:24-31 | the route's schema check alters the table only if the `db.run` callback received rows without error, and then only as the ALTER does |
| `Leaderboard.StartupMigrationNeverAlters` | routes/leaderboard.js:24-31 | the route's start-up check never alters a table that lacks `difficulty`, so every well-formed POST to that table then gives 500 |
| `ScoreStore.TableInfo` | fix-difficulty-column.js:6-10 | the PRAGMA fails exactly when the store fails it; otherwise it reports exactly the schema's columns |
| `FixDifficultyColumn.ExitCode` | fix-difficulty-column.js:6-21 | the script exits with status 1 exactly when reading the columns or the ALTER failed, and with 0 otherwise |
| `FixDifficultyColumn.Migrate` | fix-difficulty-column.js:6-25 | a failed column read or a failed ALTER gives exit status 1 and leaves schema and rows unchanged; an existing column gives exit status 0 and no change; otherwise the column is appended, every existing row reads `'beginner'` with its other fields unchanged, and the store stays well formed |
| `FixDifficultyColumn.Run` | fix-difficulty-column.js:6-25 | the script run on the database object reaches exactly the state and outcome of `Migrate` |
| `FixDifficultyColumn.MigrateIsIdempotent` | fix-difficulty-column.js:11-17 | a second run after a clean first run takes the "already exists" branch and leaves schema and rows as after the first |
| `FixDifficultyColumn.DifficultyColumnNeverDuplicated` | fix-difficulty-column.js:11-17 | on a well-formed table no run gives the schema a second `difficulty` column |
| `FixDifficultyColumn.MigrateMergesNames` | fix-difficulty-column.js:17 | on a table without the column, two rows of one name become two rows of the same pair `(name, 'beginner')` |
| `FixDifficultyColumn.MigratedTableTakesScores` | fix-difficulty-column.js:17-22 | after a clean run, a well-formed POST is answered with 200 whenever the store does not fail |
| `ResetLeaderboard.Run` | reset-leaderboard.js:6-15 | the script run on the database object reaches exactly the state of the DELETE and reports whether it ran |
| `ResetLeaderboard.ResetIsIdempotent` | reset-leaderboard.js:7 | resetting a reset table changes nothing |
| `ResetLeaderboard.QueryAfterResetIsEmpty` | reset-leaderboard.js:7 | after a reset, a listing of any difficulty is empty, with or without the fallback |
| `ResetLeaderboard.SubmitAfterResetInserts` | reset-leaderboard.js:7 | after a reset, the next well-formed POST of any pair takes the insert branch, with an id not handed out before |

## Left out

- HTTP, Express routing, the `req`/`res` objects and JSON. Responses are a status and a body variant.
- The sqlite3 driver, opening the database file, SQL text and PRAGMA parsing. Each statement is a function on an abstract table.
- `CURRENT_TIMESTAMP`. It is an injected clock that advances by `elapsed` before every INSERT.
- Callbacks, asynchronous ordering and the race between concurrent POSTs for one pair. The lookup and the write at routes/leaderboard.js:72-113 are not atomic. Submits are modelled as sequential atomic steps.
- Console logging and the `db.close()` calls.
- The exit status is modelled only for the migration script. The reset script exits normally either way.
- JavaScript numbers. NaN and non-integers pass `typeof score === 'number'`, but scores are `int`.
- JSON values other than strings for `name` and `difficulty`. A truthy number or boolean passes the check at routes/leaderboard.js:67. The model has a string or nothing.
- The `Array.isArray` guards at routes/leaderboard.js:53 and 57. A SELECT that succeeds always yields a list.
- The start-up `CREATE TABLE` at routes/leaderboard.js:15-21. The table is assumed to exist. When it does not, a failing statement is covered by the injected failure.
- The comment at routes/leaderboard.js:11 about keeping only the top 100 scores. Nothing implements it.
- Ties in ORDER BY. SQLite leaves unspecified the order of rows with equal score and equal created_at. `Ranking.SortByRank` promises only a sorted permutation, and the lemmas about the listing use nothing more, so they hold for any order of such ties.
- `Leaderboard.SubmitNeverLowersScores` and `Leaderboard.SubmitsNeverLowerScores` speak of the score the lookup reports, which is the first matching row's. `Submit` never creates two rows of one pair, but the migration can (`FixDifficultyColumn.MigrateMergesNames`). With such rows, a score that beats the first row's overwrites every row of the pair, including higher ones (`Leaderboard.DuplicatePairLowered`). The row-by-row promise, `Leaderboard.SubmitsNeverLowerRows`, holds only for tables with at most one row per pair.

## Findings

| source | as written | input that shows it | evidently intended | confidence | as-written member | corrected member |
|---|---|---|---|---|---|---|
| routes/leaderboard.js:24-31 | the schema check runs `PRAGMA table_info` through `db.run`, whose callback receives no rows, so the guard `!err && rows` never holds and the `ALTER` is never issued | a table created before the `difficulty` column existed: after the route starts, the column is still absent and every well-formed POST gets 500 | read the columns with `db.all`, as fix-difficulty-column.js does, and add the column when it is absent | high, from the sqlite3 callback contract; not executed | `Leaderboard.StartupMigrationAsWritten`, `Leaderboard.StartupMigrationNeverAlters` | `FixDifficultyColumn.Migrate` |
