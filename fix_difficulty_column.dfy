/** The maintenance script that adds the `difficulty` column to a table
    created before the column existed: read the column list, stop if the
    column is there, otherwise add it with the default `'beginner'`. The
    script's exit status is part of the outcome; its log lines are not
    modelled. */
module FixDifficultyColumn {
  import opened ScoreStore
  import opened Leaderboard

  datatype Outcome =
    | ReadFailed     // reading the column list failed: exit status 1
    | AlreadyExists  // nothing to do: exit status 0
    | Added          // the column was added: the script ends normally
    | AlterFailed    // the ALTER failed: exit status 1

  /** The process's exit status: 1 exactly when reading the columns or the
      ALTER failed. */
  function ExitCode(o: Outcome): (code: nat)
    ensures code == 0 || code == 1
    ensures code == 1 <==> o.ReadFailed? || o.AlterFailed?
  {
    match o
    case ReadFailed => 1
    case AlreadyExists => 0
    case Added => 0
    case AlterFailed => 1
  }

  /** The script against the store: the new table and the outcome. */
  function Migrate(t: Table, infoFails: bool, alterFails: bool): (r: (Table, Outcome))
    ensures infoFails ==> r == (t, ReadFailed)
    ensures !infoFails && Difficulty in t.columns ==> r == (t, AlreadyExists)
    ensures !infoFails && Difficulty !in t.columns && alterFails ==> r == (t, AlterFailed)
    ensures !infoFails && Difficulty !in t.columns && !alterFails ==>
      && r.1 == Added
      && r.0.columns == t.columns + [Difficulty]
      && |r.0.rows| == |t.rows|
      && (forall i :: 0 <= i < |t.rows| ==> r.0.rows[i] == t.rows[i].(difficulty := Beginner))
      && r.0.nextId == t.nextId && r.0.clock == t.clock
    // A failing run leaves schema and rows as they were.
    ensures ExitCode(r.1) == 1 ==> r.0 == t
    // Afterwards the column is there unless the run failed.
    ensures ExitCode(r.1) == 0 ==> Difficulty in r.0.columns
    ensures WellFormed(t) ==> WellFormed(r.0)
  {
    match TableInfo(t, infoFails)
    case None => (t, ReadFailed)
    case Some(columns) =>
      if Difficulty in columns then (t, AlreadyExists)
      else
        var (t', ok) := AddDifficultyColumn(t, alterFails);
        if ok then (t', Added) else (t, AlterFailed)
  }

  /** The script run against the open database. */
  method Run(db: Database, infoFails: bool, alterFails: bool) returns (outcome: Outcome)
    requires db.Valid()
    modifies db
    ensures db.Valid()
    ensures (db.Snapshot(), outcome) == Migrate(old(db.Snapshot()), infoFails, alterFails)
  {
    var columns := TableInfo(db.Snapshot(), infoFails);
    if columns.None? {
      return ReadFailed;
    }
    if Difficulty in columns.value {
      return AlreadyExists;
    }
    var ok := db.AlterAddDifficulty(alterFails);
    outcome := if ok then Added else AlterFailed;
  }

  /** Running the script a second time after a clean first run changes
      nothing and reports that the column already exists, whatever the ALTER
      would have done. */
  lemma MigrateIsIdempotent(t: Table, alterFails: bool)
    ensures var once := Migrate(t, false, false).0;
      Migrate(once, false, alterFails) == (once, AlreadyExists)
  {
  }

  /** A well-formed table carries the column once at most, before and after
      any number of runs. */
  lemma DifficultyColumnNeverDuplicated(t: Table, infoFails: bool, alterFails: bool)
    requires WellFormed(t)
    ensures var cols := Migrate(t, infoFails, alterFails).0.columns;
      forall i, j :: 0 <= i < j < |cols| && cols[i] == Difficulty ==> cols[j] != Difficulty
  {
  }

  /** What the route's start-up check meant to achieve: once the script has
      run cleanly, a well-formed POST is answered with status 200 whenever
      the store itself does not fail. */
  lemma MigratedTableTakesScores(t: Table, req: SubmitRequest, env: SubmitEnv)
    requires ValidRequest(req) && !env.selectFails && !env.writeFails
    ensures Submit(Migrate(t, false, false).0, req, env).1.status == 200
  {
  }

  /** On a table without the column, two rows of one name become two rows of
      one pair, `(name, 'beginner')`. */
  lemma MigrateMergesNames(t: Table, i: nat, j: nat)
    requires Difficulty !in t.columns
    requires i < j < |t.rows| && t.rows[i].name == t.rows[j].name
    ensures !UniquePairs(Migrate(t, false, false).0.rows)
  {
    var rows := Migrate(t, false, false).0.rows;
    assert rows[i].name == rows[j].name && rows[i].difficulty == rows[j].difficulty;
  }
}
