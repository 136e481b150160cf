/** The `scores` table of the leaderboard database and the SQL statements the
    route and the maintenance scripts issue against it.

    The table is an abstract relation: an ordered sequence of records (table
    order is insertion order), the list of column names that the schema
    declares, the AUTOINCREMENT counter and a clock that supplies
    `created_at`. Every statement either applies completely or not at all;
    whether the storage engine fails a statement is an injected boolean.
    A statement that names the `difficulty` column fails when the schema has
    no such column, as SQLite reports "no such column". */
module ScoreStore {

  datatype Option<T> = None | Some(value: T)

  /** One row of `scores`. */
  datatype ScoreRecord = ScoreRecord(id: nat, name: string, score: int, difficulty: string, createdAt: nat)

  /** A snapshot of the whole store. */
  datatype Table = Table(columns: seq<string>, rows: seq<ScoreRecord>, nextId: nat, clock: nat)

  const Difficulty := "difficulty"
  const Beginner := "beginner"

  /** The columns of the table as the route's CREATE TABLE declares them. */
  const CurrentColumns := ["id", "name", "score", "difficulty", "created_at"]

  /** A freshly created table: no rows, the first AUTOINCREMENT id is 1. */
  const EmptyTable := Table(CurrentColumns, [], 1, 0)

  /** What the store itself guarantees: ids increase in table order and lie
      below the AUTOINCREMENT counter, `created_at` never decreases in table
      order and no row was created after the clock's current reading, and
      column names are distinct. */
  predicate WellFormed(t: Table) {
    && (forall i, j :: 0 <= i < j < |t.rows| ==> t.rows[i].id < t.rows[j].id)
    && (forall i, j :: 0 <= i < j < |t.rows| ==> t.rows[i].createdAt <= t.rows[j].createdAt)
    && (forall i :: 0 <= i < |t.rows| ==> t.rows[i].id < t.nextId && t.rows[i].createdAt <= t.clock)
    && (forall i, j :: 0 <= i < j < |t.columns| ==> t.columns[i] != t.columns[j])
  }

  predicate IsPair(r: ScoreRecord, name: string, difficulty: string) {
    r.name == name && r.difficulty == difficulty
  }

  /** At most one record per (name, difficulty) pair. */
  predicate UniquePairs(rows: seq<ScoreRecord>) {
    forall i, j :: 0 <= i < j < |rows| ==>
      !(rows[i].name == rows[j].name && rows[i].difficulty == rows[j].difficulty)
  }

  /** The row `db.get` hands back for `WHERE name = ? AND difficulty = ?`:
      the first match in table order. */
  function FirstMatch(rows: seq<ScoreRecord>, name: string, difficulty: string): (r: Option<nat>)
    ensures r.Some? ==> r.value < |rows| && IsPair(rows[r.value], name, difficulty)
    ensures r.Some? ==> forall i :: 0 <= i < r.value ==> !IsPair(rows[i], name, difficulty)
    ensures r.None? <==> forall i :: 0 <= i < |rows| ==> !IsPair(rows[i], name, difficulty)
  {
    if rows == [] then None
    else if IsPair(rows[0], name, difficulty) then Some(0)
    else match FirstMatch(rows[1..], name, difficulty)
      case None => None
      case Some(i) => Some(i + 1)
  }

  /** The score the store reports for a pair, if it holds one. */
  function StoredScore(rows: seq<ScoreRecord>, name: string, difficulty: string): Option<int> {
    match FirstMatch(rows, name, difficulty)
    case None => None
    case Some(i) => Some(rows[i].score)
  }

  /** `UPDATE scores SET score = ? WHERE name = ? AND difficulty = ?` on the rows. */
  function SetScore(rows: seq<ScoreRecord>, name: string, difficulty: string, score: int): (r: seq<ScoreRecord>)
    ensures |r| == |rows|
    ensures forall i :: 0 <= i < |rows| && IsPair(rows[i], name, difficulty) ==> r[i] == rows[i].(score := score)
    ensures forall i :: 0 <= i < |rows| && !IsPair(rows[i], name, difficulty) ==> r[i] == rows[i]
  {
    if rows == [] then []
    else
      var head := if IsPair(rows[0], name, difficulty) then rows[0].(score := score) else rows[0];
      [head] + SetScore(rows[1..], name, difficulty, score)
  }

  /** Appending a row changes the lookup only for a pair that had no row. */
  lemma {:induction false} FirstMatchAppend(rows: seq<ScoreRecord>, x: ScoreRecord, name: string, difficulty: string)
    ensures FirstMatch(rows + [x], name, difficulty) ==
      if FirstMatch(rows, name, difficulty).Some? then FirstMatch(rows, name, difficulty)
      else if IsPair(x, name, difficulty) then Some(|rows|)
      else None
  {
    if rows == [] {
      assert rows + [x] == [x];
    } else {
      assert (rows + [x])[0] == rows[0];
      assert (rows + [x])[1..] == rows[1..] + [x];
      FirstMatchAppend(rows[1..], x, name, difficulty);
    }
  }

  /** The UPDATE keeps every row's name and difficulty, so every lookup
      finds the same row as before. */
  lemma {:induction false} FirstMatchSetScore(rows: seq<ScoreRecord>, name: string, difficulty: string, score: int, n: string, d: string)
    ensures FirstMatch(SetScore(rows, name, difficulty, score), n, d) == FirstMatch(rows, n, d)
  {
    if rows != [] {
      var r := SetScore(rows, name, difficulty, score);
      assert r[1..] == SetScore(rows[1..], name, difficulty, score);
      FirstMatchSetScore(rows[1..], name, difficulty, score, n, d);
    }
  }

  /** Every row as it reads once `difficulty` was added with the default
      `'beginner'`. */
  function WithDefaultDifficulty(rows: seq<ScoreRecord>): (r: seq<ScoreRecord>)
    ensures |r| == |rows|
    ensures forall i :: 0 <= i < |rows| ==> r[i] == rows[i].(difficulty := Beginner)
  {
    if rows == [] then [] else [rows[0].(difficulty := Beginner)] + WithDefaultDifficulty(rows[1..])
  }

  /** Outcome of the lookup `SELECT score FROM scores WHERE name = ? AND difficulty = ?`. */
  datatype Lookup = LookupFailed | NoMatch | Found(score: int)

  function SelectScore(t: Table, name: string, difficulty: string, fails: bool): (r: Lookup)
    ensures r.LookupFailed? <==> fails || Difficulty !in t.columns
    ensures r.NoMatch? <==> !fails && Difficulty in t.columns && StoredScore(t.rows, name, difficulty).None?
    ensures r.Found? ==> StoredScore(t.rows, name, difficulty) == Some(r.score)
  {
    if fails || Difficulty !in t.columns then LookupFailed
    else match StoredScore(t.rows, name, difficulty)
      case None => NoMatch
      case Some(s) => Found(s)
  }

  /** `INSERT INTO scores (name, score, difficulty) VALUES (?, ?, ?)`: the
      row gets the next AUTOINCREMENT id and the clock's reading, which has
      advanced by `elapsed` since the last reading. The result is the new
      row's id (`this.lastID`), or None when the statement failed. */
  function InsertRow(t: Table, name: string, score: int, difficulty: string, elapsed: nat, fails: bool): (r: (Table, Option<nat>))
    ensures r.1.None? <==> fails || Difficulty !in t.columns
    ensures r.1.None? ==> r.0 == t
    ensures r.1.Some? ==> r.1.value == t.nextId && r.0.nextId == t.nextId + 1 && r.0.columns == t.columns
    ensures r.1.Some? ==> r.0.clock >= t.clock
    ensures r.1.Some? ==> r.0.rows == t.rows + [ScoreRecord(r.1.value, name, score, difficulty, r.0.clock)]
    ensures r.1.Some? && WellFormed(t) ==> forall x :: x in t.rows ==> x.id < r.1.value && x.createdAt <= r.0.clock
    ensures WellFormed(t) ==> WellFormed(r.0)
  {
    if fails || Difficulty !in t.columns then (t, None)
    else
      var now := t.clock + elapsed;
      var id := t.nextId;
      (Table(t.columns, t.rows + [ScoreRecord(id, name, score, difficulty, now)], id + 1, now), Some(id))
  }

  /** The UPDATE statement on the whole table; the result says whether it ran. */
  function UpdateScores(t: Table, name: string, difficulty: string, score: int, fails: bool): (r: (Table, bool))
    ensures !r.1 <==> fails || Difficulty !in t.columns
    ensures !r.1 ==> r.0 == t
    ensures r.1 ==> r.0 == t.(rows := SetScore(t.rows, name, difficulty, score))
    ensures WellFormed(t) ==> WellFormed(r.0)
  {
    if fails || Difficulty !in t.columns then (t, false)
    else (t.(rows := SetScore(t.rows, name, difficulty, score)), true)
  }

  /** `DELETE FROM scores`. The AUTOINCREMENT counter is kept: SQLite never
      hands out an id again once it was used. */
  function DeleteAll(t: Table, fails: bool): (r: (Table, bool))
    ensures r.1 == !fails
    ensures !r.1 ==> r.0 == t
    ensures r.1 ==> r.0.rows == [] && r.0.columns == t.columns && r.0.nextId == t.nextId && r.0.clock == t.clock
    ensures WellFormed(t) ==> WellFormed(r.0)
  {
    if fails then (t, false) else (t.(rows := []), true)
  }

  /** `PRAGMA table_info(scores)`: the column names, or None on failure. */
  function TableInfo(t: Table, fails: bool): (r: Option<seq<string>>)
    ensures r.None? <==> fails
    ensures r.Some? ==> forall c :: c in r.value <==> c in t.columns
    ensures r.Some? ==> |r.value| == |t.columns|
  {
    if fails then None else Some(t.columns)
  }

  /** `ALTER TABLE scores ADD COLUMN difficulty TEXT DEFAULT 'beginner'`.
      SQLite refuses to add a column that already exists. */
  function AddDifficultyColumn(t: Table, fails: bool): (r: (Table, bool))
    ensures r.1 <==> !fails && Difficulty !in t.columns
    ensures !r.1 ==> r.0 == t
    ensures r.1 ==> r.0 == t.(columns := t.columns + [Difficulty], rows := WithDefaultDifficulty(t.rows))
    ensures WellFormed(t) ==> WellFormed(r.0)
  {
    if fails || Difficulty in t.columns then (t, false)
    else (t.(columns := t.columns + [Difficulty], rows := WithDefaultDifficulty(t.rows)), true)
  }

  /** The open database handle shared by the route and the scripts. Each
      method runs one statement in place; its contract ties the new state to
      the statement's meaning above. */
  class Database {
    var columns: seq<string>
    var rows: seq<ScoreRecord>
    var nextId: nat
    var clock: nat

    function Snapshot(): Table
      reads this
    {
      Table(columns, rows, nextId, clock)
    }

    predicate Valid()
      reads this
    {
      WellFormed(Snapshot())
    }

    /** Opens a database file whose store holds `initial`. */
    constructor Open(initial: Table)
      requires WellFormed(initial)
      ensures Valid() && Snapshot() == initial
    {
      columns, rows, nextId, clock := initial.columns, initial.rows, initial.nextId, initial.clock;
    }

    method Insert(name: string, score: int, difficulty: string, elapsed: nat, fails: bool) returns (id: Option<nat>)
      requires Valid()
      modifies this
      ensures Valid()
      ensures (Snapshot(), id) == InsertRow(old(Snapshot()), name, score, difficulty, elapsed, fails)
    {
      if fails || Difficulty !in columns {
        return None;
      }
      clock := clock + elapsed;
      id := Some(nextId);
      rows := rows + [ScoreRecord(nextId, name, score, difficulty, clock)];
      nextId := nextId + 1;
    }

    method Update(name: string, difficulty: string, score: int, fails: bool) returns (ok: bool)
      requires Valid()
      modifies this
      ensures Valid()
      ensures (Snapshot(), ok) == UpdateScores(old(Snapshot()), name, difficulty, score, fails)
    {
      ok := !fails && Difficulty in columns;
      if ok {
        rows := SetScore(rows, name, difficulty, score);
      }
    }

    method Delete(fails: bool) returns (ok: bool)
      requires Valid()
      modifies this
      ensures Valid()
      ensures (Snapshot(), ok) == DeleteAll(old(Snapshot()), fails)
    {
      ok := !fails;
      if ok {
        rows := [];
      }
    }

    /** Adds the column, then gives every existing row the default value,
        one row at a time. */
    method AlterAddDifficulty(fails: bool) returns (ok: bool)
      requires Valid()
      modifies this
      ensures Valid()
      ensures (Snapshot(), ok) == AddDifficultyColumn(old(Snapshot()), fails)
    {
      ok := !fails && Difficulty !in columns;
      if !ok {
        return;
      }
      columns := columns + [Difficulty];
      var i := 0;
      while i < |rows|
        invariant 0 <= i <= |rows| == |old(rows)|
        invariant rows[..i] == WithDefaultDifficulty(old(rows))[..i]
        invariant rows[i..] == old(rows)[i..]
        invariant columns == old(columns) + [Difficulty] && nextId == old(nextId) && clock == old(clock)
      {
        rows := rows[i := rows[i].(difficulty := Beginner)];
        i := i + 1;
      }
      assert rows == rows[..i];
      assert WithDefaultDifficulty(old(rows))[..i] == WithDefaultDifficulty(old(rows));
    }
  }
}
