/** The leaderboard route: `POST /leaderboard` records a score under the
    "keep the best score per player per difficulty" rule, and
    `GET /leaderboard` lists the ten best scores of one difficulty, falling
    back once to all difficulties when the filtered query fails.

    Responses are a status code and a body variant; HTTP, JSON and Express
    are not modelled. Store failures and the passing of time are injected
    through an environment value per request. */
module Leaderboard {
  import opened ScoreStore
  import opened Ranking

  // ---------------------------------------------------------------- POST

  /** The JSON body of a POST. `None` stands for a field that is missing or
      null; a `score` of `None` is one whose `typeof` is not `'number'`. */
  datatype SubmitRequest = SubmitRequest(name: Option<string>, score: Option<int>, difficulty: Option<string>)

  datatype Body =
    | ErrorBody(error: string)       // {error}
    | InsertedBody(id: nat)          // {success: true, inserted: true, id}
    | UpdatedBody                    // {success: true, updated: true}
    | RejectedBody(message: string)  // {success: false, message}

  datatype Response = Response(status: nat, body: Body)

  const RequiredMessage := "Name, score, and difficulty are required"
  const DatabaseErrorMessage := "Database error"
  const NotHigherMessage := "New score is not higher than existing score for this difficulty."

  const BadRequest := Response(400, ErrorBody(RequiredMessage))
  const DatabaseError := Response(500, ErrorBody(DatabaseErrorMessage))

  /** What the store does to the statements of one POST: whether the lookup
      fails, whether the following INSERT or UPDATE fails, and how far the
      clock has moved since the store last read it. */
  datatype SubmitEnv = SubmitEnv(selectFails: bool, writeFails: bool, elapsed: nat)

  /** JavaScript truthiness of an optional string. */
  predicate Truthy(s: Option<string>) {
    s.Some? && s.value != ""
  }

  predicate ValidRequest(req: SubmitRequest) {
    Truthy(req.name) && req.score.Some? && Truthy(req.difficulty)
  }

  /** Whether the lookup statement runs: it names the `difficulty` column. */
  predicate LookupRuns(t: Table, env: SubmitEnv) {
    !env.selectFails && Difficulty in t.columns
  }

  /** The POST handler: the new table and the response. */
  function Submit(t: Table, req: SubmitRequest, env: SubmitEnv): (r: (Table, Response))
    // A malformed body is refused before the store is touched.
    ensures !ValidRequest(req) ==> r == (t, BadRequest)
    // A failing lookup is a server error.
    ensures ValidRequest(req) && !LookupRuns(t, env) ==> r == (t, DatabaseError)
    // A new pair is inserted with a fresh id.
    ensures ValidRequest(req) && LookupRuns(t, env) && StoredScore(t.rows, req.name.value, req.difficulty.value).None? ==>
      if env.writeFails then r == (t, DatabaseError)
      else
        && r.1 == Response(200, InsertedBody(t.nextId))
        && r.0.rows == t.rows + [ScoreRecord(t.nextId, req.name.value, req.score.value, req.difficulty.value, r.0.clock)]
        && r.0.columns == t.columns && r.0.nextId == t.nextId + 1 && r.0.clock >= t.clock
    // A strictly higher score overwrites the stored one, and nothing else.
    ensures ValidRequest(req) && LookupRuns(t, env) && StoredScore(t.rows, req.name.value, req.difficulty.value).Some? &&
            req.score.value > StoredScore(t.rows, req.name.value, req.difficulty.value).value ==>
      if env.writeFails then r == (t, DatabaseError)
      else r == (t.(rows := SetScore(t.rows, req.name.value, req.difficulty.value, req.score.value)), Response(200, UpdatedBody))
    // Any other score is refused with status 200 and the table is left alone.
    ensures ValidRequest(req) && LookupRuns(t, env) && StoredScore(t.rows, req.name.value, req.difficulty.value).Some? &&
            req.score.value <= StoredScore(t.rows, req.name.value, req.difficulty.value).value ==>
      r == (t, Response(200, RejectedBody(NotHigherMessage)))
    // Only a response of 200 goes with a changed table.
    ensures r.1.status != 200 ==> r.0 == t
    // The inserted id is above every id in the table.
    ensures WellFormed(t) && r.1.body.InsertedBody? ==> forall x :: x in t.rows ==> x.id < r.1.body.id
    ensures WellFormed(t) ==> WellFormed(r.0)
  {
    if !ValidRequest(req) then (t, BadRequest)
    else
      var name, score, difficulty := req.name.value, req.score.value, req.difficulty.value;
      match SelectScore(t, name, difficulty, env.selectFails)
      case LookupFailed => (t, DatabaseError)
      case Found(stored) =>
        if score > stored then
          var (t', ok) := UpdateScores(t, name, difficulty, score, env.writeFails);
          if ok then (t', Response(200, UpdatedBody)) else (t, DatabaseError)
        else (t, Response(200, RejectedBody(NotHigherMessage)))
      case NoMatch =>
        var (t', id) := InsertRow(t, name, score, difficulty, env.elapsed, env.writeFails);
        if id.Some? then (t', Response(200, InsertedBody(id.value))) else (t, DatabaseError)
  }

  /** The POST handler run against the open database. */
  method PostLeaderboard(db: Database, req: SubmitRequest, env: SubmitEnv) returns (resp: Response)
    requires db.Valid()
    modifies db
    ensures db.Valid()
    ensures (db.Snapshot(), resp) == Submit(old(db.Snapshot()), req, env)
  {
    if !ValidRequest(req) {
      return BadRequest;
    }
    var name, score, difficulty := req.name.value, req.score.value, req.difficulty.value;
    var found := SelectScore(db.Snapshot(), name, difficulty, env.selectFails);
    match found {
      case LookupFailed =>
        resp := DatabaseError;
      case Found(stored) =>
        if score > stored {
          var ok := db.Update(name, difficulty, score, env.writeFails);
          resp := if ok then Response(200, UpdatedBody) else DatabaseError;
        } else {
          resp := Response(200, RejectedBody(NotHigherMessage));
        }
      case NoMatch =>
        var id := db.Insert(name, score, difficulty, env.elapsed, env.writeFails);
        resp := if id.Some? then Response(200, InsertedBody(id.value)) else DatabaseError;
    }
  }

  /** A submit that the handler answers with status 200 leaves the pair's
      stored score at the larger of the old one and the submitted one. */
  lemma SubmitStoresMaximum(t: Table, req: SubmitRequest, env: SubmitEnv)
    requires ValidRequest(req) && Submit(t, req, env).1.status == 200
    ensures var name, difficulty, score := req.name.value, req.difficulty.value, req.score.value;
      StoredScore(Submit(t, req, env).0.rows, name, difficulty) ==
        match StoredScore(t.rows, name, difficulty)
        case None => Some(score)
        case Some(stored) => Some(if score > stored then score else stored)
  {
    var name, difficulty, score := req.name.value, req.difficulty.value, req.score.value;
    var after := Submit(t, req, env).0;
    match StoredScore(t.rows, name, difficulty)
    case None =>
      FirstMatchAppend(t.rows, ScoreRecord(t.nextId, name, score, difficulty, after.clock), name, difficulty);
    case Some(stored) =>
      if score > stored {
        FirstMatchSetScore(t.rows, name, difficulty, score, name, difficulty);
      }
  }

  /** A submit never changes what the store reports for any other pair. */
  lemma SubmitKeepsOtherPairs(t: Table, req: SubmitRequest, env: SubmitEnv, n: string, d: string)
    requires !(ValidRequest(req) && req.name.value == n && req.difficulty.value == d)
    ensures StoredScore(Submit(t, req, env).0.rows, n, d) == StoredScore(t.rows, n, d)
  {
    var after := Submit(t, req, env).0;
    if ValidRequest(req) && after != t {
      var name, difficulty, score := req.name.value, req.difficulty.value, req.score.value;
      if StoredScore(t.rows, name, difficulty).None? {
        FirstMatchAppend(t.rows, ScoreRecord(t.nextId, name, score, difficulty, after.clock), n, d);
      } else {
        FirstMatchSetScore(t.rows, name, difficulty, score, n, d);
      }
    }
  }

  /** Every submit keeps the table at one record per pair at most. */
  lemma SubmitKeepsPairsUnique(t: Table, req: SubmitRequest, env: SubmitEnv)
    requires UniquePairs(t.rows)
    ensures UniquePairs(Submit(t, req, env).0.rows)
  {
  }

  /** No pair loses its record, and no stored score goes down. */
  ghost predicate NoScoreLowered(before: Table, after: Table) {
    forall n, d :: StoredScore(before.rows, n, d).Some? ==>
      StoredScore(after.rows, n, d).Some? && StoredScore(before.rows, n, d).value <= StoredScore(after.rows, n, d).value
  }

  lemma SubmitNeverLowersScores(t: Table, req: SubmitRequest, env: SubmitEnv)
    ensures NoScoreLowered(t, Submit(t, req, env).0)
  {
    forall n, d | StoredScore(t.rows, n, d).Some?
      ensures StoredScore(Submit(t, req, env).0.rows, n, d).Some?
      ensures StoredScore(t.rows, n, d).value <= StoredScore(Submit(t, req, env).0.rows, n, d).value
    {
      if ValidRequest(req) && req.name.value == n && req.difficulty.value == d {
        if Submit(t, req, env).1.status == 200 {
          SubmitStoresMaximum(t, req, env);
        }
      } else {
        SubmitKeepsOtherPairs(t, req, env, n, d);
      }
    }
  }

  /** One POST: its body and what the store does to its statements. */
  datatype SubmitCall = SubmitCall(req: SubmitRequest, env: SubmitEnv)

  /** The table after the POSTs have been handled one after another. */
  function SubmitAll(t: Table, calls: seq<SubmitCall>): Table
    decreases |calls|
  {
    if calls == [] then t else SubmitAll(Submit(t, calls[0].req, calls[0].env).0, calls[1..])
  }

  /** Across any run of POSTs handled one at a time, no stored score goes
      down and no pair loses its record. */
  lemma {:induction false} SubmitsNeverLowerScores(t: Table, calls: seq<SubmitCall>)
    ensures NoScoreLowered(t, SubmitAll(t, calls))
    decreases |calls|
  {
    if calls != [] {
      var next := Submit(t, calls[0].req, calls[0].env).0;
      SubmitNeverLowersScores(t, calls[0].req, calls[0].env);
      SubmitsNeverLowerScores(next, calls[1..]);
    }
  }

  /** Across any run of POSTs handled one at a time, the table keeps at most
      one record per pair. */
  lemma {:induction false} SubmitsKeepPairsUnique(t: Table, calls: seq<SubmitCall>)
    requires UniquePairs(t.rows)
    ensures UniquePairs(SubmitAll(t, calls).rows)
    decreases |calls|
  {
    if calls != [] {
      SubmitKeepsPairsUnique(t, calls[0].req, calls[0].env);
      SubmitsKeepPairsUnique(Submit(t, calls[0].req, calls[0].env).0, calls[1..]);
    }
  }

  /** Row by row: every row is still there, in its place, with the same id,
      name and difficulty and a score no lower than before. */
  predicate NoRowLowered(before: seq<ScoreRecord>, after: seq<ScoreRecord>) {
    |before| <= |after| &&
    forall i :: 0 <= i < |before| ==>
      after[i].id == before[i].id && IsPair(after[i], before[i].name, before[i].difficulty) &&
      before[i].score <= after[i].score
  }

  /** With at most one row per pair, a submit lowers no row's score. */
  lemma SubmitNeverLowersRows(t: Table, req: SubmitRequest, env: SubmitEnv)
    requires UniquePairs(t.rows)
    ensures NoRowLowered(t.rows, Submit(t, req, env).0.rows)
  {
    var after := Submit(t, req, env).0;
    if ValidRequest(req) && after != t && StoredScore(t.rows, req.name.value, req.difficulty.value).Some? {
      var name, difficulty := req.name.value, req.difficulty.value;
      var k := FirstMatch(t.rows, name, difficulty).value;
      forall i | 0 <= i < |t.rows| && IsPair(t.rows[i], name, difficulty)
        ensures i == k
      {
        if i < k || k < i {
          assert false;
        }
      }
    }
  }

  /** Across any run of POSTs on a table with at most one row per pair, no
      row's score goes down and no row disappears. */
  lemma {:induction false} SubmitsNeverLowerRows(t: Table, calls: seq<SubmitCall>)
    requires UniquePairs(t.rows)
    ensures NoRowLowered(t.rows, SubmitAll(t, calls).rows)
    decreases |calls|
  {
    if calls != [] {
      var next := Submit(t, calls[0].req, calls[0].env).0;
      SubmitNeverLowersRows(t, calls[0].req, calls[0].env);
      SubmitKeepsPairsUnique(t, calls[0].req, calls[0].env);
      SubmitsNeverLowerRows(next, calls[1..]);
    }
  }

  /** With two rows of one pair, a score above the first row's but below the
      second's overwrites both: the 90 is lost. */
  lemma DuplicatePairLowered(elapsed: nat)
    ensures
      var low := ScoreRecord(1, "alice", 50, "beginner", 0);
      var high := ScoreRecord(2, "alice", 90, "beginner", 0);
      var t := Table(CurrentColumns, [low, high], 3, 0);
      Submit(t, SubmitRequest(Some("alice"), Some(70), Some("beginner")), SubmitEnv(false, false, elapsed))
        == (t.(rows := [low.(score := 70), high.(score := 70)]), Response(200, UpdatedBody))
  {
    var low := ScoreRecord(1, "alice", 50, "beginner", 0);
    var high := ScoreRecord(2, "alice", 90, "beginner", 0);
    assert StoredScore([low, high], "alice", "beginner") == Some(50);
    assert SetScore([low, high], "alice", "beginner", 70) == [low.(score := 70), high.(score := 70)];
  }

  // ----------------------------------------------------------------- GET

  /** One entry of the GET response: `{name, score, created_at}`. */
  datatype Entry = Entry(name: string, score: int, createdAt: nat)

  /** The projection `SELECT name, score, created_at`, record by record. */
  function Entries(records: seq<ScoreRecord>): (r: seq<Entry>)
    ensures |r| == |records|
    // The i-th entry is the i-th record's, so the ORDER BY carries over.
    ensures forall i :: 0 <= i < |r| ==> r[i] == EntryOf(records[i])
    ensures forall x :: x in records ==> EntryOf(x) in r
    ensures forall e :: e in r ==> exists x :: x in records && e == EntryOf(x)
  {
    if records == [] then []
    else
      var rest := Entries(records[1..]);
      assert records == [records[0]] + records[1..];
      [EntryOf(records[0])] + rest
  }

  function EntryOf(x: ScoreRecord): Entry {
    Entry(x.name, x.score, x.createdAt)
  }

  /** The two SELECT statements the GET handler can issue. */
  datatype Select = ByDifficulty(difficulty: string) | AllDifficulties

  /** Whether each of the two SELECT statements fails in the store. */
  datatype QueryEnv = QueryEnv(filteredFails: bool, fallbackFails: bool)

  /** The response, and the statements issued to reach it, in order. */
  datatype QueryResponse = QueryResponse(status: nat, body: seq<Entry>, selects: seq<Select>)

  /** `req.query.difficulty || 'beginner'`. */
  function RequestedDifficulty(param: Option<string>): (d: string)
    ensures d != ""
    ensures Truthy(param) ==> d == param.value
    ensures !Truthy(param) ==> d == Beginner
  {
    if Truthy(param) then param.value else Beginner
  }

  /** Whether the filtered SELECT runs: it names the `difficulty` column. */
  predicate FilteredRuns(t: Table, env: QueryEnv) {
    !env.filteredFails && Difficulty in t.columns
  }

  /** Runs one of the two SELECT statements: None when it fails, otherwise
      the listed entries. */
  function RunSelect(t: Table, s: Select, fails: bool): (r: Option<seq<Entry>>)
    // Only the filtered statement names `difficulty`.
    ensures r.None? <==> fails || (s.ByDifficulty? && Difficulty !in t.columns)
    ensures r.Some? ==> |r.value| <= PageSize
    // Every entry is the projection of a stored row the statement admits.
    ensures r.Some? ==> forall e :: e in r.value ==>
      exists x :: x in t.rows && Admits(SelectFilter(s), x) && e == EntryOf(x)
  {
    if fails || (s.ByDifficulty? && Difficulty !in t.columns) then None
    else
      var top := TopRecords(t.rows, SelectFilter(s));
      TopRecordsMatch(t.rows, SelectFilter(s));
      Some(Entries(top))
  }

  /** The WHERE clause of a SELECT. */
  function SelectFilter(s: Select): Option<string> {
    match s
    case ByDifficulty(d) => Some(d)
    case AllDifficulties => None
  }

  /** The GET handler. */
  function Query(t: Table, param: Option<string>, env: QueryEnv): (r: QueryResponse)
    ensures |r.body| <= PageSize
    ensures r.status == 200 || r.status == 500
    ensures r.status == 500 ==> r.body == []
    // The filtered query is always issued first, for the requested difficulty.
    ensures 1 <= |r.selects| <= 2 && r.selects[0] == ByDifficulty(RequestedDifficulty(param))
    // It is retried exactly once, unfiltered, when it fails; never again.
    ensures |r.selects| == 2 <==> !FilteredRuns(t, env)
    ensures |r.selects| == 2 ==> r.selects[1] == AllDifficulties
    ensures r.status == 500 <==> !FilteredRuns(t, env) && env.fallbackFails
    ensures FilteredRuns(t, env) ==> r.body == Entries(TopRecords(t.rows, Some(RequestedDifficulty(param))))
    ensures !FilteredRuns(t, env) && !env.fallbackFails ==> r.body == Entries(TopRecords(t.rows, None))
  {
    var d := RequestedDifficulty(param);
    match RunSelect(t, ByDifficulty(d), env.filteredFails)
    case Some(rows) => QueryResponse(200, rows, [ByDifficulty(d)])
    case None =>
      match RunSelect(t, AllDifficulties, env.fallbackFails)
      case Some(rows2) => QueryResponse(200, rows2, [ByDifficulty(d), AllDifficulties])
      case None => QueryResponse(500, [], [ByDifficulty(d), AllDifficulties])
  }

  /** The entries are listed by score descending, then created_at ascending. */
  predicate EntriesRanked(s: seq<Entry>) {
    forall i, j :: 0 <= i < j < |s| ==>
      s[i].score > s[j].score || (s[i].score == s[j].score && s[i].createdAt <= s[j].createdAt)
  }

  /** Whichever statement answers, the GET body is in the ORDER BY's order. */
  lemma QueryBodyRanked(t: Table, param: Option<string>, env: QueryEnv)
    ensures EntriesRanked(Query(t, param, env).body)
  {
    var filter := if FilteredRuns(t, env) then Some(RequestedDifficulty(param)) else None;
    TopRecordsSizeAndOrder(t.rows, filter);
  }

  /** A difficulty nobody has played yet lists as an empty leaderboard with
      status 200. */
  lemma QueryWithoutMatchesIsEmpty(t: Table, param: Option<string>, env: QueryEnv)
    requires FilteredRuns(t, env)
    requires forall x :: x in t.rows ==> x.difficulty != RequestedDifficulty(param)
    ensures Query(t, param, env) == QueryResponse(200, [], [ByDifficulty(RequestedDifficulty(param))])
  {
    var filter := Some(RequestedDifficulty(param));
    MatchingNothing(t.rows, filter);
    TopRecordsSizeAndOrder(t.rows, filter);
    assert TopRecords(t.rows, filter) == [];
    assert Entries([]) == [];
  }

  /** A score inserted for a difficulty that had fewer than ten records
      appears on that difficulty's leaderboard. */
  lemma InsertedScoreIsListed(t: Table, req: SubmitRequest, env: SubmitEnv, qenv: QueryEnv)
    requires ValidRequest(req) && Submit(t, req, env).1.body.InsertedBody?
    requires |Matching(t.rows, req.difficulty)| < PageSize
    requires !qenv.filteredFails
    ensures var after := Submit(t, req, env).0;
      Entry(req.name.value, req.score.value, after.clock) in Query(after, req.difficulty, qenv).body
  {
    var after := Submit(t, req, env).0;
    var d := req.difficulty.value;
    var x := ScoreRecord(t.nextId, req.name.value, req.score.value, d, after.clock);
    assert after.rows == t.rows + [x];
    MatchingAppend(t.rows, x, Some(d));
    assert x in Matching(after.rows, Some(d));
    ListsAllWhenFew(after.rows, Some(d));
    var top := TopRecords(after.rows, Some(d));
    assert x in multiset(top);
  }

  lemma {:induction false} MatchingAppend(rows: seq<ScoreRecord>, x: ScoreRecord, filter: Option<string>)
    ensures Matching(rows + [x], filter) == Matching(rows, filter) + (if Admits(filter, x) then [x] else [])
  {
    if rows == [] {
      assert rows + [x] == [x];
    } else {
      assert (rows + [x])[1..] == rows[1..] + [x];
      MatchingAppend(rows[1..], x, filter);
    }
  }

  // ------------------------------------------------------------ scenario

  /** Three POSTs for alice on a new table, then a GET: inserted with id 1,
      refused, raised to 80, listed once with 80. */
  lemma AliceScenario(elapsed: nat)
    ensures
      var ok := SubmitEnv(false, false, elapsed);
      var alice, beginner := Some("alice"), Some("beginner");
      var (t1, r1) := Submit(EmptyTable, SubmitRequest(alice, Some(50), beginner), ok);
      var (t2, r2) := Submit(t1, SubmitRequest(alice, Some(30), beginner), ok);
      var (t3, r3) := Submit(t2, SubmitRequest(alice, Some(80), beginner), ok);
      && r1 == Response(200, InsertedBody(1))
      && r2 == Response(200, RejectedBody(NotHigherMessage))
      && r3 == Response(200, UpdatedBody)
      && Query(t3, beginner, QueryEnv(false, false)).body == [Entry("alice", 80, elapsed)]
  {
    var first := ScoreRecord(1, "alice", 50, "beginner", elapsed);
    var t1 := Table(CurrentColumns, [first], 2, elapsed);
    var t3 := t1.(rows := [first.(score := 80)]);
    AliceFirst(elapsed, first, t1);
    AliceSecond(elapsed, first, t1);
    AliceThird(elapsed, first, t1, t3);
    AliceListing(t3);
  }

  lemma AliceFirst(elapsed: nat, first: ScoreRecord, t1: Table)
    requires first == ScoreRecord(1, "alice", 50, "beginner", elapsed)
    requires t1 == Table(CurrentColumns, [first], 2, elapsed)
    ensures Submit(EmptyTable, SubmitRequest(Some("alice"), Some(50), Some("beginner")), SubmitEnv(false, false, elapsed))
      == (t1, Response(200, InsertedBody(1)))
  {
    assert StoredScore(EmptyTable.rows, "alice", "beginner").None?;
    assert EmptyTable.rows + [first] == [first];
    assert InsertRow(EmptyTable, "alice", 50, "beginner", elapsed, false) == (t1, Some(1));
  }

  lemma AliceSecond(elapsed: nat, first: ScoreRecord, t1: Table)
    requires first == ScoreRecord(1, "alice", 50, "beginner", elapsed)
    requires t1 == Table(CurrentColumns, [first], 2, elapsed)
    ensures Submit(t1, SubmitRequest(Some("alice"), Some(30), Some("beginner")), SubmitEnv(false, false, elapsed))
      == (t1, Response(200, RejectedBody(NotHigherMessage)))
  {
    assert StoredScore(t1.rows, "alice", "beginner") == Some(50);
  }

  lemma AliceThird(elapsed: nat, first: ScoreRecord, t1: Table, t3: Table)
    requires first == ScoreRecord(1, "alice", 50, "beginner", elapsed)
    requires t1 == Table(CurrentColumns, [first], 2, elapsed)
    requires t3 == t1.(rows := [first.(score := 80)])
    ensures Submit(t1, SubmitRequest(Some("alice"), Some(80), Some("beginner")), SubmitEnv(false, false, elapsed))
      == (t3, Response(200, UpdatedBody))
  {
    assert StoredScore(t1.rows, "alice", "beginner") == Some(50);
    assert SetScore(t1.rows, "alice", "beginner", 80) == t3.rows;
  }

  lemma AliceListing(t3: Table)
    requires Difficulty in t3.columns && |t3.rows| == 1
    requires t3.rows[0].name == "alice" && t3.rows[0].score == 80 && t3.rows[0].difficulty == "beginner"
    ensures Query(t3, Some("beginner"), QueryEnv(false, false)).body == [Entry("alice", 80, t3.rows[0].createdAt)]
  {
    assert t3.rows == [t3.rows[0]];
    assert Matching(t3.rows, Some("beginner")) == t3.rows;
    assert SortByRank(t3.rows) == t3.rows;
    assert TopRecords(t3.rows, Some("beginner")) == t3.rows;
  }

  // -------------------------------------------------------------- finding

  /** `db.run` passes its callback no rows: the PRAGMA's result as the
      in-route schema check receives it. */
  const RunCallbackRows: Option<seq<string>> := None

  /** The start-up schema check of the route as written: the ALTER runs only
      when the callback received the column list without error, which with
      `db.run` never happens. */
  function StartupMigrationAsWritten(t: Table, pragmaFails: bool, alterFails: bool): (r: Table)
    // The guard `!err && rows`: only a callback that received rows can alter.
    ensures r != t ==> !pragmaFails && RunCallbackRows.Some?
    ensures r != t ==> r == AddDifficultyColumn(t, alterFails).0
  {
    var received := if pragmaFails then None else RunCallbackRows;
    match received
    case Some(columns) => if Difficulty !in columns then AddDifficultyColumn(t, alterFails).0 else t
    case None => t
  }

  /** The route's start-up check leaves a table without `difficulty` as it
      is, so every well-formed POST to it then fails with a server error. */
  lemma StartupMigrationNeverAlters(t: Table, pragmaFails: bool, alterFails: bool, req: SubmitRequest, env: SubmitEnv)
    requires Difficulty !in t.columns && ValidRequest(req)
    ensures StartupMigrationAsWritten(t, pragmaFails, alterFails) == t
    ensures Submit(StartupMigrationAsWritten(t, pragmaFails, alterFails), req, env) == (t, DatabaseError)
  {
  }
}
