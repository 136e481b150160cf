/** The maintenance script that empties the leaderboard with
    `DELETE FROM scores`. It logs success or failure and exits normally
    either way; its outcome is whether the statement ran. */
module ResetLeaderboard {
  import opened ScoreStore
  import opened Leaderboard

  /** The script run against the open database. */
  method Run(db: Database, fails: bool) returns (ok: bool)
    requires db.Valid()
    modifies db
    ensures db.Valid()
    ensures (db.Snapshot(), ok) == DeleteAll(old(db.Snapshot()), fails)
  {
    ok := db.Delete(fails);
  }

  /** Resetting an empty leaderboard leaves it empty and otherwise as it was. */
  lemma ResetIsIdempotent(t: Table)
    ensures var once := DeleteAll(t, false).0;
      DeleteAll(once, false) == (once, true)
  {
  }

  /** After a reset every difficulty lists as empty, whether or not the
      query has to fall back. */
  lemma QueryAfterResetIsEmpty(t: Table, param: Option<string>, env: QueryEnv)
    ensures Query(DeleteAll(t, false).0, param, env).body == []
  {
  }

  /** After a reset the next well-formed POST of any pair takes the insert
      branch, with an id the table has not handed out before. */
  lemma SubmitAfterResetInserts(t: Table, req: SubmitRequest, env: SubmitEnv)
    requires ValidRequest(req) && LookupRuns(t, env) && !env.writeFails
    ensures Submit(DeleteAll(t, false).0, req, env).1 == Response(200, InsertedBody(t.nextId))
  {
  }
}
