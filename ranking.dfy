/** The ordering and limit of the leaderboard's SELECT statements:
    `ORDER BY score DESC, created_at ASC LIMIT 10`, optionally after
    `WHERE difficulty = ?`. */
module Ranking {
  import opened ScoreStore

  /** The LIMIT of both leaderboard queries. */
  const PageSize := 10

  /** `a` may be listed before `b`: a higher score, or the same score
      reached no later. */
  predicate RanksBefore(a: ScoreRecord, b: ScoreRecord) {
    a.score > b.score || (a.score == b.score && a.createdAt <= b.createdAt)
  }

  predicate Sorted(s: seq<ScoreRecord>) {
    forall i, j :: 0 <= i < j < |s| ==> RanksBefore(s[i], s[j])
  }

  /** Whether a row passes the optional `WHERE difficulty = ?`. */
  predicate Admits(filter: Option<string>, r: ScoreRecord) {
    filter.None? || r.difficulty == filter.value
  }

  /** The rows a query considers, in table order. */
  function Matching(rows: seq<ScoreRecord>, filter: Option<string>): (r: seq<ScoreRecord>)
    ensures forall x :: x in r <==> x in rows && Admits(filter, x)
    ensures multiset(r) <= multiset(rows)
    ensures filter.None? ==> r == rows
  {
    if rows == [] then []
    else
      var rest := Matching(rows[1..], filter);
      assert rows == [rows[0]] + rows[1..];
      if Admits(filter, rows[0]) then [rows[0]] + rest else rest
  }

  lemma {:induction false} MatchingNothing(rows: seq<ScoreRecord>, filter: Option<string>)
    requires forall x :: x in rows ==> !Admits(filter, x)
    ensures Matching(rows, filter) == []
  {
    if rows != [] {
      assert rows[0] in rows;
      MatchingNothing(rows[1..], filter);
    }
  }

  /** Places `x` before the first element it ranks before. */
  function InsertByRank(x: ScoreRecord, s: seq<ScoreRecord>): (r: seq<ScoreRecord>)
    ensures multiset(r) == multiset(s) + multiset{x}
    ensures |r| == |s| + 1
  {
    if s == [] then [x]
    else if RanksBefore(x, s[0]) then [x] + s
    else
      assert s == [s[0]] + s[1..];
      [s[0]] + InsertByRank(x, s[1..])
  }

  /** `a` ranks before every element of `s`. */
  predicate RanksBeforeAll(a: ScoreRecord, s: seq<ScoreRecord>) {
    forall j :: 0 <= j < |s| ==> RanksBefore(a, s[j])
  }

  lemma {:induction false} InsertByRankBounded(a: ScoreRecord, x: ScoreRecord, s: seq<ScoreRecord>)
    requires RanksBeforeAll(a, s) && RanksBefore(a, x)
    ensures RanksBeforeAll(a, InsertByRank(x, s))
  {
    if s != [] && !RanksBefore(x, s[0]) {
      InsertByRankBounded(a, x, s[1..]);
    }
  }

  /** Inserting into a sorted sequence keeps it sorted. */
  lemma {:induction false} InsertByRankSorted(x: ScoreRecord, s: seq<ScoreRecord>)
    requires Sorted(s)
    ensures Sorted(InsertByRank(x, s))
  {
    if s == [] {
    } else if RanksBefore(x, s[0]) {
      assert RanksBeforeAll(x, s);
      SortedCons(x, s);
    } else {
      var rest := InsertByRank(x, s[1..]);
      InsertByRankSorted(x, s[1..]);
      assert RanksBeforeAll(s[0], s[1..]);
      InsertByRankBounded(s[0], x, s[1..]);
      SortedCons(s[0], rest);
    }
  }

  lemma SortedCons(a: ScoreRecord, s: seq<ScoreRecord>)
    requires RanksBeforeAll(a, s) && Sorted(s)
    ensures Sorted([a] + s)
  {
  }

  /** Orders rows by rank. Of rows that tie on score and `created_at`,
      SQLite may list either first; nothing below depends on the order this
      sort gives them. */
  function SortByRank(s: seq<ScoreRecord>): (r: seq<ScoreRecord>)
    ensures multiset(r) == multiset(s)
    ensures |r| == |s|
    ensures Sorted(r)
  {
    if s == [] then []
    else
      assert s == [s[0]] + s[1..];
      var rest := SortByRank(s[1..]);
      InsertByRankSorted(s[0], rest);
      InsertByRank(s[0], rest)
  }

  function Min(a: int, b: int): int {
    if a <= b then a else b
  }

  /** The records a leaderboard query returns, best first: a prefix of the
      matching rows in rank order. */
  function TopRecords(rows: seq<ScoreRecord>, filter: Option<string>): (top: seq<ScoreRecord>)
    ensures |top| <= PageSize
  {
    var sorted := SortByRank(Matching(rows, filter));
    sorted[..Min(PageSize, |sorted|)]
  }

  /** A query lists as many rows as match, up to the limit, best first. */
  lemma TopRecordsSizeAndOrder(rows: seq<ScoreRecord>, filter: Option<string>)
    ensures |TopRecords(rows, filter)| == Min(PageSize, |Matching(rows, filter)|)
    ensures Sorted(TopRecords(rows, filter))
  {
  }

  /** A query lists only matching rows, each at most as often as it is
      stored. */
  lemma TopRecordsMatch(rows: seq<ScoreRecord>, filter: Option<string>)
    ensures multiset(TopRecords(rows, filter)) <= multiset(Matching(rows, filter))
    ensures forall x :: x in TopRecords(rows, filter) ==> x in rows && Admits(filter, x)
  {
    var matching := Matching(rows, filter);
    var sorted := SortByRank(matching);
    var top := sorted[..Min(PageSize, |sorted|)];
    PrefixMultiset(sorted, Min(PageSize, |sorted|));
    forall x | x in top
      ensures x in rows && Admits(filter, x)
    {
      assert x in multiset(top);
      assert x in multiset(matching);
    }
  }

  lemma PrefixMultiset(s: seq<ScoreRecord>, k: nat)
    requires k <= |s|
    ensures multiset(s[..k]) <= multiset(s)
  {
    assert s == s[..k] + s[k..];
  }

  /** No matching row that a query leaves out ranks above the last row it
      lists. */
  lemma TopRecordsAreTheBest(rows: seq<ScoreRecord>, filter: Option<string>, m: ScoreRecord)
    requires m in rows && Admits(filter, m) && m !in TopRecords(rows, filter)
    ensures |TopRecords(rows, filter)| > 0
    ensures RanksBefore(TopRecords(rows, filter)[|TopRecords(rows, filter)| - 1], m)
  {
    var matching := Matching(rows, filter);
    var sorted := SortByRank(matching);
    var k := Min(PageSize, |sorted|);
    assert m in matching;
    assert m in multiset(sorted);
    PrefixOutranksRest(sorted, k);
  }

  /** With no more matching rows than the limit, a query lists them all. */
  lemma ListsAllWhenFew(rows: seq<ScoreRecord>, filter: Option<string>)
    requires |Matching(rows, filter)| <= PageSize
    ensures multiset(TopRecords(rows, filter)) == multiset(Matching(rows, filter))
  {
    var sorted := SortByRank(Matching(rows, filter));
    assert sorted[..|sorted|] == sorted;
  }

  /** In a sorted sequence, every element past a prefix ranks no higher than
      the prefix's last element. */
  lemma PrefixOutranksRest(s: seq<ScoreRecord>, k: nat)
    requires Sorted(s) && k <= |s|
    requires s != [] ==> k > 0
    ensures multiset(s[..k]) <= multiset(s)
    ensures forall m :: m in s && m !in s[..k] ==> k > 0 && RanksBefore(s[k - 1], m)
  {
    PrefixMultiset(s, k);
    forall m | m in s && m !in s[..k]
      ensures k > 0 && RanksBefore(s[k - 1], m)
    {
      var idx :| 0 <= idx < |s| && s[idx] == m;
      assert k - 1 < idx;
    }
  }
}
