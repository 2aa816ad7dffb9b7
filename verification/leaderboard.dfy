/**
  The cross-round leaderboard of the session: each report of round winners
  is merged in (add to the viewer's entry, or append a new one), and the
  board is then stably sorted by descending score. `!rank` looks a viewer up.
 */
module Leaderboard {
  import opened Types
  import opened Sums
  import StableSort

  function EntryId(e: LeaderboardEntry): string { e.user.userId }

  /** Ascending by this key is descending by score. */
  function RankKey(e: LeaderboardEntry): int { -e.score }

  function EntryScore(e: LeaderboardEntry): int { e.score }

  function WinnerScore(w: RoundWinner): int { w.score }

  /** The score an entry contributes to viewer `userId`. */
  function ScoreOfUser(userId: string): LeaderboardEntry -> int {
    (e: LeaderboardEntry) => if e.user.userId == userId then e.score else 0
  }

  /** The points a winner record brings viewer `userId`. */
  function PointsOfUser(userId: string): RoundWinner -> int {
    (w: RoundWinner) => if w.user.userId == userId then w.score else 0
  }

  /** Viewer `userId`'s total on the board: the sum of the scores of their entries. */
  function UserTotal(lb: seq<LeaderboardEntry>, userId: string): int {
    SumBy(lb, ScoreOfUser(userId))
  }

  function Ids(lb: seq<LeaderboardEntry>): set<string> {
    set i | 0 <= i < |lb| :: lb[i].user.userId
  }

  function WinnerIds(ws: seq<RoundWinner>): set<string> {
    set i | 0 <= i < |ws| :: ws[i].user.userId
  }

  ghost predicate UniqueIds(lb: seq<LeaderboardEntry>) {
    StableSort.Distinct(lb, EntryId)
  }

  /** Highest score first. */
  ghost predicate Descending(lb: seq<LeaderboardEntry>) {
    forall i, j :: 0 <= i < j < |lb| ==> lb[i].score >= lb[j].score
  }

  /** `findIndex` by userId: the first entry of the viewer, or -1. */
  function FindUser(lb: seq<LeaderboardEntry>, userId: string): (i: int)
    ensures -1 <= i < |lb|
    ensures i >= 0 ==> lb[i].user.userId == userId
    ensures forall j :: 0 <= j < |lb| && (i == -1 || j < i) ==> lb[j].user.userId != userId
  {
    if |lb| == 0 then -1
    else if lb[0].user.userId == userId then 0
    else
      var j := FindUser(lb[1..], userId);
      if j == -1 then -1 else j + 1
  }

  /** One winner: add the points to the viewer's first entry, or append a new entry. */
  function AddWinner(lb: seq<LeaderboardEntry>, w: RoundWinner): seq<LeaderboardEntry> {
    var i := FindUser(lb, w.user.userId);
    if i >= 0 then lb[i := lb[i].(score := lb[i].score + w.score)]
    else lb + [LeaderboardEntry(w.user, w.score)]
  }

  /** The winners one after another, before sorting. */
  function AddAll(lb: seq<LeaderboardEntry>, ws: seq<RoundWinner>): seq<LeaderboardEntry>
    decreases |ws|
  {
    if |ws| == 0 then lb else AddAll(AddWinner(lb, ws[0]), ws[1..])
  }

  lemma AddWinnerFacts(lb: seq<LeaderboardEntry>, w: RoundWinner)
    ensures forall u :: UserTotal(AddWinner(lb, w), u) == UserTotal(lb, u) + PointsOfUser(u)(w)
    ensures SumBy(AddWinner(lb, w), EntryScore) == SumBy(lb, EntryScore) + w.score
    ensures Ids(AddWinner(lb, w)) == Ids(lb) + {w.user.userId}
    ensures UniqueIds(lb) ==> UniqueIds(AddWinner(lb, w))
  {
    var i := FindUser(lb, w.user.userId);
    var r := AddWinner(lb, w);
    if i >= 0 {
      var e := lb[i].(score := lb[i].score + w.score);
      forall u ensures UserTotal(r, u) == UserTotal(lb, u) + PointsOfUser(u)(w) {
        SumByUpdate(lb, i, e, ScoreOfUser(u));
      }
      SumByUpdate(lb, i, e, EntryScore);
      assert forall j :: 0 <= j < |r| ==> r[j].user.userId == lb[j].user.userId;
    } else {
      var e := LeaderboardEntry(w.user, w.score);
      forall u ensures UserTotal(r, u) == UserTotal(lb, u) + PointsOfUser(u)(w) {
        SumByConcat(lb, [e], ScoreOfUser(u));
      }
      SumByConcat(lb, [e], EntryScore);
      assert forall j :: 0 <= j < |lb| ==> r[j] == lb[j];
      assert r[|lb|] == e;
      assert Ids(r) == Ids(lb) + {w.user.userId} by {
        forall x | x in Ids(r) ensures x in Ids(lb) + {w.user.userId} {
          var j :| 0 <= j < |r| && r[j].user.userId == x;
          if j < |lb| {
            assert lb[j].user.userId == x;
          }
        }
        forall x | x in Ids(lb) + {w.user.userId} ensures x in Ids(r) {
          if x == w.user.userId {
            assert r[|lb|].user.userId == x;
          } else {
            var j :| 0 <= j < |lb| && lb[j].user.userId == x;
            assert r[j].user.userId == x;
          }
        }
      }
    }
  }

  lemma {:induction false} AddAllFacts(lb: seq<LeaderboardEntry>, ws: seq<RoundWinner>)
    ensures forall u :: UserTotal(AddAll(lb, ws), u) == UserTotal(lb, u) + SumBy(ws, PointsOfUser(u))
    ensures SumBy(AddAll(lb, ws), EntryScore) == SumBy(lb, EntryScore) + SumBy(ws, WinnerScore)
    ensures Ids(AddAll(lb, ws)) == Ids(lb) + WinnerIds(ws)
    ensures UniqueIds(lb) ==> UniqueIds(AddAll(lb, ws))
    decreases |ws|
  {
    if |ws| > 0 {
      AddWinnerFacts(lb, ws[0]);
      AddAllFacts(AddWinner(lb, ws[0]), ws[1..]);
      assert WinnerIds(ws) == {ws[0].user.userId} + WinnerIds(ws[1..]) by {
        forall x | x in WinnerIds(ws) ensures x in {ws[0].user.userId} + WinnerIds(ws[1..]) {
          var j :| 0 <= j < |ws| && ws[j].user.userId == x;
          if j > 0 {
            assert ws[1..][j - 1].user.userId == x;
          }
        }
        forall x | x in WinnerIds(ws[1..]) ensures x in WinnerIds(ws) {
          var j :| 0 <= j < |ws[1..]| && ws[1..][j].user.userId == x;
          assert ws[j + 1].user.userId == x;
        }
        assert ws[0].user.userId in WinnerIds(ws);
      }
    }
  }

  lemma SameElementsSameIds(a: seq<LeaderboardEntry>, b: seq<LeaderboardEntry>)
    requires multiset(a) == multiset(b)
    ensures Ids(a) == Ids(b)
  {
    forall x | x in Ids(a) ensures x in Ids(b) {
      var j :| 0 <= j < |a| && a[j].user.userId == x;
      assert a[j] in multiset(b);
      var k :| 0 <= k < |b| && b[k] == a[j];
    }
    forall x | x in Ids(b) ensures x in Ids(a) {
      var j :| 0 <= j < |b| && b[j].user.userId == x;
      assert b[j] in multiset(a);
      var k :| 0 <= k < |a| && a[k] == b[j];
    }
  }

  /**
    `handleScoresCalculated`: every winner's points go to the viewer's entry
    (or a new one); then the board is sorted by descending score, entries
    with equal scores keeping their order.
   */
  function Merge(lb: seq<LeaderboardEntry>, ws: seq<RoundWinner>): (r: seq<LeaderboardEntry>)
    ensures Descending(r)
    ensures forall k :: StableSort.KeyFilter(r, RankKey, k) == StableSort.KeyFilter(AddAll(lb, ws), RankKey, k)
    ensures forall u :: UserTotal(r, u) == UserTotal(lb, u) + SumBy(ws, PointsOfUser(u))
    ensures SumBy(r, EntryScore) == SumBy(lb, EntryScore) + SumBy(ws, WinnerScore)
    ensures Ids(r) == Ids(lb) + WinnerIds(ws)
    ensures UniqueIds(lb) ==> UniqueIds(r)
  {
    var merged := AddAll(lb, ws);
    var r := StableSort.SortBy(merged, RankKey);
    AddAllFacts(lb, ws);
    SortFacts(merged);
    r
  }

  lemma SortFacts(merged: seq<LeaderboardEntry>)
    ensures Descending(StableSort.SortBy(merged, RankKey))
    ensures forall k :: StableSort.KeyFilter(StableSort.SortBy(merged, RankKey), RankKey, k)
                        == StableSort.KeyFilter(merged, RankKey, k)
    ensures forall u :: UserTotal(StableSort.SortBy(merged, RankKey), u) == UserTotal(merged, u)
    ensures SumBy(StableSort.SortBy(merged, RankKey), EntryScore) == SumBy(merged, EntryScore)
    ensures Ids(StableSort.SortBy(merged, RankKey)) == Ids(merged)
    ensures UniqueIds(merged) ==> UniqueIds(StableSort.SortBy(merged, RankKey))
  {
    var r := StableSort.SortBy(merged, RankKey);
    forall i, j | 0 <= i < j < |r| ensures r[i].score >= r[j].score {
      assert RankKey(r[i]) <= RankKey(r[j]);
    }
    forall k ensures StableSort.KeyFilter(r, RankKey, k) == StableSort.KeyFilter(merged, RankKey, k) {
      StableSort.SortByIsStable(merged, RankKey, k);
    }
    forall u ensures UserTotal(r, u) == UserTotal(merged, u) {
      StableSort.SortByKeepsSum(merged, RankKey, ScoreOfUser(u));
    }
    StableSort.SortByKeepsSum(merged, RankKey, EntryScore);
    SameElementsSameIds(r, merged);
    if UniqueIds(merged) {
      StableSort.SortByKeepsDistinct(merged, RankKey, EntryId);
    }
  }

  /** On a board without duplicate viewers, a viewer's total is the score of their one entry. */
  lemma {:induction false} TotalIsEntryScore(lb: seq<LeaderboardEntry>, userId: string)
    requires UniqueIds(lb)
    ensures FindUser(lb, userId) == -1 ==> UserTotal(lb, userId) == 0
    ensures FindUser(lb, userId) >= 0 ==> UserTotal(lb, userId) == lb[FindUser(lb, userId)].score
    decreases |lb|
  {
    if |lb| > 0 {
      assert UniqueIds(lb[1..]) by {
        forall i, j | 0 <= i < j < |lb[1..]| ensures EntryId(lb[1..][i]) != EntryId(lb[1..][j]) {
          assert lb[1..][i] == lb[i + 1] && lb[1..][j] == lb[j + 1];
        }
      }
      TotalIsEntryScore(lb[1..], userId);
      if lb[0].user.userId == userId {
        assert FindUser(lb[1..], userId) == -1 by {
          forall j | 0 <= j < |lb[1..]| ensures lb[1..][j].user.userId != userId {
            assert EntryId(lb[0]) != EntryId(lb[j + 1]);
          }
        }
      }
    }
  }

  /**
    Merging is order-independent across rounds: two reports in a row give
    every viewer the same total as one report of both winner lists.
   */
  lemma MergeTwiceIsMergeOfBoth(lb: seq<LeaderboardEntry>, a: seq<RoundWinner>, b: seq<RoundWinner>, u: string)
    ensures UserTotal(Merge(Merge(lb, a), b), u) == UserTotal(Merge(lb, a + b), u)
  {
    SumByConcat(a, b, PointsOfUser(u));
  }

  /** Viewers without a winner record keep their total and their presence on the board. */
  lemma UnnamedEntriesUnchanged(lb: seq<LeaderboardEntry>, ws: seq<RoundWinner>, u: string)
    requires u !in WinnerIds(ws)
    ensures UserTotal(Merge(lb, ws), u) == UserTotal(lb, u)
    ensures u in Ids(Merge(lb, ws)) <==> u in Ids(lb)
  {
    NoPointsForOthers(ws, u);
  }

  lemma {:induction false} NoPointsForOthers(ws: seq<RoundWinner>, u: string)
    requires u !in WinnerIds(ws)
    ensures SumBy(ws, PointsOfUser(u)) == 0
    decreases |ws|
  {
    if |ws| > 0 {
      assert ws[0].user.userId in WinnerIds(ws);
      assert u !in WinnerIds(ws[1..]) by {
        forall j | 0 <= j < |ws[1..]| ensures ws[1..][j].user.userId != u {
          assert ws[1..][j] == ws[j + 1] && ws[j + 1].user.userId in WinnerIds(ws);
        }
      }
      NoPointsForOthers(ws[1..], u);
    }
  }

  /**
    `!rank`: the 1-based position of the viewer's first entry and its score,
    or nothing when the viewer is not on the board.
   */
  function Rank(lb: seq<LeaderboardEntry>, userId: string): (r: Option<(nat, int)>)
    ensures r.None? <==> userId !in Ids(lb)
    ensures r.Some? ==> 1 <= r.value.0 <= |lb| && lb[r.value.0 - 1].user.userId == userId
                        && r.value.1 == lb[r.value.0 - 1].score
                        && forall j :: 0 <= j < r.value.0 - 1 ==> lb[j].user.userId != userId
    ensures r.Some? && UniqueIds(lb) ==> r.value.1 == UserTotal(lb, userId)
  {
    var i := FindUser(lb, userId);
    if i >= 0 then
      assert userId in Ids(lb);
      EntryScoreIsTotal(lb, userId);
      Some((i + 1, lb[i].score))
    else
      assert forall j :: 0 <= j < |lb| ==> lb[j].user.userId != userId;
      assert userId !in Ids(lb);
      None
  }

  lemma EntryScoreIsTotal(lb: seq<LeaderboardEntry>, userId: string)
    ensures UniqueIds(lb) && FindUser(lb, userId) >= 0 ==> UserTotal(lb, userId) == lb[FindUser(lb, userId)].score
  {
    if UniqueIds(lb) {
      TotalIsEntryScore(lb, userId);
    }
  }
}
