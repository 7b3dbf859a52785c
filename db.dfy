/**
 * The statistics arithmetic of lib/db.ts.  Database reads are inputs
 * (the row found, or the rows a query returned, or that it failed);
 * writes are the record returned.
 */
module Db {
  import opened Wrappers
  import opened GameTypes

  datatype GameResult = Win | Loss | Draw

  /** One difficulty's entry in `difficulty_stats`. */
  datatype Tally = Tally(games: nat, wins: nat, losses: nat, draws: nat)

  /** The `user_stats` columns these functions read. */
  datatype StatsRow = StatsRow(
    totalGames: nat, wins: nat, losses: nat, draws: nat, successfulDoubts: nat,
    difficultyStats: Option<map<Difficulty, Tally>>)

  /** The record `updateUserStats` upserts and returns; `updated_at` is left out. */
  datatype StatsUpdate = StatsUpdate(
    userId: string, totalGames: nat, wins: nat, losses: nat, draws: nat, successfulDoubts: nat,
    difficultyStats: map<Difficulty, Tally>)

  /** What the `select ... single()` read gives: a row, no row (`PGRST116`), or another error. */
  datatype Fetch = Found(row: StatsRow) | NotFound | FetchFailed

  // ---------------------------------------------------------------------
  // updateUserStats

  const EMPTY_TALLY: Tally := Tally(0, 0, 0, 0)

  function DefaultDifficultyStats(): map<Difficulty, Tally> {
    map[Beginner := EMPTY_TALLY, Intermediate := EMPTY_TALLY, Advanced := EMPTY_TALLY, Extreme := EMPTY_TALLY]
  }

  function Bump(result: GameResult, r: GameResult): nat {
    if result == r then 1 else 0
  }

  /** Results add up to games, overall and for every difficulty. */
  predicate ConsistentTally(t: Tally) {
    t.wins + t.losses + t.draws == t.games
  }

  predicate ConsistentStats(stats: map<Difficulty, Tally>) {
    forall d :: d in stats ==> ConsistentTally(stats[d])
  }

  /** One more game counted into a tally, and into the counter of its result only. */
  function CountGame(t: Tally, result: GameResult): (t': Tally)
    ensures t'.games == t.games + 1
    ensures t'.wins + t'.losses + t'.draws == t.wins + t.losses + t.draws + 1
    ensures result == Win ==> t'.wins == t.wins + 1
    ensures result == Loss ==> t'.losses == t.losses + 1
    ensures result == Draw ==> t'.draws == t.draws + 1
    ensures result != Win ==> t'.wins == t.wins
    ensures result != Loss ==> t'.losses == t.losses
    ensures result != Draw ==> t'.draws == t.draws
    ensures ConsistentTally(t) ==> ConsistentTally(t')
  {
    Tally(t.games + 1, t.wins + Bump(result, Win), t.losses + Bump(result, Loss), t.draws + Bump(result, Draw))
  }

  /**
   * The `difficulty_stats` object after the game: the given difficulty's
   * tally counts it when that key is present, every other tally is kept.
   */
  function CountGameIn(stats: map<Difficulty, Tally>, difficulty: Option<Difficulty>, result: GameResult)
    : (stats': map<Difficulty, Tally>)
    ensures stats'.Keys == stats.Keys
    ensures forall d :: d in stats && Some(d) != difficulty ==> stats'[d] == stats[d]
    ensures difficulty.Some? && difficulty.value in stats ==>
              stats'[difficulty.value] == CountGame(stats[difficulty.value], result)
    ensures ConsistentStats(stats) ==> ConsistentStats(stats')
  {
    if difficulty.Some? && difficulty.value in stats
    then stats[difficulty.value := CountGame(stats[difficulty.value], result)]
    else stats
  }

  /** What the stored counters read as: a missing row counts as all zeros. */
  function CurrentRow(fetch: Fetch): StatsRow
    requires !fetch.FetchFailed?
  {
    if fetch.Found? then fetch.row else StatsRow(0, 0, 0, 0, 0, None)
  }

  function UpdatedStats(userId: string, result: GameResult, doubtSuccess: bool, difficulty: Option<Difficulty>,
                        fetch: Fetch, upsertOk: bool): Option<StatsUpdate>
  {
    if fetch.FetchFailed? || !upsertOk then None
    else
      var current := CurrentRow(fetch);
      var stats := if current.difficultyStats.Some? then current.difficultyStats.value else DefaultDifficultyStats();
      var stats' := CountGameIn(stats, difficulty, result);
      Some(StatsUpdate(userId, current.totalGames + 1,
                       current.wins + Bump(result, Win), current.losses + Bump(result, Loss),
                       current.draws + Bump(result, Draw),
                       current.successfulDoubts + (if doubtSuccess then 1 else 0), stats'))
  }

  /** The `+= 1` steps on one difficulty's counters. */
  method BumpTally(t: Tally, result: GameResult) returns (tally: Tally)
    ensures tally == CountGame(t, result)
  {
    tally := t;
    tally := tally.(games := tally.games + 1);
    if result == Win {
      tally := tally.(wins := tally.wins + 1);
    } else if result == Loss {
      tally := tally.(losses := tally.losses + 1);
    } else if result == Draw {
      tally := tally.(draws := tally.draws + 1);
    }
  }

  /** Counts the game in its difficulty's tally when that difficulty has one. */
  method BumpDifficulty(stats: map<Difficulty, Tally>, difficulty: Option<Difficulty>, result: GameResult)
    returns (stats': map<Difficulty, Tally>)
    ensures stats' == CountGameIn(stats, difficulty, result)
  {
    stats' := stats;
    if difficulty.Some? && difficulty.value in stats' {
      var d := difficulty.value;
      var tally := BumpTally(stats'[d], result);
      stats' := stats'[d := tally];
    }
  }

  method UpdateUserStats(userId: string, result: GameResult, doubtSuccess: bool, difficulty: Option<Difficulty>,
                         fetch: Fetch, upsertOk: bool)
    returns (r: Option<StatsUpdate>)
    ensures r == UpdatedStats(userId, result, doubtSuccess, difficulty, fetch, upsertOk)
  {
    if fetch.FetchFailed? {
      return None;
    }
    var current := CurrentRow(fetch);
    var difficultyStats := if current.difficultyStats.Some? then current.difficultyStats.value else DefaultDifficultyStats();
    difficultyStats := BumpDifficulty(difficultyStats, difficulty, result);
    var updates := StatsUpdate(userId, current.totalGames + 1,
                               current.wins + (if result == Win then 1 else 0),
                               current.losses + (if result == Loss then 1 else 0),
                               current.draws + (if result == Draw then 1 else 0),
                               current.successfulDoubts + (if doubtSuccess then 1 else 0),
                               difficultyStats);
    if !upsertOk {
      return None;
    }
    return Some(updates);
  }

  predicate ConsistentRow(row: StatsRow) {
    && row.wins + row.losses + row.draws == row.totalGames
    && (row.difficultyStats.Some? ==> ConsistentStats(row.difficultyStats.value))
  }

  /**
   * `updateUserStats` returns null exactly when the read fails with
   * something other than "no row" or the upsert fails.  Otherwise it counts
   * one more game, one more of its result and nothing else, one more doubt
   * exactly when the doubt succeeded, and the game in the tallies as
   * `CountGameIn` does.  Counters whose results added up still do.
   */
  lemma UpdatedStatsSpec(userId: string, result: GameResult, doubtSuccess: bool, difficulty: Option<Difficulty>,
                         fetch: Fetch, upsertOk: bool)
    ensures var r := UpdatedStats(userId, result, doubtSuccess, difficulty, fetch, upsertOk);
      && (r.None? <==> fetch.FetchFailed? || !upsertOk)
      && (r.Some? ==>
            var current := CurrentRow(fetch);
            var before := if current.difficultyStats.Some? then current.difficultyStats.value else DefaultDifficultyStats();
            && r.value.userId == userId
            && r.value.totalGames == current.totalGames + 1
            && r.value.wins + r.value.losses + r.value.draws == current.wins + current.losses + current.draws + 1
            && (current.wins + current.losses + current.draws == current.totalGames ==>
                  r.value.wins + r.value.losses + r.value.draws == r.value.totalGames)
            && (result == Win ==> r.value.wins == current.wins + 1)
            && (result == Loss ==> r.value.losses == current.losses + 1)
            && (result == Draw ==> r.value.draws == current.draws + 1)
            && (result != Win ==> r.value.wins == current.wins)
            && (result != Loss ==> r.value.losses == current.losses)
            && (result != Draw ==> r.value.draws == current.draws)
            && (doubtSuccess ==> r.value.successfulDoubts == current.successfulDoubts + 1)
            && (!doubtSuccess ==> r.value.successfulDoubts == current.successfulDoubts)
            && r.value.difficultyStats == CountGameIn(before, difficulty, result))
  {
    if !fetch.FetchFailed? && upsertOk {
      var current := CurrentRow(fetch);
      var before := if current.difficultyStats.Some? then current.difficultyStats.value else DefaultDifficultyStats();
      var after := CountGameIn(before, difficulty, result);
      DefaultConsistent();
      var u := UpdatedStats(userId, result, doubtSuccess, difficulty, fetch, upsertOk).value;
      assert u == StatsUpdate(userId, current.totalGames + 1,
                              current.wins + Bump(result, Win), current.losses + Bump(result, Loss),
                              current.draws + Bump(result, Draw),
                              current.successfulDoubts + (if doubtSuccess then 1 else 0), after);
      assert u.wins + u.losses + u.draws == current.wins + current.losses + current.draws + 1;
      assert u.difficultyStats == after;
    }
  }

  /** The tallies written for a player without any are consistent. */
  lemma DefaultConsistent()
    ensures ConsistentStats(DefaultDifficultyStats())
  {
  }

  // ---------------------------------------------------------------------
  // getOverallStats

  datatype GlobalStats = GlobalStats(
    totalGames: nat, totalWins: nat, totalLosses: nat, totalDraws: nat, totalSuccessfulDoubts: nat, totalPlayers: nat)

  /** The `reduce` over the rows, with the number of rows as the player count. */
  function Totals(rows: seq<StatsRow>): (t: GlobalStats)
    ensures rows == [] ==> t == GlobalStats(0, 0, 0, 0, 0, 0)
    ensures t.totalPlayers == |rows|
  {
    if rows == [] then GlobalStats(0, 0, 0, 0, 0, 0)
    else
      var acc := Totals(rows[..|rows| - 1]);
      var stat := rows[|rows| - 1];
      GlobalStats(acc.totalGames + stat.totalGames, acc.totalWins + stat.wins, acc.totalLosses + stat.losses,
                  acc.totalDraws + stat.draws, acc.totalSuccessfulDoubts + stat.successfulDoubts,
                  acc.totalPlayers + 1)
  }

  /** `getOverallStats`: all zeros when the query fails or finds no rows, else the totals. */
  function OverallStats(query: Option<seq<StatsRow>>): (g: GlobalStats)
    ensures query.None? || query.value == [] ==> g == GlobalStats(0, 0, 0, 0, 0, 0)
    ensures query.Some? ==> g.totalPlayers == |query.value|
    ensures query.Some? && (forall i :: 0 <= i < |query.value| ==> ConsistentRow(query.value[i])) ==>
              g.totalWins + g.totalLosses + g.totalDraws == g.totalGames
  {
    if query.None? then GlobalStats(0, 0, 0, 0, 0, 0)
    else
      TotalsSpec(query.value);
      Totals(query.value)
  }

  function AddStats(a: GlobalStats, b: GlobalStats): GlobalStats {
    GlobalStats(a.totalGames + b.totalGames, a.totalWins + b.totalWins, a.totalLosses + b.totalLosses,
                a.totalDraws + b.totalDraws, a.totalSuccessfulDoubts + b.totalSuccessfulDoubts,
                a.totalPlayers + b.totalPlayers)
  }

  /** Totals over two batches of rows are the sums of the batches' totals. */
  lemma {:induction false} TotalsAppend(a: seq<StatsRow>, b: seq<StatsRow>)
    ensures Totals(a + b) == AddStats(Totals(a), Totals(b))
    decreases |b|
  {
    if b != [] {
      var n := |b| - 1;
      assert (a + b)[..|a + b| - 1] == a + b[..n];
      assert (a + b)[|a + b| - 1] == b[n];
      TotalsAppend(a, b[..n]);
    } else {
      assert a + b == a;
    }
  }

  /** Every column total is at least the value of any one row. */
  lemma {:induction false} TotalsCoverRows(rows: seq<StatsRow>, i: int)
    requires 0 <= i < |rows|
    ensures var t := Totals(rows);
      && rows[i].totalGames <= t.totalGames && rows[i].wins <= t.totalWins
      && rows[i].losses <= t.totalLosses && rows[i].draws <= t.totalDraws
      && rows[i].successfulDoubts <= t.totalSuccessfulDoubts
  {
    if i < |rows| - 1 {
      TotalsCoverRows(rows[..|rows| - 1], i);
      assert rows[..|rows| - 1][i] == rows[i];
    }
  }

  /** The player count is the number of rows, and totals of consistent rows are consistent. */
  lemma {:induction false} TotalsSpec(rows: seq<StatsRow>)
    ensures Totals(rows).totalPlayers == |rows|
    ensures (forall i :: 0 <= i < |rows| ==> ConsistentRow(rows[i])) ==>
              Totals(rows).totalWins + Totals(rows).totalLosses + Totals(rows).totalDraws == Totals(rows).totalGames
  {
    if rows != [] {
      TotalsSpec(rows[..|rows| - 1]);
      assert forall i :: 0 <= i < |rows| - 1 ==> rows[..|rows| - 1][i] == rows[i];
    }
  }

  // ---------------------------------------------------------------------
  // getUserRanking

  /** The columns the ranking query selects, for players with at least one game. */
  datatype RankRow = RankRow(userId: string, wins: nat, totalGames: nat)

  datatype PlayerRanking = PlayerRanking(rank: Option<nat>, totalPlayers: nat, percentile: int, betterThan: int)

  function WinRate(row: RankRow): real {
    if row.totalGames > 0 then row.wins as real / row.totalGames as real else 0.0
  }

  /** Insert after every row with at least the same win rate, which keeps equal rows in their order. */
  function Insert(x: RankRow, s: seq<RankRow>): seq<RankRow> {
    if s == [] then [x]
    else if WinRate(s[0]) >= WinRate(x) then [s[0]] + Insert(x, s[1..])
    else [x] + s
  }

  /** The stable `sort` by descending win rate. */
  function SortByWinRate(rows: seq<RankRow>): (sorted: seq<RankRow>)
    ensures |sorted| == |rows|
  {
    if rows == [] then []
    else
      var s := SortByWinRate(rows[..|rows| - 1]);
      InsertPerm(rows[|rows| - 1], s);
      Insert(rows[|rows| - 1], s)
  }

  predicate Descending(s: seq<RankRow>) {
    forall i, j :: 0 <= i < j < |s| ==> WinRate(s[i]) >= WinRate(s[j])
  }

  lemma {:induction false} InsertPerm(x: RankRow, s: seq<RankRow>)
    ensures multiset(Insert(x, s)) == multiset(s) + multiset{x}
    ensures |Insert(x, s)| == |s| + 1
  {
    if s != [] && WinRate(s[0]) >= WinRate(x) {
      assert s == [s[0]] + s[1..];
      InsertPerm(x, s[1..]);
    }
  }

  /** Whatever the insertion holds is the new row or an old one. */
  lemma InsertMember(x: RankRow, s: seq<RankRow>, y: RankRow)
    requires y in Insert(x, s)
    ensures y == x || y in s
  {
    InsertPerm(x, s);
    assert y in multiset(Insert(x, s));
  }

  lemma {:induction false} InsertSorted(x: RankRow, s: seq<RankRow>)
    requires Descending(s)
    ensures Descending(Insert(x, s))
  {
    if s != [] && WinRate(s[0]) >= WinRate(x) {
      var t := Insert(x, s[1..]);
      InsertSorted(x, s[1..]);
      forall y | y in t ensures WinRate(s[0]) >= WinRate(y) {
        InsertMember(x, s[1..], y);
      }
      HeadSorted(s[0], t);
    }
  }

  lemma HeadSorted(h: RankRow, t: seq<RankRow>)
    requires Descending(t)
    requires forall y :: y in t ==> WinRate(h) >= WinRate(y)
    ensures Descending([h] + t)
  {
    forall i, j | 0 <= i < j < |[h] + t| ensures WinRate(([h] + t)[i]) >= WinRate(([h] + t)[j]) {
      assert ([h] + t)[j] == t[j - 1];
      if i > 0 {
        assert ([h] + t)[i] == t[i - 1];
      } else {
        assert t[j - 1] in t;
      }
    }
  }

  /** The ranking order is descending in win rate and holds exactly the rows given. */
  lemma {:induction false} SortSpec(rows: seq<RankRow>)
    ensures Descending(SortByWinRate(rows))
    ensures multiset(SortByWinRate(rows)) == multiset(rows)
    ensures |SortByWinRate(rows)| == |rows|
  {
    if rows != [] {
      var n := |rows| - 1;
      SortSpec(rows[..n]);
      InsertPerm(rows[n], SortByWinRate(rows[..n]));
      InsertSorted(rows[n], SortByWinRate(rows[..n]));
      assert rows == rows[..n] + [rows[n]];
    }
  }

  /** `findIndex` by user id: the first position holding it, or -1. */
  function FindIndex(s: seq<RankRow>, userId: string): (i: int)
    ensures -1 <= i < |s|
    ensures i == -1 <==> forall k :: 0 <= k < |s| ==> s[k].userId != userId
    ensures i >= 0 ==> s[i].userId == userId && forall k :: 0 <= k < i ==> s[k].userId != userId
  {
    if s == [] then -1
    else if s[0].userId == userId then 0
    else var j := FindIndex(s[1..], userId); if j == -1 then -1 else j + 1
  }

  /** `Math.round(k / n * 100)`, rounding halves up, on exact fractions. */
  function RoundPercent(k: int, n: int): int
    requires 0 <= k && 0 < n
  {
    (200 * k + n) / (2 * n)
  }

  /** `p` is 100k/n rounded half up: 100k/n + 1/2 lies in [p, p + 1). */
  predicate RoundedShare(p: int, k: int, n: int) {
    2 * n * p <= 200 * k + n < 2 * n * (p + 1)
  }

  /** `RoundPercent(k, n)` is 100k/n rounded half up. */
  lemma RoundPercentDivides(k: int, n: int)
    requires 0 <= k && 0 < n
    ensures RoundedShare(RoundPercent(k, n), k, n)
  {
  }

  lemma MulMonotone(a: int, b: int, c: int)
    requires 0 <= a && b <= c
    ensures a * b <= a * c
  {
    assert a * c - a * b == a * (c - b);
  }

  lemma RoundPercentBounds(k: int, n: int)
    requires 0 <= k <= n && 0 < n
    ensures 0 <= RoundPercent(k, n) <= 100
    ensures k == n ==> RoundPercent(k, n) == 100
  {
    var p := RoundPercent(k, n);
    RoundPercentDivides(k, n);
    // 2n * p <= 200k + n <= 201n < 2n * 101, and 0 < n <= 200k + n < 2n * (p + 1)
    if 101 <= p {
      MulMonotone(2 * n, 101, p);
    } else if p < 0 {
      MulMonotone(2 * n, p + 1, 0);
    } else if k == n && p < 100 {
      MulMonotone(2 * n, p + 1, 100);
    }
  }

  lemma RoundPercentMonotone(k1: int, k2: int, n: int)
    requires 0 <= k1 <= k2 && 0 < n
    ensures RoundPercent(k1, n) <= RoundPercent(k2, n)
  {
    var p1, p2 := RoundPercent(k1, n), RoundPercent(k2, n);
    RoundPercentDivides(k1, n);
    RoundPercentDivides(k2, n);
    if p2 < p1 {
      MulMonotone(2 * n, p2 + 1, p1);
    }
  }

  /** A share of at least one in n rounds to at least 1% when n <= 200, since 100/n >= 0.5. */
  lemma RoundPercentPositive(k: int, n: int)
    requires 1 <= k && 0 < n <= 200
    ensures RoundPercent(k, n) >= 1
  {
    var p := RoundPercent(k, n);
    RoundPercentDivides(k, n);
    if p < 1 {
      MulMonotone(2 * n, p + 1, 1);
    }
  }

  /** The last of 201 players: 100/201 rounds down to a percentile of 0. */
  lemma LastOfManyIsZero()
    ensures RoundPercent(201 - 201 + 1, 201) == 0
  {
  }

  /**
   * For rank r of n: 0 <= betterThan <= percentile <= 100, the leader is
   * at 100, and the percentile is at least 1 when n <= 200.
   */
  lemma PercentilesSpec(n: int, rank: int)
    requires 1 <= rank <= n
    ensures 0 <= RoundPercent(n - rank, n) <= RoundPercent(n - rank + 1, n) <= 100
    ensures rank == 1 ==> RoundPercent(n - rank + 1, n) == 100
    ensures n <= 200 ==> RoundPercent(n - rank + 1, n) >= 1
  {
    if n <= 200 {
      RoundPercentPositive(n - rank + 1, n);
    }
    RoundPercentBounds(n - rank + 1, n);
    RoundPercentBounds(n - rank, n);
    RoundPercentMonotone(n - rank, n - rank + 1, n);
  }

  /** The ranking read off the sorted rows: the user's place and the shares of players at or below it. */
  function RankingIn(sorted: seq<RankRow>, userId: string): (r: PlayerRanking)
    requires |sorted| > 0
    ensures r.totalPlayers == |sorted|
    ensures r.rank.Some? <==> FindIndex(sorted, userId) >= 0
    ensures r.rank.Some? ==>
              && r.rank.value == FindIndex(sorted, userId) + 1
              && 0 <= r.betterThan <= r.percentile <= 100
              && (r.rank.value == 1 ==> r.percentile == 100)
              && (|sorted| <= 200 ==> r.percentile >= 1)
    ensures r.rank.Some? ==>
              && RoundedShare(r.percentile, |sorted| - r.rank.value + 1, |sorted|)
              && RoundedShare(r.betterThan, |sorted| - r.rank.value, |sorted|)
    ensures r.rank.None? ==> r.percentile == 0 && r.betterThan == 0
  {
    var userRank := FindIndex(sorted, userId) + 1;
    var totalPlayers := |sorted|;
    if userRank > 0 then
      PercentilesSpec(totalPlayers, userRank);
      RoundPercentDivides(totalPlayers - userRank + 1, totalPlayers);
      RoundPercentDivides(totalPlayers - userRank, totalPlayers);
      PlayerRanking(Some(userRank), totalPlayers,
                    RoundPercent(totalPlayers - userRank + 1, totalPlayers),
                    RoundPercent(totalPlayers - userRank, totalPlayers))
    else
      PlayerRanking(None, totalPlayers, 0, 0)
  }

  /** `getUserRanking`: null when the query fails or returns no rows. */
  function UserRanking(userId: string, allStats: Option<seq<RankRow>>): (r: Option<PlayerRanking>)
    ensures r.None? <==> allStats.None? || |allStats.value| == 0
    ensures r.Some? ==> r.value.totalPlayers == |allStats.value|
    ensures r.Some? ==> (r.value.rank.Some? <==> exists k :: 0 <= k < |allStats.value| && allStats.value[k].userId == userId)
  {
    if allStats.None? || |allStats.value| == 0 then None
    else
      RankSpec(userId, allStats.value);
      Some(RankingIn(SortByWinRate(allStats.value), userId))
  }

  /** Nobody before place `i` has a lower win rate, and nobody after it a higher one. */
  predicate OrderedAround(s: seq<RankRow>, i: int)
    requires 0 <= i < |s|
  {
    && (forall k :: 0 <= k < i ==> WinRate(s[k]) >= WinRate(s[i]))
    && (forall k :: i < k < |s| ==> WinRate(s[k]) <= WinRate(s[i]))
  }

  /** The rank is the user's first place in the win-rate order, and the rows around it are ordered by win rate. */
  lemma RankSpec(userId: string, rows: seq<RankRow>)
    ensures var sorted := SortByWinRate(rows);
      var i := FindIndex(sorted, userId);
      && |sorted| == |rows|
      && (i >= 0 <==> exists k :: 0 <= k < |rows| && rows[k].userId == userId)
      && (i >= 0 ==>
            && sorted[i].userId == userId
            && OrderedAround(sorted, i))
  {
    var sorted := SortByWinRate(rows);
    SortSpec(rows);
    var i := FindIndex(sorted, userId);
    if exists k :: 0 <= k < |rows| && rows[k].userId == userId {
      var k :| 0 <= k < |rows| && rows[k].userId == userId;
      assert rows[k] in multiset(sorted);
      var k' :| 0 <= k' < |sorted| && sorted[k'] == rows[k];
    }
    if i >= 0 {
      assert sorted[i] in multiset(rows);
      var k :| 0 <= k < |rows| && rows[k] == sorted[i];
    }
  }

  /**
   * The rank read off the rows' win-rate order: present exactly when a row
   * is the user's, and then from 1 to the number of rows, at a row of the
   * user's, with nobody ahead at a lower win rate and nobody behind higher.
   */
  predicate RankPlaced(userId: string, rows: seq<RankRow>, rank: Option<nat>) {
    var sorted := SortByWinRate(rows);
    && (rank.Some? <==> exists k :: 0 <= k < |rows| && rows[k].userId == userId)
    && (rank.Some? ==>
          && 1 <= rank.value <= |rows| == |sorted|
          && sorted[rank.value - 1].userId == userId
          && OrderedAround(sorted, rank.value - 1))
  }

  /**
   * The shares reported among n players. With rank k: 0 <= betterThan <=
   * percentile <= 100, the leader at 100, a percentile of at least 1 among
   * at most 200 players, the percentile 100(n - k + 1)/n and "better than"
   * 100(n - k)/n, each rounded half up. Without a rank both are 0.
   */
  predicate SharesOf(n: int, r: PlayerRanking) {
    && (r.rank.Some? ==>
          && 0 <= r.betterThan <= r.percentile <= 100
          && (r.rank.value == 1 ==> r.percentile == 100)
          && (n <= 200 ==> r.percentile >= 1)
          && RoundedShare(r.percentile, n - r.rank.value + 1, n)
          && RoundedShare(r.betterThan, n - r.rank.value, n))
    && (r.rank.None? ==> r.percentile == 0 && r.betterThan == 0)
  }

  lemma RankingOfRows(userId: string, rows: seq<RankRow>)
    requires |rows| > 0
    ensures RankPlaced(userId, rows, RankingIn(SortByWinRate(rows), userId).rank)
  {
    var sorted := SortByWinRate(rows);
    var rank := RankingIn(sorted, userId).rank;
    assert |sorted| == |rows|;
    RankSpec(userId, rows);
    if rank.Some? {
      assert rank.value - 1 == FindIndex(sorted, userId);
    }
  }

  lemma SharesOfRanking(userId: string, sorted: seq<RankRow>)
    requires |sorted| > 0
    ensures SharesOf(|sorted|, RankingIn(sorted, userId))
  {
  }

  /**
   * A ranking exists exactly when the query succeeds with rows; it counts
   * every row as a player, places the user as RankPlaced says, and reports
   * the shares SharesOf states.
   */
  lemma UserRankingSpec(userId: string, allStats: Option<seq<RankRow>>)
    ensures var r := UserRanking(userId, allStats);
      && (r.None? <==> allStats.None? || |allStats.value| == 0)
      && (r.Some? ==>
            && r.value.totalPlayers == |allStats.value|
            && RankPlaced(userId, allStats.value, r.value.rank)
            && SharesOf(|allStats.value|, r.value))
  {
    if allStats.Some? && |allStats.value| > 0 {
      var rows := allStats.value;
      var sorted := SortByWinRate(rows);
      assert UserRanking(userId, allStats) == Some(RankingIn(sorted, userId));
      assert |sorted| == |rows|;
      RankingOfRows(userId, rows);
      SharesOfRanking(userId, sorted);
    }
  }
}
