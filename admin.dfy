// The game tally of the administrator's page (lib/admin.ts, getGameStats):
// every game_history row counted once in the grand total and once in the
// counters of its difficulty, by its result.

module Admin {
  import opened Wrappers
  import opened GameTypes
  import opened Db

  /** One `game_history` row as selected: its difficulty text and its result. */
  datatype GameRow = GameRow(difficulty: string, result: GameResult)

  /**
   * The counters of one difficulty or of all games.  `games` is the field
   * the source calls `total` in the per-difficulty entries and `games` in
   * the grand total.  `losssNaN` says whether the object has gained the
   * extra property `losss`, which holds NaN (see CountAsWritten).
   */
  datatype Counters = Counters(games: nat, wins: nat, losses: nat, draws: nat, losssNaN: bool)

  datatype GameStats = GameStats(byDifficulty: map<Difficulty, Counters>, total: Counters)

  const ZERO: Counters := Counters(0, 0, 0, 0, false)

  /** The key under which a difficulty is stored. */
  function DifficultyName(d: Difficulty): string {
    match d
    case Beginner => "beginner"
    case Intermediate => "intermediate"
    case Advanced => "advanced"
    case Extreme => "extreme"
  }

  /** `stats.byDifficulty[difficulty]`: present only for the four keys. */
  function ParseDifficulty(s: string): Option<Difficulty> {
    if s == "beginner" then Some(Beginner)
    else if s == "intermediate" then Some(Intermediate)
    else if s == "advanced" then Some(Advanced)
    else if s == "extreme" then Some(Extreme)
    else None
  }

  /** A text names a difficulty exactly when it is that difficulty's key. */
  lemma ParseDifficultyName(s: string, d: Difficulty)
    ensures ParseDifficulty(s) == Some(d) <==> s == DifficultyName(d)
  {
    match d
    case Beginner =>
    case Intermediate =>
      assert "intermediate"[0] != "beginner"[0];
    case Advanced =>
      assert "advanced"[0] != "beginner"[0] && "advanced"[0] != "intermediate"[0];
    case Extreme =>
      assert "extreme"[0] != "beginner"[0] && "extreme"[0] != "intermediate"[0] && "extreme"[0] != "advanced"[0];
  }

  predicate AllDifficulties(s: GameStats) {
    forall d: Difficulty :: d in s.byDifficulty
  }

  /** The `stats` object before the first row: every counter 0. */
  function InitialStats(): GameStats {
    GameStats(map[Beginner := ZERO, Intermediate := ZERO, Advanced := ZERO, Extreme := ZERO], ZERO)
  }

  lemma InitialStatsComplete()
    ensures AllDifficulties(InitialStats())
  {
    forall d: Difficulty
      ensures d in InitialStats().byDifficulty
    {
      match d
      case Beginner =>
      case Intermediate =>
      case Advanced =>
      case Extreme =>
    }
  }

  /**
   * `counters[game.result + 's']++` as written.  `'win' + 's'` and
   * `'draw' + 's'` are `wins` and `draws`, but `'loss' + 's'` is `losss`,
   * a key the object does not have: `undefined++` stores NaN there and
   * `losses` is left alone.
   */
  function CountAsWritten(c: Counters, result: GameResult): Counters {
    match result
    case Win => c.(wins := c.wins + 1)
    case Loss => c.(losssNaN := true)
    case Draw => c.(draws := c.draws + 1)
  }

  /** The evidently intended step: a loss counts in `losses`. */
  function CountIntended(c: Counters, result: GameResult): Counters {
    match result
    case Win => c.(wins := c.wins + 1)
    case Loss => c.(losses := c.losses + 1)
    case Draw => c.(draws := c.draws + 1)
  }

  /** The body of the `forEach`, with the result step `count`. */
  function TallyRow(stats: GameStats, row: GameRow, count: (Counters, GameResult) -> Counters): GameStats
    requires AllDifficulties(stats)
  {
    var byDifficulty :=
      match ParseDifficulty(row.difficulty)
      case Some(d) =>
        var c := stats.byDifficulty[d];
        stats.byDifficulty[d := count(c.(games := c.games + 1), row.result)]
      case None => stats.byDifficulty;
    var t := stats.total;
    GameStats(byDifficulty, count(t.(games := t.games + 1), row.result))
  }

  /** The `stats` object after the rows, in order. */
  function Tallied(rows: seq<GameRow>, count: (Counters, GameResult) -> Counters): (s: GameStats)
    ensures AllDifficulties(s)
  {
    if rows == [] then InitialStatsComplete(); InitialStats()
    else TallyRow(Tallied(rows[..|rows| - 1], count), rows[|rows| - 1], count)
  }

  /** Whether a row is of difficulty `d` (None: any text) and of result `result` (None: any). */
  predicate InClass(row: GameRow, d: Option<Difficulty>, result: Option<GameResult>) {
    && (d.None? || ParseDifficulty(row.difficulty) == d)
    && (result.None? || row.result == result.value)
  }

  /** The number of rows in a class. */
  function Count(rows: seq<GameRow>, d: Option<Difficulty>, result: Option<GameResult>): nat {
    if rows == [] then 0
    else Count(rows[..|rows| - 1], d, result) + (if InClass(rows[|rows| - 1], d, result) then 1 else 0)
  }

  /** Every row of a class has exactly one of the three results. */
  lemma {:induction false} ResultsPartition(rows: seq<GameRow>, d: Option<Difficulty>)
    ensures Count(rows, d, Some(Win)) + Count(rows, d, Some(Loss)) + Count(rows, d, Some(Draw)) == Count(rows, d, None)
  {
    if rows != [] {
      ResultsPartition(rows[..|rows| - 1], d);
    }
  }

  /** Every row has at most one known difficulty. */
  lemma {:induction false} DifficultiesBounded(rows: seq<GameRow>)
    ensures Count(rows, Some(Beginner), None) + Count(rows, Some(Intermediate), None)
            + Count(rows, Some(Advanced), None) + Count(rows, Some(Extreme), None) <= |rows|
  {
    if rows != [] {
      DifficultiesBounded(rows[..|rows| - 1]);
    }
  }

  /** What the counters of a class hold as written: wins, draws and games counted, losses never. */
  predicate AsWrittenCounters(c: Counters, rows: seq<GameRow>, d: Option<Difficulty>) {
    && c.games == Count(rows, d, None)
    && c.wins == Count(rows, d, Some(Win))
    && c.draws == Count(rows, d, Some(Draw))
    && c.losses == 0
    && (c.losssNaN <==> Count(rows, d, Some(Loss)) > 0)
  }

  /** What the counters of a class hold with the intended step: each result counted. */
  predicate IntendedCounters(c: Counters, rows: seq<GameRow>, d: Option<Difficulty>) {
    && c.games == Count(rows, d, None)
    && c.wins == Count(rows, d, Some(Win))
    && c.draws == Count(rows, d, Some(Draw))
    && c.losses == Count(rows, d, Some(Loss))
    && !c.losssNaN
  }

  /** One more row, as written: the counters of its class take the step, the others stay. */
  lemma AsWrittenStep(c: Counters, rows: seq<GameRow>, d: Option<Difficulty>)
    requires rows != [] && AsWrittenCounters(c, rows[..|rows| - 1], d)
    ensures var last := rows[|rows| - 1];
      && (InClass(last, d, None) ==> AsWrittenCounters(CountAsWritten(c.(games := c.games + 1), last.result), rows, d))
      && (!InClass(last, d, None) ==> AsWrittenCounters(c, rows, d))
  {
  }

  /** One more row, with the intended step. */
  lemma IntendedStep(c: Counters, rows: seq<GameRow>, d: Option<Difficulty>)
    requires rows != [] && IntendedCounters(c, rows[..|rows| - 1], d)
    ensures var last := rows[|rows| - 1];
      && (InClass(last, d, None) ==> IntendedCounters(CountIntended(c.(games := c.games + 1), last.result), rows, d))
      && (!InClass(last, d, None) ==> IntendedCounters(c, rows, d))
  {
  }

  /**
   * `getGameStats` as written: the grand total counts every row, each
   * difficulty's entry counts the rows of that difficulty, wins and draws
   * are counted, `losses` stays 0 everywhere and `losss` appears (as NaN)
   * exactly where some loss was seen.
   */
  lemma {:induction false} AsWrittenSpec(rows: seq<GameRow>)
    ensures var s := Tallied(rows, CountAsWritten);
      && s.total.games == |rows|
      && AsWrittenCounters(s.total, rows, None)
      && forall d: Difficulty :: AsWrittenCounters(s.byDifficulty[d], rows, Some(d))
  {
    if rows != [] {
      var front := rows[..|rows| - 1];
      AsWrittenSpec(front);
      var s := Tallied(front, CountAsWritten);
      AsWrittenStep(s.total, rows, None);
      forall d: Difficulty
        ensures AsWrittenCounters(Tallied(rows, CountAsWritten).byDifficulty[d], rows, Some(d))
      {
        AsWrittenStep(s.byDifficulty[d], rows, Some(d));
      }
    }
  }

  /**
   * The bounds the as-written tally keeps: the difficulties' games add up
   * to at most the grand total (rows of other difficulties count only
   * there), and wins and draws to at most the games.
   */
  lemma AsWrittenBounds(rows: seq<GameRow>)
    ensures var s := Tallied(rows, CountAsWritten);
      && s.byDifficulty[Beginner].games + s.byDifficulty[Intermediate].games
         + s.byDifficulty[Advanced].games + s.byDifficulty[Extreme].games <= s.total.games
      && s.total.wins + s.total.draws <= s.total.games
      && forall d: Difficulty :: s.byDifficulty[d].wins + s.byDifficulty[d].draws <= s.byDifficulty[d].games
  {
    AsWrittenSpec(rows);
    DifficultiesBounded(rows);
    ResultsPartition(rows, None);
    forall d: Difficulty
      ensures Count(rows, Some(d), Some(Win)) + Count(rows, Some(d), Some(Draw)) <= Count(rows, Some(d), None)
    {
      ResultsPartition(rows, Some(d));
    }
  }

  /** One loss row: the as-written tally reports no losses, the intended one reports one. */
  lemma OneLossUncounted()
    ensures var rows := [GameRow("beginner", Loss)];
      && Count(rows, None, Some(Loss)) == 1
      && Tallied(rows, CountAsWritten).total.losses == 0
      && Tallied(rows, CountAsWritten).byDifficulty[Beginner].losses == 0
      && Tallied(rows, CountIntended).total.losses == 1
      && Tallied(rows, CountIntended).byDifficulty[Beginner].losses == 1
  {
    var rows := [GameRow("beginner", Loss)];
    assert rows[..0] == [];
    assert ParseDifficulty(rows[0].difficulty) == Some(Beginner);
  }

  /**
   * The intended tally: every counter is the number of rows of its class,
   * and in the grand total and in each difficulty wins, losses and draws
   * add up to the games.
   */
  lemma {:induction false} IntendedSpec(rows: seq<GameRow>)
    ensures var s := Tallied(rows, CountIntended);
      && s.total.games == |rows|
      && IntendedCounters(s.total, rows, None)
      && s.total.wins + s.total.losses + s.total.draws == s.total.games
      && forall d: Difficulty ::
           && IntendedCounters(s.byDifficulty[d], rows, Some(d))
           && s.byDifficulty[d].wins + s.byDifficulty[d].losses + s.byDifficulty[d].draws == s.byDifficulty[d].games
  {
    IntendedCounts(rows);
    ResultsPartition(rows, None);
    forall d: Difficulty
      ensures Count(rows, Some(d), Some(Win)) + Count(rows, Some(d), Some(Loss)) + Count(rows, Some(d), Some(Draw))
              == Count(rows, Some(d), None)
    {
      ResultsPartition(rows, Some(d));
    }
  }

  lemma {:induction false} IntendedCounts(rows: seq<GameRow>)
    ensures var s := Tallied(rows, CountIntended);
      && s.total.games == |rows|
      && IntendedCounters(s.total, rows, None)
      && forall d: Difficulty :: IntendedCounters(s.byDifficulty[d], rows, Some(d))
  {
    if rows != [] {
      var front := rows[..|rows| - 1];
      IntendedCounts(front);
      var s := Tallied(front, CountIntended);
      IntendedStep(s.total, rows, None);
      forall d: Difficulty
        ensures IntendedCounters(Tallied(rows, CountIntended).byDifficulty[d], rows, Some(d))
      {
        IntendedStep(s.byDifficulty[d], rows, Some(d));
      }
    }
  }

  /** `getGameStats`: null when the query fails, else the tally as written. */
  function GameStatsResult(query: Option<seq<GameRow>>): Option<GameStats> {
    if query.None? then None else Some(Tallied(query.value, CountAsWritten))
  }

  method GetGameStats(query: Option<seq<GameRow>>) returns (r: Option<GameStats>)
    ensures r == GameStatsResult(query)
    ensures r.Some? ==> r.value.total.games == |query.value| && r.value.total.losses == 0
  {
    if query.None? {
      return None;
    }
    var rows := query.value;
    var stats := InitialStats();
    for i := 0 to |rows|
      invariant stats == Tallied(rows[..i], CountAsWritten)
    {
      assert rows[..i + 1][..i] == rows[..i];
      var game := rows[i];
      var difficulty := ParseDifficulty(game.difficulty);
      if difficulty.Some? {
        var c := stats.byDifficulty[difficulty.value];
        c := c.(games := c.games + 1);
        c := CountAsWritten(c, game.result);
        stats := stats.(byDifficulty := stats.byDifficulty[difficulty.value := c]);
      }
      var t := stats.total.(games := stats.total.games + 1);
      stats := stats.(total := CountAsWritten(t, game.result));
    }
    assert rows[..|rows|] == rows;
    AsWrittenSpec(rows);
    return Some(stats);
  }
}
