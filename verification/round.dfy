/**
  The round engine of the game component: the word list, the current round
  (target word, guess rows, winners, best guess), its state and its timers.

  Every handler and every timer firing is a pure step from one `Game` to the
  next. A step may report the round's winners to the leaderboard (the
  `onScoresCalculated` callback) and may show a toast. The countdown, the
  dwell timers and the restart countdown are explicit events; the wall clock
  is a millisecond input and the random word choice is an index input.
 */
module Round {
  import opened Types
  import Text
  import Scoring
  import Evaluator
  import StableSort

  /** The best-scoring non-winning guess of the round, shown as a hint. */
  datatype BestGuess = BestGuess(guess: string, tiles: seq<Tile>, score: int)

  datatype Game = Game(
    wordList: seq<string>,
    target: string,
    rows: seq<seq<Tile>>,        // newest first
    guessers: seq<ChatMessage>,  // newest first, one per row
    state: GameState,
    startTime: int,              // milliseconds
    winners: seq<RoundWinner>,
    timeLeft: int,               // seconds on the round countdown
    restartLeft: int,            // seconds on the restart countdown
    best: Option<BestGuess>,
    countdownLive: bool,         // the one-second round countdown is scheduled
    restartLive: bool)           // the one-second restart countdown is scheduled

  /** What a step produces: the next game, winners reported to the leaderboard, a toast. */
  datatype Step = Step(game: Game, report: Option<seq<RoundWinner>>, toast: Option<Toast>)

  /** The timer firings and calls the engine reacts to. */
  datatype Event =
    | WordsLoaded(words: seq<string>, pick: nat, now: int)
    | GuessMade(guess: string, msg: ChatMessage, now: int)
    | CountdownTick
    | DwellExpired
    | RestartTick(pick: nat, now: int)
    | ForceEnd

  function Initial(): Game {
    Game([], "", [], [], Idle, 0, [], RoundDuration, RestartDuration, None, false, false)
  }

  function Quiet(g: Game): Step {
    Step(g, None, None)
  }

  function WinnerId(w: RoundWinner): string { w.user.userId }

  function DurationKey(w: RoundWinner): int { w.durationMs }

  /** Some winner of the round is the viewer `userId`. */
  predicate HasWon(winners: seq<RoundWinner>, userId: string) {
    exists i :: 0 <= i < |winners| && winners[i].user.userId == userId
  }

  /** What the engine keeps true between events. */
  ghost predicate Inv(g: Game) {
    && StableSort.Distinct(g.winners, WinnerId)
    && StableSort.Ascending(g.winners, DurationKey)
    && |g.winners| <= WinnerCap
    && (g.state == Running ==> |g.winners| < WinnerCap)
    && |g.rows| == |g.guessers|
    && (forall i :: 0 <= i < |g.rows| ==> |g.rows[i]| == WordLength)
    && (g.countdownLive <==> g.state != Idle && g.state != RoundOver)
    && (g.restartLive <==> g.state == RoundOver)
    && (g.state != Idle ==> |g.wordList| > 0)
    && (g.state == Idle ==> g.rows == [] && g.winners == [])
    && 0 <= g.timeLeft <= RoundDuration
    && 1 <= g.restartLeft <= RestartDuration
    && (g.state == RoundOver ==> g.timeLeft == 0)
    && (g.countdownLive ==> g.timeLeft >= 1)
  }

  lemma InitialInv()
    ensures Inv(Initial())
  {
  }

  // ---------------------------------------------------------------- starting

  /** The word `Math.floor(Math.random() * n)` selects; `pick` stands for the random draw. */
  function PickWord(words: seq<string>, pick: nat): (w: string)
    requires |words| > 0
    ensures exists i :: 0 <= i < |words| && w == Text.Upper(words[i])
  {
    var i := pick % |words|;
    Text.Upper(words[i])
  }

  /**
    `startRound`: with a word list, a fresh round with a new target, no rows,
    winners or best guess, the full countdown scheduled and the restart
    countdown cancelled; without one, nothing.
   */
  function StartRound(g: Game, pick: nat, now: int): (g': Game)
    ensures |g.wordList| == 0 ==> g' == g
    ensures |g.wordList| > 0 ==>
      && g'.state == Running && g'.rows == [] && g'.guessers == [] && g'.winners == []
      && g'.best == None && g'.timeLeft == RoundDuration && g'.startTime == now
      && g'.countdownLive && !g'.restartLive && g'.wordList == g.wordList
      && (exists i :: 0 <= i < |g.wordList| && g'.target == Text.Upper(g.wordList[i]))
  {
    if |g.wordList| == 0 then g
    else
      g.(target := PickWord(g.wordList, pick), rows := [], guessers := [], best := None,
         winners := [], startTime := now, state := Running, timeLeft := RoundDuration,
         countdownLive := true, restartLive := false)
  }

  /**
    The word list arrives (once, uppercased); an idle game with a non-empty
    list starts its first round at once.
   */
  function LoadWords(g: Game, words: seq<string>, pick: nat, now: int): (s: Step)
    ensures g.state != Idle ==> s == Quiet(g)
    ensures g.state == Idle ==> |s.game.wordList| == |words|
    ensures g.state == Idle ==> forall i :: 0 <= i < |words| ==> s.game.wordList[i] == Text.Upper(words[i])
    ensures g.state == Idle ==> (s.game.state == Running <==> |words| > 0)
    ensures s.report == None && s.toast == None
  {
    if g.state != Idle then Quiet(g)
    else
      var loaded := g.(wordList := seq(|words|, i requires 0 <= i < |words| => Text.Upper(words[i])));
      if |loaded.wordList| > 0 then Quiet(StartRound(loaded, pick, now)) else Quiet(loaded)
  }

  // ---------------------------------------------------------------- guesses

  function TilePoints(t: Tile): nat {
    if t.status == Correct then 2 else if t.status == Present then 1 else 0
  }

  /** `calculateGuessScore`: two points per `correct` tile, one per `present` tile. */
  function GuessScore(tiles: seq<Tile>): (score: nat)
    ensures score <= 2 * |tiles|
    ensures score == 2 * |tiles| <==> forall i :: 0 <= i < |tiles| ==> tiles[i].status == Correct
  {
    if |tiles| == 0 then 0
    else
      var last := tiles[|tiles| - 1];
      var front := tiles[..|tiles| - 1];
      assert forall i :: 0 <= i < |front| ==> front[i] == tiles[i];
      GuessScore(front) + TilePoints(last)
  }

  /** The all-`correct` row a winning guess adds. */
  function WinRow(guess: string): (row: seq<Tile>)
    ensures |row| == |guess|
    ensures forall i :: 0 <= i < |row| ==> row[i] == Tile(guess[i], Correct)
  {
    seq(|guess|, i requires 0 <= i < |guess| => Tile(guess[i], Correct))
  }

  /** The shortcut row of a win is what the evaluator would have produced. */
  lemma WinRowIsEvaluation(guess: string)
    ensures WinRow(guess) == Evaluator.Tiles(guess, guess)
  {
  }

  /** The format guard of `handleGuess`: running round, five letters, `^[A-Z]+$`. */
  predicate WellFormed(g: Game, guess: string) {
    g.state == Running && |guess| == WordLength && Text.IsUpperWord(guess)
  }

  /** The winners once `w` joins them, re-sorted by duration. */
  function Ranked(winners: seq<RoundWinner>, w: RoundWinner): (ws: seq<RoundWinner>)
    ensures |ws| == |winners| + 1
    ensures StableSort.Ascending(ws, DurationKey)
  {
    StableSort.SortBy(winners + [w], DurationKey)
  }

  /**
    A correct guess. A viewer who has already won only gets a toast. Anyone
    else adds an all-`correct` row and one winner, scored by elapsed time;
    the winners are re-sorted by duration, and the third winner ends the
    round and reports all of them.
   */
  function Win(g: Game, guess: string, msg: ChatMessage, now: int): (s: Step)
    requires g.state == Running
    ensures HasWon(g.winners, msg.user.userId) ==> s == Step(g, None, Some(AlreadySolved))
    ensures !HasWon(g.winners, msg.user.userId) ==>
      var w := RoundWinner(msg.user, now - g.startTime, Scoring.WinScore(now - g.startTime));
      && s.game.rows == [WinRow(guess)] + g.rows
      && s.game.guessers == [msg] + g.guessers
      && s.game.winners == Ranked(g.winners, w)
      && (s.game.state == Solved <==> |s.game.winners| >= WinnerCap)
      && (s.game.state != Solved ==> s.game.state == Running)
      && s.report == (if |s.game.winners| >= WinnerCap then Some(s.game.winners) else None)
      && s.toast == None
      && s.game.(rows := g.rows, guessers := g.guessers, winners := g.winners, state := g.state) == g
  {
    if HasWon(g.winners, msg.user.userId) then Step(g, None, Some(AlreadySolved))
    else
      var elapsed := now - g.startTime;
      var w := RoundWinner(msg.user, elapsed, Scoring.WinScore(elapsed));
      var winners := Ranked(g.winners, w);
      var g' := g.(rows := [WinRow(guess)] + g.rows, guessers := [msg] + g.guessers, winners := winners);
      if |winners| >= WinnerCap then Step(g'.(state := Solved), Some(winners), None)
      else Step(g', None, None)
  }

  /**
    A wrong guess from the dictionary: one evaluated row and its guesser go
    on top, and the hint is replaced only by a strictly better score.
   */
  function Miss(g: Game, guess: string, msg: ChatMessage): (s: Step)
    requires Evaluator.Consumed !in guess
    ensures var row := Evaluator.Tiles(guess, g.target);
      && s.game.rows == [row] + g.rows
      && s.game.guessers == [msg] + g.guessers
      && (s.game.best != g.best <==> g.best.None? || GuessScore(row) > g.best.value.score)
      && (s.game.best != g.best ==> s.game.best == Some(BestGuess(guess, row, GuessScore(row))))
      && s.game.(rows := g.rows, guessers := g.guessers, best := g.best) == g
      && s.report == None && s.toast == None
  {
    var row := Evaluator.Tiles(guess, g.target);
    var score := GuessScore(row);
    var g' := g.(rows := [row] + g.rows, guessers := [msg] + g.guessers);
    if g.best.None? || score > g.best.value.score then
      Step(g'.(best := Some(BestGuess(guess, row, score))), None, None)
    else Step(g', None, None)
  }

  /**
    `handleGuess`: nothing happens without a word list or a well-formed
    guess in a running round; a word outside the list only shows a toast;
    otherwise the guess is a win or a miss.
   */
  function HandleGuess(g: Game, guess: string, msg: ChatMessage, now: int): (s: Step)
    ensures |g.wordList| == 0 || !WellFormed(g, guess) ==> s == Quiet(g)
    ensures |g.wordList| > 0 && WellFormed(g, guess) && guess !in g.wordList
            ==> s == Step(g, None, Some(NotInDictionary(guess)))
    ensures |g.wordList| > 0 && WellFormed(g, guess) && guess in g.wordList && guess == g.target
            ==> s == Win(g, guess, msg, now)
    ensures |g.wordList| > 0 && WellFormed(g, guess) && guess in g.wordList && guess != g.target
            ==> Evaluator.Consumed !in guess && s == Miss(g, guess, msg)
  {
    if |g.wordList| == 0 then Quiet(g)
    else if g.state != Running || |guess| != WordLength || !Text.IsUpperWord(guess) then Quiet(g)
    else if guess !in g.wordList then Step(g, None, Some(NotInDictionary(guess)))
    else if guess == g.target then Win(g, guess, msg, now)
    else
      assert Evaluator.Consumed !in guess by {
        assert forall i :: 0 <= i < |guess| ==> Text.IsAsciiUpper(guess[i]);
      }
      Miss(g, guess, msg)
  }

  // ---------------------------------------------------------------- timers and ending

  /**
    One second of the round countdown. It is not cancelled when a round is
    solved, so when it runs out it moves any state to `round_over`, which
    reports the winners again if there are any and schedules the restart.
   */
  function Tick(g: Game): (s: Step)
    ensures g.countdownLive && g.timeLeft >= 1 ==> s.game.timeLeft == g.timeLeft - 1
    ensures s.game.state != g.state || s.report.Some? ==> g.countdownLive && g.timeLeft <= 1
    ensures s.game.(state := g.state, timeLeft := g.timeLeft, countdownLive := g.countdownLive,
                    restartLive := g.restartLive, restartLeft := g.restartLeft) == g
    ensures !g.countdownLive ==> s.game == g
    ensures g.countdownLive && g.timeLeft <= 1 ==>
      && s.game.state == RoundOver && s.game.timeLeft == 0 && !s.game.countdownLive
      && s.game.restartLive && s.game.restartLeft == RestartDuration
    ensures s.report.Some? <==> g.countdownLive && g.timeLeft <= 1 && |g.winners| > 0
    ensures s.report.Some? ==> s.report.value == g.winners
    ensures s.toast == None
  {
    if !g.countdownLive then Quiet(g)
    else if g.timeLeft > 1 then Quiet(g.(timeLeft := g.timeLeft - 1))
    else
      var g' := g.(state := RoundOver, timeLeft := 0, countdownLive := false,
                   restartLive := true, restartLeft := RestartDuration);
      Step(g', if |g.winners| > 0 then Some(g.winners) else None, None)
  }

  /** The dwell timers: five seconds of `solved`, then ten of `leaderboard`, then `waiting`. */
  function Dwell(g: Game): (s: Step)
    ensures s.game.(state := g.state) == g && s.report == None && s.toast == None
    ensures s.game.state != g.state ==> g.state in {Solved, Leaderboard} && s.game.state in {Leaderboard, Waiting}
    ensures g.state == Solved ==> s.game.state == Leaderboard
    ensures g.state == Leaderboard ==> s.game.state == Waiting
  {
    match g.state
    case Solved => Quiet(g.(state := Leaderboard))
    case Leaderboard => Quiet(g.(state := Waiting))
    case _ => Quiet(g)
  }

  /** One second of the restart countdown of `round_over`; at its end a new round starts. */
  function Restart(g: Game, pick: nat, now: int): (s: Step)
    ensures s.game.state != g.state ==> g.restartLive && g.restartLeft <= 1
    ensures g.restartLive && g.restartLeft <= 1 && |g.wordList| > 0 ==>
      && s.game.state == Running && s.game.countdownLive && !s.game.restartLive
      && s.game.timeLeft == RoundDuration && s.game.winners == [] && s.game.rows == []
    ensures s.report == None && s.toast == None
    ensures !g.restartLive ==> s.game == g
    ensures g.restartLive && g.restartLeft > 1 ==>
      s.game.(restartLeft := g.restartLeft) == g && s.game.restartLeft == g.restartLeft - 1
    ensures g.restartLive && g.restartLeft <= 1 ==> !s.game.restartLive && s.game.restartLeft == RestartDuration
    ensures g.restartLive && g.restartLeft <= 1 && |g.wordList| > 0 ==>
      && s.game.startTime == now && s.game.guessers == [] && s.game.best == None
      && (exists i :: 0 <= i < |g.wordList| && s.game.target == Text.Upper(g.wordList[i]))
    ensures g.restartLive && g.restartLeft <= 1 && |g.wordList| == 0 ==>
      s.game.(restartLive := g.restartLive, restartLeft := g.restartLeft) == g
  {
    if !g.restartLive then Quiet(g)
    else if g.restartLeft > 1 then Quiet(g.(restartLeft := g.restartLeft - 1))
    else Quiet(StartRound(g.(restartLive := false), pick, now).(restartLeft := RestartDuration))
  }

  /**
    `forceEndRound`: a running round is solved on the spot and reports its
    winners, even none; in any other state nothing happens.
   */
  function ForceEndRound(g: Game): (s: Step)
    ensures s.game.(state := g.state) == g && s.toast == None
    ensures s.report.Some? <==> g.state == Running
    ensures s.report.Some? ==> s.game.state == Solved && s.report.value == g.winners
    ensures s.game.state != g.state ==> g.state == Running
  {
    if g.state == Running then Step(g.(state := Solved), Some(g.winners), None) else Quiet(g)
  }

  function Next(g: Game, e: Event): Step {
    match e
    case WordsLoaded(words, pick, now) => LoadWords(g, words, pick, now)
    case GuessMade(guess, msg, now) => HandleGuess(g, guess, msg, now)
    case CountdownTick => Tick(g)
    case DwellExpired => Dwell(g)
    case RestartTick(pick, now) => Restart(g, pick, now)
    case ForceEnd => ForceEndRound(g)
  }

  // ---------------------------------------------------------------- properties

  /** Adding a winner who has not won yet and re-sorting keeps winner userIds unique. */
  lemma DistinctAfterWin(winners: seq<RoundWinner>, w: RoundWinner)
    requires !HasWon(winners, w.user.userId)
    ensures StableSort.Distinct(winners, WinnerId) ==>
            StableSort.Distinct(StableSort.SortBy(winners + [w], DurationKey), WinnerId)
  {
    if StableSort.Distinct(winners, WinnerId) {
      var ws := winners + [w];
      forall i, j | 0 <= i < j < |ws| ensures WinnerId(ws[i]) != WinnerId(ws[j]) {
        if j == |ws| - 1 {
          assert ws[i] == winners[i];
        }
      }
      StableSort.SortByKeepsDistinct(ws, DurationKey, WinnerId);
    }
  }

  /**
    The winner list after a first win by this viewer: the old winners plus
    the new one, ordered by duration, equal durations in arrival order, and
    still one entry per viewer.
   */
  lemma WinSortsWinners(winners: seq<RoundWinner>, w: RoundWinner)
    requires !HasWon(winners, w.user.userId)
    ensures var ws := Ranked(winners, w);
      && multiset(ws) == multiset(winners) + multiset{w}
      && (StableSort.Distinct(winners, WinnerId) ==> StableSort.Distinct(ws, WinnerId))
      && (forall k :: StableSort.KeyFilter(ws, DurationKey, k) == StableSort.KeyFilter(winners + [w], DurationKey, k))
  {
    DistinctAfterWin(winners, w);
    forall k ensures StableSort.KeyFilter(StableSort.SortBy(winners + [w], DurationKey), DurationKey, k)
                     == StableSort.KeyFilter(winners + [w], DurationKey, k) {
      StableSort.SortByIsStable(winners + [w], DurationKey, k);
    }
  }

  /** A new winner keeps an ordered list of unique winners below the cap ordered and unique, and at most at the cap. */
  lemma RankedStaysRanked(winners: seq<RoundWinner>, w: RoundWinner)
    requires StableSort.Distinct(winners, WinnerId) && |winners| < WinnerCap && !HasWon(winners, w.user.userId)
    ensures StableSort.Distinct(Ranked(winners, w), WinnerId)
    ensures |Ranked(winners, w)| <= WinnerCap
  {
    DistinctAfterWin(winners, w);
  }

  /** A win keeps the winners unique, ordered by duration, and within the cap. */
  lemma WinKeepsRanking(g: Game, guess: string, msg: ChatMessage, now: int)
    requires g.state == Running && |g.winners| < WinnerCap
    requires StableSort.Distinct(g.winners, WinnerId) && StableSort.Ascending(g.winners, DurationKey)
    ensures var g' := Win(g, guess, msg, now).game;
      && StableSort.Distinct(g'.winners, WinnerId)
      && StableSort.Ascending(g'.winners, DurationKey)
      && |g'.winners| <= WinnerCap
      && (g'.state == Running ==> |g'.winners| < WinnerCap)
  {
    if !HasWon(g.winners, msg.user.userId) {
      NewWinnerKeepsRanking(g, guess, msg, now);
    }
  }

  lemma NewWinnerKeepsRanking(g: Game, guess: string, msg: ChatMessage, now: int)
    requires g.state == Running && |g.winners| < WinnerCap && !HasWon(g.winners, msg.user.userId)
    requires StableSort.Distinct(g.winners, WinnerId)
    ensures var g' := Win(g, guess, msg, now).game;
      && StableSort.Distinct(g'.winners, WinnerId)
      && StableSort.Ascending(g'.winners, DurationKey)
      && |g'.winners| <= WinnerCap
      && (g'.state == Running ==> |g'.winners| < WinnerCap)
  {
    var s := Win(g, guess, msg, now);
    var w := RoundWinner(msg.user, now - g.startTime, Scoring.WinScore(now - g.startTime));
    var ws := Ranked(g.winners, w);
    assert s.game.winners == ws;
    RankedStaysRanked(g.winners, w);
    assert StableSort.Ascending(ws, DurationKey);
    assert s.game.state == Running ==> |ws| < WinnerCap;
  }

  /** A win keeps one guesser per row and five tiles in every row. */
  lemma WinKeepsRows(g: Game, guess: string, msg: ChatMessage, now: int)
    requires Inv(g) && WellFormed(g, guess)
    ensures var g' := Win(g, guess, msg, now).game;
      && |g'.rows| == |g'.guessers|
      && forall i :: 0 <= i < |g'.rows| ==> |g'.rows[i]| == WordLength
  {
    var g' := Win(g, guess, msg, now).game;
    if !HasWon(g.winners, msg.user.userId) {
      assert g'.rows == [WinRow(guess)] + g.rows;
      forall i | 0 <= i < |g'.rows| ensures |g'.rows[i]| == WordLength {
        if i > 0 {
          assert g'.rows[i] == g.rows[i - 1];
        } else {
          assert |WinRow(guess)| == |guess|;
        }
      }
    }
  }

  lemma WinKeepsInv(g: Game, guess: string, msg: ChatMessage, now: int)
    requires Inv(g) && WellFormed(g, guess)
    ensures Inv(Win(g, guess, msg, now).game)
  {
    WinKeepsRanking(g, guess, msg, now);
    WinKeepsRows(g, guess, msg, now);
  }

  /** Every event keeps the engine's invariant: unique, duration-ordered winners, live timers matching the state. */
  lemma NextKeepsInv(g: Game, e: Event)
    requires Inv(g)
    ensures Inv(Next(g, e).game)
  {
    match e
    case GuessMade(guess, msg, now) =>
      if |g.wordList| > 0 && WellFormed(g, guess) && guess in g.wordList && guess == g.target {
        WinKeepsInv(g, guess, msg, now);
      }
    case _ =>
  }

  /** A viewer's repeated correct guess adds no second winner record. */
  lemma WinnerIdsStayUnique(g: Game, guess: string, msg: ChatMessage, now: int)
    requires Inv(g)
    requires HasWon(g.winners, msg.user.userId)
    ensures HandleGuess(g, guess, msg, now).game.winners == g.winners
  {
  }

  /** `n` firings of the round countdown with nothing else happening. */
  function Ticks(g: Game, n: nat): Game
    decreases n
  {
    if n == 0 then g else Ticks(Tick(g).game, n - 1)
  }

  /**
    A scheduled countdown showing `t` seconds moves the game to
    `round_over` after exactly `t` firings, whatever state it is in.
   */
  lemma {:induction false} CountdownRunsOut(g: Game, n: nat)
    requires g.countdownLive && g.timeLeft >= 1
    ensures n < g.timeLeft ==> Ticks(g, n) == g.(timeLeft := g.timeLeft - n)
    ensures n == g.timeLeft ==> Ticks(g, n).state == RoundOver && Ticks(g, n).timeLeft == 0
    decreases n
  {
    if n > 0 && n <= g.timeLeft {
      if g.timeLeft > 1 {
        CountdownRunsOut(Tick(g).game, n - 1);
      } else {
        assert n == 1;
      }
    }
  }

  /** A fresh round lasts `RoundDuration` one-second firings of its countdown. */
  lemma FreshRoundLastsItsDuration(g: Game, pick: nat, now: int)
    requires |g.wordList| > 0
    ensures Ticks(StartRound(g, pick, now), RoundDuration - 1).state == Running
    ensures Ticks(StartRound(g, pick, now), RoundDuration).state == RoundOver
  {
    CountdownRunsOut(StartRound(g, pick, now), RoundDuration - 1);
    CountdownRunsOut(StartRound(g, pick, now), RoundDuration);
  }

  /** A win that solves the round leaves its countdown running and reports the winners. */
  lemma SolvingWin(g: Game, guess: string, msg: ChatMessage, now: int)
    requires g.state == Running && g.countdownLive && g.timeLeft >= 1
    requires Win(g, guess, msg, now).game.state == Solved
    ensures var s := Win(g, guess, msg, now);
      && s.report == Some(s.game.winners) && |s.game.winners| > 0
      && s.game.countdownLive && s.game.timeLeft == g.timeLeft
  {
    assert !HasWon(g.winners, msg.user.userId);
  }

  /**
    A live countdown reports the winners again when it runs out, whatever
    state the round has moved to in the meantime.
   */
  lemma LastTickReports(g: Game)
    requires g.countdownLive && g.timeLeft >= 1 && |g.winners| > 0
    ensures Ticks(g, g.timeLeft).state == RoundOver
    ensures Tick(Ticks(g, g.timeLeft - 1)).report == Some(g.winners)
  {
    CountdownRunsOut(g, g.timeLeft);
    OneSecondLeft(g);
  }

  lemma {:induction false} OneSecondLeft(g: Game)
    requires g.countdownLive && g.timeLeft >= 1 && |g.winners| > 0
    ensures Tick(Ticks(g, g.timeLeft - 1)).report == Some(g.winners)
    decreases g.timeLeft
  {
    if g.timeLeft > 1 {
      var g' := Tick(g).game;
      assert g'.countdownLive && g'.timeLeft == g.timeLeft - 1 && g'.winners == g.winners;
      OneSecondLeft(g');
      assert Ticks(g, g.timeLeft - 1) == Ticks(g', g'.timeLeft - 1);
    } else {
      LastSecond(g);
    }
  }

  lemma LastSecond(g: Game)
    requires g.countdownLive && g.timeLeft == 1 && |g.winners| > 0
    ensures Tick(g).report == Some(g.winners)
  {
  }
}
