/**
 * The game session controller as a state machine on values: the state both front ends keep
 * (page.tsx in React state, script.js in module globals) and what each handler does to it.
 * The classes in page.dfy and script.dfy are proved to update their fields as these
 * functions say.
 */
module Session {
  import opened Wrappers
  import opened Modes
  import opened Placement
  import opened Scores

  /** The screens: 'menu', 'difficulty', 'playing' and 'finished' ('finish' in script.js). */
  datatype Screen = Menu | DifficultySelect | Playing | Finished

  /**
   * The controller's state: selected mode (its numbers are the sequence to tap), difficulty,
   * the targets, the cursor currentIndex, the two timestamps in milliseconds, and the score table.
   */
  datatype Game = Game(
    screen: Screen,
    mode: Option<Mode>,
    difficulty: Option<Difficulty>,
    positions: seq<Position>,
    index: nat,
    startTime: Option<int>,
    endTime: Option<int>,
    scores: seq<ScoreRecord>)

  /** JavaScript truthiness of a `number | null` value: null and 0 are false. */
  predicate Truthy(t: Option<int>)
  {
    t.Some? && t.value != 0
  }

  /** The state after loading: the menu, nothing selected, the stored score table. */
  function Initial(stored: seq<ScoreRecord>): Game
  {
    Game(Menu, None, None, [], 0, None, None, stored)
  }

  /** A selected mode, if any, comes from the catalogue. */
  predicate ModeOk(g: Game)
  {
    g.mode.Some? ==> ValidMode(g.mode.value)
  }

  /** The state of a game under way or just finished. */
  predicate InGame(g: Game)
  {
    g.mode.Some? && g.difficulty.Some? && ValidMode(g.mode.value) &&
    var ns := g.mode.value.numbers;
    ns == SequenceFor(g.mode.value, g.difficulty.value) &&
    |g.positions| == |ns| &&
    multiset(NumbersOf(g.positions)) == multiset(ns) &&
    CompletedFirst(g.positions, ns, g.index) &&
    (g.index > 0 ==> g.startTime.Some?) &&
    (g.screen == Playing <==> g.index < |ns|) &&
    (g.screen == Playing ==> g.endTime.None?) &&
    (g.screen == Finished ==> g.endTime.Some?)
  }

  /**
   * The controller's invariant: the menu has nothing selected; while playing and when
   * finished the targets are the mode's numbers, exactly the first `index` of them are
   * completed, and the cursor is in range.
   */
  predicate Valid(g: Game)
  {
    ModeOk(g) &&
    (g.screen == Menu ==>
      g.mode.None? && g.difficulty.None? && g.positions == [] && g.index == 0 &&
      g.startTime.None? && g.endTime.None?) &&
    (g.screen == DifficultySelect ==> g.mode.Some?) &&
    (g.screen == Playing || g.screen == Finished ==> InGame(g))
  }

  /**
   * startGame: build the sequence, place it, reset the cursor and both timestamps, play.
   */
  function StartGame(g: Game, mode: Mode, d: Difficulty, draws: seq<nat>): Game
    requires ValidMode(mode)
  {
    var numbers := SequenceFor(mode, d);
    Game(Playing, Some(Mode(mode.name, numbers)), Some(d), Place(numbers, draws), 0, None, None, g.scores)
  }

  /** selectMode: the base mode starts at '3x3' at once, a multiples mode asks for a difficulty. */
  function SelectMode(g: Game, mode: Mode, draws: seq<nat>): Game
    requires ValidMode(mode)
  {
    var g1 := g.(mode := Some(mode));
    if mode.name == BaseName then StartGame(g1, mode, Small, draws)
    else g1.(screen := DifficultySelect)
  }

  /** The difficulty buttons: `selectedMode && startGame(selectedMode, d)`. */
  function ChooseDifficulty(g: Game, d: Difficulty, draws: seq<nat>): Game
    requires ModeOk(g)
  {
    if g.mode.Some? then StartGame(g, g.mode.value, d, draws) else g
  }

  /** playAgain: restart with the same mode and difficulty when both are set. */
  function PlayAgain(g: Game, draws: seq<nat>): Game
    requires ModeOk(g)
  {
    if g.mode.Some? && g.difficulty.Some? then StartGame(g, g.mode.value, g.difficulty.value, draws)
    else g
  }

  /** backToMenu: clear the selection, the targets, the cursor and the timestamps. */
  function BackToMenu(g: Game): Game
  {
    Initial(g.scores)
  }

  /** `selectedMode.numbers[currentIndex]`, undefined past the end. */
  function Expected(g: Game): Option<int>
  {
    if g.mode.Some? && g.index < |g.mode.value.numbers| then Some(g.mode.value.numbers[g.index])
    else None
  }

  /** The key a game is saved under: `${name}（${difficulty}）`, or the bare name. */
  function Key(g: Game): string
    requires g.mode.Some?
  {
    ModeKey(g.mode.value.name, g.difficulty)
  }

  /** The first click at index 0 starts the clock; any other click leaves it alone. */
  function StartClock(g: Game, now: int): Game
  {
    if g.index == 0 && g.startTime.None? then g.(startTime := Some(now)) else g
  }

  /** A right click: the clock check, then the target of the expected number completed and the cursor advanced. */
  function Advance(g: Game, now: int): Game
    requires g.mode.Some? && g.index < |g.mode.value.numbers|
  {
    var g1 := StartClock(g, now);
    g1.(positions := MarkCompleted(g1.positions, g.mode.value.numbers[g.index]), index := g.index + 1)
  }

  /**
   * The completion check once the cursor is past the last number: the end time is set, the
   * screen is 'finished', and if `start` is truthy the time since it is saved under `key`.
   */
  function Stop(g: Game, now: int, start: Option<int>, key: string, today: string): Game
  {
    var g3 := g.(endTime := Some(now), screen := Finished);
    if Truthy(start) then g3.(scores := SavedScores(g.scores, ScoreRecord(key, now - start.value, today)))
    else g3
  }

  /** After a right click: past the last number the game stops, timed from the current start. */
  function AfterRightClick(g: Game, now: int, today: string): Game
    requires g.mode.Some? && g.index < |g.mode.value.numbers|
  {
    var g2 := Advance(g, now);
    if g2.index < |g.mode.value.numbers| then g2 else Stop(g2, now, g2.startTime, Key(g), today)
  }

  /**
   * handleNumberClick at time `now` on day `today`. Outside 'playing' nothing happens. The
   * first click at index 0 starts the clock whether or not it is right. A right click
   * completes its target and advances the cursor; the last one stops the clock, finishes,
   * and saves the time if the clock was started. A wrong click changes nothing else.
   */
  function Click(g: Game, clicked: int, now: int, today: string): Game
  {
    if g.mode.None? || g.screen != Playing then g
    else if Expected(g) == Some(clicked) then AfterRightClick(g, now, today)
    else StartClock(g, now)
  }

  /**
   * handleNumberClick as page.tsx runs it. React state is a snapshot for the whole handler, so
   * the save reads the start time from before the click: a game finished by its first click
   * would not be saved. Apart from that it is Click.
   */
  function PageClick(g: Game, clicked: int, now: int, today: string): Game
  {
    if g.mode.None? || g.screen != Playing then g
    else if Expected(g) == Some(clicked) then
      var g2 := Advance(g, now);
      if g2.index < |g.mode.value.numbers| then g2 else Stop(g2, now, g.startTime, Key(g), today)
    else StartClock(g, now)
  }

  /** getElapsedTime in milliseconds: 0 before the start, frozen at the end once finished. */
  function Elapsed(g: Game, now: int): int
  {
    if !Truthy(g.startTime) then 0
    else (if Truthy(g.endTime) then g.endTime.value else now) - g.startTime.value
  }

  /** The script's finish screen flag: the elapsed time against the table after the save. */
  function ScriptNewRecordShown(g: Game, now: int): bool
    requires g.mode.Some?
  {
    NewRecordFlag(Elapsed(g, now), BestScore(g.scores, Key(g)))
  }

  /**
   * The component's finished screen flag: the elapsed time rounded to hundredths against the
   * table after the save.
   */
  function PageNewRecordShown(g: Game, now: int): bool
    requires g.mode.Some?
  {
    PageNewRecordFlag(Elapsed(g, now), BestScore(g.scores, Key(g)))
  }

  /** The facts about a game under way that a click needs. */
  predicate Ready(g: Game)
  {
    g.mode.Some? && g.screen == Playing &&
    9 <= |g.mode.value.numbers| && g.index < |g.mode.value.numbers| &&
    (g.index > 0 ==> g.startTime.Some?)
  }

  // ---------------------------------------------------------------- invariant

  lemma PlayingIsReady(g: Game)
    requires Valid(g) && g.screen == Playing
    ensures Ready(g)
  {
  }

  /** The invariant does not look at the score table. */
  lemma ValidIgnoresScores(g: Game, s: seq<ScoreRecord>)
    requires Valid(g)
    ensures Valid(g.(scores := s))
  {
  }

  lemma InitialValid(stored: seq<ScoreRecord>)
    ensures Valid(Initial(stored))
  {
  }

  /** A fresh game is valid: all targets open, the cursor at 0, the clock not started. */
  lemma {:induction false} StartGameValid(g: Game, mode: Mode, d: Difficulty, draws: seq<nat>)
    requires ValidMode(mode)
    ensures Valid(StartGame(g, mode, d, draws))
    ensures StartGame(g, mode, d, draws).screen == Playing
  {
    var r := StartGame(g, mode, d, draws);
    var ns := SequenceFor(mode, d);
    var m := Mode(mode.name, ns);
    assert ValidMode(m);
    assert SequenceFor(m, d) == ns;
    FreshPlacementCompletesNothing(ns, draws);
  }

  lemma {:induction false} SelectModeValid(g: Game, mode: Mode, draws: seq<nat>)
    requires Valid(g) && ValidMode(mode)
    ensures Valid(SelectMode(g, mode, draws))
  {
    if mode.name == BaseName {
      StartGameValid(g.(mode := Some(mode)), mode, Small, draws);
    }
  }

  /** Selecting the base mode records it and starts it at '3x3'. */
  lemma SelectBaseModeStarts(g: Game, mode: Mode, draws: seq<nat>)
    requires ValidMode(mode) && mode.name == BaseName
    ensures SelectMode(g, mode, draws) == StartGame(g.(mode := Some(mode)), mode, Small, draws)
  {
  }

  /** Selecting a multiples mode only records it and asks for a difficulty. */
  lemma {:induction false} SelectMultiplesMode(g: Game, mode: Mode, draws: seq<nat>)
    requires Valid(g) && ValidMode(mode) && mode.name != BaseName
    ensures SelectMode(g, mode, draws) == g.(mode := Some(mode), screen := DifficultySelect)
    ensures Valid(SelectMode(g, mode, draws))
  {
    SelectModeValid(g, mode, draws);
  }

  lemma {:induction false} ChooseDifficultyValid(g: Game, d: Difficulty, draws: seq<nat>)
    requires Valid(g)
    ensures Valid(ChooseDifficulty(g, d, draws))
  {
    if g.mode.Some? {
      StartGameValid(g, g.mode.value, d, draws);
    }
  }

  lemma {:induction false} PlayAgainValid(g: Game, draws: seq<nat>)
    requires Valid(g)
    ensures Valid(PlayAgain(g, draws))
  {
    if g.mode.Some? && g.difficulty.Some? {
      StartGameValid(g, g.mode.value, g.difficulty.value, draws);
    }
  }

  lemma BackToMenuValid(g: Game)
    ensures Valid(BackToMenu(g))
    ensures BackToMenu(g).scores == g.scores
  {
  }

  /** The numbers of a game are pairwise different, and so are those on its targets. */
  lemma {:induction false} InGameDistinct(g: Game)
    requires InGame(g)
    ensures Distinct(g.mode.value.numbers)
    ensures Distinct(NumbersOf(g.positions))
  {
    var ns := g.mode.value.numbers;
    SequenceForIncreasing(g.mode.value, g.difficulty.value);
    DistinctFromMultiset(ns, NumbersOf(g.positions));
  }

  /** The target showing the expected number exists and is still open. */
  lemma {:induction false} ExpectedTarget(g: Game) returns (k: nat)
    requires InGame(g) && g.index < |g.mode.value.numbers|
    ensures k < |g.positions| && g.positions[k].number == g.mode.value.numbers[g.index]
    ensures !g.positions[k].isCompleted
    ensures forall i :: 0 <= i < |g.positions| && g.positions[i].number == g.mode.value.numbers[g.index] ==> i == k
  {
    var ns := g.mode.value.numbers;
    var v := ns[g.index];
    assert v in multiset(ns);
    assert v in multiset(NumbersOf(g.positions));
    var j :| 0 <= j < |g.positions| && NumbersOf(g.positions)[j] == v;
    k := j;
    SequenceForIncreasing(g.mode.value, g.difficulty.value);
    assert v !in ns[..g.index];
    InGameDistinct(g);
    forall i | 0 <= i < |g.positions| && g.positions[i].number == v ensures i == k {
      assert NumbersOf(g.positions)[i] == NumbersOf(g.positions)[k];
    }
  }

  /**
   * A right click keeps the board invariant: the targets still hold the mode's numbers, and
   * exactly its first `index + 1` numbers are completed.
   */
  lemma {:induction false} AdvanceBoard(g: Game, now: int)
    requires g.mode.Some? && g.index < |g.mode.value.numbers| && g.screen == Playing
    requires |g.positions| == |g.mode.value.numbers|
    requires multiset(NumbersOf(g.positions)) == multiset(g.mode.value.numbers)
    requires CompletedFirst(g.positions, g.mode.value.numbers, g.index)
    requires g.index > 0 ==> g.startTime.Some?
    ensures var r := Advance(g, now);
      r.mode == g.mode && r.difficulty == g.difficulty && r.index == g.index + 1 &&
      r.screen == Playing && r.endTime == g.endTime && r.scores == g.scores &&
      r.startTime.Some? &&
      |r.positions| == |g.positions| &&
      multiset(NumbersOf(r.positions)) == multiset(g.mode.value.numbers) &&
      CompletedFirst(r.positions, g.mode.value.numbers, r.index)
  {
    var ns := g.mode.value.numbers;
    assert StartClock(g, now).positions == g.positions;
    var ps := MarkCompleted(g.positions, ns[g.index]);
    assert Advance(g, now).positions == ps;
    MarkNextCompleted(g.positions, ns, g.index);
  }

  /** The board facts of a game being played. */
  lemma PlayingBoard(g: Game)
    requires Valid(g) && g.screen == Playing
    ensures g.mode.Some? && g.index < |g.mode.value.numbers|
    ensures |g.positions| == |g.mode.value.numbers|
    ensures multiset(NumbersOf(g.positions)) == multiset(g.mode.value.numbers)
    ensures CompletedFirst(g.positions, g.mode.value.numbers, g.index)
    ensures g.index > 0 ==> g.startTime.Some?
  {
  }

  /**
   * The snapshot read of the start time never matters in a reachable game: every sequence has
   * at least 9 numbers, so the click that finishes is never the first and the clock is running.
   */
  lemma {:induction false} PageClickAgrees(g: Game, clicked: int, now: int, today: string)
    requires Valid(g)
    ensures PageClick(g, clicked, now, today) == Click(g, clicked, now, today)
  {
    if g.mode.Some? && g.screen == Playing {
      PlayingIsReady(g);
      ReadyPageClickAgrees(g, clicked, now, today);
    }
  }

  /** The component's click keeps the invariant, as the script's does. */
  lemma {:induction false} PageClickValid(g: Game, clicked: int, now: int, today: string)
    requires Valid(g)
    ensures Valid(PageClick(g, clicked, now, today))
  {
    PageClickAgrees(g, clicked, now, today);
    ClickValid(g, clicked, now, today);
  }

  lemma {:induction false} ReadyPageClickAgrees(g: Game, clicked: int, now: int, today: string)
    requires Ready(g)
    ensures PageClick(g, clicked, now, today) == Click(g, clicked, now, today)
  {
    if Expected(g) == Some(clicked) && g.index + 1 >= |g.mode.value.numbers| {
      assert Advance(g, now).startTime == g.startTime;
    }
  }

  /** A right click that is not the last keeps the invariant. */
  lemma {:induction false} AdvanceValid(g: Game, now: int)
    requires Valid(g) && g.screen == Playing && g.index + 1 < |g.mode.value.numbers|
    ensures Valid(Advance(g, now))
  {
    PlayingBoard(g);
    AdvanceBoard(g, now);
  }

  /** The last right click, with the clock stopped and the screen finished, keeps the invariant. */
  lemma {:induction false} FinishValid(g: Game, now: int)
    requires Valid(g) && g.screen == Playing && g.index + 1 == |g.mode.value.numbers|
    ensures Valid(Advance(g, now).(endTime := Some(now), screen := Finished))
  {
    PlayingBoard(g);
    AdvanceBoard(g, now);
  }

  /** The right click keeps the invariant, including the save on the last one. */
  lemma {:induction false} RightClickKeepsValid(g: Game, now: int, today: string)
    requires Valid(g) && g.screen == Playing
    ensures Valid(Click(g, g.mode.value.numbers[g.index], now, today))
  {
    PlayingIsReady(g);
    RightClickIsAfterRightClick(g, now, today);
    if g.index + 1 < |g.mode.value.numbers| {
      AdvanceValid(g, now);
    } else {
      LastClickValid(g, now, today);
    }
  }

  /** While playing, the click on the expected number is the right click. */
  lemma RightClickIsAfterRightClick(g: Game, now: int, today: string)
    requires Ready(g)
    ensures Click(g, g.mode.value.numbers[g.index], now, today) == AfterRightClick(g, now, today)
  {
  }

  /** The last right click keeps the invariant, with or without the save. */
  lemma {:induction false} LastClickValid(g: Game, now: int, today: string)
    requires Valid(g) && g.screen == Playing && g.index + 1 == |g.mode.value.numbers|
    ensures Valid(AfterRightClick(g, now, today))
  {
    FinishValid(g, now);
    var g3 := Advance(g, now).(endTime := Some(now), screen := Finished);
    if Truthy(g3.startTime) {
      ValidIgnoresScores(g3, SavedScores(g3.scores, ScoreRecord(Key(g), now - g3.startTime.value, today)));
    }
  }

  /** Every click keeps the invariant. */
  lemma {:induction false} ClickValid(g: Game, clicked: int, now: int, today: string)
    requires Valid(g)
    ensures Valid(Click(g, clicked, now, today))
  {
    if g.mode.Some? && g.screen == Playing && Expected(g) == Some(clicked) {
      RightClickIsExpected(g, clicked, now, today);
      RightClickKeepsValid(g, now, today);
    } else {
      WrongClickKeepsValid(g, clicked, now, today);
    }
  }

  /** The right click is the click on the expected number. */
  lemma RightClickIsExpected(g: Game, clicked: int, now: int, today: string)
    requires g.mode.Some? && g.screen == Playing && Expected(g) == Some(clicked)
    ensures Click(g, clicked, now, today) == Click(g, g.mode.value.numbers[g.index], now, today)
  {
  }

  /** A wrong click, or one outside play, at most starts the clock, and keeps the invariant. */
  lemma WrongClickKeepsValid(g: Game, clicked: int, now: int, today: string)
    requires Valid(g) && !(g.mode.Some? && g.screen == Playing && Expected(g) == Some(clicked))
    ensures Valid(Click(g, clicked, now, today))
  {
  }

  // ---------------------------------------------------------------- one click

  /** Outside 'playing', or with no mode selected, a click changes nothing. */
  lemma ClickOutsidePlayIsNoop(g: Game, clicked: int, now: int, today: string)
    requires g.screen != Playing || g.mode.None?
    ensures Click(g, clicked, now, today) == g
  {
  }

  /**
   * The first click at index 0 starts the clock, whether or not it is the right number; any
   * other click leaves the start time alone.
   */
  lemma ClickStartsClock(g: Game, clicked: int, now: int, today: string)
    requires g.screen == Playing && g.mode.Some?
    ensures Click(g, clicked, now, today).startTime ==
      if g.index == 0 && g.startTime.None? then Some(now) else g.startTime
  {
  }

  /**
   * A wrong click (including a number already completed or one not yet due) leaves the
   * cursor, the targets, the screen, the end time and the table as they were.
   */
  lemma ClickWrongKeepsProgress(g: Game, clicked: int, now: int, today: string)
    requires Expected(g) != Some(clicked)
    ensures var r := Click(g, clicked, now, today);
      r.index == g.index && r.positions == g.positions && r.screen == g.screen &&
      r.endTime == g.endTime && r.scores == g.scores && r.mode == g.mode
  {
  }

  /** What any click does to the board and the cursor, whichever branch it takes. */
  lemma ClickShape(g: Game, clicked: int, now: int, today: string)
    ensures var r := Click(g, clicked, now, today);
      var right := g.mode.Some? && g.screen == Playing && Expected(g) == Some(clicked);
      r.mode == g.mode && r.difficulty == g.difficulty &&
      r.positions == (if right then MarkCompleted(g.positions, clicked) else g.positions) &&
      r.index == (if right then g.index + 1 else g.index)
  {
  }

  /** A right click that is not the last keeps playing, the end time and the table. */
  lemma RightClickNotLast(g: Game, now: int, today: string)
    requires Ready(g) && g.index + 1 < |g.mode.value.numbers|
    ensures var r := Click(g, g.mode.value.numbers[g.index], now, today);
      r.screen == Playing && r.endTime == g.endTime && r.scores == g.scores &&
      r.startTime == (if g.index == 0 && g.startTime.None? then Some(now) else g.startTime)
  {
  }

  /**
   * The right click advances the cursor by one and completes exactly the target that shows
   * the expected number, which was open; every other target is unchanged.
   */
  lemma {:induction false} ClickRightCompletesOne(g: Game, now: int, today: string) returns (k: nat)
    requires Valid(g) && g.screen == Playing
    ensures var r := Click(g, g.mode.value.numbers[g.index], now, today);
      r.index == g.index + 1 &&
      k < |g.positions| && |r.positions| == |g.positions| &&
      g.positions[k].number == g.mode.value.numbers[g.index] &&
      !g.positions[k].isCompleted && r.positions[k].isCompleted &&
      forall i :: 0 <= i < |g.positions| && i != k ==> r.positions[i] == g.positions[i]
  {
    var v := g.mode.value.numbers[g.index];
    ClickShape(g, v, now, today);
    k := ExpectedTarget(g);
    InGameDistinct(g);
    MarkCompletedFlipsOne(g.positions, v, k);
  }

  /**
   * The last right click stops the clock, shows the finished screen, and saves
   * `end - start` under the mode key when the clock was started; the table is untouched
   * otherwise.
   */
  lemma FinishingClick(g: Game, now: int, today: string)
    requires Ready(g) && g.index + 1 == |g.mode.value.numbers|
    ensures var r := Click(g, g.mode.value.numbers[g.index], now, today);
      r.screen == Finished && r.endTime == Some(now) && r.startTime == g.startTime &&
      r.index == |g.mode.value.numbers| &&
      r.scores == if Truthy(g.startTime)
        then SavedScores(g.scores, ScoreRecord(Key(g), now - g.startTime.value, today))
        else g.scores
  {
  }

  /**
   * Once finished with both clocks set, the shown time no longer moves, and it is the time
   * that was saved.
   */
  lemma {:induction false} FinishedTimeIsFrozen(g: Game, now: int, today: string, later: int)
    requires Ready(g) && g.index + 1 == |g.mode.value.numbers|
    requires Truthy(g.startTime) && now != 0
    ensures var r := Click(g, g.mode.value.numbers[g.index], now, today);
      Elapsed(r, later) == now - g.startTime.value &&
      r.scores == SavedScores(g.scores, ScoreRecord(Key(g), Elapsed(r, later), today))
  {
    FinishingClick(g, now, today);
  }

  /**
   * The finished screen's flag is computed after the save: when the saved record survived
   * the cut to 50, "new record" shows only if the key's best is a time of 0.
   */
  lemma {:induction false} NewRecordNeverShownForSavedTime(g: Game, now: int, today: string, later: int)
    requires Ready(g) && g.index + 1 == |g.mode.value.numbers|
    requires Truthy(g.startTime) && now != 0
    requires ScoreRecord(Key(g), now - g.startTime.value, today) in
      SavedScores(g.scores, ScoreRecord(Key(g), now - g.startTime.value, today))
    ensures var r := Click(g, g.mode.value.numbers[g.index], now, today);
      BestScore(r.scores, Key(r)).Some? &&
      (ScriptNewRecordShown(r, later) <==> BestScore(r.scores, Key(r)).value == 0)
  {
    var rec := ScoreRecord(Key(g), now - g.startTime.value, today);
    var r := Click(g, g.mode.value.numbers[g.index], now, today);
    FinishingClick(g, now, today);
    ClickShape(g, g.mode.value.numbers[g.index], now, today);
    assert Key(r) == Key(g);
    assert Elapsed(r, later) == rec.time;
    NewRecordAfterSave(g.scores, rec);
  }

  /**
   * The component's finished screen after the last tap: the saved time is the key's best or
   * slower, so "new record" shows only for a best of 0 or a time that rounding took below the
   * best; for a key's first game it shows exactly when rounding took the time down.
   */
  lemma {:induction false} PageNewRecordForSavedTime(g: Game, now: int, today: string, later: int)
    requires Ready(g) && g.index + 1 == |g.mode.value.numbers|
    requires Truthy(g.startTime) && now != 0
    requires ScoreRecord(Key(g), now - g.startTime.value, today) in
      SavedScores(g.scores, ScoreRecord(Key(g), now - g.startTime.value, today))
    ensures var r := PageClick(g, g.mode.value.numbers[g.index], now, today);
      var t := now - g.startTime.value;
      var best := BestScore(r.scores, Key(r));
      best.Some? && best.value <= t &&
      (PageNewRecordShown(r, later) && best.value != 0 ==> ShownTime(t) < t) &&
      (BestScore(g.scores, Key(g)).None? && t > 0 ==> (PageNewRecordShown(r, later) <==> 1 <= t % 10 <= 4))
  {
    var rec := ScoreRecord(Key(g), now - g.startTime.value, today);
    var r := PageClick(g, g.mode.value.numbers[g.index], now, today);
    assert r.scores == SavedScores(g.scores, rec) && Key(r) == rec.mode && Elapsed(r, later) == rec.time by {
      ReadyPageClickAgrees(g, g.mode.value.numbers[g.index], now, today);
      FinishingClick(g, now, today);
      ClickShape(g, g.mode.value.numbers[g.index], now, today);
    }
    PageFlagAfterSave(g.scores, rec);
  }

  /**
   * Base-mode games are saved under "初級（1-9）（3x3）", but the menu looks the base mode up
   * by its bare name: finishing one never adds a record the menu's lookup can find.
   */
  lemma {:induction false} BaseGameInvisibleToMenu(g: Game, now: int, today: string)
    requires Valid(g) && g.screen == Playing && g.mode.value.name == BaseName
    requires g.index + 1 == |g.mode.value.numbers|
    ensures var r := Click(g, g.mode.value.numbers[g.index], now, today);
      forall x :: x in r.scores && x.mode == BaseName ==> x in g.scores
  {
    var r := Click(g, g.mode.value.numbers[g.index], now, today);
    FinishingClick(g, now, today);
    assert Key(g) == BaseName + "（" + Label(g.difficulty.value) + "）";
    assert Key(g) != BaseName by {
      assert |Key(g)| == |BaseName| + 5;
    }
    if Truthy(g.startTime) {
      SaveDoesNotTouchOtherKeys(g.scores, ScoreRecord(Key(g), now - g.startTime.value, today), BaseName);
    }
  }

  /**
   * Playing again after finishing replays the same mode, difficulty and numbers with a fresh
   * placement, the cursor at 0 and no timestamps, keeping the table.
   */
  lemma {:induction false} PlayAgainSameSequence(g: Game, draws: seq<nat>)
    requires Valid(g) && g.screen == Finished
    ensures var r := PlayAgain(g, draws);
      r.screen == Playing && r.mode == g.mode && r.difficulty == g.difficulty &&
      r.index == 0 && r.startTime.None? && r.endTime.None? && r.scores == g.scores &&
      multiset(NumbersOf(r.positions)) == multiset(NumbersOf(g.positions))
  {
  }

  // ---------------------------------------------------------------- runs of clicks

  /** A tap: the number clicked and the clock at that moment. */
  datatype Tap = Tap(number: int, at: int)

  /** The state after a series of taps on one day. */
  function Run(g: Game, taps: seq<Tap>, today: string): Game
    decreases |taps|
  {
    if |taps| == 0 then g
    else Run(Click(g, taps[0].number, taps[0].at, today), taps[1..], today)
  }

  /** How many of the taps were right when they were made. */
  function RightTaps(g: Game, taps: seq<Tap>, today: string): nat
    decreases |taps|
  {
    if |taps| == 0 then 0
    else
      var right := if g.mode.Some? && g.screen == Playing && Expected(g) == Some(taps[0].number) then 1 else 0;
      right + RightTaps(Click(g, taps[0].number, taps[0].at, today), taps[1..], today)
  }

  /**
   * Within one game the cursor grows by exactly the number of right taps, whatever wrong
   * taps come between; targets keep their numbers and places, and a completed target stays
   * completed.
   */
  lemma {:induction false} RunCountsRightTaps(g: Game, taps: seq<Tap>, today: string)
    requires Valid(g)
    ensures var r := Run(g, taps, today);
      Valid(r) && r.index == g.index + RightTaps(g, taps, today) &&
      r.mode == g.mode && |r.positions| == |g.positions| &&
      forall i :: 0 <= i < |g.positions| ==>
        r.positions[i].number == g.positions[i].number &&
        (r.positions[i].x, r.positions[i].y) == (g.positions[i].x, g.positions[i].y) &&
        (g.positions[i].isCompleted ==> r.positions[i].isCompleted)
    decreases |taps|
  {
    if |taps| > 0 {
      var g1 := Click(g, taps[0].number, taps[0].at, today);
      ClickValid(g, taps[0].number, taps[0].at, today);
      ClickShape(g, taps[0].number, taps[0].at, today);
      RunCountsRightTaps(g1, taps[1..], today);
      var r := Run(g1, taps[1..], today);
      assert |g1.positions| == |g.positions|;
      forall i | 0 <= i < |g.positions|
        ensures r.positions[i].number == g.positions[i].number
        ensures (r.positions[i].x, r.positions[i].y) == (g.positions[i].x, g.positions[i].y)
        ensures g.positions[i].isCompleted ==> r.positions[i].isCompleted
      {
        assert NumbersOf(g1.positions)[i] == NumbersOf(g.positions)[i];
      }
    }
  }

  /** The taps that click the remaining numbers in order, at any times. */
  predicate ClicksRest(g: Game, taps: seq<Tap>)
    requires g.mode.Some? && g.index <= |g.mode.value.numbers|
  {
    var ns := g.mode.value.numbers;
    |taps| == |ns| - g.index && forall k :: 0 <= k < |taps| ==> taps[k].number == ns[g.index + k]
  }

  /** The last right tap completes every target. */
  lemma {:induction false} LastRightTap(g: Game, now: int, today: string)
    requires Valid(g) && g.screen == Playing && g.index + 1 == |g.mode.value.numbers|
    ensures var r := Click(g, g.mode.value.numbers[g.index], now, today);
      r.screen == Finished &&
      forall i :: 0 <= i < |r.positions| ==> r.positions[i].isCompleted
  {
    PlayingIsReady(g);
    var r := Click(g, g.mode.value.numbers[g.index], now, today);
    FinishingClick(g, now, today);
    ClickValid(g, g.mode.value.numbers[g.index], now, today);
    FinishedAllCompleted(r);
  }

  /** On the finished screen every target is completed. */
  lemma {:induction false} FinishedAllCompleted(g: Game)
    requires Valid(g) && g.screen == Finished
    ensures forall i :: 0 <= i < |g.positions| ==> g.positions[i].isCompleted
  {
    FinishedBoard(g);
    AllCompleted(g.positions, g.mode.value.numbers);
  }

  /** On the finished screen all of the numbers are done and the targets hold exactly them. */
  lemma FinishedBoard(g: Game)
    requires Valid(g) && g.screen == Finished
    ensures CompletedFirst(g.positions, g.mode.value.numbers, |g.mode.value.numbers|)
    ensures multiset(NumbersOf(g.positions)) == multiset(g.mode.value.numbers)
  {
  }

  /** A right tap that is not the last keeps a valid game going under the same key. */
  lemma {:induction false} RightTapStep(g: Game, now: int, today: string)
    requires Valid(g) && g.screen == Playing && g.index + 1 < |g.mode.value.numbers|
    ensures var r := Click(g, g.mode.value.numbers[g.index], now, today);
      Valid(r) && r.screen == Playing && r.mode == g.mode && r.index == g.index + 1 &&
      r.scores == g.scores && Key(r) == Key(g) &&
      r.startTime == (if g.index == 0 && g.startTime.None? then Some(now) else g.startTime)
  {
    var v := g.mode.value.numbers[g.index];
    PlayingIsReady(g);
    ClickValid(g, v, now, today);
    ClickShape(g, v, now, today);
    RightClickNotLast(g, now, today);
  }

  /** A run of one tap is that tap's click. */
  lemma RunOfOne(g: Game, taps: seq<Tap>, v: int, today: string)
    requires |taps| == 1 && taps[0].number == v
    ensures Run(g, taps, today) == Click(g, v, taps[0].at, today)
  {
  }

  /** The base case of RunOfRightTapsFinishes: the last tap finishes the game. */
  lemma {:induction false} LastTapFinishes(g: Game, at: int, today: string)
    requires Valid(g) && g.screen == Playing && g.index + 1 == |g.mode.value.numbers|
    ensures FinishedFrom(Click(g, g.mode.value.numbers[g.index], at, today), g, g.startTime, at, today)
  {
    PlayingIsReady(g);
    LastRightTap(g, at, today);
    FinishingClick(g, at, today);
  }

  /**
   * `r` is game `g` finished: the finished screen, the cursor past the end, every target
   * completed, the clock run from `start` to `end`, and the table saved once with
   * `end - start` under the mode key when the start is truthy (left alone otherwise).
   */
  predicate FinishedFrom(r: Game, g: Game, start: Option<int>, end: int, today: string)
    requires g.mode.Some?
  {
    r.screen == Finished && r.index == |g.mode.value.numbers| &&
    (forall i :: 0 <= i < |r.positions| ==> r.positions[i].isCompleted) &&
    r.startTime == start && r.endTime == Some(end) &&
    r.scores == if Truthy(start)
      then SavedScores(g.scores, ScoreRecord(Key(g), end - start.value, today))
      else g.scores
  }

  /** Two states with the same mode, key and table finish alike. */
  lemma FinishedFromSameKey(r: Game, g: Game, g1: Game, start: Option<int>, end: int, today: string)
    requires g.mode.Some? && g1.mode == g.mode && Key(g1) == Key(g) && g1.scores == g.scores
    requires FinishedFrom(r, g1, start, end, today)
    ensures FinishedFrom(r, g, start, end, today)
  {
  }

  /**
   * Clicking the remaining numbers in order finishes the game: every target completed, the
   * end time that of the last tap, and the table saved once with end minus start under the
   * mode key (when the start time is truthy).
   */
  lemma {:induction false} RunOfRightTapsFinishes(g: Game, taps: seq<Tap>, today: string)
    requires Valid(g) && g.screen == Playing && ClicksRest(g, taps)
    ensures |taps| > 0
    ensures FinishedFrom(Run(g, taps, today), g,
      if g.index == 0 && g.startTime.None? then Some(taps[0].at) else g.startTime,
      taps[|taps| - 1].at, today)
    decreases |taps|, 1
  {
    PlayingIsReady(g);
    if |taps| == 1 {
      assert g.index > 0 && taps[0].number == g.mode.value.numbers[g.index];
      RunOfOne(g, taps, g.mode.value.numbers[g.index], today);
      LastTapFinishes(g, taps[0].at, today);
    } else {
      RunOfRightTapsStep(g, taps, today);
    }
  }

  /** RunOfRightTapsFinishes when more than one tap is left: the first tap, then the rest. */
  lemma {:induction false} RunOfRightTapsStep(g: Game, taps: seq<Tap>, today: string)
    requires Valid(g) && g.screen == Playing && ClicksRest(g, taps) && |taps| > 1
    ensures FinishedFrom(Run(g, taps, today), g,
      if g.index == 0 && g.startTime.None? then Some(taps[0].at) else g.startTime,
      taps[|taps| - 1].at, today)
    decreases |taps|, 0
  {
    var g1 := RunStep(g, taps, today);
    var rest := taps[1..];
    RunOfRightTapsFinishes(g1, rest, today);
    assert rest[|rest| - 1] == taps[|taps| - 1];
    FinishedFromSameKey(Run(g1, rest, today), g, g1, g1.startTime, taps[|taps| - 1].at, today);
  }

  /** The inductive step of RunOfRightTapsFinishes: the first tap is right and not the last. */
  lemma {:induction false} RunStep(g: Game, taps: seq<Tap>, today: string) returns (g1: Game)
    requires Valid(g) && g.screen == Playing && ClicksRest(g, taps) && |taps| > 1
    ensures g1 == Click(g, g.mode.value.numbers[g.index], taps[0].at, today)
    ensures Valid(g1) && g1.screen == Playing && g1.index > 0 && ClicksRest(g1, taps[1..])
    ensures Run(g, taps, today) == Run(g1, taps[1..], today)
    ensures g1.mode == g.mode && Key(g1) == Key(g) && g1.scores == g.scores
    ensures g1.startTime == if g.index == 0 && g.startTime.None? then Some(taps[0].at) else g.startTime
  {
    var ns := g.mode.value.numbers;
    assert taps[0].number == ns[g.index];
    g1 := Click(g, ns[g.index], taps[0].at, today);
    RightTapStep(g, taps[0].at, today);
    ClicksRestTail(g, taps, g1);
  }

  /** After the first of the remaining taps, the rest are the remaining taps of the next state. */
  lemma {:induction false} ClicksRestTail(g: Game, taps: seq<Tap>, g1: Game)
    requires g.mode.Some? && g.index < |g.mode.value.numbers| && ClicksRest(g, taps) && |taps| > 0
    requires g1.mode == g.mode && g1.index == g.index + 1
    ensures ClicksRest(g1, taps[1..])
  {
    var rest := taps[1..];
    forall k | 0 <= k < |rest| ensures rest[k].number == g1.mode.value.numbers[g1.index + k] {
      assert rest[k] == taps[k + 1];
    }
  }

  /** Choosing the base mode starts a valid '3x3' game at once, keeping the table. */
  lemma {:induction false} SelectBaseMode(g: Game, draws: seq<nat>)
    requires Valid(g)
    ensures ValidMode(Mode(BaseName, BaseNumbers))
    ensures var r := SelectMode(g, Mode(BaseName, BaseNumbers), draws);
      Valid(r) && r.screen == Playing && r.mode == Some(Mode(BaseName, BaseNumbers)) &&
      r.difficulty == Some(Small) && r.index == 0 && r.startTime.None? && r.scores == g.scores
  {
    SelectModeValid(g, Mode(BaseName, BaseNumbers), draws);
  }

  /** Tapping 1 to 9 from the start of a base-mode game taps the rest of it in order. */
  lemma BaseTapsAreTheRest(g: Game, taps: seq<Tap>)
    requires g.mode == Some(Mode(BaseName, BaseNumbers)) && g.index == 0
    requires |taps| == 9 && forall k :: 0 <= k < 9 ==> taps[k].number == k + 1
    ensures ClicksRest(g, taps)
  {
  }

  /**
   * A fresh base-mode game (what choosing the base mode from the menu gives, see
   * SelectBaseMode) tapped 1 to 9 finishes, and saves one record under its key, which is
   * "初級（1-9）（3x3）" (Modes.BaseKeyIsNotBaseName), with the last tap's time minus the
   * first's.
   */
  lemma {:induction false} BaseModeScenario(g: Game, taps: seq<Tap>, today: string)
    requires Valid(g) && g.screen == Playing && g.index == 0 && g.startTime.None?
    requires g.mode == Some(Mode(BaseName, BaseNumbers)) && g.difficulty == Some(Small)
    requires |taps| == 9 && forall k :: 0 <= k < 9 ==> taps[k].number == k + 1
    requires taps[0].at != 0
    ensures Key(g) == BaseName + "（3x3）"
    ensures FinishedFrom(Run(g, taps, today), g, Some(taps[0].at), taps[8].at, today)
  {
    BaseKeyIsNotBaseName();
    BaseTapsAreTheRest(g, taps);
    RunOfRightTapsFinishes(g, taps, today);
    assert taps[|taps| - 1] == taps[8];
  }
}
