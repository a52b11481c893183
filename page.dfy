/**
 * The React component of src/app/page.tsx as an object: each `useState` hook is a field, and
 * each handler is a method whose setter calls take effect together. Every method is proved to
 * leave the fields as the matching Session function says, and every handler the player can
 * trigger is proved to keep the controller's invariant.
 */
module Page {
  import opened Wrappers
  import opened Modes
  import opened Placement
  import opened Scores
  import opened Keys
  import Session

  class NumberTapGame {
    var gameState: Session.Screen
    var selectedMode: Option<Mode>
    var selectedDifficulty: Option<Difficulty>
    var numberPositions: seq<Position>
    var currentIndex: nat
    var startTime: Option<int>
    var endTime: Option<int>
    /** The wrong-tap feedback; the 500 ms timer that clears it is ClearErrorFeedback. */
    var isShaking: bool
    var errorBackground: bool
    var scores: seq<ScoreRecord>

    /** The controller state the fields hold. */
    function State(): Session.Game
      reads this
    {
      Session.Game(gameState, selectedMode, selectedDifficulty, numberPositions, currentIndex,
        startTime, endTime, scores)
    }

    predicate Valid()
      reads this
    {
      Session.Valid(State())
    }

    /** The first render: the menu, nothing selected, no feedback, the stored table loaded. */
    constructor(stored: seq<ScoreRecord>)
      ensures State() == Session.Initial(stored) && Valid()
      ensures !isShaking && !errorBackground
    {
      gameState := Session.Menu;
      selectedMode := None;
      selectedDifficulty := None;
      numberPositions := [];
      currentIndex := 0;
      startTime := None;
      endTime := None;
      isShaking := false;
      errorBackground := false;
      scores := stored;
      new;
      Session.InitialValid(stored);
    }

    /** saveScore: append the record, sort by time, keep the first 50. */
    method SaveScore(mode: string, time: int, today: string)
      modifies this`scores
      ensures scores == SavedScores(old(scores), ScoreRecord(mode, time, today))
    {
      var newScore := ScoreRecord(mode, time, today);
      var updatedScores := SortByTime(scores + [newScore]);
      updatedScores := updatedScores[..Min(MaxScores, |updatedScores|)];
      scores := updatedScores;
    }

    /**
     * startGame: the numbers of the mode at this difficulty are placed on the grid, the cursor
     * and both timestamps are reset and the game screen shown. React applies the setter calls
     * of one handler together, so they are one simultaneous assignment here.
     */
    method StartGame(mode: Mode, difficulty: Difficulty, draws: seq<nat>)
      requires ValidMode(mode)
      modifies this`selectedDifficulty, this`selectedMode, this`numberPositions, this`currentIndex,
        this`startTime, this`endTime, this`gameState
      ensures State() == Session.StartGame(old(State()), mode, difficulty, draws)
      ensures Valid()
    {
      var numbers := SequenceFor(mode, difficulty);
      selectedDifficulty, selectedMode, numberPositions, currentIndex, startTime, endTime, gameState :=
        Some(difficulty), Some(Mode(mode.name, numbers)), Place(numbers, draws), 0, None, None, Session.Playing;
      Session.StartGameValid(old(State()), mode, difficulty, draws);
    }

    /** selectMode: remember the mode; the base mode starts at '3x3', the others ask for a size. */
    method SelectMode(mode: Mode, draws: seq<nat>)
      requires Valid() && ValidMode(mode)
      modifies this`selectedDifficulty, this`selectedMode, this`numberPositions, this`currentIndex,
        this`startTime, this`endTime, this`gameState
      ensures State() == Session.SelectMode(old(State()), mode, draws)
      ensures Valid()
    {
      if mode.name == BaseName {
        StartBaseMode(mode, draws);
      } else {
        Session.SelectMultiplesMode(State(), mode, draws);
        selectedMode, gameState := Some(mode), Session.DifficultySelect;
      }
    }

    /** The base-mode branch of selectMode: remember the mode and start it at '3x3'. */
    method StartBaseMode(mode: Mode, draws: seq<nat>)
      requires ValidMode(mode) && mode.name == BaseName
      modifies this`selectedDifficulty, this`selectedMode, this`numberPositions, this`currentIndex,
        this`startTime, this`endTime, this`gameState
      ensures State() == Session.SelectMode(old(State()), mode, draws)
      ensures Valid()
    {
      selectedMode := Some(mode);
      StartGame(mode, Small, draws);
      Session.SelectBaseModeStarts(old(State()), mode, draws);
    }

    /** The difficulty buttons: `selectedMode && startGame(selectedMode, difficulty)`. */
    method ChooseDifficulty(difficulty: Difficulty, draws: seq<nat>)
      requires Valid()
      modifies this`selectedDifficulty, this`selectedMode, this`numberPositions, this`currentIndex,
        this`startTime, this`endTime, this`gameState
      ensures State() == Session.ChooseDifficulty(old(State()), difficulty, draws)
      ensures Valid()
    {
      if selectedMode.Some? {
        StartGame(selectedMode.value, difficulty, draws);
      }
    }

    /** The replay button: `selectedMode && selectedDifficulty && startGame(...)`. */
    method PlayAgain(draws: seq<nat>)
      requires Valid()
      modifies this`selectedDifficulty, this`selectedMode, this`numberPositions, this`currentIndex,
        this`startTime, this`endTime, this`gameState
      ensures State() == Session.PlayAgain(old(State()), draws)
      ensures Valid()
    {
      if selectedMode.Some? && selectedDifficulty.Some? {
        StartGame(selectedMode.value, selectedDifficulty.value, draws);
      }
    }

    /**
     * handleNumberClick, with `Date.now()` read as `now` and the date as `today`. The handler
     * reads the state of the render it belongs to, and its setter calls take effect together,
     * so each branch assigns the fields once and the save sees the start time from before the
     * click. A wrong tap in play raises the shake and error-background flags.
     */
    method HandleNumberClick(clickedNumber: int, now: int, today: string)
      requires Valid()
      modifies this`startTime, this`numberPositions, this`currentIndex, this`endTime, this`gameState,
        this`scores, this`isShaking, this`errorBackground
      ensures Valid()
      ensures State() == Session.PageClick(old(State()), clickedNumber, now, today)
      ensures var wrong := old(selectedMode).Some? && old(gameState) == Session.Playing &&
          Session.Expected(old(State())) != Some(clickedNumber);
        isShaking == (old(isShaking) || wrong) && errorBackground == (old(errorBackground) || wrong)
    {
      Session.PageClickValid(State(), clickedNumber, now, today);
      if selectedMode.Some? && gameState == Session.Playing {
        Tap(clickedNumber, now, today);
      }
    }

    /** handleNumberClick in play: the expected number completes its target, any other shakes. */
    method Tap(clickedNumber: int, now: int, today: string)
      requires selectedMode.Some? && gameState == Session.Playing
      modifies this`startTime, this`numberPositions, this`currentIndex, this`endTime, this`gameState,
        this`scores, this`isShaking, this`errorBackground
      ensures State() == Session.PageClick(old(State()), clickedNumber, now, today)
      ensures var wrong := Session.Expected(old(State())) != Some(clickedNumber);
        isShaking == (old(isShaking) || wrong) && errorBackground == (old(errorBackground) || wrong)
    {
      var expectedNumber := Session.Expected(State());
      if expectedNumber == Some(clickedNumber) {
        RightTap(clickedNumber, now, today);
      } else {
        WrongTap(now);
      }
    }

    /**
     * The branch of handleNumberClick for the expected number: the clock check, its target
     * completed, the cursor advanced, and past the last number the completion block, timed
     * from the start time the handler saw.
     */
    method RightTap(clickedNumber: int, now: int, today: string)
      requires selectedMode.Some? && gameState == Session.Playing
      requires Session.Expected(State()) == Some(clickedNumber)
      modifies this`startTime, this`numberPositions, this`currentIndex, this`endTime, this`gameState,
        this`scores
      ensures State() == Session.PageClick(old(State()), clickedNumber, now, today)
    {
      ghost var st := State();
      var clockStart := startTime;
      var newStartTime := startTime;
      if currentIndex == 0 && startTime.None? {
        newStartTime := Some(now);
      }
      var positions := MarkCompleted(numberPositions, clickedNumber);
      var nextIndex := currentIndex + 1;
      startTime, numberPositions, currentIndex := newStartTime, positions, nextIndex;
      assert State() == Session.Advance(st, now);
      if nextIndex >= |selectedMode.value.numbers| {
        FinishGame(now, clockStart, today);
      }
    }

    /**
     * The completion block of handleNumberClick: the end time, the finished screen, and the
     * time since `clockStart` saved under the mode key when `clockStart` is truthy.
     */
    method FinishGame(completionTime: int, clockStart: Option<int>, today: string)
      requires selectedMode.Some?
      modifies this`endTime, this`gameState, this`scores
      ensures State() == Session.Stop(old(State()), completionTime, clockStart, Session.Key(old(State())), today)
    {
      SaveFinalTime(completionTime, clockStart, today);
      endTime, gameState := Some(completionTime), Session.Finished;
    }

    /** The score block of the completion check: with a truthy start, save the time since it under the mode key. */
    method SaveFinalTime(completionTime: int, clockStart: Option<int>, today: string)
      requires selectedMode.Some?
      modifies this`scores
      ensures scores == if Session.Truthy(clockStart)
        then SavedScores(old(scores), ScoreRecord(Session.Key(State()), completionTime - clockStart.value, today))
        else old(scores)
    {
      if Session.Truthy(clockStart) {
        var modeWithDifficulty := ModeKey(selectedMode.value.name, selectedDifficulty);
        SaveScore(modeWithDifficulty, completionTime - clockStart.value, today);
      }
    }

    /** The branch of handleNumberClick for any other number: the clock check and the feedback. */
    method WrongTap(now: int)
      modifies this`startTime, this`isShaking, this`errorBackground
      ensures State() == Session.StartClock(old(State()), now)
      ensures isShaking && errorBackground
    {
      var newStartTime := startTime;
      if currentIndex == 0 && startTime.None? {
        newStartTime := Some(now);
      }
      startTime, isShaking, errorBackground := newStartTime, true, true;
    }

    /** The 500 ms timeout after a wrong tap: both feedback flags off, the game untouched. */
    method ClearErrorFeedback()
      modifies this`isShaking, this`errorBackground
      ensures !isShaking && !errorBackground
    {
      isShaking := false;
      errorBackground := false;
    }

    /** backToMenu: the menu, nothing selected, no targets, cursor 0, no timestamps. */
    method BackToMenu()
      modifies this`selectedDifficulty, this`selectedMode, this`numberPositions, this`currentIndex,
        this`startTime, this`endTime, this`gameState
      ensures State() == Session.BackToMenu(old(State())) && Valid()
      ensures isShaking == old(isShaking) && errorBackground == old(errorBackground)
    {
      gameState := Session.Menu;
      selectedMode := None;
      selectedDifficulty := None;
      numberPositions := [];
      currentIndex := 0;
      startTime := None;
      endTime := None;
      Session.BackToMenuValid(old(State()));
    }

    /**
     * The keydown listener, installed only while playing with a mode selected on a device
     * that is not mobile: a digit key taps its number, Enter or space taps the expected
     * number, Escape goes back to the menu.
     */
    method KeyPress(key: string, isMobile: bool, now: int, today: string)
      requires Valid()
      modifies this`selectedDifficulty, this`selectedMode, this`numberPositions, this`currentIndex,
        this`startTime, this`endTime, this`gameState, this`scores, this`isShaking, this`errorBackground
      ensures Valid()
      ensures var st := old(State());
        if st.screen != Session.Playing || st.mode.None? || isMobile then State() == st
        else match PageKeyCommand(key)
          case TapNumber(n) => State() == Session.Click(st, n, now, today)
          case TapExpected => State() == Session.Click(st, st.mode.value.numbers[st.index], now, today)
          case GoToMenu => State() == Session.BackToMenu(st)
          case NoCommand => State() == st
      ensures var st := old(State());
        var cmd := PageKeyCommand(key);
        var wrong := st.screen == Session.Playing && st.mode.Some? && !isMobile &&
          cmd.TapNumber? && Session.Expected(st) != Some(cmd.n);
        isShaking == (old(isShaking) || wrong) && errorBackground == (old(errorBackground) || wrong)
    {
      if gameState == Session.Playing && selectedMode.Some? && !isMobile {
        RunKeyCommand(PageKeyCommand(key), now, today);
      }
    }

    /** The body of the keydown listener, installed only while playing. */
    method RunKeyCommand(cmd: KeyCommand, now: int, today: string)
      requires Valid() && gameState == Session.Playing && selectedMode.Some?
      modifies this`selectedDifficulty, this`selectedMode, this`numberPositions, this`currentIndex,
        this`startTime, this`endTime, this`gameState, this`scores, this`isShaking, this`errorBackground
      ensures Valid()
      ensures var st := old(State());
        var same := isShaking == old(isShaking) && errorBackground == old(errorBackground);
        match cmd
          case TapNumber(n) =>
            var wrong := Session.Expected(st) != Some(n);
            State() == Session.Click(st, n, now, today) &&
            isShaking == (old(isShaking) || wrong) && errorBackground == (old(errorBackground) || wrong)
          case TapExpected => State() == Session.Click(st, st.mode.value.numbers[st.index], now, today) && same
          case GoToMenu => State() == Session.BackToMenu(st) && same
          case NoCommand => State() == st && same
    {
      match cmd
      case TapNumber(n) =>
        KeyTap(n, now, today);
      case TapExpected =>
        KeyTapExpected(now, today);
      case GoToMenu =>
        BackToMenu();
      case NoCommand =>
    }


    /** A digit key: handleNumberClick of its digit. */
    method KeyTap(n: int, now: int, today: string)
      requires Valid()
      modifies this`startTime, this`numberPositions, this`currentIndex, this`endTime, this`gameState,
        this`scores, this`isShaking, this`errorBackground
      ensures Valid() && State() == Session.Click(old(State()), n, now, today)
      ensures var wrong := old(selectedMode).Some? && old(gameState) == Session.Playing &&
          Session.Expected(old(State())) != Some(n);
        isShaking == (old(isShaking) || wrong) && errorBackground == (old(errorBackground) || wrong)
    {
      Session.PageClickAgrees(State(), n, now, today);
      HandleNumberClick(n, now, today);
    }

    /** Enter or space: handleNumberClick of the expected number, a right tap. */
    method KeyTapExpected(now: int, today: string)
      requires Valid() && gameState == Session.Playing && selectedMode.Some?
      modifies this`startTime, this`numberPositions, this`currentIndex, this`endTime, this`gameState,
        this`scores, this`isShaking, this`errorBackground
      ensures var st := old(State());
        Valid() && State() == Session.Click(st, st.mode.value.numbers[st.index], now, today)
      ensures isShaking == old(isShaking) && errorBackground == old(errorBackground)
    {
      Session.PlayingIsReady(State());
      var expectedNumber := selectedMode.value.numbers[currentIndex];
      Session.PageClickAgrees(State(), expectedNumber, now, today);
      HandleNumberClick(expectedNumber, now, today);
    }
  }
}
