/**
 * The vanilla front end of script.js: its module-level `let` variables are the fields of one
 * object, and each function that changes them is a method that runs its statements in order.
 * Every method is proved to leave the fields as the matching Session function says, and every
 * handler the player can trigger is proved to keep the invariant, which adds what only this
 * front end has, the display timer.
 */
module Script {
  import opened Wrappers
  import opened Modes
  import opened Placement
  import opened Scores
  import opened Keys
  import Session

  /** The keys of the `screens` object, the names `showScreen` accepts. */
  datatype ScreenKey = MenuKey | DifficultyKey | GameKey | FinishKey

  function KeyName(k: ScreenKey): string
  {
    match k
    case MenuKey => "menu"
    case DifficultyKey => "difficulty"
    case GameKey => "game"
    case FinishKey => "finish"
  }

  /** The string `gameState` holds on each screen ('finish', not 'finished'). */
  function StateName(s: Session.Screen): string
  {
    match s
    case Menu => "menu"
    case DifficultySelect => "difficulty"
    case Playing => "playing"
    case Finished => "finish"
  }

  /** What `showScreen` stores in `gameState`: 'game' is called 'playing', the rest keep their name. */
  function GameStateFor(screenName: string): string
  {
    if screenName == "game" then "playing" else screenName
  }

  /** The screen `showScreen(k)` leaves the game on. */
  function ScreenFor(k: ScreenKey): Session.Screen
  {
    match k
    case MenuKey => Session.Menu
    case DifficultyKey => Session.DifficultySelect
    case GameKey => Session.Playing
    case FinishKey => Session.Finished
  }

  /**
   * The screen recorded for each key has the name showScreen stores for it, and different
   * screens have different names, so the screen determines the `gameState` string and back.
   */
  lemma {:induction false} ShowScreenStates(k: ScreenKey, s1: Session.Screen, s2: Session.Screen)
    ensures StateName(ScreenFor(k)) == GameStateFor(KeyName(k))
    ensures StateName(s1) == StateName(s2) ==> s1 == s2
  {
    if s1 != s2 {
      assert StateName(s1)[0] != StateName(s2)[0] || |StateName(s1)| != |StateName(s2)|;
    }
  }

  /** The table written on first start when nothing is stored (times in milliseconds). */
  const DummyScores: seq<ScoreRecord> := [
    ScoreRecord(BaseName, 5230, "2024/01/01"),
    ScoreRecord("2の倍数（3x3）", 7450, "2024/01/01"),
    ScoreRecord("2の倍数（4x4）", 12670, "2024/01/01"),
    ScoreRecord("3の倍数（3x3）", 8910, "2024/01/01"),
    ScoreRecord("3の倍数（4x4）", 15320, "2024/01/01")
  ]

  /**
   * The seeded table is not sorted, and it is the only source of a record under the bare base
   * name, which is what the menu looks up; the first save sorts it.
   */
  lemma {:induction false} DummyScoresFacts(r: ScoreRecord)
    ensures !SortedByTime(DummyScores)
    ensures BestScore(DummyScores, BaseName) == Some(5230)
    ensures SortedByTime(SavedScores(DummyScores, r))
  {
    assert DummyScores[2].time > DummyScores[3].time;
    assert DummyScores[0].mode == BaseName;
    SavedScoresSorted(DummyScores, r);
  }

  /**
   * `(endTime - startTime) / 1000` as showFinishScreen computes it, in milliseconds; a null
   * operand counts as 0 in JavaScript subtraction.
   */
  function FinishTime(g: Session.Game): int
  {
    (if g.endTime.Some? then g.endTime.value else 0) - (if g.startTime.Some? then g.startTime.value else 0)
  }

  /** With both timestamps truthy the finish screen shows the frozen elapsed time. */
  lemma FinishTimeIsElapsed(g: Session.Game, later: int)
    requires Session.Truthy(g.startTime) && Session.Truthy(g.endTime)
    ensures FinishTime(g) == Session.Elapsed(g, later)
  {
  }

  /**
   * showFinishScreen's `isNewRecord`: no best under the game's key (or a best of 0), or a
   * time below it, looked up in the table as it stands.
   */
  function FinishFlag(g: Session.Game): bool
    requires g.mode.Some?
  {
    NewRecordFlag(FinishTime(g), BestScore(g.scores, Session.Key(g)))
  }

  class Game {
    /** `gameState`, by the screen whose StateName it holds. */
    var gameState: Session.Screen
    var selectedMode: Option<Mode>
    var selectedDifficulty: Option<Difficulty>
    var numberPositions: seq<Position>
    var currentIndex: nat
    var startTime: Option<int>
    var endTime: Option<int>
    var scores: seq<ScoreRecord>
    /** Whether `gameTimer` holds a running interval. */
    var timerRunning: bool
    /** The 'shake' and 'error-bg' classes on the game screen. */
    var errorFeedback: bool
    /** Whether the finish screen shows its new-record element. */
    var newRecordShown: bool

    /** The controller state the variables hold. */
    function State(): Session.Game
      reads this
    {
      Session.Game(gameState, selectedMode, selectedDifficulty, numberPositions,
        currentIndex, startTime, endTime, scores)
    }

    /** The controller invariant, and the display timer running exactly in play. */
    predicate Valid()
      reads this
    {
      Session.Valid(State()) && (timerRunning <==> gameState == Session.Playing)
    }

    /** Start-up: the stored table, or the dummy one when nothing is stored, and the menu. */
    constructor(stored: seq<ScoreRecord>)
      ensures State() == Session.Initial(if |stored| == 0 then DummyScores else stored)
      ensures Valid() && !errorFeedback && !newRecordShown
    {
      gameState := Session.Menu;
      selectedMode := None;
      selectedDifficulty := None;
      numberPositions := [];
      currentIndex := 0;
      startTime := None;
      endTime := None;
      timerRunning := false;
      errorFeedback := false;
      newRecordShown := false;
      scores := stored;
      new;
      if |scores| == 0 {
        scores := DummyScores;
      }
      ShowScreen(MenuKey);
    }

    /** showScreen: hide every screen but one and record its name, 'game' as 'playing'. */
    method ShowScreen(screenName: ScreenKey)
      modifies this`gameState
      ensures State() == old(State()).(screen := ScreenFor(screenName))
    {
      gameState := ScreenFor(screenName);
    }

    /** saveScore: push the record, sort by time, keep the first 50. */
    method SaveScore(mode: string, time: int, today: string)
      modifies this`scores
      ensures scores == SavedScores(old(scores), ScoreRecord(mode, time, today))
    {
      var newScore := ScoreRecord(mode, time, today);
      scores := scores + [newScore];
      scores := SortByTime(scores);
      scores := scores[..Min(MaxScores, |scores|)];
    }

    /** startGameTimer: clear any running interval and start a new one. */
    method StartGameTimer()
      modifies this`timerRunning
      ensures timerRunning
    {
      timerRunning := true;
    }

    /** stopGameTimer: clear the interval if there is one. */
    method StopGameTimer()
      modifies this`timerRunning
      ensures !timerRunning
    {
      if timerRunning {
        timerRunning := false;
      }
    }

    /**
     * startGame: the difficulty, the numbers of the mode, their placement, the cursor and
     * both timestamps, then the game screen and a fresh timer.
     */
    method StartGame(mode: Mode, difficulty: Difficulty, draws: seq<nat>)
      requires ValidMode(mode)
      modifies this`selectedMode, this`selectedDifficulty, this`numberPositions, this`currentIndex,
        this`startTime, this`endTime, this`gameState, this`timerRunning
      ensures State() == Session.StartGame(old(State()), mode, difficulty, draws)
      ensures Valid()
    {
      SetUpBoard(mode, difficulty, draws);
      ShowScreen(GameKey);
      StartGameTimer();
      Session.StartGameValid(old(State()), mode, difficulty, draws);
    }

    /** The assignments of startGame before the screen changes: the new board and a reset clock. */
    method SetUpBoard(mode: Mode, difficulty: Difficulty, draws: seq<nat>)
      requires ValidMode(mode)
      modifies this`selectedMode, this`selectedDifficulty, this`numberPositions, this`currentIndex,
        this`startTime, this`endTime
      ensures State() == Session.StartGame(old(State()), mode, difficulty, draws).(screen := gameState)
    {
      ghost var target := Session.StartGame(State(), mode, difficulty, draws);
      selectedDifficulty := Some(difficulty);
      var numbers := SequenceFor(mode, difficulty);
      selectedMode := Some(Mode(mode.name, numbers));
      numberPositions := Place(numbers, draws);
      currentIndex := 0;
      startTime := None;
      endTime := None;
      assert State() == target.(screen := gameState);
    }

    /**
     * selectMode: remember the mode; the base mode starts at '3x3', the others ask for a size.
     * Its buttons are on the menu screen, so it is never called during play.
     */
    method SelectMode(mode: Mode, draws: seq<nat>)
      requires Valid() && ValidMode(mode) && gameState != Session.Playing
      modifies this`selectedMode, this`selectedDifficulty, this`numberPositions, this`currentIndex,
        this`startTime, this`endTime, this`gameState, this`timerRunning
      ensures State() == Session.SelectMode(old(State()), mode, draws)
      ensures Valid()
    {
      if mode.name == BaseName {
        StartBaseMode(mode, draws);
      } else {
        Session.SelectMultiplesMode(State(), mode, draws);
        AskDifficulty(mode);
      }
    }

    /** The branch of selectMode for the base mode: remember it and start it at '3x3'. */
    method StartBaseMode(mode: Mode, draws: seq<nat>)
      requires ValidMode(mode) && mode.name == BaseName
      modifies this`selectedMode, this`selectedDifficulty, this`numberPositions, this`currentIndex,
        this`startTime, this`endTime, this`gameState, this`timerRunning
      ensures State() == Session.SelectMode(old(State()), mode, draws)
      ensures Valid()
    {
      selectedMode := Some(mode);
      StartGame(mode, Small, draws);
      Session.SelectBaseModeStarts(old(State()), mode, draws);
    }

    /** The branch of selectMode for a multiples mode: remember it and show the size buttons. */
    method AskDifficulty(mode: Mode)
      modifies this`selectedMode, this`gameState
      ensures State() == old(State()).(mode := Some(mode), screen := Session.DifficultySelect)
    {
      selectedMode := Some(mode);
      ShowScreen(DifficultyKey);
    }

    /** The '3x3' and '4x4' buttons: `startGame(selectedMode, difficulty)`, which needs a mode. */
    method ChooseDifficulty(difficulty: Difficulty, draws: seq<nat>)
      requires Valid() && selectedMode.Some?
      modifies this`selectedMode, this`selectedDifficulty, this`numberPositions, this`currentIndex,
        this`startTime, this`endTime, this`gameState, this`timerRunning
      ensures State() == Session.ChooseDifficulty(old(State()), difficulty, draws)
      ensures Valid()
    {
      StartGame(selectedMode.value, difficulty, draws);
    }

    /** playAgain: restart only when both a mode and a difficulty are selected. */
    method PlayAgain(draws: seq<nat>)
      requires Valid()
      modifies this`selectedMode, this`selectedDifficulty, this`numberPositions, this`currentIndex,
        this`startTime, this`endTime, this`gameState, this`timerRunning
      ensures State() == Session.PlayAgain(old(State()), draws)
      ensures Valid()
    {
      if selectedMode.Some? && selectedDifficulty.Some? {
        StartGame(selectedMode.value, selectedDifficulty.value, draws);
      }
    }

    /**
     * handleNumberClick, with `Date.now()` read as `now` and the date as `today`. The clock
     * check assigns `startTime` before anything else, so the save at the end is timed from it.
     * A wrong tap in play adds the error classes; the finishing tap stops the timer and sets
     * the finish screen's flag.
     */
    method HandleNumberClick(clickedNumber: int, now: int, today: string)
      requires Valid()
      modifies this`startTime, this`numberPositions, this`currentIndex, this`endTime, this`gameState,
        this`timerRunning, this`scores, this`newRecordShown, this`errorFeedback
      ensures Valid()
      ensures State() == Session.Click(old(State()), clickedNumber, now, today)
      ensures var wrong := old(gameState) == Session.Playing && old(selectedMode).Some? &&
          Session.Expected(old(State())) != Some(clickedNumber);
        errorFeedback == (old(errorFeedback) || wrong)
      ensures gameState == old(gameState) || (old(gameState) == Session.Playing && gameState == Session.Finished)
      ensures var finishes := gameState != old(gameState);
        timerRunning == (old(timerRunning) && !finishes) &&
        newRecordShown == if finishes then FinishFlag(State()) else old(newRecordShown)
    {
      Session.ClickValid(State(), clickedNumber, now, today);
      if gameState == Session.Playing && selectedMode.Some? {
        Tap(clickedNumber, now, today);
      }
    }

    /**
     * handleNumberClick in play: the clock check, then the expected number completes its
     * target (and the last one the game), any other number adds the error classes.
     */
    method Tap(clickedNumber: int, now: int, today: string)
      requires gameState == Session.Playing && selectedMode.Some?
      modifies this`startTime, this`numberPositions, this`currentIndex, this`endTime, this`gameState,
        this`timerRunning, this`scores, this`newRecordShown, this`errorFeedback
      ensures State() == Session.Click(old(State()), clickedNumber, now, today)
      ensures var wrong := Session.Expected(old(State())) != Some(clickedNumber);
        errorFeedback == (old(errorFeedback) || wrong)
      ensures gameState == Session.Playing || gameState == Session.Finished
      ensures var finishes := gameState != Session.Playing;
        timerRunning == (old(timerRunning) && !finishes) &&
        newRecordShown == if finishes then FinishFlag(State()) else old(newRecordShown)
    {
      ghost var st := State();
      var expectedNumber := Session.Expected(State());
      StartClock(now);
      if Some(clickedNumber) == expectedNumber {
        CompleteTarget(clickedNumber);
        assert State() == Session.Advance(st, now);
        if currentIndex >= |selectedMode.value.numbers| {
          FinishGame(now, today);
        }
      } else {
        errorFeedback := true;
      }
    }

    /** The first click at index 0 starts the clock. */
    method StartClock(now: int)
      modifies this`startTime
      ensures State() == Session.StartClock(old(State()), now)
    {
      if currentIndex == 0 && startTime.None? {
        startTime := Some(now);
      }
    }

    /** The right tap: the target showing the number is completed and the cursor moves on. */
    method CompleteTarget(clickedNumber: int)
      modifies this`numberPositions, this`currentIndex
      ensures State() == old(State()).(positions := MarkCompleted(old(numberPositions), clickedNumber),
        index := old(currentIndex) + 1)
    {
      numberPositions := MarkCompleted(numberPositions, clickedNumber);
      currentIndex := currentIndex + 1;
    }

    /**
     * The completion block of handleNumberClick: the end time, the timer stopped, the time
     * saved under the mode key when `startTime` is truthy, then the finish screen.
     */
    method FinishGame(now: int, today: string)
      requires selectedMode.Some?
      modifies this`endTime, this`timerRunning, this`scores, this`gameState, this`newRecordShown
      ensures State() == Session.Stop(old(State()), now, old(startTime), Session.Key(old(State())), today)
      ensures !timerRunning && gameState == Session.Finished
      ensures newRecordShown == FinishFlag(State())
    {
      ghost var target := Session.Stop(State(), now, startTime, Session.Key(State()), today);
      endTime := Some(now);
      StopGameTimer();
      SaveFinalTime(today);
      assert State() == target.(screen := gameState);
      ShowFinishScreen();
    }

    /** The score block of handleNumberClick: with a truthy `startTime`, save end minus start under the mode key. */
    method SaveFinalTime(today: string)
      requires selectedMode.Some? && endTime.Some?
      modifies this`scores
      ensures scores == if Session.Truthy(startTime)
        then SavedScores(old(scores), ScoreRecord(Session.Key(State()), endTime.value - startTime.value, today))
        else old(scores)
    {
      if Session.Truthy(startTime) {
        var finalTime := endTime.value - startTime.value;
        var modeWithDifficulty := ModeKey(selectedMode.value.name, selectedDifficulty);
        SaveScore(modeWithDifficulty, finalTime, today);
      }
    }

    /**
     * showFinishScreen: the time of the game, the best under its key in the table as it is
     * now, `isNewRecord = !bestScore || currentTime < bestScore`, then the finish screen.
     */
    method ShowFinishScreen()
      requires selectedMode.Some?
      modifies this`gameState, this`newRecordShown
      ensures gameState == Session.Finished
      ensures newRecordShown == FinishFlag(State())
    {
      var currentTime := FinishTime(State());
      var modeWithDifficulty := ModeKey(selectedMode.value.name, selectedDifficulty);
      var bestScore := BestScore(scores, modeWithDifficulty);
      var isNewRecord := bestScore.None? || bestScore.value == 0 || currentTime < bestScore.value;
      newRecordShown := isNewRecord;
      ShowScreen(FinishKey);
    }

    /** The 500 ms timeout after a wrong tap removes the error classes. */
    method ClearErrorFeedback()
      modifies this`errorFeedback
      ensures !errorFeedback
    {
      errorFeedback := false;
    }

    /** backToMenu: stop the timer, clear the selection, targets, cursor and timestamps, menu. */
    method BackToMenu()
      modifies this`selectedMode, this`selectedDifficulty, this`numberPositions, this`currentIndex,
        this`startTime, this`endTime, this`gameState, this`timerRunning
      ensures State() == Session.BackToMenu(old(State())) && Valid()
    {
      StopGameTimer();
      selectedMode := None;
      selectedDifficulty := None;
      numberPositions := [];
      currentIndex := 0;
      startTime := None;
      endTime := None;
      ShowScreen(MenuKey);
      Session.BackToMenuValid(old(State()));
    }

    /**
     * handleKeyPress while playing on a device that is not mobile: a key between "0" and "9"
     * taps parseInt(key), Enter or space taps the expected number.
     */
    method KeyPress(key: string, isMobile: bool, now: int, today: string)
      requires Valid()
      modifies this`startTime, this`numberPositions, this`currentIndex, this`endTime, this`gameState,
        this`timerRunning, this`scores, this`newRecordShown, this`errorFeedback
      ensures Valid()
      ensures var st := old(State());
        if old(gameState) != Session.Playing || isMobile then State() == st
        else match ScriptKeyCommand(key)
          case TapNumber(n) => State() == Session.Click(st, n, now, today)
          case TapExpected => State() == Session.Click(st, st.mode.value.numbers[st.index], now, today)
          case _ => State() == st
      ensures var st := old(State());
        var cmd := ScriptKeyCommand(key);
        var wrong := st.screen == Session.Playing && !isMobile &&
          cmd.TapNumber? && Session.Expected(st) != Some(cmd.n);
        errorFeedback == (old(errorFeedback) || wrong)
      ensures newRecordShown == if gameState != old(gameState) then FinishFlag(State()) else old(newRecordShown)
    {
      if gameState != Session.Playing || isMobile {
        return;
      }
      Session.PlayingIsReady(State());
      match ScriptKeyCommand(key)
      case TapNumber(n) =>
        HandleNumberClick(n, now, today);
      case TapExpected =>
        var expectedNumber := selectedMode.value.numbers[currentIndex];
        HandleNumberClick(expectedNumber, now, today);
      case _ =>
    }
  }
}
