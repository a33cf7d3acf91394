/**
 The round state machine: which task is on screen, when it started, how far
 the gameplay deadline has shrunk, the score and the high score, and the
 last randomly chosen gameplay kind.

 The engine's clock (`Time.time`), its random number generator and its
 keyboard become parameters: `now`, `draw` and `pressed`.
 */
module Round {
  import opened Tasks

  /** A persisted integer that may or may not be present. */
  datatype Stored = Absent | Present(value: int)

  datatype State = State(
    currentTask: Task,
    beginTime: real,   // when the current task was entered
    reduce: real,      // current fail-time reduction
    score: int,
    highScore: int,
    randomKind: TaskType  // last random gameplay pick, Invalid before the first
  )

  function MaxInt(a: int, b: int): (m: int)
    ensures m >= a && m >= b && (m == a || m == b)
  {
    if a < b then b else a
  }

  function MinReal(a: real, b: real): (m: real)
    ensures m <= a && m <= b && (m == a || m == b)
  {
    if a < b then a else b
  }

  /** What every reachable state satisfies. */
  predicate Valid(s: State) {
    && 0.0 <= s.reduce <= FailTime - MinimumFailTime
    && s.score >= 0
    && IsCatalogued(s.currentTask)
    && (s.randomKind == Invalid || IsGameplay(s.randomKind))
  }

  /** The time the current task may stay on screen: the base duration less
      the reduction for a finite task, except that the success screen keeps
      its unreduced duration. For the tasks of the catalogue this means a
      gameplay task gets the reduced fail time, the success screen its one
      second, and the start and end screens no limit. */
  function Deadline(t: Task, reduce: real): (d: Duration)
    ensures IsCatalogued(t) && IsGameplay(t.kind) ==> d == Finite(FailTime - reduce)
    ensures IsCatalogued(t) && t.kind == Success ==> d == Finite(SuccessTime)
    ensures IsCatalogued(t) && (t.kind == Start || t.kind == End) ==> d == Infinite
  {
    if t.kind == Success then t.duration
    else match t.duration
      case Infinite => Infinite
      case Finite(d) => Finite(d - reduce)
  }

  predicate TimedOut(t: Task, reduce: real, elapsed: real) {
    match Deadline(t, reduce)
    case Infinite => false
    case Finite(d) => elapsed > d
  }

  /** Enter the task of kind `next` at time `now`, with its entry actions:
      a success raises the difficulty (clamped) and the score, the end
      screen captures the high score. An unsupported kind changes nothing. */
  function SetNextTask(s: State, next: TaskType, now: real): (r: State)
    ensures next != Invalid ==> r.currentTask.kind == next && r.beginTime == now
    ensures next == Invalid ==> r == s
    ensures IsGameplay(next) ==> r.currentTask in PossibleTasks
    ensures r.highScore >= s.highScore
    ensures r.randomKind == s.randomKind
    ensures IsCatalogued(s.currentTask) || next != Invalid ==> IsCatalogued(r.currentTask)
  {
    match next
    case CPR | PrecordialThump | Pulse =>
      s.(currentTask := PossibleTasks[Ord(next)], beginTime := now)
    case Start =>
      s.(currentTask := StartTask, beginTime := now)
    case Success =>
      var raised := s.reduce + FailTimeReduceRate;
      var clamped := if FailTime - raised < MinimumFailTime then FailTime - MinimumFailTime else raised;
      s.(currentTask := SuccessTask, reduce := clamped, score := s.score + 1, beginTime := now)
    case End =>
      var high := if s.score > s.highScore then s.score else s.highScore;
      s.(currentTask := EndTask, highScore := high, beginTime := now)
    case Invalid =>
      s
  }

  /** The anti-repeat choice of a list position: a draw equal to the
      previous pick moves on to the next position, cyclically. */
  function PickIndex(prev: TaskType, draw: int): (j: int)
    requires 0 <= draw < |PossibleTasks|
    ensures 0 <= j < |PossibleTasks|
    ensures prev != Invalid ==> j != Ord(prev)
    ensures j == draw || j == (draw + 1) % |PossibleTasks|
    ensures draw != Ord(prev) ==> j == draw
  {
    if prev != Invalid && draw == Ord(prev) then (draw + 1) % |PossibleTasks| else draw
  }

  /** The kind the random pick lands on for a draw. */
  function PickedKind(prev: TaskType, draw: int): (k: TaskType)
    requires 0 <= draw < |PossibleTasks|
    ensures IsGameplay(k) && k != prev
  {
    CatalogueKindsDistinct(PickIndex(prev, draw), draw);
    PossibleTasks[PickIndex(prev, draw)].kind
  }

  /** Enter a random gameplay task, never the one picked last time. */
  function SetRandomTask(s: State, draw: int, now: real): (r: State)
    requires 0 <= draw < |PossibleTasks|
    ensures IsGameplay(r.randomKind)
    ensures r.randomKind != s.randomKind
    ensures r.randomKind == PickedKind(s.randomKind, draw)
    ensures r.currentTask in PossibleTasks && r.currentTask.kind == r.randomKind
    ensures r.beginTime == now
    ensures r.reduce == s.reduce && r.score == s.score && r.highScore == s.highScore
  {
    var k := PickedKind(s.randomKind, draw);
    SetNextTask(s.(randomKind := k), k, now)
  }

  /** The first half of a frame: a timed-out success screen moves on to a
      random gameplay task, any other timed-out task to the end screen. */
  function TimeoutStep(s: State, elapsed: real, now: real, draw: int): (r: State)
    requires 0 <= draw < |PossibleTasks|
    ensures !TimedOut(s.currentTask, s.reduce, elapsed) ==> r == s
    ensures TimedOut(s.currentTask, s.reduce, elapsed) && s.currentTask.kind == Success ==> IsGameplay(r.currentTask.kind)
    ensures TimedOut(s.currentTask, s.reduce, elapsed) && s.currentTask.kind != Success ==> r.currentTask == EndTask
    ensures r.highScore >= s.highScore
    ensures r.highScore != s.highScore ==> r.currentTask == EndTask && r.highScore == s.score
  {
    if TimedOut(s.currentTask, s.reduce, elapsed) then
      if s.currentTask.kind == Success then SetRandomTask(s, draw, now)
      else SetNextTask(s, End, now)
    else s
  }

  /** The second half of a frame: once the debounce has passed, pressing the
      current task's key starts a fresh round from the start or end screen,
      and scores a success from a gameplay task. `elapsed` is the value
      measured at the start of the frame, before any timeout transition. */
  function InputStep(s: State, elapsed: real, now: real, pressed: set<KeyCode>, draw: int): (r: State)
    requires 0 <= draw < |PossibleTasks|
    ensures !(elapsed > Debounce && KeyDown(pressed, s.currentTask.button)) ==> r == s
    ensures r.highScore == s.highScore
  {
    if elapsed > Debounce && KeyDown(pressed, s.currentTask.button) then
      if s.currentTask.kind == Start || s.currentTask.kind == End then
        SetRandomTask(s.(reduce := 0.0, score := 0), draw, now)
      else
        SetNextTask(s, Success, now)
    else s
  }

  /** One frame of the game at clock time `now`, with the keys that went down
      this frame and the random draw the frame would use. The elapsed time is
      measured once, so the input check after a timeout transition compares
      the old task's elapsed time against the new task's key. */
  function Tick(s: State, now: real, pressed: set<KeyCode>, draw: int): (r: State)
    requires 0 <= draw < |PossibleTasks|
    ensures r.highScore >= s.highScore
    ensures r.highScore != s.highScore ==> r.highScore == s.score
    ensures r.reduce == s.reduce || r.reduce == 0.0 || r.currentTask.kind == Success
    ensures r.score == s.score || r.score == s.score + 1 || r.score == 0
  {
    var elapsed := now - s.beginTime;
    InputStep(TimeoutStep(s, elapsed, now, draw), elapsed, now, pressed, draw)
  }

  /** The state when the game starts at time `now`: the high score is the
      persisted one or 0, and the start screen is shown. */
  function Init(stored: Stored, now: real): (r: State)
    ensures Valid(r)
    ensures r.currentTask.kind == Start && r.beginTime == now
    ensures r.score == 0 && r.reduce == 0.0 && r.randomKind == Invalid
    ensures stored.Present? ==> r.highScore == stored.value
    ensures stored.Absent? ==> r.highScore == 0
  {
    var high := if stored.Present? then stored.value else 0;
    // the fields before the first task is entered: C# defaults
    var initial := State(Task(CPR, None, Finite(0.0)), 0.0, 0.0, 0, high, Invalid);
    SetNextTask(initial, Start, now)
  }
}
