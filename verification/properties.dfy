/**
 Properties of the round state machine: the entry actions of each task, the
 difficulty clamp, the anti-repeat random pick, what one frame does from each
 kind of screen, and what holds across any sequence of frames.
 */
module RoundProperties {
  import opened Tasks
  import opened Round

  // ---------------------------------------------------------------------
  // Entry actions

  /** Entering any task keeps a valid state valid. */
  lemma SetNextTaskPreservesValid(s: State, next: TaskType, now: real)
    requires Valid(s)
    ensures Valid(SetNextTask(s, next, now))
  {
  }

  /** Choosing gameplay kind k shows the catalogue entry of kind k, with its
      key and the full fail time, and touches nothing but the task and its
      start time. */
  lemma GameplayEntry(s: State, k: TaskType, now: real)
    requires IsGameplay(k)
    ensures var r := SetNextTask(s, k, now);
      && r.currentTask == Task(k, GameplayButton(k), Finite(FailTime))
      && r.beginTime == now
      && r == s.(currentTask := r.currentTask, beginTime := now)
  {
    CatalogueIndexIsOrdinal(k);
  }

  /** Entering the success screen adds exactly one point and raises the
      reduction by the rate, capped so the gameplay deadline stays at least
      the minimum fail time. */
  lemma SuccessEntry(s: State, now: real)
    requires 0.0 <= s.reduce <= FailTime - MinimumFailTime
    ensures var r := SetNextTask(s, Success, now);
      && r.currentTask == SuccessTask
      && r.score == s.score + 1
      && r.reduce == MinReal(s.reduce + FailTimeReduceRate, FailTime - MinimumFailTime)
      && 0.0 < r.reduce <= FailTime - MinimumFailTime
      && FailTime - r.reduce >= MinimumFailTime
      && r.highScore == s.highScore && r.randomKind == s.randomKind
  {
  }

  /** Entering the end screen records the best of the old high score and the
      score of the round, and leaves the score and reduction alone. */
  lemma EndEntry(s: State, now: real)
    ensures var r := SetNextTask(s, End, now);
      && r.currentTask == EndTask
      && r.highScore == MaxInt(s.highScore, s.score)
      && r.highScore >= s.score
      && r.score == s.score && r.reduce == s.reduce
  {
  }

  /** Every supported kind stamps the entry time; the unsupported kind leaves
      the whole state, entry time included, as it was. */
  lemma EntryStampsTime(s: State, next: TaskType, now: real)
    ensures SetNextTask(s, next, now).beginTime == now <==> next != Invalid || s.beginTime == now
  {
  }

  /** n entries into the success screen. */
  function Successes(s: State, n: nat, now: real): (r: State)
  {
    if n == 0 then s else SetNextTask(Successes(s, n - 1, now), Success, now)
  }

  /** From no reduction, n successes give a reduction of n times the rate,
      capped at the largest allowed reduction, and n more points. */
  lemma {:induction false} SuccessesReduce(s: State, n: nat, now: real)
    requires s.reduce == 0.0
    ensures Successes(s, n, now).reduce == MinReal(n as real * FailTimeReduceRate, FailTime - MinimumFailTime)
    ensures Successes(s, n, now).score == s.score + n
  {
    if n > 0 {
      SuccessesReduce(s, n - 1, now);
    }
  }

  /** Three successes from no reduction shorten the deadline by 0.75 s, to 5.25 s. */
  lemma ThreeSuccesses(s: State, now: real)
    requires s.reduce == 0.0
    ensures Successes(s, 3, now).reduce == 0.75
    ensures FailTime - Successes(s, 3, now).reduce == 5.25
    ensures Successes(s, 3, now).score == s.score + 3
  {
    SuccessesReduce(s, 3, now);
  }

  /** The cap is first reached at the eighteenth success and holds after. */
  lemma CapReachedAfterEighteen(s: State, n: nat, now: real)
    requires s.reduce == 0.0
    ensures Successes(s, n, now).reduce == FailTime - MinimumFailTime <==> n >= 18
  {
    SuccessesReduce(s, n, now);
  }

  // ---------------------------------------------------------------------
  // Deadlines

  /** In a valid state a gameplay task has a deadline between the minimum
      fail time and the full fail time, the success screen keeps its
      unreduced second, and the start and end screens never expire. */
  lemma DeadlineBounds(s: State)
    requires Valid(s)
    ensures IsGameplay(s.currentTask.kind) ==>
      Deadline(s.currentTask, s.reduce) == Finite(FailTime - s.reduce)
      && MinimumFailTime <= FailTime - s.reduce <= FailTime
    ensures s.currentTask.kind == Success ==> Deadline(s.currentTask, s.reduce) == Finite(SuccessTime)
    ensures s.currentTask.kind == Start || s.currentTask.kind == End ==> Deadline(s.currentTask, s.reduce) == Infinite
  {
  }

  /** Whether a catalogued task has expired: the start and end screens
      never do, the success screen does once more than its second has
      passed, a gameplay task once more than its reduced deadline has. */
  lemma TimedOutCases(t: Task, reduce: real, elapsed: real)
    requires IsCatalogued(t)
    ensures t.kind == Start || t.kind == End ==> !TimedOut(t, reduce, elapsed)
    ensures t.kind == Success ==> (TimedOut(t, reduce, elapsed) <==> elapsed > SuccessTime)
    ensures IsGameplay(t.kind) ==> (TimedOut(t, reduce, elapsed) <==> elapsed > FailTime - reduce)
  {
  }

  // ---------------------------------------------------------------------
  // The random pick

  /** A gameplay kind other than the previous pick is reachable by some draw. */
  lemma PickCoversOthers(prev: TaskType, k: TaskType)
    requires IsGameplay(k) && k != prev
    ensures exists draw :: 0 <= draw < |PossibleTasks| && PickedKind(prev, draw) == k
  {
    CatalogueIndexIsOrdinal(k);
    assert PickedKind(prev, Ord(k)) == k;
  }

  /** With no previous pick, the pick is the kind whose ordinal is the draw. */
  lemma FirstPickIsDraw(prev: TaskType, draw: int)
    requires 0 <= draw < |PossibleTasks|
    ensures prev == Invalid ==> Ord(PickedKind(prev, draw)) == draw
  {
    CatalogueKindsDistinct(PickIndex(prev, draw), draw);
  }

  /** How many of the draws below n land on kind k. */
  function CountDraws(prev: TaskType, k: TaskType, n: nat): (c: nat)
    requires n <= |PossibleTasks|
  {
    if n == 0 then 0
    else CountDraws(prev, k, n - 1) + (if PickedKind(prev, n - 1) == k then 1 else 0)
  }

  /** The kind after the previous pick, in list order. */
  function NextKind(k: TaskType): (next: TaskType)
    requires IsGameplay(k)
  {
    PossibleTasks[(Ord(k) + 1) % |PossibleTasks|].kind
  }

  /** The pick is not uniform over the two remaining kinds: after a previous
      pick, the kind that follows it in list order is reached by two of the
      three draws and the other remaining kind by one. */
  lemma PickBias(prev: TaskType)
    requires IsGameplay(prev)
    ensures CountDraws(prev, prev, 3) == 0
    ensures CountDraws(prev, NextKind(prev), 3) == 2
    ensures CountDraws(prev, NextKind(NextKind(prev)), 3) == 1
  {
  }

  // ---------------------------------------------------------------------
  // One frame

  /** One frame keeps a valid state valid. */
  lemma TickPreservesValid(s: State, now: real, pressed: set<KeyCode>, draw: int)
    requires Valid(s) && 0 <= draw < |PossibleTasks|
    ensures Valid(Tick(s, now, pressed, draw))
  {
    var elapsed := now - s.beginTime;
    var t := TimeoutStep(s, elapsed, now, draw);
    assert Valid(t);
  }

  /** Within the debounce no key press has any effect: the frame does what it
      would do with no keys at all, which is at most the timeout transition. */
  lemma DebounceIgnoresKeys(s: State, now: real, pressed: set<KeyCode>, draw: int)
    requires 0 <= draw < |PossibleTasks|
    requires now - s.beginTime <= Debounce
    ensures Tick(s, now, pressed, draw) == Tick(s, now, {}, draw)
    ensures Tick(s, now, pressed, draw) == TimeoutStep(s, now - s.beginTime, now, draw)
  {
  }

  /** The start and end screens never time out: the frame changes nothing
      unless the play key goes down after the debounce, and then a fresh
      round starts on a gameplay task with no reduction and no score. */
  lemma StartOrEndFrame(s: State, now: real, pressed: set<KeyCode>, draw: int)
    requires Valid(s) && 0 <= draw < |PossibleTasks|
    requires s.currentTask.kind == Start || s.currentTask.kind == End
    ensures var r := Tick(s, now, pressed, draw);
      && (r == s <==> !(now - s.beginTime > Debounce && T in pressed))
      && (now - s.beginTime > Debounce && T in pressed ==>
            && IsGameplay(r.currentTask.kind)
            && r.reduce == 0.0 && r.score == 0
            && r.highScore == s.highScore
            && r.beginTime == now
            && r.randomKind != s.randomKind
            && r.randomKind == PickedKind(s.randomKind, draw)
            && r.currentTask.kind == r.randomKind)
  {
  }

  /** On the success screen keys do nothing; the screen stays for its
      second, then a gameplay task other than the previous pick follows. If
      the key of that new task is down in the same frame, the press is scored
      at once, because the elapsed time checked against it is the success
      screen's. */
  lemma SuccessFrame(s: State, now: real, pressed: set<KeyCode>, draw: int)
    requires Valid(s) && 0 <= draw < |PossibleTasks|
    requires s.currentTask.kind == Success
    ensures var r := Tick(s, now, pressed, draw);
      var k := PickedKind(s.randomKind, draw);
      && (now - s.beginTime <= SuccessTime ==> r == s)
      && (now - s.beginTime > SuccessTime && !KeyDown(pressed, GameplayButton(k)) ==>
            && r.currentTask == Task(k, GameplayButton(k), Finite(FailTime))
            && r.randomKind == k
            && r.beginTime == now
            && r.score == s.score && r.reduce == s.reduce && r.highScore == s.highScore)
      && (now - s.beginTime > SuccessTime && KeyDown(pressed, GameplayButton(k)) ==>
            && r.currentTask == SuccessTask
            && r.score == s.score + 1
            && r.reduce == MinReal(s.reduce + FailTimeReduceRate, FailTime - MinimumFailTime)
            && r.beginTime == now
            && r.randomKind == k)
  {
    CatalogueIndexIsOrdinal(PickedKind(s.randomKind, draw));
  }

  /** On a gameplay task, pressing its key after the debounce and within the
      deadline scores a success. */
  lemma GameplayPress(s: State, now: real, pressed: set<KeyCode>, draw: int)
    requires Valid(s) && 0 <= draw < |PossibleTasks|
    requires IsGameplay(s.currentTask.kind)
    requires Debounce < now - s.beginTime <= FailTime - s.reduce
    requires s.currentTask.button in pressed
    ensures var r := Tick(s, now, pressed, draw);
      && r.currentTask == SuccessTask
      && r.score == s.score + 1
      && r.reduce == MinReal(s.reduce + FailTimeReduceRate, FailTime - MinimumFailTime)
      && r.highScore == s.highScore
      && r.beginTime == now
  {
  }

  /** On a gameplay task without the play key down, the frame goes to the end
      screen, recording the high score, exactly once the deadline has passed;
      a press of the task's own key that comes too late does not score,
      because the key check then meets the end screen's key. With the task's
      own key not down either, the frame changes nothing exactly while the
      deadline has not passed. */
  lemma GameplayTimeout(s: State, now: real, pressed: set<KeyCode>, draw: int)
    requires Valid(s) && 0 <= draw < |PossibleTasks|
    requires IsGameplay(s.currentTask.kind)
    requires T !in pressed
    ensures var r := Tick(s, now, pressed, draw);
      && (s.currentTask.button !in pressed ==> (r == s <==> now - s.beginTime <= FailTime - s.reduce))
      && (r.currentTask == EndTask <==> now - s.beginTime > FailTime - s.reduce)
      && (now - s.beginTime > FailTime - s.reduce ==>
            r.highScore == MaxInt(s.highScore, s.score) && r.score == s.score && r.beginTime == now)
  {
  }

  /** If the deadline of a gameplay task has passed and the play key is down
      in that frame, the end screen is entered and left in the same frame: the
      high score is recorded and a fresh round starts. */
  lemma GameplayTimeoutWithPlayKey(s: State, now: real, pressed: set<KeyCode>, draw: int)
    requires Valid(s) && 0 <= draw < |PossibleTasks|
    requires IsGameplay(s.currentTask.kind)
    requires now - s.beginTime > FailTime - s.reduce
    requires T in pressed
    ensures var r := Tick(s, now, pressed, draw);
      && IsGameplay(r.currentTask.kind)
      && r.randomKind == PickedKind(s.randomKind, draw)
      && r.currentTask.kind == r.randomKind
      && r.highScore == MaxInt(s.highScore, s.score)
      && r.score == 0 && r.reduce == 0.0
      && r.beginTime == now
  {
    DeadlineBounds(s);
  }

  /** The score changes in a frame only by one more point on entering the
      success screen, or by a reset to 0 when the play key starts a new round
      on a gameplay task; the reduction likewise only rises to its clamped
      next value on entering the success screen, or resets to 0 with the
      score when a new round starts. */
  lemma ScoreAndReductionChanges(s: State, now: real, pressed: set<KeyCode>, draw: int)
    requires Valid(s) && 0 <= draw < |PossibleTasks|
    ensures var r := Tick(s, now, pressed, draw);
      || r.score == s.score
      || (r.score == s.score + 1 && r.currentTask == SuccessTask)
      || (r.score == 0 && r.reduce == 0.0 && IsGameplay(r.currentTask.kind) && T in pressed)
    ensures var r := Tick(s, now, pressed, draw);
      || r.reduce == s.reduce
      || (r.currentTask == SuccessTask
          && r.reduce == MinReal(s.reduce + FailTimeReduceRate, FailTime - MinimumFailTime))
      || (r.reduce == 0.0 && r.score == 0 && IsGameplay(r.currentTask.kind) && T in pressed)
  {
    var t := TimeoutStep(s, now - s.beginTime, now, draw);
    assert Valid(t);
  }

  /** The timeout stage picks a random task when the success screen expires. */
  predicate PicksOnTimeout(s: State, elapsed: real) {
    TimedOut(s.currentTask, s.reduce, elapsed) && s.currentTask.kind == Success
  }

  /** The input stage picks a random task when the play key restarts the round. */
  predicate PicksOnInput(t: State, elapsed: real, pressed: set<KeyCode>) {
    && elapsed > Debounce && KeyDown(pressed, t.currentTask.button)
    && (t.currentTask.kind == Start || t.currentTask.kind == End)
  }

  /** A frame makes at most one task pick: after the success screen expires
      the task shown is a gameplay task, so the key check cannot restart the
      round in the same frame. */
  lemma AtMostOnePickPerFrame(s: State, now: real, pressed: set<KeyCode>, draw: int)
    requires Valid(s) && 0 <= draw < |PossibleTasks|
    ensures var elapsed := now - s.beginTime;
      !(PicksOnTimeout(s, elapsed) && PicksOnInput(TimeoutStep(s, elapsed, now, draw), elapsed, pressed))
  {
  }

  /** Conversely, each stage can pick: from the start screen the play key
      makes the input stage pick, and an expired success screen makes the
      timeout stage pick. */
  lemma EachStageCanPick(s: State, now: real, draw: int)
    requires Valid(s) && 0 <= draw < |PossibleTasks|
    requires now - s.beginTime > SuccessTime
    ensures s.currentTask.kind == Success ==> PicksOnTimeout(s, now - s.beginTime)
    ensures s.currentTask.kind == Start ==>
      PicksOnInput(TimeoutStep(s, now - s.beginTime, now, draw), now - s.beginTime, {T})
  {
  }

  // ---------------------------------------------------------------------
  // Any sequence of frames

  /** What the engine supplies for one frame. */
  datatype Frame = Frame(now: real, pressed: set<KeyCode>, draw: int)

  predicate DrawsInRange(frames: seq<Frame>) {
    forall i :: 0 <= i < |frames| ==> 0 <= frames[i].draw < |PossibleTasks|
  }

  /** The state after running the frames in order. */
  function Run(s: State, frames: seq<Frame>): (r: State)
    requires DrawsInRange(frames)
    decreases |frames|
  {
    if |frames| == 0 then s
    else
      var f := frames[0];
      Run(Tick(s, f.now, f.pressed, f.draw), frames[1..])
  }

  /** Any sequence of frames keeps a valid state valid. */
  lemma {:induction false} RunPreservesValid(s: State, frames: seq<Frame>)
    requires Valid(s) && DrawsInRange(frames)
    ensures Valid(Run(s, frames))
    decreases |frames|
  {
    if |frames| > 0 {
      var f := frames[0];
      TickPreservesValid(s, f.now, f.pressed, f.draw);
      RunPreservesValid(Tick(s, f.now, f.pressed, f.draw), frames[1..]);
    }
  }

  /** The high score never decreases across any sequence of frames. */
  lemma {:induction false} HighScoreNeverDecreases(s: State, frames: seq<Frame>)
    requires DrawsInRange(frames)
    ensures Run(s, frames).highScore >= s.highScore
    decreases |frames|
  {
    if |frames| > 0 {
      var f := frames[0];
      HighScoreNeverDecreases(Tick(s, f.now, f.pressed, f.draw), frames[1..]);
    }
  }

  /** From the initial state, every reachable state is valid. */
  lemma ReachableStatesValid(stored: Stored, start: real, frames: seq<Frame>)
    requires DrawsInRange(frames)
    ensures Valid(Run(Init(stored, start), frames))
    ensures Run(Init(stored, start), frames).highScore >= (if stored.Present? then stored.value else 0)
  {
    RunPreservesValid(Init(stored, start), frames);
    HighScoreNeverDecreases(Init(stored, start), frames);
  }
}
