# Ruff Day round state machine, in Dafny

A model of the round and task logic of the `StateAgent` component of the Ruff
Day arcade game. The player is shown one task at a time: CPR, Precordial
Thump or Pulse. Each task has its own key (C, T, P), and the player must press
it before the task's deadline. A correct press leads to a one-second Success
screen and then to another random task. Each success shortens the gameplay
deadline by 0.25 s, down to a floor of 1.5 s, and scores a point. A missed
deadline leads to the End screen, which records the high score. From the
Start and End screens the T key ("thump") starts a fresh round.

The model is functional. `Round.State` holds:

- the current task;
- the time it was entered;
- the fail-time reduction;
- the score and the high score;
- the last random gameplay kind.

Each engine call becomes a pure function: `Round.SetNextTask`,
`Round.SetRandomTask` and `Round.Tick` (one `Update` frame). The engine's
clock, keyboard and random number generator are parameters: `now`,
`pressed` (the keys that went down this frame) and `draw` (the value
`Random.Range(0, 3)` returns).

Files:

- `tasks.dfy` (module `Tasks`): task kinds, keys, durations, constants and
  the task catalogue built in `Awake`.
- `round.dfy` (module `Round`): the state, the deadline rule, the entry
  actions, the random pick, one frame, and the initial state.
- `properties.dfy` (module `RoundProperties`): lemmas about entry actions,
  the difficulty clamp, the pick, each kind of frame, and runs of frames.

Modelling choices:

- Times are `real`. `Mathf.Infinity` is the `Infinite` case of `Duration`.
- The constants 6, 0.25, 1.5 and 1 are exact in single precision, and so is
  every reduction value (a multiple of 0.25 up to 4.5). The reduction
  arithmetic is therefore modelled exactly.
- The debounce literal `0.3f` is modelled as its exact single-precision value,
  0.300000011920928955078125.
- `KeyCode.None`, the key of the Success screen, never reads as pressed.
  So the Success screen has no input transition.
- A frame makes at most one task pick, that is, at most one `SetRandomTask`
  call (`AtMostOnePickPerFrame`). So a single `draw` parameter per frame is
  enough for the pick. The clip choices in `Task.Activate` are not modelled.
- `Tick` keeps the ordering of `Update`. The elapsed time is measured once, at
  the start of the frame. A timeout transition may change the task, and the
  key check then compares that same elapsed time against the new task's key.
  Two consequences are proved:
  - Leaving the Success screen onto a task whose key is down in that frame
    scores the press at once (`SuccessFrame`).
  - Missing a deadline with T down records the high score and starts a new
    round in the same frame (`GameplayTimeoutWithPlayKey`).
- The random pick is not uniform over the two kinds other than the previous
  one. The kind that follows the previous pick in list order gets two of the
  three draws (`PickBias`).

## Model

| member | source | states |
|---|---|---|
| Tasks.CatalogueIndexIsOrdinal | Assets/Scripts/StateAgent.cs:119-123 | the gameplay task at list position `(int)k` has kind k, k's key, and the full 6 s fail time, so indexing by the enum value finds the right task |
| Tasks.CatalogueKindsDistinct | Assets/Scripts/StateAgent.cs:119-123 | each list position holds the gameplay kind with that ordinal, and no two positions share a kind |
| Tasks.ScreenTasks | Assets/Scripts/StateAgent.cs:115-117 | the Start and End screens wait for T and never expire; the Success screen waits for no key and lasts 1 s |
| Tasks.CatalogueShape | Assets/Scripts/StateAgent.cs:115-123 | in the catalogue, a task never expires iff it is Start or End, and waits for no key iff it is Success |
| Round.Deadline | Assets/Scripts/StateAgent.cs:163-169 | for the tasks of the catalogue: a gameplay task's deadline is 6 - reduction, the Success screen keeps its unreduced 1 s, and Start and End never expire |
| RoundProperties.TimedOutCases | Assets/Scripts/StateAgent.cs:163-173 | Start and End never expire; Success expires iff elapsed > 1 s; a gameplay task expires iff elapsed > 6 - reduction (strictly greater) |
| Round.SetNextTask | Assets/Scripts/StateAgent.cs:231-299 | every supported kind becomes the current task and stamps the entry time; a gameplay kind shows a catalogue entry; the unsupported kind leaves the state unchanged; the high score never drops; the last random kind is kept |
| Round.PickIndex | Assets/Scripts/StateAgent.cs:303-306 | the chosen position is in range and is never the previous pick's ordinal; it is the draw itself or the next position cyclically, and the draw itself whenever the draw differs from the previous pick |
| Round.PickedKind | Assets/Scripts/StateAgent.cs:303-308 | the picked kind is a gameplay kind and differs from the previous pick |
| Round.SetRandomTask | Assets/Scripts/StateAgent.cs:301-311 | enters the gameplay task of the kind the draw picks (`PickedKind` of the previous pick and the draw), which becomes the new last random kind and always differs from the old one; entry time is now; score, reduction and high score unchanged |
| Round.TimeoutStep | Assets/Scripts/StateAgent.cs:163-179 | no timeout leaves the state unchanged; a timed-out Success screen is followed by a gameplay task and any other timed-out task by the End screen (which waits for T); the high score never drops, and if it changes the task is End and the high score is the round's score |
| Round.InputStep | Assets/Scripts/StateAgent.cs:181-193 | without a press of the current task's key after the debounce, the state is unchanged; the input stage never changes the high score |
| Round.Tick | Assets/Scripts/StateAgent.cs:161-193 | a frame never lowers the high score, and changes it only to the score the frame started with; the reduction stays, resets to 0, or changes only on entering Success; the score stays, goes up by one, or resets to 0 |
| RoundProperties.ScoreAndReductionChanges | Assets/Scripts/StateAgent.cs:173-191 | in a valid state a frame leaves the score alone, adds one point on entering Success, or resets it to 0 only with T pressed, starting a gameplay task with reduction 0; the reduction likewise stays, rises to min(old + 0.25, 4.5) on entering Success, or resets with the score |
| Round.Init | Assets/Scripts/StateAgent.cs:153-158 | the game starts valid on the Start screen with score 0, no reduction and no previous pick; the high score is the stored value, or 0 when none is stored |
| RoundProperties.SetNextTaskPreservesValid | Assets/Scripts/StateAgent.cs:231-299 | entering any task keeps the reduction within [0, 4.5], the score non-negative, and the current task in the catalogue |
| RoundProperties.GameplayEntry | Assets/Scripts/StateAgent.cs:235-237 | choosing gameplay kind k shows the task of kind k with its key and a 6 s fail time, and changes nothing else but the entry time |
| RoundProperties.SuccessEntry | Assets/Scripts/StateAgent.cs:260-268 | entering Success adds exactly one point; the new reduction is min(old + 0.25, 6 - 1.5), lies in (0, 4.5], and keeps the gameplay deadline at least 1.5 s |
| RoundProperties.EndEntry | Assets/Scripts/StateAgent.cs:277-285 | entering End sets the high score to max(old high score, score); score and reduction are unchanged |
| RoundProperties.EntryStampsTime | Assets/Scripts/StateAgent.cs:294-298 | the entry time becomes now exactly when the kind is supported (or already was now) |
| RoundProperties.SuccessesReduce | Assets/Scripts/StateAgent.cs:262-268 | n successes from no reduction give a reduction of min(0.25 n, 4.5) and n more points |
| RoundProperties.ThreeSuccesses | Assets/Scripts/StateAgent.cs:262-268 | three successes from no reduction give a reduction of 0.75 (deadline 5.25 s) and three more points |
| RoundProperties.CapReachedAfterEighteen | Assets/Scripts/StateAgent.cs:263-266 | from no reduction, the 4.5 cap is reached exactly from the eighteenth success on |
| RoundProperties.DeadlineBounds | Assets/Scripts/StateAgent.cs:163-169 | in a valid state a gameplay deadline is 6 - reduction, between 1.5 s and 6 s; Success keeps its unreduced 1 s; Start and End never expire |
| RoundProperties.PickCoversOthers | Assets/Scripts/StateAgent.cs:303-308 | every gameplay kind other than the previous pick is reached by some draw |
| RoundProperties.FirstPickIsDraw | Assets/Scripts/StateAgent.cs:303-308 | with no previous pick (Invalid), the picked kind is the one whose ordinal is the draw |
| RoundProperties.PickBias | Assets/Scripts/StateAgent.cs:303-306 | after a previous pick: no draw gives it again, two draws give the kind after it in list order, one draw gives the remaining kind |
| RoundProperties.TickPreservesValid | Assets/Scripts/StateAgent.cs:161-193 | one frame keeps a valid state valid |
| RoundProperties.DebounceIgnoresKeys | Assets/Scripts/StateAgent.cs:181 | with elapsed time at most 0.3 s, the keys pressed make no difference; the frame does only the timeout transition |
| RoundProperties.StartOrEndFrame | Assets/Scripts/StateAgent.cs:181-188 | on Start or End the frame changes nothing iff T is not pressed after the debounce; with T pressed, a gameplay task starts with score 0 and reduction 0, a new random kind, and the high score kept, and the task entered is the kind the draw picks |
| RoundProperties.SuccessFrame | Assets/Scripts/StateAgent.cs:168-191 | Success stays for its 1 s regardless of keys; after that the picked gameplay task follows, with score and reduction unchanged; if that task's key is down in the same frame, the press scores at once: Success is entered again with one more point, the clamped reduction and a new entry time |
| RoundProperties.GameplayPress | Assets/Scripts/StateAgent.cs:181-192 | pressing a gameplay task's key after the debounce and within its deadline enters Success with one more point and the clamped reduction |
| RoundProperties.GameplayTimeout | Assets/Scripts/StateAgent.cs:173-181 | without T down, a gameplay task enters End, recording max(high score, score) and keeping the score, iff elapsed > 6 - reduction, so a late press of the task's own key does not score; with its own key not down either, it is unchanged iff within the deadline |
| RoundProperties.GameplayTimeoutWithPlayKey | Assets/Scripts/StateAgent.cs:171-188 | a missed deadline with T down records the high score and starts a new round in the same frame; the new task is the kind the draw picks, with score 0 and reduction 0 |
| RoundProperties.AtMostOnePickPerFrame | Assets/Scripts/StateAgent.cs:173-187 | the timeout stage and the input stage never both pick a random task in one frame: after a Success timeout the task is a gameplay task, not Start or End |
| RoundProperties.EachStageCanPick | Assets/Scripts/StateAgent.cs:173-187 | each stage can pick on its own: an expired Success screen picks in the timeout stage, and T on the Start screen picks in the input stage |
| RoundProperties.RunPreservesValid | Assets/Scripts/StateAgent.cs:161-193 | any sequence of frames keeps a valid state valid |
| RoundProperties.HighScoreNeverDecreases | Assets/Scripts/StateAgent.cs:281-285 | across any sequence of frames the high score never decreases |
| RoundProperties.ReachableStatesValid | Assets/Scripts/StateAgent.cs:153-193 | every state reachable from the start of the game is valid and keeps at least the stored high score |

## Left out

- Audio is not modelled, because it is presentation only. This covers
  `Task.Activate`, `PlayClip` and `internalPlayClip` with its pitch
  interpolation, and clip choice by `Random.Range`.
- `internalSetImage` and the image fields are not modelled, because they are
  presentation only. What happens when the image quad is missing is stated
  under `Round.SetNextTask` below.
- The clock face and clock hand (enabling, rotation, the halfway snap) are not
  modelled, because they are visual only.
- `OnGUI` text and colours are not modelled, because they are UI.
- Writing the high score to `PlayerPrefs` is not modelled, because it is
  persistence I/O. Only the in-memory field is modelled. The stored value read
  at start is the `stored` parameter of `Round.Init`.
- The single-instance guard in `Awake`, object creation in `Start`, and the
  Escape key quitting the application are not modelled, because they are
  engine lifecycle.
- `Assets/Scripts/CameraAgent.cs` is not part of this model. It configures the
  camera and has no game logic.
- Round.SetNextTask: assumes that entering a task never throws. `Task.Activate`
  runs before `beginTime` is stamped, and `internalSetImage` uses the image
  quad before checking it for null. Without the image quad prefab every entry
  would throw there, and the rest of that `Update` would be skipped. The model
  assumes the image quad exists and the audio calls do not throw.
- Round.Tick: does not model single-precision rounding of `Time.time` or of
  the elapsed time, because times are exact reals.
- Round.SetNextTask: does not model 32-bit wrap-around of the score, because
  it needs over two billion successes of at least a second each.
