/**
 The task catalogue of the game: the kinds of task, the key each task waits
 for, how long it may stay on screen, and the fixed list of gameplay tasks
 built once when the state agent wakes up.

 Audio clips and images attached to a task are presentation only and are not
 part of this model.
 */
module Tasks {

  /** The task kinds, in the order (and with the ordinal) the game declares them. */
  datatype TaskType = CPR | PrecordialThump | Pulse | Start | Success | End | Invalid

  /** The keys the core looks at. `None` is the "no key" code, which never reads as pressed. */
  datatype KeyCode = None | C | T | P

  /** A task duration in seconds; `Infinite` stands for the engine's positive infinity. */
  datatype Duration = Finite(secs: real) | Infinite

  /** One task: its kind, the key that completes it, and its base duration. */
  datatype Task = Task(kind: TaskType, button: KeyCode, duration: Duration)

  /** Base deadline of every gameplay task, in seconds. */
  const FailTime: real := 6.0
  /** How much each success shortens the gameplay deadline. */
  const FailTimeReduceRate: real := 0.25
  /** The gameplay deadline never shrinks below this. */
  const MinimumFailTime: real := 1.5
  /** How long the success screen stays up. */
  const SuccessTime: real := 1.0
  /** Key presses in the first part of a task are ignored. `StateAgent` writes
      the single-precision literal for 0.3, whose exact value is this. */
  const Debounce: real := 0.300000011920928955078125

  /** The enum value of a kind, as the `(int)` cast in `StateAgent` yields it. */
  function Ord(k: TaskType): (n: nat)
    ensures n <= 6
    ensures k != Invalid ==> n < 6
  {
    match k
    case CPR => 0
    case PrecordialThump => 1
    case Pulse => 2
    case Start => 3
    case Success => 4
    case End => 5
    case Invalid => 6
  }

  predicate IsGameplay(k: TaskType) {
    k == CPR || k == PrecordialThump || k == Pulse
  }

  /** Only the pressed keys read as "went down this frame"; `None` never does. */
  predicate KeyDown(pressed: set<KeyCode>, k: KeyCode) {
    k != None && k in pressed
  }

  const StartTask: Task := Task(Start, T, Infinite)
  const SuccessTask: Task := Task(Success, None, Finite(SuccessTime))
  const EndTask: Task := Task(End, T, Infinite)

  /** The gameplay tasks, in the order they are added to the list. */
  const PossibleTasks: seq<Task> := [
    Task(CPR, C, Finite(FailTime)),
    Task(PrecordialThump, T, Finite(FailTime)),
    Task(Pulse, P, Finite(FailTime))
  ]

  /** The key a gameplay kind waits for. */
  function GameplayButton(k: TaskType): (b: KeyCode)
    requires IsGameplay(k)
  {
    match k
    case CPR => C
    case PrecordialThump => T
    case Pulse => P
  }

  /** The start and end screens wait for the play key and never expire; the
      success screen waits for no key and lasts one second. */
  lemma ScreenTasks()
    ensures StartTask.kind == Start && StartTask.button == T && StartTask.duration.Infinite?
    ensures EndTask.kind == End && EndTask.button == T && EndTask.duration.Infinite?
    ensures SuccessTask.kind == Success && SuccessTask.button == None
    ensures SuccessTask.duration == Finite(1.0)
  {
  }

  /** Every task the game can show: the three gameplay tasks and the three screens. */
  predicate IsCatalogued(t: Task) {
    t in PossibleTasks || t == StartTask || t == SuccessTask || t == EndTask
  }

  /** Across the catalogue, exactly the start and end screens never expire,
      and exactly the success screen waits for no key. */
  lemma CatalogueShape(t: Task)
    requires IsCatalogued(t)
    ensures t.duration.Infinite? <==> (t.kind == Start || t.kind == End)
    ensures t.button == None <==> t.kind == Success
  {
  }

  /** The list position of a gameplay task is its kind's enum value, so
      `possibleTasks[(int)kind]` in `StateAgent` finds the entry of that kind. */
  lemma CatalogueIndexIsOrdinal(k: TaskType)
    requires IsGameplay(k)
    ensures Ord(k) < |PossibleTasks|
    ensures PossibleTasks[Ord(k)].kind == k
    ensures PossibleTasks[Ord(k)].button == GameplayButton(k)
    ensures PossibleTasks[Ord(k)].duration == Finite(FailTime)
  {
  }

  /** Conversely, the entry at position i has kind of ordinal i, and is the only entry of its kind. */
  lemma CatalogueKindsDistinct(i: int, j: int)
    requires 0 <= i < |PossibleTasks| && 0 <= j < |PossibleTasks|
    ensures Ord(PossibleTasks[i].kind) == i
    ensures IsGameplay(PossibleTasks[i].kind)
    ensures PossibleTasks[i].kind == PossibleTasks[j].kind <==> i == j
  {
  }
}
