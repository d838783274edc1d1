/** The threads of `philo` as a state machine: n philosophers, the main thread that monitors
    them, n fork mutexes, `deadmutex` and `mealmutex`.  A thread's program counter names its
    next action; taking a mutex, leaving one and pausing are the atomic actions, and the
    statements of a critical section happen with the unlock that ends it. */
module PhiloTable {
  import opened Basics

  /** The arguments of the program: how many philosophers, and how many rounds (-1 for none). */
  datatype Table = Table(n: nat, rounds: int)

  datatype Lock = Fork(j: int) | DeadMutex | MealMutex

  datatype Thread = Philo(i: int) | Main

  datatype Message = TookFork | IsThinking | IsEating | IsSleeping | Died

  datatype Line = Line(id: int, message: Message)

  /** Where `dead_or_full` is called from. */
  datatype CheckSite = BeforeFirst | BeforeSecond | BeforeSleep | BeforeLoop

  /** About to lock deadmutex, about to lock mealmutex, about to read and unlock deadmutex,
      about to unlock mealmutex and return. */
  datatype CheckPhase = C0 | C1 | C2 | C3(result: bool)

  /** Where a philosopher calls `print_message` from. */
  datatype PrintSite = Thinking | TookFirst | TookSecond | Eating | Sleeping

  /** About to lock deadmutex, about to lock mealmutex, about to print and unlock mealmutex,
      about to unlock deadmutex and return. */
  datatype PrintPhase = P0 | P1 | P2 | P3

  datatype Pc =
    | NotStarted
    | InitLock
    | InitSet
    | LoopTop
    | Print(psite: PrintSite, pphase: PrintPhase)
    | Check(csite: CheckSite, cphase: CheckPhase)
    | ThinkPause
    | LockFirst
    | LockSecond
    | DropFirst
    | MealLock
    | MealSet
    | EatPause
    | DropLeft
    | DropRight
    | SleepPause
    | Done

  datatype MainPc =
    | Create(k: nat)
    | WarmUp
    | AgeLock(k: nat)
    | AgeLook(k: nat)
    | PrintDied(k: nat, phase: PrintPhase)
    | DeadLock
    | DeadSet
    | RoundsLock
    | RoundsLook
    | MealsLock(k: nat)
    | MealsLook(k: nat)
    | FullLock
    | FullSet
    | Join(k: nat)
    | Destroy(k: nat)
    | Exited

  datatype State = State(
    pcs: seq<Pc>,
    main: MainPc,
    meals: seq<nat>,
    owner: map<Lock, Thread>,
    dead: bool,
    full: bool,
    out: seq<Line>)

  function Init(t: Table): State {
    State(seq(t.n, i => NotStarted), Create(0), seq(t.n, i => 0), map[], false, false, [])
  }

  // ------------------------------------------------------------------ ring wiring

  /** Philosopher i (0-based, so its id is i + 1) and its two forks. */
  function Left(t: Table, i: int): int {
    i
  }

  function Right(t: Table, i: int): int {
    if i == 0 then t.n - 1 else i - 1
  }

  function First(t: Table, i: int): int {
    if (i + 1) % 2 == 0 then Right(t, i) else Left(t, i)
  }

  function Second(t: Table, i: int): int {
    if (i + 1) % 2 == 0 then Left(t, i) else Right(t, i)
  }

  // ----------------------------------------------------------------- philosophers

  datatype Action = Acquire(l: Lock) | Release(l: Lock) | Pause | Stop

  function Act(t: Table, i: int, pc: Pc): Action {
    match pc
    case NotStarted => Stop
    case InitLock => Acquire(MealMutex)
    case InitSet => Release(MealMutex)
    case LoopTop => Pause
    case Print(_, P0) => Acquire(DeadMutex)
    case Print(_, P1) => Acquire(MealMutex)
    case Print(_, P2) => Release(MealMutex)
    case Print(_, P3) => Release(DeadMutex)
    case Check(_, C0) => Acquire(DeadMutex)
    case Check(_, C1) => Acquire(MealMutex)
    case Check(_, C2) => Release(DeadMutex)
    case Check(_, C3(_)) => Release(MealMutex)
    case ThinkPause => Pause
    case LockFirst => Acquire(Fork(First(t, i)))
    case LockSecond => Acquire(Fork(Second(t, i)))
    case DropFirst => Release(Fork(First(t, i)))
    case MealLock => Acquire(MealMutex)
    case MealSet => Release(MealMutex)
    case EatPause => Pause
    case DropLeft => Release(Fork(Left(t, i)))
    case DropRight => Release(Fork(Right(t, i)))
    case SleepPause => Pause
    case Done => Stop
  }

  /** The program counter after the action; `meals` is the philosopher's own counter. */
  function After(i: int, pc: Pc, meals: nat, flagged: bool): Pc {
    match pc
    case NotStarted => NotStarted
    case InitLock => InitSet
    case InitSet => LoopTop
    case LoopTop => if (i + 1) % 2 == 1 && meals == 0 then Print(Thinking, P0) else Check(BeforeFirst, C0)
    case Print(site, P0) => Print(site, P1)
    case Print(site, P1) => Print(site, P2)
    case Print(site, P2) => Print(site, P3)
    case Print(Thinking, P3) => ThinkPause
    case Print(TookFirst, P3) => Check(BeforeSecond, C0)
    case Print(TookSecond, P3) => Print(Eating, P0)
    case Print(Eating, P3) => MealLock
    case Print(Sleeping, P3) => SleepPause
    case Check(site, C0) => Check(site, C1)
    case Check(site, C1) => Check(site, C2)
    case Check(site, C2) => Check(site, C3(flagged))
    case Check(BeforeSecond, C3(true)) => DropFirst
    case Check(_, C3(true)) => Done
    case Check(BeforeFirst, C3(false)) => LockFirst
    case Check(BeforeSecond, C3(false)) => LockSecond
    case Check(BeforeSleep, C3(false)) => Print(Sleeping, P0)
    case Check(BeforeLoop, C3(false)) => LoopTop
    case ThinkPause => Check(BeforeFirst, C0)
    case LockFirst => Print(TookFirst, P0)
    case LockSecond => Print(TookSecond, P0)
    case DropFirst => Done
    case MealLock => MealSet
    case MealSet => EatPause
    case EatPause => DropLeft
    case DropLeft => DropRight
    case DropRight => Check(BeforeSleep, C0)
    case SleepPause => Check(BeforeLoop, C0)
    case Done => Done
  }

  function Text(site: PrintSite): Message {
    match site
    case Thinking => IsThinking
    case TookFirst => TookFork
    case TookSecond => TookFork
    case Eating => IsEating
    case Sleeping => IsSleeping
  }

  function Printed(s: State, line: Line): seq<Line> {
    if !s.dead && !s.full then s.out + [line] else s.out
  }

  function PhiloEffect(s: State, i: int): State
    requires 0 <= i < |s.pcs| == |s.meals|
  {
    match s.pcs[i]
    case MealSet => s.(meals := s.meals[i := s.meals[i] + 1])
    case Print(site, P2) => s.(out := Printed(s, Line(i + 1, Text(site))))
    case _ => s
  }

  // ------------------------------------------------------------------ main thread

  function MainAct(t: Table, s: State): Action {
    if s.main.Join? && s.main.k < |s.pcs| && s.pcs[s.main.k] != Done then Stop else MainDeed(s.main)
  }

  /** The action at a program counter, once a joined philosopher has returned. */
  function MainDeed(pc: MainPc): Action {
    match pc
    case AgeLock(_) => Acquire(MealMutex)
    case AgeLook(_) => Release(MealMutex)
    case PrintDied(_, P0) => Acquire(DeadMutex)
    case PrintDied(_, P1) => Acquire(MealMutex)
    case PrintDied(_, P2) => Release(MealMutex)
    case PrintDied(_, P3) => Release(DeadMutex)
    case DeadLock => Acquire(DeadMutex)
    case DeadSet => Release(DeadMutex)
    case RoundsLock => Acquire(MealMutex)
    case RoundsLook => Release(MealMutex)
    case MealsLock(_) => Acquire(MealMutex)
    case MealsLook(_) => Release(MealMutex)
    case FullLock => Acquire(MealMutex)
    case FullSet => Release(MealMutex)
    case Exited => Stop
    case _ => Pause
  }

  /** `late` is the outcome of comparing the clock with the philosopher's deadline. */
  function MainAfter(t: Table, s: State, late: bool): MainPc
    requires |s.meals| == t.n
  {
    MainNext(t, s.main, late, if s.main.MealsLook? && s.main.k < t.n then s.meals[s.main.k] else 0)
  }

  /** `meals` is the counter that the main thread looks at. */
  function MainNext(t: Table, pc: MainPc, late: bool, meals: nat): MainPc {
    match pc
    case Create(k) => if k + 1 < t.n then Create(k + 1) else WarmUp
    case WarmUp => AgeLock(0)
    case AgeLock(k) => AgeLook(k)
    case AgeLook(k) => if late then PrintDied(k, P0) else if k + 1 < t.n then AgeLock(k + 1) else RoundsLock
    case PrintDied(k, P0) => PrintDied(k, P1)
    case PrintDied(k, P1) => PrintDied(k, P2)
    case PrintDied(k, P2) => PrintDied(k, P3)
    case PrintDied(k, P3) => DeadLock
    case DeadLock => DeadSet
    case DeadSet => Join(0)
    case RoundsLock => RoundsLook
    case RoundsLook => if t.rounds == -1 then AgeLock(0) else MealsLock(0)
    case MealsLock(k) => MealsLook(k)
    case MealsLook(k) =>
      if k < t.n && meals < t.rounds then AgeLock(0)
      else if k + 1 < t.n then MealsLock(k + 1)
      else FullLock
    case FullLock => FullSet
    case FullSet => Join(0)
    case Join(k) => if k + 1 < t.n then Join(k + 1) else Destroy(0)
    case Destroy(k) => if k + 1 < t.n + 3 then Destroy(k + 1) else Exited
    case Exited => Exited
  }

  function MainEffect(s: State): State {
    match s.main
    case Create(k) => if k < |s.pcs| then s.(pcs := s.pcs[k := InitLock]) else s
    case PrintDied(k, P2) => s.(out := Printed(s, Line(k + 1, Died)))
    case DeadSet => s.(dead := true)
    case FullSet => s.(full := true)
    case _ => s
  }

  // ------------------------------------------------------------------------ steps

  /** The mutexes after an action; None when the thread has to wait. */
  function Locked(owner: map<Lock, Thread>, who: Thread, a: Action): Option<map<Lock, Thread>> {
    match a
    case Acquire(l) => if l in owner then None else Some(owner[l := who])
    case Release(l) => Some(owner - {l})
    case Pause => Some(owner)
    case Stop => None
  }

  predicate Shaped(t: Table, s: State) {
    |s.pcs| == |s.meals| == t.n
  }

  function Step(t: Table, s: State, who: Thread, late: bool): (r: Option<State>)
    requires Shaped(t, s)
    ensures r.Some? ==> Shaped(t, r.value)
  {
    match who
    case Main =>
      (match Locked(s.owner, Main, MainAct(t, s))
       case None => None
       case Some(owner) => Some(MainEffect(s).(main := MainAfter(t, s, late), owner := owner)))
    case Philo(i) =>
      if !(0 <= i < t.n) then None
      else
        match Locked(s.owner, Philo(i), Act(t, i, s.pcs[i]))
        case None => None
        case Some(owner) =>
          Some(PhiloEffect(s, i).(pcs := s.pcs[i := After(i, s.pcs[i], s.meals[i], s.dead || s.full)],
                                  owner := owner))
  }

  /** One scheduling decision: which thread moves, and what its clock says. */
  datatype Choice = Choice(who: Thread, late: bool)

  /** The state after a schedule, if every choice in it can be taken. */
  function Run(t: Table, s: State, schedule: seq<Choice>): (r: Option<State>)
    requires Shaped(t, s)
    ensures r.Some? ==> Shaped(t, r.value)
    decreases |schedule|
  {
    if schedule == [] then Some(s)
    else
      match Step(t, s, schedule[0].who, schedule[0].late)
      case None => None
      case Some(s') =>
        Run(t, s', schedule[1..])
  }

  ghost predicate Reachable(t: Table, s: State) {
    exists schedule :: Run(t, Init(t), schedule) == Some(s)
  }
}
