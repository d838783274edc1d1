/** What every reachable state of the philosophers keeps. */
module PhiloInvariant {
  import opened Basics
  import opened PhiloTable

  /** The mutexes a philosopher owns at a program counter. */
  function Holds(t: Table, i: int, pc: Pc): set<Lock> {
    match pc
    case InitSet => {MealMutex}
    case Print(site, phase) => PrintForks(t, i, site) + PrintMutexes(phase)
    case Check(site, phase) => CheckForks(t, i, site) + CheckMutexes(phase)
    case LockSecond => {Fork(First(t, i))}
    case DropFirst => {Fork(First(t, i))}
    case MealLock => Both(t, i)
    case MealSet => Both(t, i) + {MealMutex}
    case EatPause => Both(t, i)
    case DropLeft => Both(t, i)
    case DropRight => {Fork(Right(t, i))}
    case _ => {}
  }

  function Both(t: Table, i: int): set<Lock> {
    {Fork(Left(t, i)), Fork(Right(t, i))}
  }

  function PrintForks(t: Table, i: int, site: PrintSite): set<Lock> {
    match site
    case Thinking => {}
    case TookFirst => {Fork(First(t, i))}
    case TookSecond => Both(t, i)
    case Eating => Both(t, i)
    case Sleeping => {}
  }

  function PrintMutexes(phase: PrintPhase): set<Lock> {
    match phase
    case P0 => {}
    case P1 => {DeadMutex}
    case P2 => {DeadMutex, MealMutex}
    case P3 => {DeadMutex}
  }

  function CheckForks(t: Table, i: int, site: CheckSite): set<Lock> {
    if site == BeforeSecond then {Fork(First(t, i))} else {}
  }

  function CheckMutexes(phase: CheckPhase): set<Lock> {
    match phase
    case C0 => {}
    case C1 => {DeadMutex}
    case C2 => {DeadMutex, MealMutex}
    case C3(_) => {MealMutex}
  }

  function MainHolds(pc: MainPc): set<Lock> {
    match pc
    case AgeLook(_) => {MealMutex}
    case PrintDied(_, phase) => PrintMutexes(phase)
    case DeadSet => {DeadMutex}
    case RoundsLook => {MealMutex}
    case MealsLook(_) => {MealMutex}
    case FullSet => {MealMutex}
    case _ => {}
  }

  /** Every action takes a mutex not yet owned, leaves one that is owned, or neither. */
  ghost predicate Accounted(a: Action, before: set<Lock>, after: set<Lock>) {
    match a
    case Acquire(l) => l !in before && after == before + {l}
    case Release(l) => l in before && after == before - {l}
    case Pause => after == before
    case Stop => true
  }

  lemma PhiloAccounted(t: Table, i: int, pc: Pc, meals: nat, flagged: bool)
    requires t.n >= 2 && 0 <= i < t.n
    ensures Accounted(Act(t, i, pc), Holds(t, i, pc), Holds(t, i, After(i, pc, meals, flagged)))
  {
    assert Left(t, i) != Right(t, i);
  }

  lemma MainAccounted(t: Table, s: State, late: bool)
    requires Shaped(t, s)
    ensures Accounted(MainAct(t, s), MainHolds(s.main), MainHolds(MainAfter(t, s, late)))
  {
  }

  // ---------------------------------------------------------------- mutex ownership

  function HeldBy(t: Table, s: State, who: Thread): set<Lock>
    requires Shaped(t, s)
  {
    match who
    case Main => MainHolds(s.main)
    case Philo(i) => if 0 <= i < t.n then Holds(t, i, s.pcs[i]) else {}
  }

  /** The owner recorded in a mutex is the one thread whose program counter holds it. */
  ghost predicate Owned(t: Table, s: State)
    requires Shaped(t, s)
  {
    forall l: Lock, who: Thread ::
      (l in HeldBy(t, s, who)) <==> (l in s.owner && s.owner[l] == who)
  }

  /** A thread that starts holds nothing yet. */
  lemma OthersKept(t: Table, s: State, who: Thread, late: bool, other: Thread)
    requires t.n >= 2 && Shaped(t, s) && Step(t, s, who, late).Some? && other != who
    requires s.main.Create? && s.main.k < t.n ==> s.pcs[s.main.k] == NotStarted
    ensures HeldBy(t, Step(t, s, who, late).value, other) == HeldBy(t, s, other)
  {
  }

  lemma OwnAccounted(t: Table, s: State, who: Thread, late: bool)
    requires t.n >= 2 && Shaped(t, s) && Step(t, s, who, late).Some?
    ensures var s' := Step(t, s, who, late).value;
            var a := ActionOf(t, s, who);
            Accounted(a, HeldBy(t, s, who), HeldBy(t, s', who)) && Locked(s.owner, who, a) == Some(s'.owner)
  {
    match who
    case Main => MainAccounted(t, s, late);
    case Philo(i) => PhiloAccounted(t, i, s.pcs[i], s.meals[i], s.dead || s.full);
  }

  function ActionOf(t: Table, s: State, who: Thread): Action
    requires Shaped(t, s)
  {
    match who
    case Main => MainAct(t, s)
    case Philo(i) => if 0 <= i < t.n then Act(t, i, s.pcs[i]) else Stop
  }

  lemma StepOwned(t: Table, s: State, who: Thread, late: bool)
    requires t.n >= 2 && Shaped(t, s) && Owned(t, s) && Step(t, s, who, late).Some?
    requires s.main.Create? && s.main.k < t.n ==> s.pcs[s.main.k] == NotStarted
    ensures Owned(t, Step(t, s, who, late).value)
  {
    hide HeldBy, ActionOf, Step;
    var s' := Step(t, s, who, late).value;
    OwnAccounted(t, s, who, late);
    forall l: Lock, other: Thread
      ensures (l in HeldBy(t, s', other)) <==> (l in s'.owner && s'.owner[l] == other)
    {
      assert (l in HeldBy(t, s, other)) <==> (l in s.owner && s.owner[l] == other);
      assert (l in HeldBy(t, s, who)) <==> (l in s.owner && s.owner[l] == who);
      if other != who {
        OthersKept(t, s, who, late, other);
      }
    }
  }

  // ------------------------------------------------------------------- the rest

  ghost predicate Flagged(s: State) {
    s.dead || s.full
  }

  /** The monitor has set a flag and only joins and cleans up. */
  predicate Closing(pc: MainPc) {
    pc.Join? || pc.Destroy? || pc.Exited?
  }

  /** A philosopher on its way out has seen a flag. */
  predicate Leaving(pc: Pc) {
    pc == Done || pc == DropFirst || (pc.Check? && pc.cphase == C3(true))
  }

  function Started(t: Table, pc: MainPc): int {
    if pc.Create? then pc.k else t.n
  }

  function Joined(t: Table, pc: MainPc): int {
    match pc
    case Join(k) => k
    case Destroy(_) => t.n
    case Exited => t.n
    case _ => 0
  }

  /** How many philosophers the monitor has found fed in its present round of `check_is_full`. */
  function FoundFed(t: Table, pc: MainPc): int {
    match pc
    case MealsLock(k) => k
    case MealsLook(k) => k
    case FullLock => t.n
    case FullSet => t.n
    case _ => 0
  }

  predicate MainInRange(t: Table, pc: MainPc) {
    match pc
    case Create(k) => k < t.n
    case AgeLock(k) => k < t.n
    case AgeLook(k) => k < t.n
    case PrintDied(k, _) => k < t.n
    case MealsLock(k) => k < t.n
    case MealsLook(k) => k < t.n
    case Join(k) => k < t.n
    case Destroy(k) => k < t.n + 3
    case _ => true
  }

  predicate MainCountsRounds(pc: MainPc) {
    pc.MealsLock? || pc.MealsLook? || pc.FullLock? || pc.FullSet?
  }

  /** How far the main thread is, and what that says about the others. */
  ghost predicate Phased(t: Table, s: State)
    requires Shaped(t, s)
  {
    && MainInRange(t, s.main)
    && (forall i | 0 <= i < t.n :: s.pcs[i] == NotStarted <==> i >= Started(t, s.main))
    && (forall i | 0 <= i < Joined(t, s.main) :: s.pcs[i] == Done)
  }

  /** A flag is set exactly when the monitor closes, and nobody leaves without one. */
  ghost predicate Flags(t: Table, s: State)
    requires Shaped(t, s)
  {
    && (Flagged(s) <==> Closing(s.main))
    && (forall i | 0 <= i < t.n && Leaving(s.pcs[i]) :: Flagged(s))
  }

  /** Philosophers found fed stay fed, though their counters are read one by one. */
  ghost predicate Fed(t: Table, s: State)
    requires Shaped(t, s)
  {
    && FoundFed(t, s.main) <= t.n
    && (MainCountsRounds(s.main) ==> t.rounds != -1)
    && (forall i | 0 <= i < FoundFed(t, s.main) :: s.meals[i] >= t.rounds)
    && (s.full ==> t.rounds != -1 && forall i | 0 <= i < t.n :: s.meals[i] >= t.rounds)
  }

  ghost predicate Staged(t: Table, s: State)
    requires Shaped(t, s)
  {
    Phased(t, s) && Flags(t, s) && Fed(t, s)
  }

  ghost predicate Inv(t: Table, s: State) {
    Shaped(t, s) && Owned(t, s) && Staged(t, s)
  }

  /** A step of the main thread, field by field. */
  lemma MainStep(t: Table, s: State, late: bool)
    requires Shaped(t, s) && Step(t, s, Main, late).Some?
    ensures var s' := Step(t, s, Main, late).value;
            && s'.main == MainAfter(t, s, late) && s'.meals == s.meals
            && s'.pcs == (if s.main.Create? && s.main.k < t.n then s.pcs[s.main.k := InitLock] else s.pcs)
            && s'.dead == (s.dead || s.main == DeadSet) && s'.full == (s.full || s.main == FullSet)
            && (s.main.Join? && s.main.k < t.n ==> s.pcs[s.main.k] == Done)
            && s.main != Exited
  {
  }

  lemma MainPhased(t: Table, s: State, late: bool)
    requires t.n >= 2 && Shaped(t, s) && Phased(t, s) && Step(t, s, Main, late).Some?
    ensures Phased(t, Step(t, s, Main, late).value)
  {
    hide Step;
    MainStep(t, s, late);
  }

  lemma MainFlags(t: Table, s: State, late: bool)
    requires t.n >= 2 && Shaped(t, s) && Phased(t, s) && Flags(t, s) && Step(t, s, Main, late).Some?
    ensures Flags(t, Step(t, s, Main, late).value)
  {
    hide Step;
    MainStep(t, s, late);
  }

  lemma MainFed(t: Table, s: State, late: bool)
    requires t.n >= 2 && Shaped(t, s) && Phased(t, s) && Fed(t, s) && Step(t, s, Main, late).Some?
    ensures Fed(t, Step(t, s, Main, late).value)
  {
    hide Step;
    MainStep(t, s, late);
  }

  /** A step of a philosopher, field by field. */
  lemma PhiloStep(t: Table, s: State, i: int, late: bool)
    requires Shaped(t, s) && Step(t, s, Philo(i), late).Some?
    ensures var s' := Step(t, s, Philo(i), late).value;
            && 0 <= i < t.n && s.pcs[i] != NotStarted && s.pcs[i] != Done
            && s'.main == s.main && s'.dead == s.dead && s'.full == s.full
            && s'.pcs == s.pcs[i := After(i, s.pcs[i], s.meals[i], Flagged(s))]
            && (s'.meals == s.meals || s'.meals == s.meals[i := s.meals[i] + 1])
  {
  }

  lemma PhiloStaged(t: Table, s: State, i: int, late: bool)
    requires t.n >= 2 && Shaped(t, s) && Staged(t, s) && Step(t, s, Philo(i), late).Some?
    ensures Staged(t, Step(t, s, Philo(i), late).value)
  {
    hide Step;
    PhiloStep(t, s, i, late);
  }

  lemma StepStaged(t: Table, s: State, who: Thread, late: bool)
    requires t.n >= 2 && Shaped(t, s) && Staged(t, s) && Step(t, s, who, late).Some?
    ensures Staged(t, Step(t, s, who, late).value)
  {
    match who
    case Main =>
      MainPhased(t, s, late);
      MainFlags(t, s, late);
      MainFed(t, s, late);
    case Philo(i) => PhiloStaged(t, s, i, late);
  }

  lemma StepInv(t: Table, s: State, who: Thread, late: bool)
    requires t.n >= 2 && Inv(t, s) && Step(t, s, who, late).Some?
    ensures Inv(t, Step(t, s, who, late).value)
  {
    StepOwned(t, s, who, late);
    StepStaged(t, s, who, late);
  }

  lemma InitInv(t: Table)
    requires t.n >= 2
    ensures Inv(t, Init(t))
  {
  }

  lemma {:induction false} RunInv(t: Table, s: State, schedule: seq<Choice>)
    requires t.n >= 2 && Inv(t, s) && Run(t, s, schedule).Some?
    ensures Inv(t, Run(t, s, schedule).value)
    decreases |schedule|
  {
    if schedule != [] {
      StepInv(t, s, schedule[0].who, schedule[0].late);
      RunInv(t, Step(t, s, schedule[0].who, schedule[0].late).value, schedule[1..]);
    }
  }

  /** The invariant holds in every reachable state. */
  lemma ReachableInv(t: Table, s: State)
    requires t.n >= 2 && Reachable(t, s)
    ensures Inv(t, s)
  {
    var schedule :| Run(t, Init(t), schedule) == Some(s);
    InitInv(t);
    RunInv(t, Init(t), schedule);
  }
}
