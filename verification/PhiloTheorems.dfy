/** Deadlock freedom, exclusion, silence and termination of the philosophers. */
module PhiloTheorems {
  import opened Basics
  import opened PhiloTable
  import opened PhiloInvariant

  // -------------------------------------------------------------------- exclusion

  /** No mutex is held by two threads. */
  lemma HoldersDisjoint(t: Table, s: State, who: Thread, other: Thread)
    requires t.n >= 2 && Reachable(t, s) && who != other
    ensures Shaped(t, s) && HeldBy(t, s, who) !! HeldBy(t, s, other)
  {
    ReachableInv(t, s);
    forall l: Lock | l in HeldBy(t, s, who) ensures l !in HeldBy(t, s, other) {
      assert s.owner[l] == who;
    }
  }

  /** Announcing, counting or having a meal. */
  predicate AtTable(pc: Pc) {
    (pc.Print? && pc.psite == Eating) || pc == MealLock || pc == MealSet || pc == EatPause
  }

  lemma AtTableHoldsBoth(t: Table, i: int, pc: Pc)
    requires AtTable(pc)
    ensures Fork(Left(t, i)) in Holds(t, i, pc) && Fork(Right(t, i)) in Holds(t, i, pc)
  {
  }

  /** Ring neighbours never eat together. */
  lemma NeighboursNeverEatTogether(t: Table, s: State, i: int)
    requires t.n >= 2 && Reachable(t, s) && 0 <= i < t.n
    ensures Shaped(t, s)
    ensures !(AtTable(s.pcs[i]) && AtTable(s.pcs[(i + 1) % t.n]))
  {
    hide Holds, Owned, Staged, AtTable;
    ReachableInv(t, s);
    var j := if i + 1 < t.n then i + 1 else 0;
    assert j == (i + 1) % t.n;
    HoldersDisjoint(t, s, Philo(i), Philo(j));
    assert Left(t, i) == Right(t, j);
    if AtTable(s.pcs[i]) && AtTable(s.pcs[j]) {
      AtTableHoldsBoth(t, i, s.pcs[i]);
      AtTableHoldsBoth(t, j, s.pcs[j]);
    }
  }

  /** `full` is only ever set when everyone has had every round. */
  lemma FullMeansFed(t: Table, s: State)
    requires t.n >= 2 && Reachable(t, s) && s.full
    ensures t.rounds != -1 && |s.meals| == t.n && forall i | 0 <= i < t.n :: s.meals[i] >= t.rounds
  {
    ReachableInv(t, s);
  }

  // ----------------------------------------------------------------- deadlock freedom

  /** The order in which every thread takes its mutexes.  Of the forks, the even ones come
      first, except the last one when n is odd; it waits for fork 0 and precedes the odd ones. */
  function Rank(t: Table, l: Lock): int {
    match l
    case Fork(j) => if j % 2 == 1 then 2 else if j == t.n - 1 then 1 else 0
    case DeadMutex => 3
    case MealMutex => 4
  }

  /** A philosopher only ever asks for a mutex above all it holds, for odd and even n alike. */
  lemma PhiloClimbs(t: Table, i: int, pc: Pc, l: Lock, held: Lock)
    requires t.n >= 2 && 0 <= i < t.n
    requires Act(t, i, pc) == Acquire(l) && held in Holds(t, i, pc)
    ensures Rank(t, held) < Rank(t, l)
  {
  }

  lemma MainClimbs(t: Table, s: State, l: Lock, held: Lock)
    requires Shaped(t, s)
    requires MainAct(t, s) == Acquire(l) && held in MainHolds(s.main)
    ensures Rank(t, held) < Rank(t, l)
  {
  }

  /** A thread that has been created and has not returned. */
  ghost predicate Live(t: Table, s: State, who: Thread)
    requires Shaped(t, s)
  {
    match who
    case Main => s.main != Exited
    case Philo(i) => 0 <= i < t.n && s.pcs[i] != NotStarted && s.pcs[i] != Done
  }

  /** The thread that `who` cannot move without: the owner of the mutex it asks for, or the
      philosopher it joins. */
  function WaitsFor(t: Table, s: State, who: Thread): Option<Thread>
    requires Shaped(t, s)
  {
    match ActionOf(t, s, who)
    case Acquire(l) => if l in s.owner then Some(s.owner[l]) else None
    case _ =>
      if who == Main && s.main.Join? && s.main.k < t.n && s.pcs[s.main.k] != Done
      then Some(Philo(s.main.k)) else None
  }

  /** How high up the order a thread waits. */
  function Level(t: Table, s: State, who: Thread): int
    requires Shaped(t, s)
  {
    match ActionOf(t, s, who)
    case Acquire(l) => Rank(t, l)
    case _ => -1
  }

  ghost predicate CanStep(t: Table, s: State, who: Thread)
    requires Shaped(t, s)
  {
    Step(t, s, who, false).Some? && Step(t, s, who, true).Some?
  }

  /** A live thread either can move or waits for a live thread. */
  lemma MovesOrWaits(t: Table, s: State, who: Thread)
    requires t.n >= 2 && Inv(t, s) && Live(t, s, who)
    ensures WaitsFor(t, s, who) == None ==> CanStep(t, s, who)
    ensures WaitsFor(t, s, who).Some? ==> !CanStep(t, s, who) && Live(t, s, WaitsFor(t, s, who).value)
  {
    match ActionOf(t, s, who)
    case Acquire(l) =>
      if l in s.owner {
        assert l in HeldBy(t, s, s.owner[l]);
      }
    case _ =>
  }

  /** Waiting climbs: whoever is waited for waits, if at all, for something higher. */
  lemma WaitingClimbs(t: Table, s: State, who: Thread)
    requires t.n >= 2 && Inv(t, s) && WaitsFor(t, s, who).Some?
    requires WaitsFor(t, s, WaitsFor(t, s, who).value).Some?
    ensures Level(t, s, who) < Level(t, s, WaitsFor(t, s, who).value)
  {
    var other := WaitsFor(t, s, who).value;
    match ActionOf(t, s, who)
    case Acquire(l) =>
      assert l in HeldBy(t, s, other);
      match other {
        case Main => if MainAct(t, s).Acquire? { MainClimbs(t, s, MainAct(t, s).l, l); }
        case Philo(i) => if Act(t, i, s.pcs[i]).Acquire? { PhiloClimbs(t, i, s.pcs[i], Act(t, i, s.pcs[i]).l, l); }
      }
    case _ =>
  }

  lemma LevelBelow(t: Table, s: State, who: Thread)
    requires Shaped(t, s)
    ensures -1 <= Level(t, s, who) <= 4
  {
  }

  /** Following who waits for whom from any live thread ends at a thread that can move. */
  ghost function WaitChain(t: Table, s: State, who: Thread): (chain: seq<Thread>)
    requires t.n >= 2 && Inv(t, s) && Live(t, s, who)
    ensures chain != [] && chain[0] == who
    ensures forall k | 0 <= k < |chain| - 1 :: WaitsFor(t, s, chain[k]) == Some(chain[k + 1])
    ensures Live(t, s, chain[|chain| - 1]) && CanStep(t, s, chain[|chain| - 1])
    decreases if WaitsFor(t, s, who).Some? then 6 - Level(t, s, who) else 0
  {
    MovesOrWaits(t, s, who);
    LevelBelow(t, s, who);
    match WaitsFor(t, s, who)
    case None => [who]
    case Some(other) =>
      if WaitsFor(t, s, other).Some? then WaitingClimbs(t, s, who); [who] + WaitChain(t, s, other)
      else [who] + WaitChain(t, s, other)
  }

  /** In every reachable state each thread that has not returned is at the start of a chain of
      waiting threads whose last member can move. */
  lemma DeadlockFree(t: Table, s: State, who: Thread) returns (chain: seq<Thread>)
    requires t.n >= 2 && Reachable(t, s) && Shaped(t, s) && Live(t, s, who)
    ensures chain != [] && chain[0] == who
    ensures forall k | 0 <= k < |chain| - 1 :: WaitsFor(t, s, chain[k]) == Some(chain[k + 1])
    ensures Live(t, s, chain[|chain| - 1]) && CanStep(t, s, chain[|chain| - 1])
  {
    ReachableInv(t, s);
    chain := WaitChain(t, s, who);
  }

  /** Each thread of the row waits for the next. */
  ghost predicate WaitingRow(t: Table, s: State, row: seq<Thread>)
    requires Shaped(t, s)
  {
    forall k | 1 <= k < |row| :: WaitsFor(t, s, row[k - 1]) == Some(row[k])
  }

  /** Threads that wait for one another in a row never come back to the first. */
  lemma NoCircularWait(t: Table, s: State, row: seq<Thread>)
    requires t.n >= 2 && Reachable(t, s) && Shaped(t, s) && |row| >= 2 && WaitingRow(t, s, row)
    ensures row[0] != row[|row| - 1]
  {
    ReachableInv(t, s);
    assert WaitsFor(t, s, row[0]) == Some(row[1]);
    if WaitsFor(t, s, row[|row| - 1]).Some? {
      RowClimbs(t, s, row);
    }
  }

  lemma {:induction false} RowClimbs(t: Table, s: State, row: seq<Thread>)
    requires t.n >= 2 && Inv(t, s) && |row| >= 2 && WaitingRow(t, s, row)
    requires WaitsFor(t, s, row[|row| - 1]).Some?
    ensures Level(t, s, row[0]) < Level(t, s, row[|row| - 1])
  {
    var front := row[..|row| - 1];
    assert WaitsFor(t, s, row[|row| - 2]) == Some(row[|row| - 1]);
    WaitingClimbs(t, s, row[|row| - 2]);
    if |row| > 2 {
      RowClimbs(t, s, front);
    }
  }

  // -------------------------------------------------------------------- shutdown

  /** Actions a philosopher still takes once a flag is set. */
  function Remaining(pc: Pc): nat {
    match pc
    case Done => 0
    case DropFirst => 1
    case Check(_, C3(true)) => 2
    case Check(_, C2) => 3
    case Check(_, C1) => 4
    case Check(_, C0) => 5
    case ThinkPause => 6
    case Print(Thinking, phase) => 6 + PrintRemaining(phase)
    case LoopTop => 11
    case SleepPause => 6
    case Print(Sleeping, phase) => 6 + PrintRemaining(phase)
    case DropRight => 6
    case DropLeft => 7
    case EatPause => 8
    case MealSet => 9
    case MealLock => 10
    case Print(Eating, phase) => 10 + PrintRemaining(phase)
    case Print(TookSecond, phase) => 14 + PrintRemaining(phase)
    case LockSecond => 19
    case Print(TookFirst, phase) => 5 + PrintRemaining(phase)
    case LockFirst => 10
    case Check(BeforeFirst, C3(false)) => 11
    case Check(BeforeSecond, C3(false)) => 20
    case Check(BeforeSleep, C3(false)) => 11
    case Check(BeforeLoop, C3(false)) => 12
    case InitSet => 12
    case InitLock => 13
    case NotStarted => 14
  }

  function PrintRemaining(phase: PrintPhase): nat {
    match phase
    case P0 => 4
    case P1 => 3
    case P2 => 2
    case P3 => 1
  }

  function MainRemaining(t: Table, pc: MainPc): nat {
    match pc
    case Join(k) => if k < t.n then t.n - k + t.n + 3 else 0
    case Destroy(k) => if k < t.n + 3 then t.n + 3 - k else 0
    case _ => 0
  }

  function SumRemaining(pcs: seq<Pc>): nat {
    if pcs == [] then 0 else Remaining(pcs[0]) + SumRemaining(pcs[1..])
  }

  function Budget(t: Table, s: State): nat {
    SumRemaining(s.pcs) + MainRemaining(t, s.main)
  }

  lemma {:induction false} SumUpdate(pcs: seq<Pc>, i: nat, pc: Pc)
    requires i < |pcs|
    ensures SumRemaining(pcs[i := pc]) == SumRemaining(pcs) - Remaining(pcs[i]) + Remaining(pc)
  {
    if i > 0 {
      assert pcs[i := pc][1..] == pcs[1..][i - 1 := pc];
      SumUpdate(pcs[1..], i - 1, pc);
    } else {
      assert pcs[i := pc][1..] == pcs[1..];
    }
  }

  lemma {:induction false} SumAtMost(pcs: seq<Pc>)
    ensures SumRemaining(pcs) <= 20 * |pcs|
  {
    if pcs != [] {
      SumAtMost(pcs[1..]);
    }
  }

  lemma PhiloSpends(t: Table, i: int, pc: Pc, meals: nat)
    requires Act(t, i, pc) != Stop
    ensures Remaining(After(i, pc, meals, true)) < Remaining(pc)
  {
  }

  lemma MainSpends(t: Table, s: State, late: bool)
    requires Shaped(t, s) && MainInRange(t, s.main) && Closing(s.main) && MainAct(t, s) != Stop
    ensures MainRemaining(t, MainAfter(t, s, late)) < MainRemaining(t, s.main) && MainEffect(s) == s
  {
  }

  /** With a flag set, every action of every thread brings its return closer. */
  lemma StepSpends(t: Table, s: State, who: Thread, late: bool)
    requires t.n >= 2 && Inv(t, s) && Flagged(s) && Step(t, s, who, late).Some?
    ensures var s' := Step(t, s, who, late).value;
            Flagged(s') && s'.out == s.out && Budget(t, s') < Budget(t, s)
  {
    hide Owned, MainRemaining, Remaining, After, MainAfter, Act, MainAct;
    match who
    case Main => MainSpends(t, s, late);
    case Philo(i) =>
      PhiloSpends(t, i, s.pcs[i], s.meals[i]);
      SumUpdate(s.pcs, i, After(i, s.pcs[i], s.meals[i], true));
  }

  /** Once a flag is set nothing more is printed, and only boundedly many actions are left. */
  lemma {:induction false} ShutdownRun(t: Table, s: State, schedule: seq<Choice>)
    requires t.n >= 2 && Inv(t, s) && Flagged(s) && Run(t, s, schedule).Some?
    ensures var s' := Run(t, s, schedule).value;
            Flagged(s') && s'.out == s.out && |schedule| + Budget(t, s') <= Budget(t, s)
    decreases |schedule|
  {
    if schedule != [] {
      StepSpends(t, s, schedule[0].who, schedule[0].late);
      StepInv(t, s, schedule[0].who, schedule[0].late);
      ShutdownRun(t, Step(t, s, schedule[0].who, schedule[0].late).value, schedule[1..]);
    }
  }

  /** A state in which no thread can move. */
  ghost predicate Halted(t: Table, s: State)
    requires Shaped(t, s)
  {
    forall who: Thread :: !CanStep(t, s, who)
  }

  /** Everybody has returned, the monitor has cleaned up, and no mutex is owned. */
  ghost predicate CleanEnd(t: Table, s: State)
    requires Shaped(t, s)
  {
    s.main == Exited && (forall i | 0 <= i < t.n :: s.pcs[i] == Done) && s.owner == map[]
  }

  /** The program stops only in a clean end. */
  lemma HaltedIffClean(t: Table, s: State)
    requires t.n >= 2 && Reachable(t, s) && Shaped(t, s)
    ensures Halted(t, s) <==> CleanEnd(t, s)
  {
    ReachableInv(t, s);
    if Halted(t, s) {
      if Live(t, s, Main) {
        var chain := DeadlockFree(t, s, Main);
        assert false;
      }
      NothingOwned(t, s);
    }
  }

  /** Mutexes are destroyed only when all philosophers have returned and none is owned. */
  lemma NothingOwned(t: Table, s: State)
    requires t.n >= 2 && Inv(t, s) && (s.main.Destroy? || s.main.Exited?)
    ensures (forall i | 0 <= i < t.n :: s.pcs[i] == Done) && s.owner == map[]
  {
    forall who: Thread ensures HeldBy(t, s, who) == {} {
    }
    assert forall l: Lock | l in s.owner :: l in HeldBy(t, s, s.owner[l]);
  }

  lemma CleanupSafe(t: Table, s: State)
    requires t.n >= 2 && Reachable(t, s) && (s.main.Destroy? || s.main.Exited?)
    ensures Shaped(t, s) && (forall i | 0 <= i < t.n :: s.pcs[i] == Done) && s.owner == map[]
  {
    ReachableInv(t, s);
    NothingOwned(t, s);
  }

  /** From any reachable state with `dead` or `full` set: every schedule takes at most 22n + 3
      more actions and prints nothing, and where it cannot go on the program has ended cleanly. */
  lemma ShutdownTheorem(t: Table, s: State, schedule: seq<Choice>)
    requires t.n >= 2 && Reachable(t, s) && Shaped(t, s) && Flagged(s) && Run(t, s, schedule).Some?
    ensures |schedule| <= 22 * t.n + 3
    ensures Run(t, s, schedule).value.out == s.out
    ensures Halted(t, Run(t, s, schedule).value) ==> CleanEnd(t, Run(t, s, schedule).value)
  {
    ReachableInv(t, s);
    ShutdownRun(t, s, schedule);
    SumAtMost(s.pcs);
    StillReachable(t, s, schedule);
    HaltedIffClean(t, Run(t, s, schedule).value);
  }

  lemma {:induction false} RunOn(t: Table, s: State, first: seq<Choice>, second: seq<Choice>)
    requires Shaped(t, s) && Run(t, s, first).Some?
    ensures Run(t, s, first + second) == Run(t, Run(t, s, first).value, second)
    decreases |first|
  {
    if first == [] {
      assert first + second == second;
    } else {
      assert (first + second)[1..] == first[1..] + second;
      RunOn(t, Step(t, s, first[0].who, first[0].late).value, first[1..], second);
    }
  }

  lemma StillReachable(t: Table, s: State, schedule: seq<Choice>)
    requires Reachable(t, s) && Shaped(t, s) && Run(t, s, schedule).Some?
    ensures Reachable(t, Run(t, s, schedule).value)
  {
    var before :| Run(t, Init(t), before) == Some(s);
    RunOn(t, Init(t), before, schedule);
  }

  // ------------------------------------------------- what the "died" line does not end

  ghost predicate DeathReported(s: State) {
    exists k :: 0 <= k < |s.out| && s.out[k].message == Died
  }

  /** Between the report of a death and the setting of `dead`. */
  predicate Reporting(pc: MainPc) {
    pc == DeadLock || pc == DeadSet || (pc.PrintDied? && pc.phase == P3)
  }

  /** A death is reported exactly from the print until the flag is set, and from then on. */
  ghost predicate Reported(s: State) {
    DeathReported(s) <==> Reporting(s.main) || s.dead
  }

  lemma LineAdded(s: State, s': State, line: Line)
    requires s'.out == s.out + [line]
    ensures DeathReported(s') <==> DeathReported(s) || line.message == Died
  {
    assert s'.out[|s.out|] == line;
    if DeathReported(s) {
      var k :| 0 <= k < |s.out| && s.out[k].message == Died;
      assert s'.out[k] == s.out[k];
    }
  }

  lemma StepReported(t: Table, s: State, who: Thread, late: bool)
    requires t.n >= 2 && Inv(t, s) && Reported(s) && Step(t, s, who, late).Some?
    ensures Reported(Step(t, s, who, late).value)
  {
    hide DeathReported;
    var s' := Step(t, s, who, late).value;
    if s'.out == s.out {
      SameReport(s, s');
    } else {
      LineAdded(s, s', s'.out[|s.out|]);
    }
  }

  lemma SameReport(s: State, s': State)
    requires s'.out == s.out
    ensures DeathReported(s') <==> DeathReported(s)
  {
  }

  lemma {:induction false} RunReported(t: Table, s: State, schedule: seq<Choice>)
    requires t.n >= 2 && Inv(t, s) && Reported(s) && Run(t, s, schedule).Some?
    ensures Reported(Run(t, s, schedule).value)
    decreases |schedule|
  {
    hide Reported, Step;
    if schedule != [] {
      StepInv(t, s, schedule[0].who, schedule[0].late);
      StepReported(t, s, schedule[0].who, schedule[0].late);
      RunReported(t, Step(t, s, schedule[0].who, schedule[0].late).value, schedule[1..]);
    }
  }

  /** After a reported death another line appears exactly while the main thread waits for
      `deadmutex` to set the flag, from a philosopher that was already about to print. */
  lemma LineAfterDiedIff(t: Table, s: State, who: Thread, late: bool)
    requires t.n >= 2 && Reachable(t, s) && DeathReported(s) && Shaped(t, s) && Step(t, s, who, late).Some?
    ensures Step(t, s, who, late).value.out != s.out <==>
              && s.main == DeadLock
              && who.Philo? && s.pcs[who.i].Print? && s.pcs[who.i].pphase == P2
  {
    hide DeathReported;
    var schedule :| Run(t, Init(t), schedule) == Some(s);
    InitInv(t);
    NothingReported(t);
    RunReported(t, Init(t), schedule);
    ReachableInv(t, s);
    if who.Philo? && Reporting(s.main) && s.main != DeadLock {
      HoldersDisjoint(t, s, Main, who);
      assert DeadMutex in HeldBy(t, s, Main);
    }
  }

  lemma NothingReported(t: Table)
    ensures Reported(Init(t))
  {
  }

  lemma ReachableStep(t: Table, s: State, who: Thread, late: bool)
    requires Reachable(t, s) && Shaped(t, s) && Step(t, s, who, late).Some?
    ensures Reachable(t, Step(t, s, who, late).value)
  {
    var last := [Choice(who, late)];
    var s' := Step(t, s, who, late).value;
    assert last[1..] == [] && Run(t, s', []) == Some(s');
    StillReachable(t, s, last);
  }

  function Created(t: Table, k: nat): seq<Pc>
    requires k <= t.n
  {
    seq(t.n, i requires 0 <= i < t.n => if i < k then InitLock else NotStarted)
  }

  /** The main thread can create everybody before anyone else moves. */
  lemma {:induction false} CreatedReachable(t: Table, k: nat)
    requires t.n >= 2 && k < t.n
    ensures Reachable(t, Init(t).(pcs := Created(t, k), main := Create(k)))
  {
    var s := Init(t).(pcs := Created(t, k), main := Create(k));
    if k == 0 {
      assert s == Init(t);
      assert Run(t, Init(t), []) == Some(s);
    } else {
      CreatedReachable(t, k - 1);
      var before := Init(t).(pcs := Created(t, k - 1), main := Create(k - 1));
      ReachableStep(t, before, Main, false);
      assert Created(t, k - 1)[k - 1 := InitLock] == Created(t, k);
    }
  }

  /** The print of "died" and the setting of `dead` are two critical sections: for every number
      of philosophers there is a run in which the dead one is still reported thinking. */
  lemma LineAfterDied(t: Table)
    requires t.n >= 2
    ensures exists s :: Reachable(t, s) && s.out == [Line(1, Died), Line(1, IsThinking)]
  {
    hide Reachable;
    CreatedReachable(t, t.n - 1);
    var s := Init(t).(pcs := Created(t, t.n - 1), main := Create(t.n - 1));
    var all := s.pcs[t.n - 1 := InitLock];
    assert all[0] == InitLock;
    var s1 := s.(pcs := all, main := WarmUp);
    ReachableStep(t, s, Main, false);
    ReachableStep(t, s1, Main, false);
    ReachableStep(t, s1.(main := AgeLock(0)), Main, false);
    var s2 := s1.(main := AgeLook(0), owner := map[MealMutex := Main]);
    ReachableStep(t, s2, Main, true);
    assert s2.owner - {MealMutex} == map[];
    DiedPrinted(t, s1.(main := PrintDied(0, P0)));
  }

  lemma DiedPrinted(t: Table, s: State)
    requires t.n >= 2 && Reachable(t, s) && Shaped(t, s)
    requires s.main == PrintDied(0, P0) && s.owner == map[] && s.out == [] && !Flagged(s)
    requires s.pcs[0] == InitLock && s.meals[0] == 0
    ensures exists s' :: Reachable(t, s') && s'.out == [Line(1, Died), Line(1, IsThinking)]
  {
    hide Reachable;
    ReachableStep(t, s, Main, false);
    var s1 := s.(main := PrintDied(0, P1), owner := map[DeadMutex := Main]);
    ReachableStep(t, s1, Main, false);
    var s2 := s.(main := PrintDied(0, P2), owner := map[DeadMutex := Main, MealMutex := Main]);
    ReachableStep(t, s2, Main, false);
    assert s2.owner - {MealMutex} == map[DeadMutex := Main];
    assert s2.out + [Line(1, Died)] == [Line(1, Died)];
    var s3 := s.(main := PrintDied(0, P3), owner := map[DeadMutex := Main], out := [Line(1, Died)]);
    ReachableStep(t, s3, Main, false);
    assert s3.owner - {DeadMutex} == map[];
    ThinkingPrinted(t, s.(main := DeadLock, out := [Line(1, Died)]));
  }

  lemma ThinkingPrinted(t: Table, s: State)
    requires t.n >= 2 && Reachable(t, s) && Shaped(t, s)
    requires s.owner == map[] && s.out == [Line(1, Died)] && !Flagged(s)
    requires s.pcs[0] == InitLock && s.meals[0] == 0
    ensures exists s' :: Reachable(t, s') && s'.out == [Line(1, Died), Line(1, IsThinking)]
  {
    hide Reachable;
    ReachableStep(t, s, Philo(0), false);
    var s1 := s.(pcs := s.pcs[0 := InitSet], owner := map[MealMutex := Philo(0)]);
    ReachableStep(t, s1, Philo(0), false);
    assert s1.owner - {MealMutex} == map[] && s1.pcs[0 := LoopTop] == s.pcs[0 := LoopTop];
    var s2 := s.(pcs := s.pcs[0 := LoopTop]);
    ReachableStep(t, s2, Philo(0), false);
    assert s2.pcs[0 := Print(Thinking, P0)] == s.pcs[0 := Print(Thinking, P0)];
    var s3 := s.(pcs := s.pcs[0 := Print(Thinking, P0)]);
    ReachableStep(t, s3, Philo(0), false);
    assert s3.pcs[0 := Print(Thinking, P1)] == s.pcs[0 := Print(Thinking, P1)];
    var s4 := s.(pcs := s.pcs[0 := Print(Thinking, P1)], owner := map[DeadMutex := Philo(0)]);
    ReachableStep(t, s4, Philo(0), false);
    assert s4.pcs[0 := Print(Thinking, P2)] == s.pcs[0 := Print(Thinking, P2)];
    var s5 := s.(pcs := s.pcs[0 := Print(Thinking, P2)],
                 owner := map[DeadMutex := Philo(0), MealMutex := Philo(0)]);
    ReachableStep(t, s5, Philo(0), false);
    assert Step(t, s5, Philo(0), false).value.out == [Line(1, Died), Line(1, IsThinking)];
  }
}
