/** The functions of food.c, main.c and check.c in the structure they are written in, and the
    proof that the threads of the state machine perform their actions, no more and no fewer. */
module PhiloCode {
  import opened PhiloTable
  import opened PhiloSetup

  /** What a call of a function does, and whether it returns 1. */
  datatype Call = Call(acts: seq<Action>, one: bool)

  const PRINT_MESSAGE := [Acquire(DeadMutex), Acquire(MealMutex), Release(MealMutex), Release(DeadMutex)]

  const DEAD_OR_FULL := [Acquire(DeadMutex), Acquire(MealMutex), Release(DeadMutex), Release(MealMutex)]

  // ----------------------------------------------------------------- philosophers

  /** What the calls of `dead_or_full` in one round of a philosopher return. */
  datatype Answers = Answers(first: bool, second: bool, sleep: bool, loop: bool)

  /** `take_right_fork` and `take_left_fork`. */
  function TakeFork(fork: int, stops: bool): Call {
    if stops then Call(DEAD_OR_FULL, true)
    else Call(DEAD_OR_FULL + [Acquire(Fork(fork))] + PRINT_MESSAGE, false)
  }

  /** One fork and then the other, which is given back if the second is not taken. */
  function TakeBoth(first: int, second: int, a: Answers): Call {
    var one := TakeFork(first, a.first);
    if one.one then one
    else
      var two := TakeFork(second, a.second);
      if two.one then Call(one.acts + (two.acts + [Release(Fork(first))]), true)
      else Call(one.acts + two.acts, false)
  }

  function TakeForks(seat: Seat, meals: nat, a: Answers): Call {
    var think := if seat.id % 2 == 1 && meals == 0 then PRINT_MESSAGE + [Pause] else [];
    var both := if seat.id % 2 == 0 then TakeBoth(seat.rfork, seat.lfork, a)
                else TakeBoth(seat.lfork, seat.rfork, a);
    Call(think + both.acts, both.one)
  }

  function Eat(seat: Seat, meals: nat, a: Answers): Call {
    var forks := TakeForks(seat, meals, a);
    if forks.one then forks
    else
      var meal := [Acquire(MealMutex), Release(MealMutex), Pause, Release(Fork(seat.lfork)), Release(Fork(seat.rfork))];
      Call(forks.acts + (PRINT_MESSAGE + meal), false)
  }

  function PhiloSleep(a: Answers): Call {
    if a.sleep then Call(DEAD_OR_FULL, true)
    else Call(DEAD_OR_FULL + (PRINT_MESSAGE + [Pause]), false)
  }

  /** The body of the loop in `routine`; 1 stands for leaving it. */
  function Round(seat: Seat, meals: nat, a: Answers): Call {
    var eat := Eat(seat, meals, a);
    if eat.one then eat
    else
      var sleep := PhiloSleep(a);
      if sleep.one then Call(eat.acts + sleep.acts, true)
      else Call(eat.acts + (sleep.acts + DEAD_OR_FULL), a.loop)
  }

  function AnswerAt(a: Answers, pc: Pc): bool {
    match pc
    case Check(BeforeFirst, _) => a.first
    case Check(BeforeSecond, _) => a.second
    case Check(BeforeSleep, _) => a.sleep
    case Check(BeforeLoop, _) => a.loop
    case _ => false
  }

  function Next(i: int, pc: Pc, meals: nat, a: Answers): Pc {
    After(i, pc, meals, AnswerAt(a, pc))
  }

  /** From one program counter a philosopher performs exactly these actions to the other. */
  predicate Does(t: Table, i: int, pc: Pc, meals: nat, a: Answers, acts: seq<Action>, end: Pc)
    decreases |acts|
  {
    if acts == [] then pc == end
    else acts[0] == Act(t, i, pc) && Does(t, i, Next(i, pc, meals, a), meals, a, acts[1..], end)
  }

  lemma {:induction false} DoesThen(t: Table, i: int, pc: Pc, meals: nat, a: Answers,
                                    first: seq<Action>, mid: Pc, second: seq<Action>, end: Pc)
    requires Does(t, i, pc, meals, a, first, mid) && Does(t, i, mid, meals, a, second, end)
    ensures Does(t, i, pc, meals, a, first + second, end)
    decreases |first|
  {
    if first == [] {
      assert first + second == second;
    } else {
      assert (first + second)[1..] == first[1..] + second;
      DoesThen(t, i, Next(i, pc, meals, a), meals, a, first[1..], mid, second, end);
    }
  }

  lemma DoesOne(t: Table, i: int, pc: Pc, meals: nat, a: Answers)
    ensures Does(t, i, pc, meals, a, [Act(t, i, pc)], Next(i, pc, meals, a))
  {
    assert [Act(t, i, pc)][1..] == [];
  }

  lemma DoesFour(t: Table, i: int, pc: Pc, meals: nat, a: Answers, acts: seq<Action>)
    requires |acts| == 4 && acts[0] == Act(t, i, pc)
    requires var p1 := Next(i, pc, meals, a);
             var p2 := Next(i, p1, meals, a);
             var p3 := Next(i, p2, meals, a);
             acts[1] == Act(t, i, p1) && acts[2] == Act(t, i, p2) && acts[3] == Act(t, i, p3)
    ensures var p1 := Next(i, pc, meals, a);
            var p2 := Next(i, p1, meals, a);
            var p3 := Next(i, p2, meals, a);
            Does(t, i, pc, meals, a, acts, Next(i, p3, meals, a))
  {
    hide Act, After;
    var p1 := Next(i, pc, meals, a);
    var p2 := Next(i, p1, meals, a);
    var p3 := Next(i, p2, meals, a);
    assert acts[1..] == [acts[1], acts[2], acts[3]] && acts[1..][1..] == [acts[2], acts[3]];
    DoesOne(t, i, p3, meals, a);
    assert Does(t, i, p2, meals, a, [acts[2], acts[3]], Next(i, p3, meals, a)) by {
      assert [acts[2], acts[3]][1..] == [acts[3]];
    }
  }

  lemma DoesPrint(t: Table, i: int, site: PrintSite, meals: nat, a: Answers)
    ensures Does(t, i, Print(site, P0), meals, a, PRINT_MESSAGE, Next(i, Print(site, P3), meals, a))
  {
    DoesFour(t, i, Print(site, P0), meals, a, PRINT_MESSAGE);
  }

  lemma DoesCheck(t: Table, i: int, site: CheckSite, meals: nat, a: Answers)
    ensures Does(t, i, Check(site, C0), meals, a, DEAD_OR_FULL,
                 Next(i, Check(site, C3(AnswerAt(a, Check(site, C2)))), meals, a))
  {
    DoesFour(t, i, Check(site, C0), meals, a, DEAD_OR_FULL);
  }

  lemma DoesTake(t: Table, i: int, site: CheckSite, meals: nat, a: Answers)
    requires site == BeforeFirst || site == BeforeSecond
    ensures var fork := if site == BeforeFirst then First(t, i) else Second(t, i);
            var stops := if site == BeforeFirst then a.first else a.second;
            var end := if site == BeforeFirst then if stops then Done else Check(BeforeSecond, C0)
                       else if stops then DropFirst else Print(Eating, P0);
            Does(t, i, Check(site, C0), meals, a, TakeFork(fork, stops).acts, end)
  {
    hide Does;
    var fork := if site == BeforeFirst then First(t, i) else Second(t, i);
    var lock := if site == BeforeFirst then LockFirst else LockSecond;
    var took := if site == BeforeFirst then TookFirst else TookSecond;
    DoesCheck(t, i, site, meals, a);
    if !AnswerAt(a, Check(site, C2)) {
      DoesOne(t, i, lock, meals, a);
      DoesPrint(t, i, took, meals, a);
      DoesThen(t, i, Check(site, C0), meals, a, DEAD_OR_FULL, lock, [Acquire(Fork(fork))], Print(took, P0));
      DoesThen(t, i, Check(site, C0), meals, a, DEAD_OR_FULL + [Acquire(Fork(fork))], Print(took, P0),
               PRINT_MESSAGE, Next(i, Print(took, P3), meals, a));
    }
  }

  lemma DoesTakeBoth(t: Table, i: int, meals: nat, a: Answers)
    ensures var both := TakeBoth(First(t, i), Second(t, i), a);
            Does(t, i, Check(BeforeFirst, C0), meals, a, both.acts, if both.one then Done else Print(Eating, P0))
  {
    hide Does, TakeFork, First, Second;
    TakeForkStops(First(t, i), a.first);
    TakeForkStops(Second(t, i), a.second);
    DoesTake(t, i, BeforeFirst, meals, a);
    if !a.first {
      var one, two := TakeFork(First(t, i), a.first), TakeFork(Second(t, i), a.second);
      DoesTake(t, i, BeforeSecond, meals, a);
      if a.second {
        DoesOne(t, i, DropFirst, meals, a);
        DoesThen(t, i, Check(BeforeSecond, C0), meals, a, two.acts, DropFirst, [Release(Fork(First(t, i)))], Done);
        DoesThen(t, i, Check(BeforeFirst, C0), meals, a, one.acts, Check(BeforeSecond, C0),
                 two.acts + [Release(Fork(First(t, i)))], Done);
      } else {
        DoesThen(t, i, Check(BeforeFirst, C0), meals, a, one.acts, Check(BeforeSecond, C0),
                 two.acts, Print(Eating, P0));
      }
    }
  }

  lemma TakeForkStops(fork: int, stops: bool)
    ensures TakeFork(fork, stops).one == stops
  {
  }

  /** The loop head counts as an action of its own. */
  lemma DoesTakeForks(t: Table, seats: seq<Seat>, i: int, meals: nat, a: Answers)
    requires Wired(t, seats) && 0 <= i < t.n
    ensures var forks := TakeForks(seats[i], meals, a);
            Does(t, i, LoopTop, meals, a, [Pause] + forks.acts, if forks.one then Done else Print(Eating, P0))
  {
    hide Does, TakeBoth;
    OrderFromId(t, seats, i);
    var seat := seats[i];
    assert seat.id == i + 1;
    var both := TakeBoth(First(t, i), Second(t, i), a);
    var end := if both.one then Done else Print(Eating, P0);
    DoesTakeBoth(t, i, meals, a);
    DoesOne(t, i, LoopTop, meals, a);
    if seat.id % 2 == 1 && meals == 0 {
      DoesPrint(t, i, Thinking, meals, a);
      DoesOne(t, i, ThinkPause, meals, a);
      DoesThen(t, i, Print(Thinking, P0), meals, a, PRINT_MESSAGE, ThinkPause, [Pause], Check(BeforeFirst, C0));
      DoesThen(t, i, Print(Thinking, P0), meals, a, PRINT_MESSAGE + [Pause], Check(BeforeFirst, C0), both.acts, end);
      DoesThen(t, i, LoopTop, meals, a, [Pause], Print(Thinking, P0), PRINT_MESSAGE + [Pause] + both.acts, end);
    } else {
      assert [] + both.acts == both.acts;
      DoesThen(t, i, LoopTop, meals, a, [Pause], Check(BeforeFirst, C0), both.acts, end);
    }
  }

  lemma DoesMeal(t: Table, seats: seq<Seat>, i: int, meals: nat, a: Answers)
    requires Wired(t, seats) && 0 <= i < t.n
    ensures var seat := seats[i];
            Does(t, i, MealLock, meals, a,
                 [Acquire(MealMutex), Release(MealMutex), Pause, Release(Fork(seat.lfork)), Release(Fork(seat.rfork))],
                 Check(BeforeSleep, C0))
  {
    var seat := seats[i];
    var front := [Acquire(MealMutex), Release(MealMutex), Pause, Release(Fork(seat.lfork))];
    DoesFour(t, i, MealLock, meals, a, front);
    DoesOne(t, i, DropRight, meals, a);
    DoesThen(t, i, MealLock, meals, a, front, DropRight, [Release(Fork(seat.rfork))], Check(BeforeSleep, C0));
    assert front + [Release(Fork(seat.rfork))]
        == [Acquire(MealMutex), Release(MealMutex), Pause, Release(Fork(seat.lfork)), Release(Fork(seat.rfork))];
  }

  lemma DoesEat(t: Table, seats: seq<Seat>, i: int, meals: nat, a: Answers)
    requires Wired(t, seats) && 0 <= i < t.n
    ensures var eat := Eat(seats[i], meals, a);
            Does(t, i, LoopTop, meals, a, [Pause] + eat.acts, if eat.one then Done else Check(BeforeSleep, C0))
  {
    hide Does, TakeForks;
    var seat := seats[i];
    var forks := TakeForks(seat, meals, a);
    DoesTakeForks(t, seats, i, meals, a);
    if !forks.one {
      var meal := [Acquire(MealMutex), Release(MealMutex), Pause, Release(Fork(seat.lfork)), Release(Fork(seat.rfork))];
      DoesPrint(t, i, Eating, meals, a);
      DoesMeal(t, seats, i, meals, a);
      DoesThen(t, i, Print(Eating, P0), meals, a, PRINT_MESSAGE, MealLock, meal, Check(BeforeSleep, C0));
      DoesThen(t, i, LoopTop, meals, a, [Pause] + forks.acts, Print(Eating, P0), PRINT_MESSAGE + meal,
               Check(BeforeSleep, C0));
      assert [Pause] + forks.acts + (PRINT_MESSAGE + meal) == [Pause] + (forks.acts + (PRINT_MESSAGE + meal));
    }
  }

  lemma DoesSleep(t: Table, i: int, meals: nat, a: Answers)
    ensures var sleep := PhiloSleep(a);
            Does(t, i, Check(BeforeSleep, C0), meals, a, sleep.acts, if sleep.one then Done else Check(BeforeLoop, C0))
  {
    hide Does;
    DoesCheck(t, i, BeforeSleep, meals, a);
    if !a.sleep {
      DoesPrint(t, i, Sleeping, meals, a);
      DoesOne(t, i, SleepPause, meals, a);
      DoesThen(t, i, Print(Sleeping, P0), meals, a, PRINT_MESSAGE, SleepPause, [Pause], Check(BeforeLoop, C0));
      DoesThen(t, i, Check(BeforeSleep, C0), meals, a, DEAD_OR_FULL, Print(Sleeping, P0),
               PRINT_MESSAGE + [Pause], Check(BeforeLoop, C0));
    }
  }

  /** A turn of a philosopher's thread is the body of the loop in `routine`, whatever the flags. */
  lemma RoundIsCode(t: Table, seats: seq<Seat>, i: int, meals: nat, a: Answers)
    requires Wired(t, seats) && 0 <= i < t.n
    ensures var round := Round(seats[i], meals, a);
            Does(t, i, LoopTop, meals, a, [Pause] + round.acts, if round.one then Done else LoopTop)
  {
    hide Does, Eat, PhiloSleep;
    var eat, sleep := Eat(seats[i], meals, a), PhiloSleep(a);
    DoesEat(t, seats, i, meals, a);
    if !eat.one {
      DoesSleep(t, i, meals, a);
      if sleep.one {
        DoesThen(t, i, LoopTop, meals, a, [Pause] + eat.acts, Check(BeforeSleep, C0), sleep.acts, Done);
        assert [Pause] + eat.acts + sleep.acts == [Pause] + (eat.acts + sleep.acts);
      } else {
        var end := if a.loop then Done else LoopTop;
        DoesCheck(t, i, BeforeLoop, meals, a);
        DoesThen(t, i, Check(BeforeSleep, C0), meals, a, sleep.acts, Check(BeforeLoop, C0), DEAD_OR_FULL, end);
        DoesThen(t, i, LoopTop, meals, a, [Pause] + eat.acts, Check(BeforeSleep, C0), sleep.acts + DEAD_OR_FULL, end);
        assert [Pause] + eat.acts + (sleep.acts + DEAD_OR_FULL) == [Pause] + (eat.acts + (sleep.acts + DEAD_OR_FULL));
      }
    }
  }

  /** Before its loop a philosopher only sets its deadline. */
  lemma StartIsCode(t: Table, i: int, meals: nat, a: Answers)
    ensures Does(t, i, InitLock, meals, a, [Acquire(MealMutex), Release(MealMutex)], LoopTop)
  {
    DoesOne(t, i, InitLock, meals, a);
    DoesOne(t, i, InitSet, meals, a);
    DoesThen(t, i, InitLock, meals, a, [Acquire(MealMutex)], InitSet, [Release(MealMutex)], LoopTop);
    assert [Acquire(MealMutex)] + [Release(MealMutex)] == [Acquire(MealMutex), Release(MealMutex)];
  }

  // ------------------------------------------------------------------ main thread

  /** What one turn of the monitor sees: which deadlines have passed, and the meal counters. */
  datatype Sight = Sight(late: seq<bool>, meals: seq<nat>)

  predicate Sees(t: Table, o: Sight) {
    |o.late| == |o.meals| == t.n
  }

  /** `check_is_dead` from philosopher k on. */
  function CheckIsDead(t: Table, o: Sight, k: nat): Call
    requires Sees(t, o) && k <= t.n
    decreases t.n - k
  {
    if k == t.n then Call([], false)
    else
      var look := [Acquire(MealMutex), Release(MealMutex)];
      if o.late[k] then Call(look + (PRINT_MESSAGE + [Acquire(DeadMutex), Release(DeadMutex)]), true)
      else
        var rest := CheckIsDead(t, o, k + 1);
        Call(look + rest.acts, rest.one)
  }

  /** The loop of `check_is_full` from philosopher k on, and what follows it. */
  function CheckMeals(t: Table, o: Sight, k: nat): Call
    requires Sees(t, o) && k <= t.n
    decreases t.n - k
  {
    var look := [Acquire(MealMutex), Release(MealMutex)];
    if k == t.n then Call(look, true)
    else if o.meals[k] < t.rounds then Call(look, false)
    else
      var rest := CheckMeals(t, o, k + 1);
      Call(look + rest.acts, rest.one)
  }

  function CheckIsFull(t: Table, o: Sight): Call
    requires Sees(t, o)
  {
    var look := [Acquire(MealMutex), Release(MealMutex)];
    if t.rounds == -1 then Call(look, false)
    else
      var rest := CheckMeals(t, o, 0);
      Call(look + rest.acts, rest.one)
  }

  /** A turn of the loop in `monitor`; 1 stands for leaving it. */
  function Turn(t: Table, o: Sight): Call
    requires Sees(t, o)
  {
    var dead := CheckIsDead(t, o, 0);
    if dead.one then dead
    else
      var full := CheckIsFull(t, o);
      Call(dead.acts + full.acts, full.one)
  }

  function MainThen(t: Table, o: Sight, pc: MainPc): MainPc
    requires Sees(t, o)
  {
    MainNext(t, pc, pc.AgeLook? && pc.k < t.n && o.late[pc.k],
             if pc.MealsLook? && pc.k < t.n then o.meals[pc.k] else 0)
  }

  predicate MainDoes(t: Table, o: Sight, pc: MainPc, acts: seq<Action>, end: MainPc)
    requires Sees(t, o)
    decreases |acts|
  {
    if acts == [] then pc == end
    else acts[0] == MainDeed(pc) && MainDoes(t, o, MainThen(t, o, pc), acts[1..], end)
  }

  lemma {:induction false} MainDoesThen(t: Table, o: Sight, pc: MainPc, first: seq<Action>, mid: MainPc,
                                        second: seq<Action>, end: MainPc)
    requires Sees(t, o) && MainDoes(t, o, pc, first, mid) && MainDoes(t, o, mid, second, end)
    ensures MainDoes(t, o, pc, first + second, end)
    decreases |first|
  {
    if first == [] {
      assert first + second == second;
    } else {
      assert (first + second)[1..] == first[1..] + second;
      MainDoesThen(t, o, MainThen(t, o, pc), first[1..], mid, second, end);
    }
  }

  lemma MainDoesTwo(t: Table, o: Sight, pc: MainPc)
    requires Sees(t, o)
    ensures var mid := MainThen(t, o, pc);
            MainDoes(t, o, pc, [MainDeed(pc), MainDeed(mid)], MainThen(t, o, mid))
  {
    var mid := MainThen(t, o, pc);
    assert [MainDeed(pc), MainDeed(mid)][1..] == [MainDeed(mid)] && [MainDeed(mid)][1..] == [];
    assert MainDoes(t, o, mid, [MainDeed(mid)], MainThen(t, o, mid));
  }

  lemma MainDoesPrint(t: Table, o: Sight, k: nat)
    requires Sees(t, o)
    ensures MainDoes(t, o, PrintDied(k, P0), PRINT_MESSAGE + [Acquire(DeadMutex), Release(DeadMutex)], Join(0))
  {
    hide MainDoes;
    MainDoesTwo(t, o, PrintDied(k, P0));
    MainDoesTwo(t, o, PrintDied(k, P2));
    MainDoesTwo(t, o, DeadLock);
    var x, y := [Acquire(DeadMutex), Acquire(MealMutex)], [Release(MealMutex), Release(DeadMutex)];
    MainDoesThen(t, o, PrintDied(k, P0), x, PrintDied(k, P2), y, DeadLock);
    assert x + y == PRINT_MESSAGE;
    MainDoesThen(t, o, PrintDied(k, P0), PRINT_MESSAGE, DeadLock, [Acquire(DeadMutex), Release(DeadMutex)], Join(0));
  }

  lemma {:induction false} DoesCheckIsDead(t: Table, o: Sight, k: nat)
    requires Sees(t, o) && k < t.n
    ensures var dead := CheckIsDead(t, o, k);
            MainDoes(t, o, AgeLock(k), dead.acts, if dead.one then Join(0) else RoundsLock)
    decreases t.n - k
  {
    hide MainDoes;
    var look := [Acquire(MealMutex), Release(MealMutex)];
    MainDoesTwo(t, o, AgeLock(k));
    if o.late[k] {
      MainDoesPrint(t, o, k);
      MainDoesThen(t, o, AgeLock(k), look, PrintDied(k, P0),
                   PRINT_MESSAGE + [Acquire(DeadMutex), Release(DeadMutex)], Join(0));
    } else if k + 1 < t.n {
      var rest := CheckIsDead(t, o, k + 1);
      DoesCheckIsDead(t, o, k + 1);
      MainDoesThen(t, o, AgeLock(k), look, AgeLock(k + 1), rest.acts, if rest.one then Join(0) else RoundsLock);
    } else {
      assert look + CheckIsDead(t, o, k + 1).acts == look;
    }
  }

  lemma {:induction false} DoesCheckMeals(t: Table, o: Sight, k: nat)
    requires Sees(t, o) && k <= t.n
    ensures var full := CheckMeals(t, o, k);
            MainDoes(t, o, if k == t.n then FullLock else MealsLock(k), full.acts,
                     if full.one then Join(0) else AgeLock(0))
    decreases t.n - k
  {
    hide MainDoes;
    var look := [Acquire(MealMutex), Release(MealMutex)];
    if k == t.n {
      MainDoesTwo(t, o, FullLock);
    } else {
      MainDoesTwo(t, o, MealsLock(k));
      if o.meals[k] >= t.rounds {
        var rest := CheckMeals(t, o, k + 1);
        DoesCheckMeals(t, o, k + 1);
        MainDoesThen(t, o, MealsLock(k), look, if k + 1 == t.n then FullLock else MealsLock(k + 1), rest.acts,
                     if rest.one then Join(0) else AgeLock(0));
      }
    }
  }

  /** A turn of the monitor is the body of the loop in `monitor`, whatever it sees. */
  lemma TurnIsCode(t: Table, o: Sight)
    requires Sees(t, o) && t.n >= 1
    ensures var turn := Turn(t, o);
            MainDoes(t, o, AgeLock(0), turn.acts, if turn.one then Join(0) else AgeLock(0))
  {
    hide MainDoes, CheckIsDead, CheckMeals;
    var look := [Acquire(MealMutex), Release(MealMutex)];
    var dead, full := CheckIsDead(t, o, 0), CheckIsFull(t, o);
    DoesCheckIsDead(t, o, 0);
    if !dead.one {
      var end := if full.one then Join(0) else AgeLock(0);
      MainDoesTwo(t, o, RoundsLock);
      if t.rounds != -1 {
        DoesCheckMeals(t, o, 0);
        MainDoesThen(t, o, RoundsLock, look, MealsLock(0), CheckMeals(t, o, 0).acts, end);
      }
      MainDoesThen(t, o, AgeLock(0), dead.acts, RoundsLock, full.acts, end);
    }
  }

  function Pauses(n: nat): seq<Action> {
    if n == 0 then [] else [Pause] + Pauses(n - 1)
  }

  lemma {:induction false} Counting(t: Table, o: Sight, pc: MainPc, n: nat, end: MainPc)
    requires Sees(t, o) && t.n >= 1
    requires || (pc.Create? && pc.k < t.n && end == AgeLock(0) && n == t.n - pc.k + 1)
             || (pc == WarmUp && end == AgeLock(0) && n == 1)
             || (pc.Join? && pc.k < t.n && end == Exited && n == t.n - pc.k + t.n + 3)
             || (pc.Destroy? && pc.k < t.n + 3 && end == Exited && n == t.n + 3 - pc.k)
    ensures MainDoes(t, o, pc, Pauses(n), end)
    decreases n
  {
    assert Pauses(n)[1..] == Pauses(n - 1);
    if n > 1 {
      Counting(t, o, MainThen(t, o, pc), n - 1, end);
    }
  }

  /** The main thread creates n threads and waits before it monitors them; at the end it joins
      the n threads and destroys n forks and the three other mutexes. */
  lemma MainIsCode(t: Table, o: Sight)
    requires Sees(t, o) && t.n >= 1
    ensures MainDoes(t, o, Create(0), Pauses(t.n + 1), AgeLock(0))
    ensures MainDoes(t, o, Join(0), Pauses(t.n + (t.n + 3)), Exited)
  {
    Counting(t, o, Create(0), t.n + 1, AgeLock(0));
    Counting(t, o, Join(0), t.n + t.n + 3, Exited);
  }
}
