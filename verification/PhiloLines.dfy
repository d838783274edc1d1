/** What the philosophers print and count in every run, until a flag is set. */
module PhiloLines {
  import opened Basics
  import opened PhiloTable
  import opened PhiloInvariant

  // ------------------------------------------------------------------ one step

  /** The line that a thread prints at its program counter, if nothing is flagged. */
  function Spoken(s: State, who: Thread): seq<Line>
    requires |s.pcs| > 0
  {
    match who
    case Main => if s.main.PrintDied? && s.main.phase == P2 then [Line(s.main.k + 1, Died)] else []
    case Philo(i) =>
      if !(0 <= i < |s.pcs|) then []
      else
        match s.pcs[i]
        case Print(Thinking, P2) => [Line(i + 1, IsThinking)]
        case Print(TookFirst, P2) => [Line(i + 1, TookFork)]
        case Print(TookSecond, P2) => [Line(i + 1, TookFork)]
        case Print(Eating, P2) => [Line(i + 1, IsEating)]
        case Print(Sleeping, P2) => [Line(i + 1, IsSleeping)]
        case _ => []
  }

  /** Who prints what, and who counts a meal, in any step. */
  lemma StepSays(t: Table, s: State, who: Thread, late: bool)
    requires t.n >= 1 && Shaped(t, s) && Step(t, s, who, late).Some?
    ensures var s' := Step(t, s, who, late).value;
            && s'.out == (if Flagged(s) then s.out else s.out + Spoken(s, who))
            && s'.meals == (if who.Philo? && s.pcs[who.i] == MealSet
                            then s.meals[who.i := s.meals[who.i] + 1] else s.meals)
            && s'.dead == (s.dead || (who == Main && s.main == DeadSet))
            && s'.full == (s.full || (who == Main && s.main == FullSet))
  {
    assert s.out + [] == s.out;
  }

  // ----------------------------------------------------------- one philosopher's lines

  /** The messages of philosopher i among the lines, reports of a death aside. */
  function Said(out: seq<Line>, i: int): seq<Message> {
    if out == [] then []
    else
      var line := out[|out| - 1];
      Said(out[..|out| - 1], i) + if line.id == i + 1 && line.message != Died then [line.message] else []
  }

  lemma SaidMore(out: seq<Line>, line: Line, i: int)
    ensures Said(out + [line], i)
            == Said(out, i) + if line.id == i + 1 && line.message != Died then [line.message] else []
  {
    assert (out + [line])[..|out|] == out;
  }

  const ROUND := [TookFork, TookFork, IsEating, IsSleeping]

  function Rounds(m: nat): seq<Message> {
    if m == 0 then [] else Rounds(m - 1) + ROUND
  }

  /** How much of the present round has been printed, and whether its meal is counted already. */
  function Stage(pc: Pc): (nat, bool) {
    match pc
    case Print(TookFirst, P3) => (1, false)
    case Check(BeforeSecond, _) => (1, false)
    case LockSecond => (1, false)
    case DropFirst => (1, false)
    case Print(TookSecond, phase) => if phase == P3 then (2, false) else (1, false)
    case Print(Eating, phase) => if phase == P3 then (3, false) else (2, false)
    case MealLock => (3, false)
    case MealSet => (3, false)
    case EatPause => (3, true)
    case DropLeft => (3, true)
    case DropRight => (3, true)
    case Check(BeforeSleep, _) => (3, true)
    case Print(Sleeping, phase) => if phase == P3 then (4, true) else (3, true)
    case SleepPause => (4, true)
    case Check(BeforeLoop, _) => (4, true)
    case _ => (0, false)
  }

  /** Whether the philosopher has announced that it thinks: those with odd ids do so once. */
  predicate Thought(i: int, pc: Pc, meals: nat) {
    && i % 2 == 0
    && (meals > 0 || !(pc == NotStarted || pc == InitLock || pc == InitSet || pc == LoopTop
                       || (pc.Print? && pc.psite == Thinking && pc.pphase != P3)))
  }

  /** The beginning of a round. */
  function Part(k: nat): seq<Message> {
    if k == 0 then []
    else if k == 1 then [TookFork]
    else if k == 2 then [TookFork, TookFork]
    else if k == 3 then [TookFork, TookFork, IsEating]
    else ROUND
  }

  /** All that a philosopher has printed when it has had so many meals and is here. */
  function Script(i: int, pc: Pc, meals: nat): seq<Message> {
    var (k, counted) := Stage(pc);
    (if Thought(i, pc, meals) then [IsThinking] else [])
    + (Rounds(if counted && meals > 0 then meals - 1 else meals) + Part(k))
  }

  /** A philosopher that has eaten is not before its loop, and one that rests has eaten. */
  predicate Timely(i: int, pc: Pc, meals: nat) {
    && (Stage(pc).1 ==> meals > 0)
    && (meals > 0 ==> pc != NotStarted && pc != InitLock && pc != InitSet && pc != ThinkPause
                      && !(pc.Print? && pc.psite == Thinking))
    && (pc.Print? && pc.psite == Thinking ==> i % 2 == 0)
    && (pc == ThinkPause ==> i % 2 == 0)
  }

  /** A program counter that an unflagged philosopher moves on from. */
  predicate Moving(pc: Pc) {
    pc != NotStarted && pc != Done && pc != DropFirst && !(pc.Check? && pc.cphase == C3(true))
  }

  lemma TimelyNext(i: int, pc: Pc, meals: nat)
    requires i >= 0 && Timely(i, pc, meals) && Moving(pc)
    ensures Timely(i, After(i, pc, meals, false), if pc == MealSet then meals + 1 else meals)
  {
  }

  lemma ThoughtNext(i: int, pc: Pc, meals: nat)
    requires i >= 0 && Timely(i, pc, meals) && Moving(pc)
    ensures var meals' := if pc == MealSet then meals + 1 else meals;
            Thought(i, After(i, pc, meals, false), meals')
            <==> Thought(i, pc, meals) || pc == Print(Thinking, P2)
    ensures pc == Print(Thinking, P2) ==> !Thought(i, pc, meals) && meals == 0
  {
  }

  /** The number of whole rounds printed and the part of the next one. */
  function Whole(pc: Pc, meals: nat): nat {
    if Stage(pc).1 && meals > 0 then meals - 1 else meals
  }

  /** What a philosopher prints beside its thinking. */
  predicate Speaks(pc: Pc) {
    pc.Print? && pc.pphase == P2 && pc.psite != Thinking
  }

  lemma StageNext(i: int, pc: Pc, meals: nat)
    requires i >= 0 && Timely(i, pc, meals) && Moving(pc)
    ensures var meals' := if pc == MealSet then meals + 1 else meals;
            var pc' := After(i, pc, meals, false);
            if Stage(pc).0 == 4 && pc' == LoopTop
            then Stage(pc').0 == 0 && meals > 0 && Whole(pc', meals') == Whole(pc, meals) + 1
            else Whole(pc', meals') == Whole(pc, meals)
                 && Stage(pc').0 == Stage(pc).0 + if Speaks(pc) then 1 else 0
  {
  }

  /** What is printed at a program counter. */
  function Message(pc: Pc): seq<Message> {
    match pc
    case Print(Thinking, P2) => [IsThinking]
    case Print(TookFirst, P2) => [TookFork]
    case Print(TookSecond, P2) => [TookFork]
    case Print(Eating, P2) => [IsEating]
    case Print(Sleeping, P2) => [IsSleeping]
    case _ => []
  }

  lemma PartNext(pc: Pc)
    requires Speaks(pc)
    ensures Part(Stage(pc).0 + 1) == Part(Stage(pc).0) + Message(pc)
  {
  }

  /** An own step of a philosopher takes the script on, by the line it prints if it prints. */
  lemma ScriptNext(i: int, pc: Pc, meals: nat)
    requires i >= 0 && Timely(i, pc, meals) && Moving(pc)
    ensures var meals' := if pc == MealSet then meals + 1 else meals;
            Script(i, After(i, pc, meals, false), meals') == Script(i, pc, meals) + Message(pc)
  {
    hide Timely, Thought, After, Stage;
    var meals' := if pc == MealSet then meals + 1 else meals;
    var pc' := After(i, pc, meals, false);
    ThoughtNext(i, pc, meals);
    StageNext(i, pc, meals);
    var think := if Thought(i, pc, meals) then [IsThinking] else [];
    var rounds, part := Rounds(Whole(pc, meals)), Part(Stage(pc).0);
    if Speaks(pc) {
      PartNext(pc);
      assert think + (rounds + (part + Message(pc))) == think + (rounds + part) + Message(pc);
    } else if pc == Print(Thinking, P2) {
      NothingYet();
      assert [] + (rounds + part) + [IsThinking] == [IsThinking] + (rounds + part);
    } else if Stage(pc).0 == 4 && pc' == LoopTop {
      assert Rounds(Whole(pc, meals) + 1) + [] == Rounds(Whole(pc, meals)) + ROUND;
    }
  }

  lemma NothingYet()
    ensures Rounds(0) == [] && Part(Stage(Print(Thinking, P2)).0) == []
  {
  }

  ghost predicate Scripted(t: Table, s: State, i: int)
    requires Shaped(t, s) && 0 <= i < t.n
  {
    Timely(i, s.pcs[i], s.meals[i]) && Said(s.out, i) == Script(i, s.pcs[i], s.meals[i])
  }

  lemma StepScripted(t: Table, s: State, who: Thread, late: bool, i: int)
    requires t.n >= 2 && Inv(t, s) && Step(t, s, who, late).Some? && 0 <= i < t.n && Scripted(t, s, i)
    requires !Flagged(s) && !Flagged(Step(t, s, who, late).value)
    ensures Scripted(t, Step(t, s, who, late).value, i)
  {
    hide Step, Script, Said, Timely, After, Owned;
    StepSays(t, s, who, late);
    var spoken := Spoken(s, who);
    if |spoken| == 1 {
      SaidMore(s.out, spoken[0], i);
      assert [spoken[0]] == spoken;
    } else {
      assert s.out + [] == s.out;
    }
    match who
    case Main =>
      MainStep(t, s, late);
      CreatedSame(i, s.meals[i]);
    case Philo(j) =>
      PhiloStep(t, s, j, late);
      if j == i {
        ScriptNext(i, s.pcs[i], s.meals[i]);
        TimelyNext(i, s.pcs[i], s.meals[i]);
      }
  }

  lemma CreatedSame(i: int, meals: nat)
    ensures Script(i, NotStarted, meals) == Script(i, InitLock, meals)
    ensures Timely(i, NotStarted, meals) <==> Timely(i, InitLock, meals)
  {
  }

  lemma {:induction false} RunScripted(t: Table, s: State, schedule: seq<Choice>, i: int)
    requires t.n >= 2 && Inv(t, s) && 0 <= i < t.n && Scripted(t, s, i) && Run(t, s, schedule).Some?
    requires !Flagged(Run(t, s, schedule).value)
    ensures Scripted(t, Run(t, s, schedule).value, i)
    decreases |schedule|
  {
    hide Scripted;
    if schedule != [] {
      var s' := Step(t, s, schedule[0].who, schedule[0].late).value;
      StepInv(t, s, schedule[0].who, schedule[0].late);
      if Flagged(s') {
        FlagStays(t, s', schedule[1..]);
      }
      StepSays(t, s, schedule[0].who, schedule[0].late);
      StepScripted(t, s, schedule[0].who, schedule[0].late, i);
      RunScripted(t, s', schedule[1..], i);
    }
  }

  lemma {:induction false} FlagStays(t: Table, s: State, schedule: seq<Choice>)
    requires t.n >= 1 && Shaped(t, s) && Flagged(s) && Run(t, s, schedule).Some?
    ensures Flagged(Run(t, s, schedule).value)
    decreases |schedule|
  {
    hide Step;
    if schedule != [] {
      StepSays(t, s, schedule[0].who, schedule[0].late);
      FlagStays(t, Step(t, s, schedule[0].who, schedule[0].late).value, schedule[1..]);
    }
  }

  lemma ReachableScripted(t: Table, s: State, i: int)
    requires t.n >= 2 && Reachable(t, s) && 0 <= i < t.n && !Flagged(s)
    ensures Shaped(t, s) && Scripted(t, s, i)
  {
    hide Run;
    var schedule :| Run(t, Init(t), schedule) == Some(s);
    InitInv(t);
    assert Scripted(t, Init(t), i);
    RunScripted(t, Init(t), schedule, i);
  }

  /** Until a flag is set, a philosopher has printed exactly its script: thinking first if its id
      is odd, then one round of two forks, eating and sleeping for every meal. */
  lemma LifeOfPhilo(t: Table, s: State, i: int)
    requires t.n >= 2 && Reachable(t, s) && 0 <= i < t.n && !Flagged(s)
    ensures Shaped(t, s) && Said(s.out, i) == Script(i, s.pcs[i], s.meals[i])
  {
    ReachableScripted(t, s, i);
  }

  // ---------------------------------------------------------------------- meals

  function Count(messages: seq<Message>, m: Message): nat {
    if messages == [] then 0
    else Count(messages[..|messages| - 1], m) + if messages[|messages| - 1] == m then 1 else 0
  }

  lemma {:induction false} CountConcat(x: seq<Message>, y: seq<Message>, m: Message)
    ensures Count(x + y, m) == Count(x, m) + Count(y, m)
    decreases |y|
  {
    if y == [] {
      assert x + y == x;
    } else {
      var front := y[..|y| - 1];
      assert (x + y)[..|x + y| - 1] == x + front;
      CountConcat(x, front, m);
    }
  }

  lemma {:induction false} RoundsEat(m: nat)
    ensures Count(Rounds(m), IsEating) == m
  {
    if m > 0 {
      RoundsEat(m - 1);
      CountConcat(Rounds(m - 1), ROUND, IsEating);
      PartsEat();
    }
  }

  lemma PartsEat()
    ensures Count([IsThinking], IsEating) == 0
    ensures forall k: nat :: Count(Part(k), IsEating) == if k >= 3 then 1 else 0
    ensures Count(ROUND, IsEating) == 1
  {
    var a, b, c, d := [TookFork], [TookFork, TookFork], [TookFork, TookFork, IsEating], ROUND;
    assert a[..0] == [] && b[..1] == a && c[..2] == b && d[..3] == c && [IsThinking][..0] == [];
  }

  lemma ScriptEats(i: int, pc: Pc, meals: nat)
    requires Timely(i, pc, meals)
    ensures Count(Script(i, pc, meals), IsEating)
            == meals + if pc == Print(Eating, P3) || pc == MealLock || pc == MealSet then 1 else 0
  {
    hide Count, Rounds, Part;
    var think := if Thought(i, pc, meals) then [IsThinking] else [];
    var rounds, part := Rounds(Whole(pc, meals)), Part(Stage(pc).0);
    CountConcat(think, rounds + part, IsEating);
    CountConcat(rounds, part, IsEating);
    RoundsEat(Whole(pc, meals));
    PartsEat();
    NoneCounted();
  }

  lemma NoneCounted()
    ensures Count([], IsEating) == 0
  {
  }

  /** Every meal is announced once and counted once: the counter lags behind the announcements
      only between the two. */
  lemma MealsCounted(t: Table, s: State, i: int)
    requires t.n >= 2 && Reachable(t, s) && 0 <= i < t.n && !Flagged(s)
    ensures Shaped(t, s)
    ensures var pc := s.pcs[i];
            Count(Said(s.out, i), IsEating)
            == s.meals[i] + if pc == Print(Eating, P3) || pc == MealLock || pc == MealSet then 1 else 0
  {
    hide Script, Timely, Count;
    ReachableScripted(t, s, i);
    ScriptEats(i, s.pcs[i], s.meals[i]);
  }
}
