/** The whole of push_swap after its arguments are read. */
module PushSwap {
  import opened Basics
  import opened Instructions
  import opened Ranks
  import opened CyclicOrder
  import opened LinkedStack
  import opened Costs
  import opened PushSwapRun
  import opened PushSwapSort

  /** Putting a node of b at its target keeps a's indices a rotation of an ascending list. */
  lemma InsertKeepsCycle(start: seq<Node>, a: seq<Node>, n: Node, t: int)
    requires Ranked(Numbers(start), start) && NoDup(Numbers(start))
    requires n in start && n !in a && forall m | m in a :: m in start
    requires CyclicAscending(Indices(a)) && IsTarget(Indices(a), n.index, t)
    ensures CyclicAscending(Indices([n] + RotL(a, t)))
  {
    hide Ranked, Numbers, NoDup, CyclicAscending, Rank;
    forall i | 0 <= i < |a| ensures Indices(a)[i] != n.index {
      assert a[i] in a;
      DistinctIndices(start, n, a[i]);
    }
    InsertionPoint(Indices(a), n.index, t);
    IndicesCons(n, RotL(a, t));
    IndicesRotL(a, t);
  }

  lemma IndicesCons(n: Node, nodes: seq<Node>)
    ensures Indices([n] + nodes) == [n.index] + Indices(nodes)
  {
  }

  lemma IndicesRotL(nodes: seq<Node>, k: nat)
    requires k <= |nodes|
    ensures Indices(RotL(nodes, k)) == RotL(Indices(nodes), k)
  {
  }

  // ---------------------------------------------------------------------- bounds

  /** Instructions before the insertions: first loop, second loop and `sort_three`. */
  function SetupBound(n: int): int {
    if n > 6 then 2 * n - 1 - n / 2 else n - 1
  }

  /** Instructions of the insertions that take a from 3 to n nodes. */
  function InsertBound(n: int): (bound: int)
    ensures bound >= 0
  {
    if n <= 3 then 0 else InsertBound(n - 1) + (n - 1) / 2 + 1
  }

  lemma {:induction false} InsertBoundCoarse(n: int, top: int)
    requires 3 <= n <= top
    ensures InsertBound(n) <= (n - 3) * (top / 2 + 1)
  {
    if n > 3 {
      InsertBoundCoarse(n - 1, top);
      assert (n - 1 - 3) * (top / 2 + 1) + (top / 2 + 1) == (n - 3) * (top / 2 + 1);
    }
  }

  // ------------------------------------------------------------------- first loop

  lemma TopOfA(run: Run)
    requires run.Valid() && run.a.nodes != []
    ensures run.a.head == run.a.nodes[0]
  {
  }

  lemma HalfStep(start: seq<Node>, v: seq<int>, i: nat, kept: seq<Node>, h: int)
    requires i < |start| == |v|
    ensures (start[i..] + kept)[0] == start[i]
    ensures (start[i..] + kept)[1..] == start[i + 1..] + kept
    ensures |start[i..] + kept| >= 2 ==> Rotated(start[i..] + kept) == start[i + 1..] + (kept + [start[i]])
    ensures CountUpTo(v[..i + 1], h) == CountUpTo(v[..i], h) + if v[i] <= h then 1 else 0
  {
    assert v[..i + 1] == v[..i] + [v[i]];
    CountUpToConcat(v[..i], [v[i]], h);
  }

  /** Once the first loop stops, nothing small is left unexamined. */
  lemma HalfDone(v: seq<int>, i: nat, lenB: int, h: nat)
    requires i <= |v| && CountUpTo(v, h) == h && lenB == CountUpTo(v[..i], h) <= h
    requires i == |v| || lenB == h
    ensures lenB == h && forall j | i <= j < |v| :: v[j] > h
  {
    assert v == v[..i] + v[i..];
    CountUpToConcat(v[..i], v[i..], h);
    CountUpToExtremes(v[i..], h);
    assert forall j | i <= j < |v| :: v[j] == v[i..][j - i];
  }

  /** For n > 6 the first loop of `sort_more` moves exactly the ranks 1..n/2 to b. */
  method PushSmallerHalf(run: Run, len: int) returns (lenB: int)
    requires run.Valid() && run.b.nodes == [] && run.a.nodes == run.start
    requires len == |run.start| && NoDup(Numbers(run.start)) && Ranked(Numbers(run.start), run.start)
    modifies run.a, run.b, run.out, run.all`next
    ensures run.Valid() && |run.b.nodes| == lenB && |run.a.nodes| == len - lenB
    ensures lenB == if len > 6 then len / 2 else 0
    ensures len > 6 ==> forall i | 0 <= i < |run.b.nodes| :: run.b.nodes[i].index <= len / 2
    ensures len > 6 ==> forall i | 0 <= i < |run.a.nodes| :: run.a.nodes[i].index > len / 2
    ensures |run.out.log| <= old(|run.out.log|) + if len > 6 then len else 0
  {
    hide Run.Valid, Rotated, Indices, CountUpTo, Rank, Ranked, NoDup, Numbers;
    ghost var start, h := run.start, len / 2;
    ghost var v, kept := Indices(run.start), [];
    IndicesAreRanks(start, start);
    RanksUpTo(Numbers(start), h);
    var i := 0;
    lenB := 0;
    assert start[0..] + kept == start;
    while len > 6 && i < len && lenB < len / 2
      invariant run.Valid() && 0 <= i <= len && 0 <= lenB <= h
      invariant i == 0 || len > 6
      invariant run.a.nodes == start[i..] + kept && |run.b.nodes| == lenB
      invariant |kept| == i - lenB
      invariant lenB == CountUpTo(v[..i], h)
      invariant forall j | 0 <= j < |run.b.nodes| :: run.b.nodes[j].index <= h
      invariant forall j | 0 <= j < |kept| :: kept[j].index > h
      invariant |run.out.log| == old(|run.out.log|) + i
      decreases len - i
    {
      TopOfA(run);
      HalfStep(start, v, i, kept, h);
      if run.a.head.index <= len / 2 && lenB < len / 2 && lenB < len {
        lenB := lenB + 1;
        run.Pb();
      } else {
        run.Ra();
        kept := kept + [start[i]];
      }
      i := i + 1;
    }
    if len > 6 {
      HalfDone(v, i, lenB, h);
    }
    assert forall j | i <= j < len :: start[i..][j - i] == start[j];
  }

  // --------------------------------------------------------------------- sort_more

  /** The insertion loop of `sort_more`. */
  method InsertAll(run: Run, len: int, lenB0: int)
    requires run.Valid() && Ranked(Numbers(run.start), run.start) && NoDup(Numbers(run.start))
    requires len == |run.start| < INT_MAX
    requires |run.a.nodes| == len - lenB0 >= 3 && |run.b.nodes| == lenB0
    requires CyclicAscending(Indices(run.a.nodes))
    modifies run.a, run.b, run.out, run.all`next, run.all`pos, run.all`targetPos, run.all`costA, run.all`costB
    ensures run.Valid() && run.b.nodes == [] && |run.a.nodes| == len
    ensures CyclicAscending(Indices(run.a.nodes))
    ensures |run.out.log| <= old(|run.out.log|) + InsertBound(len) - InsertBound(len - lenB0)
  {
    hide Run.Valid, CyclicAscending, Ranked, Numbers, Indices;
    var lenB := lenB0;
    EmptyB(run);
    while run.b.head != null
      invariant run.Valid() && 0 <= lenB <= lenB0 && (run.b.head == null <==> run.b.nodes == [])
      invariant |run.a.nodes| == len - lenB && |run.b.nodes| == lenB
      invariant CyclicAscending(Indices(run.a.nodes))
      invariant |run.out.log| <= old(|run.out.log|) + InsertBound(len - lenB) - InsertBound(len - lenB0)
      decreases lenB
    {
      lenB := InsertRound(run, len, lenB);
      EmptyB(run);
    }
  }

  lemma EmptyB(run: Run)
    requires run.Valid()
    ensures run.b.head == null <==> run.b.nodes == []
  {
  }

  /** The top of b needs no rotation of b, so the cheapest node costs at most half of a. */
  lemma CheapAtTheTop(sizeA: int, targets: seq<int>, sizeB: int, k: int)
    requires sizeA > 0 && sizeB > 0 && |targets| == sizeB && 0 <= k < sizeB
    requires forall i | 0 <= i < sizeB :: 0 <= targets[i] < sizeA
    requires forall i | 0 <= i < sizeB ::
               InsertionCost(sizeA, targets[k], sizeB, k) <= InsertionCost(sizeA, targets[i], sizeB, i)
    ensures InsertionCost(sizeA, targets[k], sizeB, k) <= sizeA / 2
  {
    assert InsertionCost(sizeA, targets[0], sizeB, 0) <= sizeA / 2;
  }

  /** One turn of the insertion loop keeps a's indices a rotation of an ascending list. */
  method InsertRound(run: Run, len: int, lenB0: int) returns (lenB: int)
    requires run.Valid() && Ranked(Numbers(run.start), run.start) && NoDup(Numbers(run.start))
    requires len == |run.start| < INT_MAX
    requires |run.a.nodes| == len - lenB0 >= 3 && |run.b.nodes| == lenB0 >= 1
    requires CyclicAscending(Indices(run.a.nodes))
    modifies run.a, run.b, run.out, run.all`next, run.all`pos, run.all`targetPos, run.all`costA, run.all`costB
    ensures run.Valid() && lenB == lenB0 - 1
    ensures |run.a.nodes| == len - lenB && |run.b.nodes| == lenB
    ensures CyclicAscending(Indices(run.a.nodes))
    ensures |run.out.log| <= old(|run.out.log|) + (len - lenB0) / 2 + 1
  {
    hide CyclicAscending, IsTarget, Linked, Indices;
    ghost var A, B := run.a.nodes, run.b.nodes;
    var one: int;
    ghost var k, targets;
    one, k, targets := Insert(run, len, lenB0);
    InsertKeepsCycle(run.start, A, B[k], targets[k]);
    CheapAtTheTop(len - lenB0, targets, lenB0, k);
    lenB := lenB0 - one;
  }

  /** Both halves of `sort_more` before the insertions: three nodes stay in a, ascending. */
  method Prepare(run: Run, len: int) returns (lenB: int)
    requires run.Valid() && run.b.nodes == [] && run.a.nodes == run.start
    requires len == |run.start| > 3
    requires NoDup(Numbers(run.start)) && Ranked(Numbers(run.start), run.start)
    modifies run.a, run.b, run.out, run.all`next
    ensures run.Valid() && lenB == len - 3
    ensures |run.a.nodes| == 3 && |run.b.nodes| == lenB
    ensures Ascending(Indices(run.a.nodes))
    ensures |run.out.log| <= old(|run.out.log|) + SetupBound(len)
  {
    hide Run.Valid, Indices, Ranked, Numbers;
    lenB := PushSmallerHalf(run, len);
    while lenB < len - 3
      invariant run.Valid() && |run.b.nodes| == lenB <= len - 3 && |run.a.nodes| == len - lenB
      invariant |run.out.log| - lenB <= old(|run.out.log|) + if len > 6 then len - len / 2 else 0
    {
      lenB := lenB + 1;
      run.Pb();
    }
    NodesOfRun(run);
    OwnRanks(run.start, run.a.nodes);
    var sorted := IsSorted(run.a);
    if !sorted {
      ThreeSortedIff(Indices(run.a.nodes));
      SortThree(run);
    }
  }

  lemma OwnDistinct(start: seq<Node>, nodes: seq<Node>)
    requires Ranked(Numbers(start), start) && NoDup(Numbers(start))
    requires NoDup(nodes) && forall n | n in nodes :: n in start
    ensures NoDup(Indices(nodes))
  {
    hide Ranked, Rank;
    forall i, j | 0 <= i < j < |nodes| ensures Indices(nodes)[i] != Indices(nodes)[j] {
      assert nodes[i] in nodes && nodes[j] in nodes;
      DistinctIndices(start, nodes[i], nodes[j]);
    }
  }

  /** Distinct nodes of the start have distinct indices, ordered as their numbers are. */
  lemma OwnRanks(start: seq<Node>, nodes: seq<Node>)
    requires Ranked(Numbers(start), start) && NoDup(Numbers(start))
    requires NoDup(nodes) && forall n | n in nodes :: n in start
    ensures NoDup(Indices(nodes))
    ensures Ascending(Indices(nodes)) <==> NonDescending(Numbers(nodes))
    ensures forall i | 0 <= i < |nodes| :: nodes[i].index <= |start|
  {
    hide Ranked, Rank;
    OwnDistinct(start, nodes);
    IndicesAreRanks(start, nodes);
    forall x | x in Numbers(nodes) ensures x in Numbers(start) {
      var i :| 0 <= i < |nodes| && Numbers(nodes)[i] == x;
      assert nodes[i] in nodes;
      var j :| 0 <= j < |start| && start[j] == nodes[i];
      assert Numbers(start)[j] == x;
    }
    AscendingRanks(Numbers(start), Numbers(nodes));
    RanksDistinguish(Numbers(start), Numbers(nodes));
    DistinctAscending(Numbers(nodes));
    forall i | 0 <= i < |nodes| ensures nodes[i].index <= |start| {
      assert nodes[i] in nodes;
    }
  }

  lemma NodesOfRun(run: Run)
    requires run.Valid()
    ensures run.a.Valid() && NoDup(run.a.nodes) && forall n | n in run.a.nodes :: n in run.start
  {
  }

  method SortMore(run: Run, len: int)
    requires run.Valid() && run.b.nodes == [] && run.a.nodes == run.start
    requires 3 < len == |run.start| < INT_MAX
    requires NoDup(Numbers(run.start)) && Ranked(Numbers(run.start), run.start)
    modifies run.a, run.b, run.out, run.all`next, run.all`pos, run.all`targetPos, run.all`costA, run.all`costB
    ensures run.Valid() && run.b.nodes == [] && |run.a.nodes| == len
    ensures CyclicAscending(Indices(run.a.nodes))
    ensures |run.out.log| <= old(|run.out.log|) + SetupBound(len) + InsertBound(len)
  {
    var lenB := Prepare(run, len);
    assert AscendingFrom(Indices(run.a.nodes), 0);
    InsertAll(run, len, lenB);
  }

  // ------------------------------------------------------------------ adjust_stack

  lemma IndicesRotate(nodes: seq<Node>, low: int)
    requires CyclicAscending(Indices(nodes)) && IsLeast(Indices(nodes), low)
    ensures 0 <= low < |nodes| && Ascending(Indices(RotL(nodes, low)))
  {
    hide CyclicAscending, Ascending, RotL;
    LeastToTop(Indices(nodes), low);
    IndicesRotL(nodes, low);
  }

  method AdjustStack(run: Run, len: int)
    requires run.Valid() && len == |run.a.nodes| > 0
    requires forall i | 0 <= i < |run.a.nodes| :: run.a.nodes[i].index < INT_MAX
    requires CyclicAscending(Indices(run.a.nodes))
    modifies run.a, run.out, run.all`next, run.all`pos
    ensures run.Valid() && run.b.nodes == old(run.b.nodes) && |run.a.nodes| == len
    ensures Ascending(Indices(run.a.nodes))
    ensures |run.out.log| <= old(|run.out.log|) + len / 2
  {
    hide Run.Valid, SignedRot, Linked, Replay, Indices, Rotated, ReverseRotated, CyclicAscending, Ascending, IsLeast;
    Unpack(run);
    ghost var A := run.a.nodes;
    CurrentPos(run.a);
    var low := LowestPos(run.a);
    IndicesRotate(A, low);
    CostIsShortest(A, low);
    ghost var cost := SignedCost(low, len);
    if low > len / 2 {
      while low < len
        invariant run.Valid() && low <= len && run.b.nodes == old(run.b.nodes)
        invariant |run.a.nodes| == len && SignedRot(run.a.nodes, low - len) == SignedRot(A, cost)
        invariant |run.out.log| == old(|run.out.log|) + (low - len) - cost
      {
        SignedRotBackward(run.a.nodes, low - len);
        low := low + 1;
        run.Rra();
      }
    } else {
      while low > 0
        invariant run.Valid() && 0 <= low && run.b.nodes == old(run.b.nodes)
        invariant |run.a.nodes| == len && SignedRot(run.a.nodes, low) == SignedRot(A, cost)
        invariant |run.out.log| == old(|run.out.log|) + cost - low
      {
        SignedRotForward(run.a.nodes, low);
        low := low - 1;
        run.Ra();
      }
    }
    SignedRotZero(run.a.nodes);
  }

  // -------------------------------------------------------------------------- main

  /** The most instructions n numbers can take. */
  function InstructionBound(n: int): int {
    if n <= 1 then 0
    else if n == 2 then 1
    else if n == 3 then 2
    else SetupBound(n) + InsertBound(n) + n / 2
  }

  lemma InstructionBoundCoarse(n: int)
    requires n >= 4
    ensures InstructionBound(n) <= 2 * n - 1 + (n - 3) * (n / 2 + 1) + n / 2
  {
    InsertBoundCoarse(n, n);
  }

  /** What a finished run owes to its input, in terms of numbers only. */
  ghost predicate Sorts(input: seq<int>, log: seq<Instr>, output: seq<int>) {
    && Ascending(output) && multiset(output) == multiset(input)
    && Replay(log, Stacks(input, [])) == Stacks(output, [])
    && |log| <= InstructionBound(|input|)
    && (NonDescending(input) ==> log == [])
  }

  /** The nodes' replay is the numbers' replay. */
  lemma NumbersReplay(run: Run)
    requires run.Valid()
    ensures Replay(run.out.log, Stacks(Numbers(run.start), [])) == Stacks(Numbers(run.a.nodes), Numbers(run.b.nodes))
  {
    var f := (n: Node) => n.number;
    ReplayNatural(f, run.out.log, Stacks(run.start, []));
    assert MappedStacks(f, Stacks(run.start, [])) == Stacks(Numbers(run.start), []);
    assert MappedStacks(f, Stacks(run.a.nodes, run.b.nodes)) == Stacks(Numbers(run.a.nodes), Numbers(run.b.nodes));
  }

  /** Whatever a list of instructions leaves in a, with b empty before and after, is a
      permutation of what was there. */
  lemma ReplayPermutes<T>(log: seq<Instr>, input: seq<T>, output: seq<T>)
    requires Replay(log, Stacks(input, [])) == Stacks(output, [])
    ensures multiset(output) == multiset(input)
  {
    ReplayKeepsContents(log, Stacks(input, []));
    assert Contents(Stacks(input, [])) == multiset(input);
    assert Contents(Stacks(output, [])) == multiset(output);
  }

  /** The three cases of `main`: afterwards a's indices are a rotation of an ascending list,
      and ascending already when there are at most three of them. */
  method Arrange(run: Run, argc: int)
    requires run.Valid() && run.a.nodes == run.start && run.b.nodes == [] && run.out.log == []
    requires 1 <= argc == |run.start| < INT_MAX
    requires NoDup(Numbers(run.start)) && Ranked(Numbers(run.start), run.start)
    modifies run.a, run.b, run.out, run.all`next, run.all`pos, run.all`targetPos, run.all`costA, run.all`costB
    ensures run.Valid() && run.b.nodes == [] && |run.a.nodes| == argc
    ensures CyclicAscending(Indices(run.a.nodes))
    ensures argc <= 3 ==> Ascending(Indices(run.a.nodes))
    ensures |run.out.log| <= InstructionBound(argc) - if argc > 3 then argc / 2 else 0
    ensures NonDescending(Numbers(run.start)) ==> run.out.log == [] && run.a.nodes == run.start
  {
    hide Run.Valid, Ranked, NonDescending, Rank, Indices, Numbers;
    NodesOfRun(run);
    OwnRanks(run.start, run.a.nodes);
    var sorted := IsSorted(run.a);
    if argc == 2 && !sorted {
      PairSwaps(run.a.nodes);
      run.Sa();
    } else if argc == 3 && !sorted {
      ThreeSortedIff(Indices(run.a.nodes));
      SortThree(run);
    } else if argc > 3 && !sorted {
      SortMore(run, argc);
    }
    if sorted || argc <= 3 {
      assert AscendingFrom(Indices(run.a.nodes), 0);
    }
  }

  lemma PairSwaps(nodes: seq<Node>)
    requires |nodes| == 2 && NoDup(Indices(nodes)) && !Ascending(Indices(nodes))
    ensures Ascending(Indices(Swapped(nodes)))
  {
    assert Indices(nodes)[0] != Indices(nodes)[1];
  }

  /** `main` from `assign_index` on. */
  method SortAll(run: Run, argc: int)
    requires run.Valid() && run.a.nodes == run.start && run.b.nodes == [] && run.out.log == []
    requires 1 <= argc == |run.start| < INT_MAX
    requires NoDup(Numbers(run.start))
    requires forall i | 0 <= i < |run.start| :: run.start[i].index == 0
    modifies run.a, run.b, run.out, run.all
    ensures run.Valid() && run.b.nodes == []
    ensures Sorts(Numbers(run.start), run.out.log, Numbers(run.a.nodes))
  {
    hide Ranked, Rank, Indices, Numbers, CyclicAscending, Linked, Replay, NonDescending, Ascending;
    AssignIndex(run.a, argc);
    Arrange(run, argc);
    NodesOfRun(run);
    OwnRanks(run.start, run.a.nodes);
    var sorted := IsSorted(run.a);
    if !sorted {
      AdjustStack(run, argc);
      NodesOfRun(run);
      OwnRanks(run.start, run.a.nodes);
    }
    OwnAscending(run.start, run.a.nodes);
    NumbersReplay(run);
    assert Numbers([]) == [];
    ReplayPermutes(run.out.log, Numbers(run.start), Numbers(run.a.nodes));
  }

  lemma OwnAscending(start: seq<Node>, nodes: seq<Node>)
    requires Ranked(Numbers(start), start) && NoDup(Numbers(start))
    requires NoDup(nodes) && forall n | n in nodes :: n in start
    ensures Ascending(Indices(nodes)) <==> Ascending(Numbers(nodes))
  {
    OwnRanks(start, nodes);
    IndicesAreRanks(start, nodes);
    OwnDistinct(start, nodes);
    RanksDistinguish(Numbers(start), Numbers(nodes));
    DistinctAscending(Numbers(nodes));
  }
}
