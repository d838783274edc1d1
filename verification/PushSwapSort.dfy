/** The sorting algorithm of push_swap. */
module PushSwapSort {
  import opened Basics
  import opened Instructions
  import opened Ranks
  import opened CyclicOrder
  import opened LinkedStack
  import opened Costs
  import opened PushSwapRun

  /** Every node carries the rank of its number among all the numbers. */
  ghost predicate Ranked(all: seq<int>, nodes: seq<Node>)
    reads nodes`index
  {
    forall i | 0 <= i < |nodes| :: nodes[i].index == Rank(all, nodes[i].number)
  }

  // ------------------------------------------------------------------ assign_index

  /** The positions numbered so far hold the smallest numbers. */
  ghost predicate Lowest(all: seq<int>, done: set<int>) {
    && (forall i | i in done :: 0 <= i < |all|)
    && (forall i, j | i in done && 0 <= j < |all| && j !in done :: all[i] < all[j])
  }

  lemma NextRank(all: seq<int>, done: set<int>, m: int)
    requires NoDup(all) && Lowest(all, done) && 0 <= m < |all| && m !in done
    requires forall j | 0 <= j < |all| && j !in done :: all[m] <= all[j]
    ensures Rank(all, all[m]) == |done| + 1
    ensures Lowest(all, done + {m})
  {
    forall j | 0 <= j < |all| && j !in done && j != m ensures all[m] < all[j] {
      assert all[m] != all[j];
    }
    assert Smaller(all, all[m]) == done;
  }

  lemma SomeLeft(n: nat, done: set<int>)
    requires |done| < n
    ensures exists i :: 0 <= i < n && i !in done
  {
    if forall i | 0 <= i < n :: i in done {
      assert Positions(n) <= done;
      SubsetSize(Positions(n), done);
    }
  }

  lemma AllDone(n: nat, done: set<int>)
    requires |done| == n && forall i | i in done :: 0 <= i < n
    ensures forall i | 0 <= i < n :: i in done
  {
    SubsetSize(done, Positions(n));
  }

  /** The inner walk of `assign_index`: the unranked node with the lowest number. */
  method LowestUnranked(stackA: Stack, ghost done: set<int>) returns (lowest: Node?, ghost m: int)
    requires stackA.Valid()
    requires forall i | 0 <= i < |stackA.nodes| :: stackA.nodes[i].index == 0 <==> i !in done
    ensures lowest == null ==> forall i | 0 <= i < |stackA.nodes| :: i in done
    ensures lowest != null ==> 0 <= m < |stackA.nodes| && m !in done && lowest == stackA.nodes[m]
    ensures lowest != null ==>
              forall i | 0 <= i < |stackA.nodes| && i !in done :: lowest.number <= stackA.nodes[i].number
  {
    var current := stackA.head;
    lowest, m := null, 0;
    ghost var k := 0;
    while current != null
      invariant 0 <= k <= |stackA.nodes| && current == At(stackA.nodes, k)
      invariant lowest == null ==> forall i | 0 <= i < k :: i in done
      invariant lowest != null ==> 0 <= m < k && m !in done && lowest == stackA.nodes[m]
      invariant lowest != null ==>
                  forall i | 0 <= i < k && i !in done :: lowest.number <= stackA.nodes[i].number
      decreases |stackA.nodes| - k
    {
      if current.index == 0 {
        if lowest == null || current.number < lowest.number {
          lowest, m := current, k;
        }
      }
      current := current.next;
      k := k + 1;
    }
  }

  method AssignIndex(stackA: Stack, len: int)
    requires stackA.Valid() && len == |stackA.nodes| && NoDup(Numbers(stackA.nodes))
    requires forall i | 0 <= i < |stackA.nodes| :: stackA.nodes[i].index == 0
    modifies stackA.repr`index
    ensures stackA.Valid() && Ranked(Numbers(stackA.nodes), stackA.nodes)
  {
    ghost var nodes, all, done := stackA.nodes, Numbers(stackA.nodes), {};
    var index := 1;
    while index <= len
      invariant stackA.Valid() && stackA.nodes == nodes
      invariant 1 <= index <= len + 1 && |done| == index - 1
      invariant Lowest(all, done)
      invariant forall i | 0 <= i < len ::
                  nodes[i].index == if i in done then Rank(all, all[i]) else 0
      decreases len + 1 - index
    {
      hide Rank;
      ghost var m;
      var lowest: Node?;
      lowest, m := LowestUnranked(stackA, done);
      SomeLeft(len, done);
      if lowest != null {
        NextRank(all, done, m);
        lowest.index := index;
        done := done + {m};
        index := index + 1;
      }
    }
    AllDone(len, done);
  }

  // --------------------------------------------------------------------- is_sorted

  method IsSorted(stackA: Stack) returns (sorted: bool)
    requires stackA.Valid() && stackA.nodes != []
    ensures sorted <==> NonDescending(Numbers(stackA.nodes))
  {
    ghost var all, k := Numbers(stackA.nodes), 0;
    var current := stackA.head;
    while current.next != null
      invariant 0 <= k < |all| && current == stackA.nodes[k]
      invariant NonDescending(all[..k + 1])
      decreases |all| - k
    {
      assert current.next == stackA.nodes[k + 1];
      if current.number > current.next.number {
        assert all[k] > all[k + 1];
        return false;
      }
      assert all[..k + 2] == all[..k + 1] + [all[k + 1]];
      current := current.next;
      k := k + 1;
    }
    assert all[..k + 1] == all;
    return true;
  }

  // -------------------------------------------------------------------- sort_three

  /** What `sort_three` makes of three indices. */
  function ThreeMoved(s: seq<int>): (r: seq<int>)
    requires |s| == 3
    ensures |r| == 3
  {
    var turned := if s[0] > s[1] && s[0] > s[2] then Rotated(s)
                  else if s[1] > s[0] then ReverseRotated(s)
                  else s;
    if turned[0] > turned[1] then Swapped(turned) else turned
  }

  /** A triple ends up ascending exactly when it was not ascending before. */
  lemma ThreeSortedIff(s: seq<int>)
    requires |s| == 3 && NoDup(s)
    ensures Ascending(ThreeMoved(s)) <==> !Ascending(s)
  {
    assert s[0] != s[1] && s[1] != s[2] && s[0] != s[2];
  }

  /** A sorted triple is undone. */
  lemma SortedTripleUndone()
    ensures Ascending([1, 2, 3]) && ThreeMoved([1, 2, 3]) == [1, 3, 2] && !Ascending([1, 3, 2])
  {
    assert ReverseRotated([1, 2, 3]) == [3, 1, 2] && Swapped([3, 1, 2]) == [1, 3, 2];
  }

  lemma IndicesMove(nodes: seq<Node>)
    ensures Indices(Rotated(nodes)) == Rotated(Indices(nodes))
    ensures Indices(ReverseRotated(nodes)) == ReverseRotated(Indices(nodes))
    ensures Indices(Swapped(nodes)) == Swapped(Indices(nodes))
  {
  }

  method SortThree(run: Run)
    requires run.Valid() && |run.a.nodes| == 3
    modifies run.a, run.out, run.all`next
    ensures run.Valid() && |run.a.nodes| == 3 && run.b.nodes == old(run.b.nodes)
    ensures Indices(run.a.nodes) == ThreeMoved(old(Indices(run.a.nodes)))
    ensures old(|run.out.log|) <= |run.out.log| <= old(|run.out.log|) + 2
  {
    hide Run.Valid, Indices, Rotated, ReverseRotated, Swapped;
    ghost var was, s := run.a.nodes, Indices(run.a.nodes);
    FirstThree(run);
    if run.a.head.index > run.a.head.next.index && run.a.head.index > run.a.head.next.next.index {
      run.Ra();
    } else if run.a.head.next.index > run.a.head.index {
      run.Rra();
    }
    assert Indices(was) == s;
    IndicesMove(was);
    FirstThree(run);
    ghost var turned, t := run.a.nodes, Indices(run.a.nodes);
    if run.a.head.index > run.a.head.next.index {
      run.Sa();
    }
    assert Indices(turned) == t;
    IndicesMove(turned);
  }

  lemma FirstThree(run: Run)
    requires run.Valid() && |run.a.nodes| == 3
    ensures var head := run.a.head;
            && head != null && head.next != null && head.next.next != null
            && Indices(run.a.nodes) == [head.index, head.next.index, head.next.next.index]
  {
    var nodes := run.a.nodes;
    assert run.a.head == nodes[0] && nodes[0].next == nodes[1];
    assert nodes[1].next == nodes[2];
  }

  // ------------------------------------------------------------- do_cost_effective

  ghost predicate ProperCosts(run: Run, n: Node)
    reads run.a, run.b, n`costA, n`costB
  {
    && Proper(run.a.nodes, n.costA) && Proper(run.b.nodes, n.costB)
    && Abs(n.costA) + Abs(n.costB) < INT_MAX
  }

  /** Moves the first of the cheapest nodes of b: the one at position k, by its costs. */
  method DoCostEffective(run: Run) returns (one: int, ghost k: int, ghost byA: int, ghost byB: int)
    requires run.Valid() && run.b.nodes != []
    requires forall i | 0 <= i < |run.b.nodes| :: ProperCosts(run, run.b.nodes[i])
    modifies run.a, run.b, run.out, run.all`next
    ensures one == 1 && run.Valid()
    ensures 0 <= k < |old(run.b.nodes)|
    ensures byA == old(run.b.nodes[k].costA) && byB == old(run.b.nodes[k].costB)
    ensures forall i | 0 <= i < |old(run.b.nodes)| ::
              Abs(byA) + Abs(byB) <= old(Abs(run.b.nodes[i].costA) + Abs(run.b.nodes[i].costB))
    ensures Proper(old(run.a.nodes), byA) && Proper(old(run.b.nodes), byB)
    ensures run.a.nodes == [SignedRot(old(run.b.nodes), byB)[0]] + SignedRot(old(run.a.nodes), byA)
    ensures run.b.nodes == SignedRot(old(run.b.nodes), byB)[1..]
    ensures |run.out.log| == old(|run.out.log|) + MoveLength(byA, byB) + 1
  {
    ghost var nodes, j := run.b.nodes, 0;
    var temp := run.b.head;
    var cheapest := INT_MAX;
    var costA, costB := 0, 0;
    k := 0;
    while temp != null
      invariant 0 <= j <= |nodes| && temp == At(nodes, j)
      invariant if j == 0 then cheapest == INT_MAX
                else 0 <= k < j && costA == nodes[k].costA && costB == nodes[k].costB
                     && cheapest == Abs(costA) + Abs(costB)
      invariant forall i | 0 <= i < j :: cheapest <= Abs(nodes[i].costA) + Abs(nodes[i].costB)
      decreases |nodes| - j
    {
      assert ProperCosts(run, nodes[j]);
      if Abs(temp.costA) + Abs(temp.costB) < cheapest {
        costA, costB := temp.costA, temp.costB;
        cheapest := Abs(costA) + Abs(costB);
        k := j;
      }
      temp := temp.next;
      j := j + 1;
    }
    assert ProperCosts(run, nodes[k]);
    byA, byB := costA, costB;
    run.DoMove(costA, costB);
    one := 1;
  }

  // ----------------------------------------------------------------- one insertion

  /** Nodes of the run, seen as ranks. */
  lemma IndicesAreRanks(start: seq<Node>, nodes: seq<Node>)
    requires Ranked(Numbers(start), start) && forall n | n in nodes :: n in start
    ensures Indices(nodes) == RanksOf(Numbers(start), Numbers(nodes))
    ensures forall n | n in nodes :: 1 <= n.index <= |start|
  {
    forall i | 0 <= i < |nodes|
      ensures nodes[i].index == Rank(Numbers(start), nodes[i].number)
      ensures 1 <= nodes[i].index <= |start|
    {
      assert nodes[i] in start;
      var j :| 0 <= j < |start| && start[j] == nodes[i];
      assert Numbers(start)[j] == nodes[i].number;
      RankOrder(Numbers(start), nodes[i].number, nodes[i].number);
    }
  }

  lemma DistinctIndices(start: seq<Node>, n: Node, m: Node)
    requires Ranked(Numbers(start), start) && NoDup(Numbers(start))
    requires n in start && m in start && n != m
    ensures n.index != m.index
  {
    var i :| 0 <= i < |start| && start[i] == n;
    var j :| 0 <= j < |start| && start[j] == m;
    assert Numbers(start)[i] != Numbers(start)[j];
    RankOrder(Numbers(start), n.number, m.number);
  }

  /** What an insertion costs before sharing: the shorter way round in both stacks. */
  function InsertionCost(sizeA: int, posA: int, sizeB: int, posB: int): int {
    Min(posA, sizeA - posA) + Min(posB, sizeB - posB)
  }

  lemma Unpack(run: Run)
    requires run.Valid()
    ensures run.a != run.b && run.a.Valid() && run.b.Valid() && run.a.repr !! run.b.repr
    ensures run.a.repr <= run.all && run.b.repr <= run.all
    ensures forall n | n in run.a.nodes :: n in run.start
  {
  }

  /** `target` and `cost`: every node of b learns its target and what moving it costs. */
  method Price(run: Run, len: int, lenB: int) returns (ghost targets: seq<int>)
    requires run.Valid() && Ranked(Numbers(run.start), run.start)
    requires len == |run.start| < INT_MAX
    requires |run.a.nodes| == len - lenB >= 1 && |run.b.nodes| == lenB
    modifies run.all`pos, run.all`targetPos, run.all`costA, run.all`costB
    ensures run.Valid() && |targets| == lenB
    ensures forall i | 0 <= i < lenB ::
              IsTarget(old(Indices(run.a.nodes)), old(run.b.nodes[i].index), targets[i])
    ensures forall i | 0 <= i < lenB ::
              && run.b.nodes[i].costA == SignedCost(targets[i], len - lenB)
              && run.b.nodes[i].costB == SignedCost(i, lenB)
  {
    hide Run.Valid, Stack.Valid, Indices, SignedCost, IsTarget, Linked, Replay;
    Unpack(run);
    IndicesAreRanks(run.start, run.a.nodes);
    Target(run.a, run.b);
    targets := Targets(run.b.nodes);
    Cost(run.b, len - lenB, lenB);
  }

  lemma TargetsInRange(s: seq<int>, xs: seq<int>, targets: seq<int>)
    requires |targets| == |xs|
    requires forall i | 0 <= i < |xs| :: IsTarget(s, xs[i], targets[i])
    ensures forall i | 0 <= i < |xs| :: 0 <= targets[i] < |s|
  {
  }

  /** One round of the insertion loop.  Node k of b goes directly before its cyclic successor,
      at position targets[k] of a; no other node of b would have been cheaper. */
  method Insert(run: Run, len: int, lenB: int) returns (one: int, ghost k: int, ghost targets: seq<int>)
    requires run.Valid() && Ranked(Numbers(run.start), run.start)
    requires len == |run.start| < INT_MAX
    requires |run.a.nodes| == len - lenB >= 1 && |run.b.nodes| == lenB >= 1
    modifies run.a, run.b, run.out, run.all`next, run.all`pos, run.all`targetPos, run.all`costA, run.all`costB
    ensures one == 1 && run.Valid()
    ensures 0 <= k < lenB && |targets| == lenB
    ensures forall i | 0 <= i < lenB :: 0 <= targets[i] < len - lenB
    ensures forall i | 0 <= i < lenB ::
              IsTarget(old(Indices(run.a.nodes)), old(run.b.nodes[i].index), targets[i])
    ensures forall i | 0 <= i < lenB ::
              InsertionCost(len - lenB, targets[k], lenB, k) <= InsertionCost(len - lenB, targets[i], lenB, i)
    ensures run.a.nodes == [old(run.b.nodes)[k]] + RotL(old(run.a.nodes), targets[k])
    ensures run.b.nodes == RotL(old(run.b.nodes), k)[1..]
    ensures |run.out.log| <= old(|run.out.log|) + InsertionCost(len - lenB, targets[k], lenB, k) + 1
  {
    hide Run.Valid, Indices, IsTarget, SignedRot, RotL, Ranked, Numbers;
    ghost var A, B := run.a.nodes, run.b.nodes;
    targets := Price(run, len, lenB);
    TargetsInRange(old(Indices(A)), old(Indices(B)), targets);
    forall i | 0 <= i < lenB
      ensures ProperCosts(run, B[i])
      ensures Abs(B[i].costA) + Abs(B[i].costB) == InsertionCost(len - lenB, targets[i], lenB, i)
    {
      CostIsShortest(A, targets[i]);
      CostIsShortest(B, i);
    }
    ghost var byA, byB;
    one, k, byA, byB := DoCostEffective(run);
    CostIsShortest(A, targets[k]);
    CostIsShortest(B, k);
  }
}
