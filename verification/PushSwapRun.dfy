/** A run of push_swap: the two stacks, the text printed so far, and how they belong together. */
module PushSwapRun {
  import opened Basics
  import opened Instructions
  import opened CyclicOrder
  import opened LinkedStack

  function Numbers(nodes: seq<Node>): (r: seq<int>)
    ensures |r| == |nodes| && forall i | 0 <= i < |nodes| :: r[i] == nodes[i].number
  {
    Mapped((n: Node) => n.number, nodes)
  }

  ghost function NodeSet(nodes: seq<Node>): set<Node> {
    set n | n in nodes
  }

  /** A cost that `cost` can compute: fewer rotations than the stack has nodes. */
  ghost predicate Proper<T>(s: seq<T>, c: int) {
    c != 0 ==> -|s| < c < |s|
  }

  /** The instructions two signed rotations take when common ones are shared. */
  function MoveLength(costA: int, costB: int): nat {
    if (costA > 0) == (costB > 0) && (costA < 0) == (costB < 0)
    then (if Abs(costA) < Abs(costB) then Abs(costB) else Abs(costA))
    else Abs(costA) + Abs(costB)
  }

  class Run {
    const a: Stack
    const b: Stack
    const out: Output
    ghost const start: seq<Node>
    ghost const all: set<Node>

    /** Both lists are acyclic and share no node, every node is one of the first ones, and
        the printed instructions replayed from the first stack give the present two. */
    ghost predicate Valid()
      reads a, b, out, a.repr`next, b.repr`next
    {
      && a != b && a.Valid() && b.Valid() && a.repr !! b.repr
      && a.repr + b.repr == all && all == NodeSet(start)
      && out.Valid()
      && Replay(out.log, Stacks(start, [])) == Stacks(a.nodes, b.nodes)
    }

    constructor (stack: Stack)
      requires stack.Valid()
      requires stack.repr == NodeSet(stack.nodes)
      ensures Valid() && fresh(b) && fresh(out) && a == stack
      ensures start == stack.nodes && b.nodes == [] && out.log == []
    {
      a := stack;
      b := new Stack();
      out := new Output();
      start := stack.nodes;
      all := stack.repr;
    }

    method Sa()
      requires Valid()
      modifies a, out, all`next
      ensures Valid()
      ensures a.nodes == Swapped(old(a.nodes)) && b.nodes == old(b.nodes)
      ensures |old(a.nodes)| >= 2 ==> |out.log| == old(|out.log|) + 1
    {
      ReplaySnoc(out.log, Instr.Sa, Stacks(start, []));
      SwapX(a, out, Some(Instr.Sa));
    }

    method Ra()
      requires Valid()
      modifies a, out, all`next
      ensures Valid()
      ensures a.nodes == Rotated(old(a.nodes)) && b.nodes == old(b.nodes)
      ensures |old(a.nodes)| >= 2 ==> |out.log| == old(|out.log|) + 1
    {
      ReplaySnoc(out.log, Instr.Ra, Stacks(start, []));
      RotateX(a, out, Some(Instr.Ra));
    }

    method Rra()
      requires Valid()
      modifies a, out, all`next
      ensures Valid()
      ensures a.nodes == ReverseRotated(old(a.nodes)) && b.nodes == old(b.nodes)
      ensures |old(a.nodes)| >= 2 ==> |out.log| == old(|out.log|) + 1
    {
      ReplaySnoc(out.log, Instr.Rra, Stacks(start, []));
      ReverseRotateX(a, out, Some(Instr.Rra));
    }

    method Rb()
      requires Valid()
      modifies b, out, all`next
      ensures Valid()
      ensures b.nodes == Rotated(old(b.nodes)) && a.nodes == old(a.nodes)
      ensures |old(b.nodes)| >= 2 ==> |out.log| == old(|out.log|) + 1
    {
      ReplaySnoc(out.log, Instr.Rb, Stacks(start, []));
      RotateX(b, out, Some(Instr.Rb));
    }

    method Rrb()
      requires Valid()
      modifies b, out, all`next
      ensures Valid()
      ensures b.nodes == ReverseRotated(old(b.nodes)) && a.nodes == old(a.nodes)
      ensures |old(b.nodes)| >= 2 ==> |out.log| == old(|out.log|) + 1
    {
      ReplaySnoc(out.log, Instr.Rrb, Stacks(start, []));
      ReverseRotateX(b, out, Some(Instr.Rrb));
    }

    method Pa()
      requires Valid() && b.nodes != []
      modifies a, b, out, all`next
      ensures Valid()
      ensures a.nodes == [old(b.nodes)[0]] + old(a.nodes) && b.nodes == old(b.nodes)[1..]
      ensures |out.log| == old(|out.log|) + 1
    {
      ReplaySnoc(out.log, Instr.Pa, Stacks(start, []));
      PushToX(b, a, out, Some(Instr.Pa));
    }

    method Pb()
      requires Valid() && a.nodes != []
      modifies a, b, out, all`next
      ensures Valid()
      ensures a.nodes == old(a.nodes)[1..] && b.nodes == [old(a.nodes)[0]] + old(b.nodes)
      ensures |out.log| == old(|out.log|) + 1
    {
      ReplaySnoc(out.log, Instr.Pb, Stacks(start, []));
      PushToX(a, b, out, Some(Instr.Pb));
    }

    /** `multiple_operation` with code 2; with fewer than two nodes in b it would move a
        without printing, see Instructions.CombinedFaithfulIff. */
    method Rr()
      requires Valid() && |b.nodes| >= 2
      modifies a, b, out, all`next
      ensures Valid()
      ensures a.nodes == Rotated(old(a.nodes)) && b.nodes == Rotated(old(b.nodes))
      ensures |out.log| == old(|out.log|) + 1
    {
      ReplaySnoc(out.log, Instr.Rr, Stacks(start, []));
      MultipleOperation(a, b, out, 2);
    }

    method Rrr()
      requires Valid() && |b.nodes| >= 2
      modifies a, b, out, all`next
      ensures Valid()
      ensures a.nodes == ReverseRotated(old(a.nodes)) && b.nodes == ReverseRotated(old(b.nodes))
      ensures |out.log| == old(|out.log|) + 1
    {
      ReplaySnoc(out.log, Instr.Rrr, Stacks(start, []));
      MultipleOperation(a, b, out, 3);
    }

    method SameMoves(costA: int, costB: int) returns (restA: int, restB: int)
      requires Valid() && Proper(a.nodes, costA) && Proper(b.nodes, costB)
      modifies a, b, out, all`next
      ensures Valid() && Proper(a.nodes, restA) && Proper(b.nodes, restB)
      ensures |a.nodes| == old(|a.nodes|) && |b.nodes| == old(|b.nodes|)
      ensures SignedRot(a.nodes, restA) == SignedRot(old(a.nodes), costA)
      ensures SignedRot(b.nodes, restB) == SignedRot(old(b.nodes), costB)
      ensures |out.log| + Abs(restA) + Abs(restB) == old(|out.log|) + MoveLength(costA, costB)
    {
      hide Valid, SignedRot, Rotated, ReverseRotated;
      restA, restB := costA, costB;
      while restA > 0 && restB > 0
        invariant Valid() && Proper(a.nodes, restA) && Proper(b.nodes, restB)
        invariant |a.nodes| == old(|a.nodes|) && |b.nodes| == old(|b.nodes|)
        invariant SignedRot(a.nodes, restA) == SignedRot(old(a.nodes), costA)
        invariant SignedRot(b.nodes, restB) == SignedRot(old(b.nodes), costB)
        invariant (restA == costA && restB == costB) || (costA > 0 && costB > 0 && restA >= 0 && restB >= 0)
        invariant costA - restA == costB - restB == |out.log| - old(|out.log|)
        decreases restA
      {
        SignedRotForward(a.nodes, restA);
        SignedRotForward(b.nodes, restB);
        Rr();
        restA, restB := restA - 1, restB - 1;
      }
      while restA < 0 && restB < 0
        invariant Valid() && Proper(a.nodes, restA) && Proper(b.nodes, restB)
        invariant |a.nodes| == old(|a.nodes|) && |b.nodes| == old(|b.nodes|)
        invariant SignedRot(a.nodes, restA) == SignedRot(old(a.nodes), costA)
        invariant SignedRot(b.nodes, restB) == SignedRot(old(b.nodes), costB)
        invariant !(restA > 0 && restB > 0)
        invariant if costA > 0 && costB > 0 then
                    costA - restA == costB - restB == |out.log| - old(|out.log|) && restA >= 0 && restB >= 0
                  else
                    && restA - costA == restB - costB == |out.log| - old(|out.log|)
                    && ((restA == costA && restB == costB) || (costA < 0 && costB < 0 && restA <= 0 && restB <= 0))
        decreases -restA
      {
        SignedRotBackward(a.nodes, restA);
        SignedRotBackward(b.nodes, restB);
        Rrr();
        restA, restB := restA + 1, restB + 1;
      }
    }

    method RollA(costA: int)
      requires Valid() && Proper(a.nodes, costA)
      modifies a, out, all`next
      ensures Valid() && b.nodes == old(b.nodes)
      ensures a.nodes == SignedRot(old(a.nodes), costA)
      ensures |out.log| == old(|out.log|) + Abs(costA)
    {
      hide Valid, SignedRot, Rotated, ReverseRotated;
      var rest := costA;
      while rest > 0
        invariant Valid() && b.nodes == old(b.nodes)
        invariant Proper(a.nodes, rest) && |a.nodes| == old(|a.nodes|)
        invariant SignedRot(a.nodes, rest) == SignedRot(old(a.nodes), costA)
        invariant rest == costA || 0 <= rest < costA
        invariant |out.log| == old(|out.log|) + costA - rest
      {
        SignedRotForward(a.nodes, rest);
        Ra();
        rest := rest - 1;
      }
      while rest < 0
        invariant Valid() && b.nodes == old(b.nodes)
        invariant Proper(a.nodes, rest) && |a.nodes| == old(|a.nodes|)
        invariant SignedRot(a.nodes, rest) == SignedRot(old(a.nodes), costA)
        invariant if costA >= 0 then rest == 0 else costA <= rest <= 0
        invariant |out.log| == old(|out.log|) + Abs(costA - rest)
      {
        SignedRotBackward(a.nodes, rest);
        Rra();
        rest := rest + 1;
      }
      SignedRotZero(a.nodes);
    }

    method RollB(costB: int)
      requires Valid() && Proper(b.nodes, costB)
      modifies b, out, all`next
      ensures Valid() && a.nodes == old(a.nodes)
      ensures b.nodes == SignedRot(old(b.nodes), costB)
      ensures |out.log| == old(|out.log|) + Abs(costB)
    {
      hide Valid, SignedRot, Rotated, ReverseRotated;
      var rest := costB;
      while rest > 0
        invariant Valid() && a.nodes == old(a.nodes)
        invariant Proper(b.nodes, rest) && |b.nodes| == old(|b.nodes|)
        invariant SignedRot(b.nodes, rest) == SignedRot(old(b.nodes), costB)
        invariant rest == costB || 0 <= rest < costB
        invariant |out.log| == old(|out.log|) + costB - rest
      {
        SignedRotForward(b.nodes, rest);
        Rb();
        rest := rest - 1;
      }
      while rest < 0
        invariant Valid() && a.nodes == old(a.nodes)
        invariant Proper(b.nodes, rest) && |b.nodes| == old(|b.nodes|)
        invariant SignedRot(b.nodes, rest) == SignedRot(old(b.nodes), costB)
        invariant if costB >= 0 then rest == 0 else costB <= rest <= 0
        invariant |out.log| == old(|out.log|) + Abs(costB - rest)
      {
        SignedRotBackward(b.nodes, rest);
        Rrb();
        rest := rest + 1;
      }
      SignedRotZero(b.nodes);
    }

    /** Rotates both stacks by their signed costs, sharing what can be shared, and pushes the
        top of b onto a. */
    method DoMove(costA: int, costB: int)
      requires Valid() && b.nodes != [] && Proper(a.nodes, costA) && Proper(b.nodes, costB)
      modifies a, b, out, all`next
      ensures Valid()
      ensures a.nodes == [SignedRot(old(b.nodes), costB)[0]] + SignedRot(old(a.nodes), costA)
      ensures b.nodes == SignedRot(old(b.nodes), costB)[1..]
      ensures |out.log| == old(|out.log|) + MoveLength(costA, costB) + 1
    {
      var restA, restB := SameMoves(costA, costB);
      RollA(restA);
      RollB(restB);
      Pa();
    }
  }
}
