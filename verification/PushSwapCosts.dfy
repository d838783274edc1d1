/** The list walks that number the nodes, find targets and write rotation costs. */
module Costs {
  import opened CyclicOrder
  import opened LinkedStack

  const INT_MAX := 0x7FFF_FFFF

  /** The node a walk has reached after k steps. */
  ghost function At(nodes: seq<Node>, k: nat): Node?
    requires k <= |nodes|
  {
    if k < |nodes| then nodes[k] else null
  }

  ghost predicate Positioned(nodes: seq<Node>)
    reads nodes`pos
  {
    forall i | 0 <= i < |nodes| :: nodes[i].pos == i
  }

  ghost function Indices(nodes: seq<Node>): (r: seq<int>)
    reads nodes`index
    ensures |r| == |nodes| && forall i | 0 <= i < |nodes| :: r[i] == nodes[i].index
  {
    if nodes == [] then [] else [nodes[0].index] + Indices(nodes[1..])
  }

  ghost function Targets(nodes: seq<Node>): (r: seq<int>)
    reads nodes`targetPos
    ensures |r| == |nodes| && forall i | 0 <= i < |nodes| :: r[i] == nodes[i].targetPos
  {
    if nodes == [] then [] else [nodes[0].targetPos] + Targets(nodes[1..])
  }

  method CurrentPos(stack: Stack)
    requires stack.Valid()
    modifies stack.repr`pos
    ensures stack.Valid() && Positioned(stack.nodes)
  {
    var current := stack.head;
    var pos := 0;
    while current != null
      invariant 0 <= pos <= |stack.nodes| && current == At(stack.nodes, pos)
      invariant stack.Valid()
      invariant forall i | 0 <= i < pos :: stack.nodes[i].pos == i
      decreases |stack.nodes| - pos
    {
      current.pos := pos;
      pos := pos + 1;
      current := current.next;
    }
  }

  /** The position of the cyclic successor of `bIndex` in a. */
  method GetLowest(a: Stack, bIndex: int, position: int) returns (targetPosition: int)
    requires a.Valid() && a.nodes != [] && Positioned(a.nodes)
    requires forall i | 0 <= i < |a.nodes| :: a.nodes[i].index < INT_MAX
    ensures IsTarget(Indices(a.nodes), bIndex, targetPosition)
  {
    var targetIndex := INT_MAX;
    targetPosition := position;
    var temp := a.head;
    ghost var k := 0;
    ghost var s := Indices(a.nodes);
    while temp != null
      invariant 0 <= k <= |s| && temp == At(a.nodes, k)
      invariant targetIndex == INT_MAX ==> forall i | 0 <= i < k :: s[i] <= bIndex
      invariant targetIndex != INT_MAX ==>
                  0 <= targetPosition < k && s[targetPosition] == targetIndex > bIndex
      invariant forall i | 0 <= i < k && s[i] > bIndex :: targetIndex <= s[i]
      decreases |s| - k
    {
      if temp.index > bIndex && temp.index < targetIndex {
        targetIndex := temp.index;
        targetPosition := temp.pos;
      }
      temp := temp.next;
      k := k + 1;
    }
    if targetIndex != INT_MAX {
      return;
    }
    temp := a.head;
    k := 0;
    while temp != null
      invariant 0 <= k <= |s| && temp == At(a.nodes, k)
      invariant k > 0 ==> 0 <= targetPosition < k && s[targetPosition] == targetIndex
      invariant k == 0 ==> targetIndex == INT_MAX
      invariant forall i | 0 <= i < k :: targetIndex <= s[i]
      decreases |s| - k
    {
      if temp.index < targetIndex {
        targetIndex := temp.index;
        targetPosition := temp.pos;
      }
      temp := temp.next;
      k := k + 1;
    }
  }

  method Target(a: Stack, b: Stack)
    requires a != b && a.Valid() && b.Valid() && a.repr !! b.repr && a.nodes != []
    requires forall i | 0 <= i < |a.nodes| :: a.nodes[i].index < INT_MAX
    modifies a.repr`pos, b.repr`pos, b.repr`targetPos
    ensures a.Valid() && b.Valid() && Positioned(a.nodes) && Positioned(b.nodes)
    ensures forall i | 0 <= i < |b.nodes| ::
              IsTarget(Indices(a.nodes), b.nodes[i].index, b.nodes[i].targetPos)
  {
    hide IsTarget, Indices, Positioned;
    CurrentPos(a);
    CurrentPos(b);
    var tPosition := -1;
    var tempB := b.head;
    ghost var k, s := 0, Indices(a.nodes);
    while tempB != null
      invariant 0 <= k <= |b.nodes| && tempB == At(b.nodes, k)
      invariant a.Valid() && b.Valid() && Positioned(a.nodes) && Positioned(b.nodes)
      invariant Indices(a.nodes) == s
      invariant forall i | 0 <= i < k :: IsTarget(s, b.nodes[i].index, b.nodes[i].targetPos)
      decreases |b.nodes| - k
    {
      tPosition := GetLowest(a, tempB.index, tPosition);
      tempB.targetPos := tPosition;
      tempB := tempB.next;
      k := k + 1;
    }
  }

  method Cost(b: Stack, sizeA: int, sizeB: int)
    requires b.Valid()
    modifies b.repr`costA, b.repr`costB
    ensures b.Valid()
    ensures forall i | 0 <= i < |b.nodes| ::
              && b.nodes[i].costA == SignedCost(b.nodes[i].targetPos, sizeA)
              && b.nodes[i].costB == SignedCost(b.nodes[i].pos, sizeB)
  {
    var tempB := b.head;
    ghost var k := 0;
    while tempB != null
      invariant 0 <= k <= |b.nodes| && tempB == At(b.nodes, k)
      invariant b.Valid()
      invariant forall i | 0 <= i < k ::
                  && b.nodes[i].costA == SignedCost(b.nodes[i].targetPos, sizeA)
                  && b.nodes[i].costB == SignedCost(b.nodes[i].pos, sizeB)
      decreases |b.nodes| - k
    {
      tempB.costB := tempB.pos;
      if tempB.pos > sizeB / 2 {
        tempB.costB := (sizeB - tempB.pos) * -1;
      }
      tempB.costA := tempB.targetPos;
      if tempB.targetPos > sizeA / 2 {
        tempB.costA := (sizeA - tempB.targetPos) * -1;
      }
      tempB := tempB.next;
      k := k + 1;
    }
  }

  method LowestPos(a: Stack) returns (lowestPosition: int)
    requires a.Valid() && a.nodes != [] && Positioned(a.nodes)
    requires forall i | 0 <= i < |a.nodes| :: a.nodes[i].index < INT_MAX
    ensures IsLeast(Indices(a.nodes), lowestPosition)
  {
    var temp := a.head;
    lowestPosition := temp.pos;
    var lowestIndex := INT_MAX;
    ghost var k := 0;
    ghost var s := Indices(a.nodes);
    while temp != null
      invariant 0 <= k <= |s| && temp == At(a.nodes, k)
      invariant k > 0 ==> 0 <= lowestPosition < k && s[lowestPosition] == lowestIndex
      invariant k == 0 ==> lowestIndex == INT_MAX
      invariant forall i | 0 <= i < k :: lowestIndex <= s[i]
      decreases |s| - k
    {
      if temp.index < lowestIndex {
        lowestIndex := temp.index;
        lowestPosition := temp.pos;
      }
      temp := temp.next;
      k := k + 1;
    }
  }
}
