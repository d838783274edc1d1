/** The two linked lists of push_swap and the operations that rewire them in place. */
module LinkedStack {
  import opened Basics
  import opened Instructions

  class Node {
    const number: int
    var index: int
    var pos: int
    var targetPos: int
    var costA: int
    var costB: int
    var next: Node?

    constructor (number: int)
      ensures this.number == number && index == 0 && next == null
    {
      this.number := number;
      index, pos, targetPos, costA, costB := 0, 0, 0, 0, 0;
      next := null;
    }
  }

  /** `nodes` is the acyclic chain of `next` links that starts at `head`. */
  ghost predicate Linked(head: Node?, nodes: seq<Node>)
    reads nodes`next
  {
    && NoDup(nodes)
    && head == (if nodes == [] then null else nodes[0])
    && forall i {:trigger nodes[i].next} | 0 <= i < |nodes| ::
         nodes[i].next == if i + 1 < |nodes| then nodes[i + 1] else null
  }

  ghost predicate Owned(nodes: seq<Node>, repr: set<Node>) {
    forall i | 0 <= i < |nodes| :: nodes[i] in repr
  }

  /** A stack variable of the program: the pointer to its first node.  `repr` owns the
      nodes the list may use. */
  class Stack {
    var head: Node?
    ghost var nodes: seq<Node>
    ghost var repr: set<Node>

    ghost predicate Valid()
      reads this, repr`next
    {
      && Owned(nodes, repr)
      && Linked(head, nodes)
    }

    constructor ()
      ensures Valid() && nodes == [] && repr == {}
    {
      head := null;
      nodes := [];
      repr := {};
    }
  }

  /** Standard output; `log` is the list of instructions whose text it holds. */
  class Output {
    var text: string
    ghost var log: seq<Instr>

    ghost predicate Valid()
      reads this
    {
      text == Render(log)
    }

    constructor ()
      ensures Valid() && log == []
    {
      text := "";
      log := [];
    }

    /** Writes the first `count` bytes of an instruction's text, if there is a text. */
    method Write(txt: Option<Instr>, count: nat)
      requires Valid() && (txt.Some? ==> count == Width(txt.value))
      modifies this
      ensures Valid() && log == Logged(old(log), true, txt)
    {
      if txt.Some? {
        RenderSnoc(log, txt.value);
        text := text + Text(txt.value)[..count];
        log := log + [txt.value];
      }
    }
  }

  ghost predicate ThreeBytes(txt: Option<Instr>) {
    txt.Some? ==> Width(txt.value) == 3
  }

  ghost predicate FourBytes(txt: Option<Instr>) {
    txt.Some? ==> Width(txt.value) == 4
  }

  lemma Popped(nodes: seq<Node>, repr: set<Node>)
    requires nodes != [] && Linked(nodes[0], nodes) && Owned(nodes, repr)
    ensures Linked(nodes[0].next, nodes[1..]) && Owned(nodes[1..], repr - {nodes[0]})
  {
  }

  lemma Pushed(n: Node, head: Node?, nodes: seq<Node>, repr: set<Node>)
    requires Linked(head, nodes) && Owned(nodes, repr) && n !in repr && n.next == head
    ensures Linked(n, [n] + nodes) && Owned([n] + nodes, repr + {n})
  {
  }

  method PushToX(from: Stack, to: Stack, out: Output, txt: Option<Instr>)
    requires from != to && from.Valid() && to.Valid() && from.repr !! to.repr
    requires out.Valid() && ThreeBytes(txt)
    modifies from, to, out, from.repr`next
    ensures from.Valid() && to.Valid() && from.repr !! to.repr && out.Valid()
    ensures from.repr + to.repr == old(from.repr + to.repr)
    ensures old(from.nodes) == [] ==> from.nodes == [] && to.nodes == old(to.nodes)
    ensures old(from.nodes) != [] ==>
              from.nodes == old(from.nodes)[1..] && to.nodes == [old(from.nodes)[0]] + old(to.nodes)
    ensures out.log == Logged(old(out.log), old(from.nodes) != [], txt)
  {
    if from.head != null {
      var tempA := from.head;
      var tempB := tempA.next;
      assert tempA == from.nodes[0] && tempA in from.repr;
      Popped(from.nodes, from.repr);
      hide Linked, Owned, NoDup;
      tempA.next := to.head;
      from.head := tempB;
      Pushed(tempA, to.head, to.nodes, to.repr);
      to.head := tempA;
      from.repr, to.repr := from.repr - {tempA}, to.repr + {tempA};
      from.nodes, to.nodes := from.nodes[1..], [tempA] + to.nodes;
      out.Write(txt, 3);
    }
  }

  method SwapX(stack: Stack, out: Output, txt: Option<Instr>)
    requires stack.Valid() && out.Valid() && ThreeBytes(txt)
    modifies stack, out, stack.repr`next
    ensures stack.Valid() && stack.repr == old(stack.repr) && out.Valid()
    ensures stack.nodes == Swapped(old(stack.nodes))
    ensures out.log == Logged(old(out.log), |old(stack.nodes)| >= 2, txt)
  {
    var original := stack.head;
    if original != null && original.next != null {
      ghost var was := stack.nodes;
      assert original == was[0] && original.next == was[1];
      var temp := original.next;
      original.next := original.next.next;
      temp.next := original;
      stack.head := temp;
      stack.nodes := Swapped(was);
      out.Write(txt, 3);
    }
  }

  lemma RotatedLinked(was: seq<Node>)
    requires NoDup(was) && |was| >= 2
    requires forall i {:trigger was[i].next} | 0 < i < |was| ::
               was[i].next == if i + 1 < |was| then was[i + 1] else was[0]
    requires was[0].next == null
    ensures Linked(was[1], Rotated(was))
  {
  }

  lemma ReverseRotatedLinked(was: seq<Node>)
    requires NoDup(was) && |was| >= 2
    requires forall i {:trigger was[i].next} | 0 <= i < |was| - 2 :: was[i].next == was[i + 1]
    requires was[|was| - 2].next == null && was[|was| - 1].next == was[0]
    ensures Linked(was[|was| - 1], ReverseRotated(was))
  {
  }

  method RotateX(stack: Stack, out: Output, txt: Option<Instr>)
    requires stack.Valid() && out.Valid() && ThreeBytes(txt)
    modifies stack, out, stack.repr`next
    ensures stack.Valid() && stack.repr == old(stack.repr) && out.Valid()
    ensures stack.nodes == Rotated(old(stack.nodes))
    ensures out.log == Logged(old(out.log), |old(stack.nodes)| >= 2, txt)
  {
    var temp := stack.head;
    if temp != null && temp.next != null {
      ghost var was := stack.nodes;
      assert temp == was[0] && temp.next == was[1];
      var moved := temp;
      stack.head := temp.next;
      ghost var k := 0;
      while temp.next != null
        invariant 0 <= k < |was| && temp == was[k]
        invariant stack.nodes == was && Linked(was[0], was)
        decreases |was| - k
      {
        temp := temp.next;
        k := k + 1;
      }
      assert k == |was| - 1;
      temp.next := moved;
      moved.next := null;
      stack.nodes := Rotated(was);
      RotatedLinked(was);
      out.Write(txt, 3);
    }
  }

  method ReverseRotateX(stack: Stack, out: Output, txt: Option<Instr>)
    requires stack.Valid() && out.Valid() && FourBytes(txt)
    modifies stack, out, stack.repr`next
    ensures stack.Valid() && stack.repr == old(stack.repr) && out.Valid()
    ensures stack.nodes == ReverseRotated(old(stack.nodes))
    ensures out.log == Logged(old(out.log), |old(stack.nodes)| >= 2, txt)
  {
    var lastNode := stack.head;
    if lastNode != null && lastNode.next != null {
      ghost var was := stack.nodes;
      assert lastNode == was[0] && lastNode.next == was[1];
      var secondToLast: Node? := null;
      ghost var k := 0;
      while lastNode.next != null
        invariant 0 <= k < |was| && lastNode == was[k]
        invariant secondToLast == if k == 0 then null else was[k - 1]
        invariant stack.nodes == was && Linked(was[0], was)
        decreases |was| - k
      {
        secondToLast := lastNode;
        lastNode := lastNode.next;
        k := k + 1;
      }
      assert k == |was| - 1 && secondToLast == was[k - 1];
      if secondToLast != null {
        secondToLast.next := null;
      }
      lastNode.next := stack.head;
      stack.head := lastNode;
      stack.nodes := ReverseRotated(was);
      ReverseRotatedLinked(was);
      out.Write(txt, 4);
    }
  }

  method SwapBoth(a: Stack, b: Stack, out: Output)
    requires a != b && a.Valid() && b.Valid() && a.repr !! b.repr && out.Valid()
    modifies a, b, out, a.repr`next, b.repr`next
    ensures a.Valid() && b.Valid() && out.Valid()
    ensures a.repr == old(a.repr) && b.repr == old(b.repr)
    ensures a.nodes == Swapped(old(a.nodes)) && b.nodes == Swapped(old(b.nodes))
    ensures out.log == Logged(old(out.log), |old(b.nodes)| >= 2, Some(Ss))
  {
    SwapX(a, out, None);
    SwapX(b, out, Some(Ss));
  }

  method RotateBoth(a: Stack, b: Stack, out: Output)
    requires a != b && a.Valid() && b.Valid() && a.repr !! b.repr && out.Valid()
    modifies a, b, out, a.repr`next, b.repr`next
    ensures a.Valid() && b.Valid() && out.Valid()
    ensures a.repr == old(a.repr) && b.repr == old(b.repr)
    ensures a.nodes == Rotated(old(a.nodes)) && b.nodes == Rotated(old(b.nodes))
    ensures out.log == Logged(old(out.log), |old(b.nodes)| >= 2, Some(Rr))
  {
    RotateX(a, out, None);
    RotateX(b, out, Some(Rr));
  }

  method ReverseRotateBoth(a: Stack, b: Stack, out: Output)
    requires a != b && a.Valid() && b.Valid() && a.repr !! b.repr && out.Valid()
    modifies a, b, out, a.repr`next, b.repr`next
    ensures a.Valid() && b.Valid() && out.Valid()
    ensures a.repr == old(a.repr) && b.repr == old(b.repr)
    ensures a.nodes == ReverseRotated(old(a.nodes)) && b.nodes == ReverseRotated(old(b.nodes))
    ensures out.log == Logged(old(out.log), |old(b.nodes)| >= 2, Some(Rrr))
  {
    ReverseRotateX(a, out, None);
    ReverseRotateX(b, out, Some(Rrr));
  }

  /** The combined instruction that a code of `multiple_operation` stands for. */
  function Combined(op: int): (r: Instr)
    requires op in {1, 2, 3}
    ensures r in {Ss, Rr, Rrr}
  {
    if op == 1 then Ss else if op == 2 then Rr else Rrr
  }

  /** What a code of `multiple_operation` does to each of the two stacks. */
  function Turned<T>(op: int, s: seq<T>): (r: seq<T>)
    ensures op in {1, 2, 3} ==> Exec(Combined(op), Stacks(s, s)) == Stacks(r, r)
    ensures |r| == |s|
  {
    if op == 1 then Swapped(s)
    else if op == 2 then Rotated(s)
    else if op == 3 then ReverseRotated(s)
    else s
  }

  method MultipleOperation(a: Stack, b: Stack, out: Output, op: int)
    requires a != b && a.Valid() && b.Valid() && a.repr !! b.repr && out.Valid()
    modifies a, b, out, a.repr`next, b.repr`next
    ensures a.Valid() && b.Valid() && out.Valid()
    ensures a.repr == old(a.repr) && b.repr == old(b.repr)
    ensures a.nodes == Turned(op, old(a.nodes)) && b.nodes == Turned(op, old(b.nodes))
    ensures out.log ==
              Logged(old(out.log), op in {1, 2, 3} && |old(b.nodes)| >= 2,
                     if op in {1, 2, 3} then Some(Combined(op)) else None)
  {
    if op == 1 {
      SwapBoth(a, b, out);
    } else if op == 2 {
      RotateBoth(a, b, out);
    } else if op == 3 {
      ReverseRotateBoth(a, b, out);
    }
  }
}
