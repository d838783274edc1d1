/** The eleven instructions of push_swap on a pair of sequences, the reference
    interpreter that replays an instruction list, and the text that is printed. */
module Instructions {
  import opened Basics

  datatype Instr = Sa | Sb | Ss | Pa | Pb | Ra | Rb | Rr | Rra | Rrb | Rrr

  datatype Stacks<T> = Stacks(a: seq<T>, b: seq<T>)

  function Swapped<T>(s: seq<T>): (r: seq<T>)
    ensures |r| == |s|
  {
    if |s| < 2 then s else [s[1], s[0]] + s[2..]
  }

  function Rotated<T>(s: seq<T>): (r: seq<T>)
    ensures |r| == |s|
  {
    if |s| < 2 then s else s[1..] + [s[0]]
  }

  function ReverseRotated<T>(s: seq<T>): (r: seq<T>)
    ensures |r| == |s|
  {
    if |s| < 2 then s else [s[|s| - 1]] + s[..|s| - 1]
  }

  function Exec<T>(op: Instr, st: Stacks<T>): Stacks<T> {
    match op
    case Sa => st.(a := Swapped(st.a))
    case Sb => st.(b := Swapped(st.b))
    case Ss => Stacks(Swapped(st.a), Swapped(st.b))
    case Pa => if st.b == [] then st else Stacks([st.b[0]] + st.a, st.b[1..])
    case Pb => if st.a == [] then st else Stacks(st.a[1..], [st.a[0]] + st.b)
    case Ra => st.(a := Rotated(st.a))
    case Rb => st.(b := Rotated(st.b))
    case Rr => Stacks(Rotated(st.a), Rotated(st.b))
    case Rra => st.(a := ReverseRotated(st.a))
    case Rrb => st.(b := ReverseRotated(st.b))
    case Rrr => Stacks(ReverseRotated(st.a), ReverseRotated(st.b))
  }

  /** Runs a whole list of instructions, first to last. */
  function Replay<T>(log: seq<Instr>, st: Stacks<T>): Stacks<T> {
    if log == [] then st
    else Exec(log[|log| - 1], Replay(log[..|log| - 1], st))
  }

  lemma ReplaySnoc<T>(log: seq<Instr>, op: Instr, st: Stacks<T>)
    ensures Replay(log + [op], st) == Exec(op, Replay(log, st))
  {
    assert (log + [op])[..|log|] == log;
  }

  ghost function Contents<T>(st: Stacks<T>): multiset<T> {
    multiset(st.a) + multiset(st.b)
  }

  lemma SwappedKeeps<T>(s: seq<T>)
    ensures multiset(Swapped(s)) == multiset(s)
  {
    if |s| >= 2 {
      assert s == [s[0], s[1]] + s[2..];
    }
  }

  lemma RotatedKeeps<T>(s: seq<T>)
    ensures multiset(Rotated(s)) == multiset(s)
  {
    if |s| >= 2 {
      assert s == [s[0]] + s[1..];
    }
  }

  lemma ReverseRotatedKeeps<T>(s: seq<T>)
    ensures multiset(ReverseRotated(s)) == multiset(s)
  {
    if |s| >= 2 {
      assert s == s[..|s| - 1] + [s[|s| - 1]];
    }
  }

  lemma PopKeeps<T>(s: seq<T>)
    requires s != []
    ensures multiset(s) == multiset{s[0]} + multiset(s[1..])
  {
    assert s == [s[0]] + s[1..];
  }

  lemma ExecKeepsContents<T>(op: Instr, st: Stacks<T>)
    ensures Contents(Exec(op, st)) == Contents(st)
  {
    match op
    case Sa => SwappedKeeps(st.a);
    case Sb => SwappedKeeps(st.b);
    case Ss => SwappedKeeps(st.a); SwappedKeeps(st.b);
    case Pa => if st.b != [] { PopKeeps(st.b); }
    case Pb => if st.a != [] { PopKeeps(st.a); }
    case Ra => RotatedKeeps(st.a);
    case Rb => RotatedKeeps(st.b);
    case Rr => RotatedKeeps(st.a); RotatedKeeps(st.b);
    case Rra => ReverseRotatedKeeps(st.a);
    case Rrb => ReverseRotatedKeeps(st.b);
    case Rrr => ReverseRotatedKeeps(st.a); ReverseRotatedKeeps(st.b);
  }

  /** No sequence of instructions loses, duplicates or invents an element. */
  lemma {:induction false} ReplayKeepsContents<T>(log: seq<Instr>, st: Stacks<T>)
    ensures Contents(Replay(log, st)) == Contents(st)
  {
    if log != [] {
      var front := log[..|log| - 1];
      ReplayKeepsContents(front, st);
      ExecKeepsContents(log[|log| - 1], Replay(front, st));
    }
  }

  function Mapped<T, U>(f: T -> U, s: seq<T>): (r: seq<U>)
    ensures |r| == |s| && forall i | 0 <= i < |s| :: r[i] == f(s[i])
  {
    seq(|s|, i requires 0 <= i < |s| => f(s[i]))
  }

  function MappedStacks<T, U>(f: T -> U, st: Stacks<T>): Stacks<U> {
    Stacks(Mapped(f, st.a), Mapped(f, st.b))
  }

  lemma MovesNatural<T, U>(f: T -> U, s: seq<T>)
    ensures Mapped(f, Swapped(s)) == Swapped(Mapped(f, s))
    ensures Mapped(f, Rotated(s)) == Rotated(Mapped(f, s))
    ensures Mapped(f, ReverseRotated(s)) == ReverseRotated(Mapped(f, s))
  {
  }

  lemma PushNatural<T, U>(f: T -> U, s: seq<T>, t: seq<T>)
    requires s != []
    ensures Mapped(f, [s[0]] + t) == [Mapped(f, s)[0]] + Mapped(f, t)
    ensures Mapped(f, s[1..]) == Mapped(f, s)[1..]
  {
  }

  lemma ExecNatural<T, U>(f: T -> U, op: Instr, st: Stacks<T>)
    ensures Exec(op, MappedStacks(f, st)) == MappedStacks(f, Exec(op, st))
  {
    hide Swapped, Rotated, ReverseRotated, Mapped;
    MovesNatural(f, st.a);
    MovesNatural(f, st.b);
    if op == Pa && st.b != [] {
      PushNatural(f, st.b, st.a);
    }
    if op == Pb && st.a != [] {
      PushNatural(f, st.a, st.b);
    }
  }

  /** The interpreter never looks at the elements it moves. */
  lemma {:induction false} ReplayNatural<T, U>(f: T -> U, log: seq<Instr>, st: Stacks<T>)
    ensures Replay(log, MappedStacks(f, st)) == MappedStacks(f, Replay(log, st))
  {
    if log != [] {
      var front := log[..|log| - 1];
      ReplayNatural(f, front, st);
      ExecNatural(f, log[|log| - 1], Replay(front, st));
    }
  }

  // ------------------------------------------------------------------ rotations

  /** The left rotation by k places. */
  function RotL<T>(s: seq<T>, k: nat): (r: seq<T>)
    requires k <= |s|
    ensures |r| == |s|
    ensures forall i | 0 <= i < |s| :: r[i] == s[if i + k < |s| then i + k else i + k - |s|]
  {
    s[k..] + s[..k]
  }

  /** A signed number of rotations: ra's when positive, rra's when negative. */
  ghost predicate Admissible<T>(s: seq<T>, c: int) {
    -|s| <= c <= |s|
  }

  function SignedRot<T>(s: seq<T>, c: int): (r: seq<T>)
    requires Admissible(s, c)
    ensures |r| == |s|
  {
    RotL(s, if c >= 0 then c else |s| + c)
  }

  lemma SignedRotForward<T>(s: seq<T>, c: int)
    requires Admissible(s, c) && c > 0
    ensures SignedRot(Rotated(s), c - 1) == SignedRot(s, c)
  {
    var left, right := SignedRot(Rotated(s), c - 1), SignedRot(s, c);
    assert forall i | 0 <= i < |s| :: left[i] == right[i];
  }

  lemma SignedRotBackward<T>(s: seq<T>, c: int)
    requires Admissible(s, c) && c < 0
    ensures SignedRot(ReverseRotated(s), c + 1) == SignedRot(s, c)
  {
    var left, right := SignedRot(ReverseRotated(s), c + 1), SignedRot(s, c);
    assert forall i | 0 <= i < |s| :: left[i] == right[i];
  }

  lemma SignedRotZero<T>(s: seq<T>)
    ensures SignedRot(s, 0) == s
  {
  }

  // ---------------------------------------------------------- combined instructions

  /** The list printed so far after an operation that was given a text or NULL: it prints
      only when it moved something. */
  function Logged(log: seq<Instr>, moved: bool, txt: Option<Instr>): seq<Instr> {
    if moved && txt.Some? then log + [txt.value] else log
  }

  /** `multiple_operation` prints in its second half only.  Its text accounts for its effect
      exactly when the second stack is long enough to print, or the first too short to move. */
  lemma CombinedFaithfulIff<T>(op: Instr, st: Stacks<T>)
    requires op in {Ss, Rr, Rrr}
    requires NoDup(st.a)
    ensures Replay(Logged([], |st.b| >= 2, Some(op)), st) == Exec(op, st) <==> |st.b| >= 2 || |st.a| < 2
  {
    if |st.b| >= 2 {
      assert [] + [op] == [op] && [op][..0] == [];
      assert Replay([op][..0], st) == st;
    } else if |st.a| >= 2 {
      assert Exec(op, st).a[0] != st.a[0];
    }
  }

  /** With one node in the second stack the first one moves without a word. */
  lemma CombinedSilent()
    ensures var st := Stacks([1, 2], [3]);
            && Exec(Ss, st) == Stacks([2, 1], [3])
            && Replay(Logged([], |st.b| >= 2, Some(Ss)), st) == st
  {
    assert Swapped([1, 2]) == [2, 1];
  }

  // ------------------------------------------------------------------------ text

  function Name(op: Instr): string {
    match op
    case Sa => "sa"
    case Sb => "sb"
    case Ss => "ss"
    case Pa => "pa"
    case Pb => "pb"
    case Ra => "ra"
    case Rb => "rb"
    case Rr => "rr"
    case Rra => "rra"
    case Rrb => "rrb"
    case Rrr => "rrr"
  }

  /** The bytes written for one instruction. */
  function Text(op: Instr): string {
    Name(op) + "\n"
  }

  /** How many bytes that is. */
  function Width(op: Instr): (n: nat)
    ensures n == |Text(op)|
  {
    if op.Rra? || op.Rrb? || op.Rrr? then 4 else 3
  }

  function Render(log: seq<Instr>): string {
    if log == [] then "" else Text(log[0]) + Render(log[1..])
  }

  lemma {:induction false} RenderSnoc(log: seq<Instr>, op: Instr)
    ensures Render(log + [op]) == Render(log) + Text(op)
  {
    if log == [] {
      assert [op][1..] == [];
    } else {
      assert (log + [op])[1..] == log[1..] + [op];
      RenderSnoc(log[1..], op);
    }
  }

  function ReadName(name: string): Option<Instr> {
    if name == "sa" then Some(Sa)
    else if name == "sb" then Some(Sb)
    else if name == "ss" then Some(Ss)
    else if name == "pa" then Some(Pa)
    else if name == "pb" then Some(Pb)
    else if name == "ra" then Some(Ra)
    else if name == "rb" then Some(Rb)
    else if name == "rr" then Some(Rr)
    else if name == "rra" then Some(Rra)
    else if name == "rrb" then Some(Rrb)
    else if name == "rrr" then Some(Rrr)
    else None
  }

  /** Reads one instruction per line. */
  function ReadText(text: string, line: string := ""): Option<seq<Instr>>
    decreases |text|
  {
    if text == "" then (if line == "" then Some([]) else None)
    else if text[0] != '\n' then ReadText(text[1..], line + [text[0]])
    else match ReadName(line)
      case None => None
      case Some(op) =>
        match ReadText(text[1..], "")
        case None => None
        case Some(ops) => Some([op] + ops)
  }

  /** Reading past the characters of a line that hold no newline. */
  lemma {:induction false} ReadAlong(name: string, rest: string, line: string)
    requires '\n' !in name
    ensures ReadText(name + rest, line) == ReadText(rest, line + name)
    decreases |name|
  {
    if name == "" {
      assert name + rest == rest && line + name == line;
    } else {
      assert (name + rest)[1..] == name[1..] + rest;
      assert line + name == (line + [name[0]]) + name[1..];
      ReadAlong(name[1..], rest, line + [name[0]]);
    }
  }

  lemma NameReads(op: Instr)
    ensures ReadName(Name(op)) == Some(op) && '\n' !in Name(op)
  {
  }

  /** The printed text determines the instruction list. */
  lemma {:induction false} ReadRender(log: seq<Instr>)
    ensures ReadText(Render(log)) == Some(log)
  {
    hide Name, ReadName;
    if log != [] {
      var op := log[0];
      var name := Name(op);
      NameReads(op);
      var rest := Render(log[1..]);
      assert Render(log) == name + ("\n" + rest);
      ReadAlong(name, "\n" + rest, "");
      assert "" + name == name;
      assert ("\n" + rest)[1..] == rest;
      ReadRender(log[1..]);
      assert [op] + log[1..] == log;
    }
  }
}
