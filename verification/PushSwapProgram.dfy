/** push_swap from its arguments to its output. */
module Program {
  import opened Basics
  import opened Instructions
  import opened LinkedStack
  import opened Costs
  import opened PushSwapRun
  import opened Parser
  import opened PushSwap

  // ----------------------------------------------------------------------- ft_parse

  /** The length of the first word. */
  function WordLength(s: string): (n: nat)
    ensures n <= |s|
  {
    if s == "" || s[0] == ' ' then 0 else 1 + WordLength(s[1..])
  }

  /** What splitting at spaces gives. */
  function Words(s: string): seq<string>
    decreases |s|
  {
    if s == "" then []
    else if s[0] == ' ' then Words(s[1..])
    else [s[..WordLength(s)]] + Words(s[WordLength(s)..])
  }

  /** The tokens of the arguments; None for a single argument that is empty or starts with a
      space. */
  function Tokens(args: seq<string>): Option<seq<string>> {
    if |args| != 1 then Some(args)
    else if args[0] == "" || args[0][0] == ' ' then None
    else Some(Words(args[0]))
  }

  function Join(tokens: seq<string>): string
    requires tokens != []
  {
    if |tokens| == 1 then tokens[0] else tokens[0] + [' '] + Join(tokens[1..])
  }

  ghost predicate IsWord(s: string) {
    s != "" && forall i | 0 <= i < |s| :: s[i] != ' '
  }

  lemma {:induction false} WordAhead(s: string, rest: string)
    requires forall i | 0 <= i < |s| :: s[i] != ' '
    requires rest == "" || rest[0] == ' '
    ensures WordLength(s + rest) == |s|
  {
    if s != "" {
      assert (s + rest)[1..] == s[1..] + rest;
      WordAhead(s[1..], rest);
    } else {
      assert s + rest == rest;
    }
  }

  predicate AllSpaces(s: string) {
    forall i | 0 <= i < |s| :: s[i] == ' '
  }

  /** Words with the gaps before, between and after them. */
  function Laid(gaps: seq<string>, words: seq<string>): string
    requires |gaps| == |words| + 1
  {
    if words == [] then gaps[0] else gaps[0] + (words[0] + Laid(gaps[1..], words[1..]))
  }

  /** Gaps are of spaces, and there is one between any two words. */
  ghost predicate Spaced(gaps: seq<string>, words: seq<string>) {
    && |gaps| == |words| + 1
    && (forall k | 0 <= k < |gaps| :: AllSpaces(gaps[k]))
    && (forall k | 0 < k < |words| :: gaps[k] != "")
    && (forall k | 0 <= k < |words| :: IsWord(words[k]))
  }

  lemma {:induction false} SpacesSkipped(gap: string, rest: string)
    requires AllSpaces(gap)
    ensures Words(gap + rest) == Words(rest)
    decreases |gap|
  {
    if gap == "" {
      assert gap + rest == rest;
    } else {
      assert (gap + rest)[1..] == gap[1..] + rest;
      SpacesSkipped(gap[1..], rest);
    }
  }

  lemma WordTaken(word: string, rest: string)
    requires IsWord(word) && (rest == "" || rest[0] == ' ')
    ensures Words(word + rest) == [word] + Words(rest)
  {
    WordAhead(word, rest);
    assert (word + rest)[..|word|] == word && (word + rest)[|word|..] == rest;
  }

  /** However many spaces lie before, between and after them, splitting finds the words. */
  lemma {:induction false} WordsFound(gaps: seq<string>, words: seq<string>)
    requires Spaced(gaps, words)
    ensures Words(Laid(gaps, words)) == words
    decreases |words|
  {
    if words == [] {
      SpacesSkipped(gaps[0], "");
      assert gaps[0] + "" == gaps[0];
    } else {
      var rest := Laid(gaps[1..], words[1..]);
      SpacesSkipped(gaps[0], words[0] + rest);
      assert IsWord(words[0]) && AllSpaces(gaps[1]);
      if |words| > 1 {
        assert gaps[1] != "" && rest == gaps[1] + (words[1] + Laid(gaps[1..][1..], words[1..][1..]));
      }
      WordTaken(words[0], rest);
      WordsFound(gaps[1..], words[1..]);
    }
  }

  lemma GapAhead(gaps: seq<string>, words: seq<string>)
    requires Spaced(gaps, words) && (Laid(gaps, words) == "" || Laid(gaps, words)[0] == ' ')
    ensures words != [] ==> gaps[0] != ""
  {
    if words != [] {
      assert IsWord(words[0]);
    }
  }

  lemma WordLaid(word: string, gaps: seq<string>, words: seq<string>)
    requires Spaced(gaps, words) && IsWord(word) && (words != [] ==> gaps[0] != "")
    ensures Spaced([""] + gaps, [word] + words)
    ensures Laid([""] + gaps, [word] + words) == word + Laid(gaps, words)
  {
    var more, all := [""] + gaps, [word] + words;
    assert more[1..] == gaps && all[1..] == words;
    assert forall k | 0 < k < |all| :: more[k] == gaps[k - 1] && all[k] == words[k - 1];
  }

  lemma SpaceLaid(gaps: seq<string>, words: seq<string>)
    requires Spaced(gaps, words)
    ensures Spaced([[' '] + gaps[0]] + gaps[1..], words)
    ensures Laid([[' '] + gaps[0]] + gaps[1..], words) == [' '] + Laid(gaps, words)
  {
    var more := [[' '] + gaps[0]] + gaps[1..];
    assert more[1..] == gaps[1..];
    assert forall k | 0 < k < |gaps| :: more[k] == gaps[k];
  }

  /** Every text is words with gaps, so that says what splitting does to any text. */
  lemma {:induction false} TextIsWords(s: string) returns (gaps: seq<string>)
    ensures Spaced(gaps, Words(s)) && Laid(gaps, Words(s)) == s
    decreases |s|
  {
    hide Laid, Spaced;
    if s == "" {
      gaps := [""];
      NoWords();
    } else if s[0] == ' ' {
      var rest := TextIsWords(s[1..]);
      LaidLength(rest, Words(s[1..]));
      SpaceLaid(rest, Words(s[1..]));
      gaps := [[' '] + rest[0]] + rest[1..];
      assert s == [' '] + s[1..];
    } else {
      var n := WordLength(s);
      FirstWord(s);
      var rest := TextIsWords(s[n..]);
      GapAhead(rest, Words(s[n..]));
      WordLaid(s[..n], rest, Words(s[n..]));
      gaps := [""] + rest;
      assert s == s[..n] + s[n..];
    }
  }

  lemma NoWords()
    ensures Spaced([""], []) && Laid([""], []) == ""
  {
  }

  lemma LaidLength(gaps: seq<string>, words: seq<string>)
    requires Spaced(gaps, words)
    ensures |gaps| == |words| + 1
  {
  }

  lemma {:induction false} FirstWord(s: string)
    requires s != "" && s[0] != ' '
    ensures IsWord(s[..WordLength(s)])
    ensures s[WordLength(s)..] == "" || s[WordLength(s)..][0] == ' '
  {
    if |s| > 1 && s[1] != ' ' {
      FirstWord(s[1..]);
      assert s[..WordLength(s)] == [s[0]] + s[1..][..WordLength(s[1..])];
      assert s[WordLength(s)..] == s[1..][WordLength(s[1..])..];
    }
  }

  lemma {:induction false} WordsOfJoin(tokens: seq<string>)
    requires tokens != [] && forall i | 0 <= i < |tokens| :: IsWord(tokens[i])
    ensures Words(Join(tokens)) == tokens
    decreases |tokens|
  {
    var s := tokens[0];
    assert IsWord(s);
    if |tokens| == 1 {
      WordTaken(s, "");
      assert s + "" == s;
    } else {
      var rest := [' '] + Join(tokens[1..]);
      WordTaken(s, rest);
      assert s + [' '] + Join(tokens[1..]) == s + rest && rest[1..] == Join(tokens[1..]);
      WordsOfJoin(tokens[1..]);
    }
  }

  lemma AcceptedIsWord(s: string)
    requires Accepted(s)
    ensures IsWord(s)
  {
    forall i | 0 <= i < |s| ensures s[i] != ' ' {
      if i > 0 || Body(s) == s {
        var k := i - (|s| - |Body(s)|);
        assert s[i] == Body(s)[k] && IsDigit(Body(s)[k]);
      }
    }
  }

  /** Acceptable numbers can be given as one argument, joined by spaces, or as separate ones. */
  lemma OneArgumentOrMany(tokens: seq<string>)
    requires tokens != [] && Acceptable(tokens)
    ensures Tokens([Join(tokens)]) == Some(tokens)
    ensures Tokens(tokens) == Some(tokens)
  {
    forall i | 0 <= i < |tokens| ensures IsWord(tokens[i]) {
      AcceptedIsWord(tokens[i]);
    }
    WordsOfJoin(tokens);
    assert IsWord(tokens[0]);
    if |tokens| == 1 {
      assert tokens == [Join(tokens)];
    }
  }

  // -------------------------------------------------------------------- create_stack

  /** A new node becomes the last one. */
  method Append(stack: Stack, last: Node?, temp: Node)
    requires stack.Valid() && temp !in stack.repr && temp.next == null
    requires last == if stack.nodes == [] then null else stack.nodes[|stack.nodes| - 1]
    requires stack.repr == NodeSet(stack.nodes)
    modifies stack, stack.repr`next
    ensures stack.Valid() && stack.nodes == old(stack.nodes) + [temp]
    ensures stack.repr == NodeSet(stack.nodes) && stack.repr == old(stack.repr) + {temp}
  {
    if stack.head != null {
      last.next := temp;
    } else {
      stack.head := temp;
    }
    stack.nodes := stack.nodes + [temp];
    stack.repr := stack.repr + {temp};
  }

  /** A node has the number of its token, if that is acceptable. */
  ghost predicate Shows(node: Node, token: string) {
    Accepted(token) ==> node.number == Value(token)
  }

  /** `create_stack`: a list with the numbers in the order of the tokens, all unranked.  It
      fails, with its nodes freed, exactly if some token before the last is not acceptable. */
  method CreateStack(data: seq<string>) returns (stack: Stack, ok: bool)
    ensures ok <==> forall i | 0 <= i < |data| - 1 :: Accepted(data[i])
    ensures ok ==> fresh(stack) && fresh(stack.repr) && stack.Valid() && stack.repr == NodeSet(stack.nodes)
    ensures ok ==> |stack.nodes| == |data| && forall i | 0 <= i < |data| :: stack.nodes[i].index == 0
    ensures ok ==> forall i | 0 <= i < |data| :: Shows(stack.nodes[i], data[i])
    ensures AllAccepted(data) ==> ok && Numbers(stack.nodes) == Values(data)
  {
    hide Accepted, Value, Stack.Valid, NodeSet, Numbers, AllAccepted;
    EmptyStack();
    stack := new Stack();
    var last: Node? := null;
    var i, error := 0, false;
    while i < |data|
      invariant 0 <= i <= |data| && |stack.nodes| == i
      invariant fresh(stack) && fresh(stack.repr) && stack.Valid() && stack.repr == NodeSet(stack.nodes)
      invariant last == if stack.nodes == [] then null else stack.nodes[i - 1]
      invariant error <==> i > 0 && !Accepted(data[i - 1])
      invariant forall k | 0 <= k < i - 1 :: Accepted(data[k])
      invariant forall k | 0 <= k < i :: stack.nodes[k].index == 0 && Shows(stack.nodes[k], data[k])
    {
      if error {
        NotAll(data, i - 1);
        return stack, false;
      }
      var number;
      number, error := FtAtoiCheck(data[i], error);
      var temp := new Node(number);
      Append(stack, last, temp);
      last := temp;
      i := i + 1;
    }
    ok := true;
    if AllAccepted(data) {
      AllShown(stack.nodes, data);
    }
  }

  lemma AllShown(nodes: seq<Node>, data: seq<string>)
    requires AllAccepted(data) && |nodes| == |data|
    requires forall i | 0 <= i < |data| :: Shows(nodes[i], data[i])
    ensures Numbers(nodes) == Values(data)
  {
  }

  lemma NotAll(data: seq<string>, i: nat)
    requires i < |data| && !Accepted(data[i])
    ensures !AllAccepted(data)
  {
  }

  lemma EmptyStack()
    ensures NodeSet([]) == {}
  {
  }

  /** A list whose only token is no number is made all the same. */
  method BadTokenAccepted() returns (stack: Stack, ok: bool)
    ensures !Accepted("x") && ok && |stack.nodes| == 1
  {
    assert Body("x") == "x" && !IsDigit("x"[0]);
    stack, ok := CreateStack(["x"]);
  }

  // ---------------------------------------------------------------------------- main

  /** What the process leaves: its exit status, standard error, and the run if there was one. */
  datatype Exit = Exit(status: int, err: string, run: Option<Run>)

  const FAILED := Exit(1, "Error\n", None)

  /** The whole program.  Refused arguments give an error and no output; accepted ones give
      instructions that sort exactly the numbers that the arguments denote. */
  method PushSwapMain(args: seq<string>) returns (exit: Exit)
    requires Tokens(args).Some? ==> |Tokens(args).value| < INT_MAX
    ensures args == [] ==> exit == Exit(0, "", None)
    ensures args != [] && (Tokens(args).None? || !Acceptable(Tokens(args).value)) ==>
              exit.status == 1 && exit.err == "Error\n" && exit.run == None
    ensures args != [] && Tokens(args).Some? && Acceptable(Tokens(args).value) ==>
              && exit.status == 0 && exit.err == "" && exit.run.Some?
              && var run := exit.run.value;
                 && run.Valid() && run.b.nodes == [] && run.out.text == Render(run.out.log)
                 && Sorts(Values(Tokens(args).value), run.out.log, Numbers(run.a.nodes))
  {
    hide Sorts, Acceptable, Words, Numbers, Linked, Replay, Accepted;
    if |args| == 0 {
      return Exit(0, "", None);
    }
    if |args| == 1 && (args[0] == "" || args[0][0] == ' ') {
      return FAILED;
    }
    var tokens := if |args| == 1 then Words(args[0]) else args;
    var ok := ErrorFree(Some(tokens));
    if !ok {
      return FAILED;
    }
    AtLeastOne(args);
    AcceptableTokens(tokens);
    var stack, made := CreateStack(tokens);
    if !made {
      return Exit(1, "", None);
    }
    var run := new Run(stack);
    SortAll(run, |tokens|);
    return Exit(0, "", Some(run));
  }

  lemma AtLeastOne(args: seq<string>)
    requires args != [] && Tokens(args).Some?
    ensures Tokens(args).value != []
  {
  }

  lemma AcceptableTokens(tokens: seq<string>)
    requires Acceptable(tokens)
    ensures AllAccepted(tokens) && NoDup(Values(tokens)) && |Values(tokens)| == |tokens|
  {
  }
}
