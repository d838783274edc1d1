/** Splitting a text into lines: what get_next_line is for. */
module Split {
  import opened Basics

  function FirstLine(text: string): (line: string)
    ensures |line| <= |text| && line == text[..|line|]
    ensures text != "" ==> line != ""
  {
    if text == "" then ""
    else if text[0] == '\n' then [text[0]]
    else [text[0]] + FirstLine(text[1..])
  }

  /** The lines of a text, each with the newline that ends it. */
  function Lines(text: string): seq<string> {
    if text == "" then [] else [FirstLine(text)] + Lines(text[|FirstLine(text)|..])
  }

  /** A newline only at the end, if at all. */
  ghost predicate OneLine(line: string) {
    line != "" && forall k | 0 <= k < |line| - 1 :: line[k] != '\n'
  }

  ghost predicate Terminated(line: string) {
    line != "" && line[|line| - 1] == '\n'
  }

  /** A text cut after every newline and nowhere else. */
  ghost predicate IsSplit(parts: seq<string>, text: string) {
    && Concat(parts) == text
    && (forall k | 0 <= k < |parts| :: OneLine(parts[k]))
    && (forall k | 0 <= k < |parts| - 1 :: Terminated(parts[k]))
  }

  lemma {:induction false} FirstLineIsLine(text: string)
    requires text != ""
    ensures OneLine(FirstLine(text))
    ensures |FirstLine(text)| < |text| ==> Terminated(FirstLine(text))
  {
    if text[0] != '\n' && |text| > 1 {
      FirstLineIsLine(text[1..]);
      var rest := FirstLine(text[1..]);
      assert FirstLine(text) == [text[0]] + rest;
      forall k | 0 <= k < |FirstLine(text)| - 1 ensures FirstLine(text)[k] != '\n' {
        if k > 0 {
          assert rest[k - 1] != '\n';
        }
      }
    }
  }

  lemma {:induction false} LinesAreSplit(text: string)
    ensures IsSplit(Lines(text), text)
  {
    if text != "" {
      var line := FirstLine(text);
      var rest := text[|line|..];
      FirstLineIsLine(text);
      LinesAreSplit(rest);
      assert text == line + rest;
      forall k | 0 <= k < |Lines(text)| - 1 ensures Terminated(Lines(text)[k]) {
        if k > 0 {
          assert Lines(text)[k] == Lines(rest)[k - 1];
        } else {
          assert rest != "";
        }
      }
    }
  }

  lemma {:induction false} FirstLineFound(line: string, rest: string)
    requires OneLine(line) && (rest != "" ==> Terminated(line))
    ensures FirstLine(line + rest) == line
  {
    if |line| > 1 {
      assert line[0] != '\n';
      assert (line + rest)[1..] == line[1..] + rest;
      forall k | 0 <= k < |line[1..]| - 1 ensures line[1..][k] != '\n' {
        assert line[k + 1] != '\n';
      }
      FirstLineFound(line[1..], rest);
    } else if line[0] != '\n' {
      assert line + rest == line;
    }
  }

  /** The split is the only one there is. */
  lemma {:induction false} SplitIsLines(parts: seq<string>, text: string)
    requires IsSplit(parts, text)
    ensures parts == Lines(text)
  {
    if parts != [] {
      var rest := Concat(parts[1..]);
      assert OneLine(parts[0]);
      if |parts| > 1 {
        assert Terminated(parts[0]);
      }
      FirstLineFound(parts[0], rest);
      assert text[|parts[0]|..] == rest;
      SplitIsLines(parts[1..], rest);
    }
  }

  /** What one call has to return for a text still to be delivered, and what it leaves. */
  function NextLine(text: string): Option<string> {
    if text == "" then None else Some(FirstLine(text))
  }

  function AfterLine(text: string): string {
    text[|FirstLine(text)|..]
  }

  /** The answer to the k-th call on a text. */
  function Answer(text: string, k: nat): Option<string> {
    if k < |Lines(text)| then Some(Lines(text)[k]) else None
  }

  lemma AnswerNext(text: string, k: nat)
    ensures Answer(text, 0) == NextLine(text)
    ensures Answer(text, k + 1) == Answer(AfterLine(text), k)
  {
  }

  /** What is left of a text after k calls. */
  function Later(text: string, k: nat): string {
    if k == 0 then text else Later(AfterLine(text), k - 1)
  }

  lemma {:induction false} AnswerLater(text: string, k: nat)
    ensures Answer(text, k) == NextLine(Later(text, k))
    ensures Later(text, k + 1) == AfterLine(Later(text, k))
    decreases k
  {
    hide FirstLine, AfterLine, NextLine, Answer;
    if k == 0 {
      AnswerNext(text, 0);
    } else {
      AnswerNext(text, k - 1);
      AnswerLater(AfterLine(text), k - 1);
    }
  }

  // ------------------------------------------------------- several texts at a time

  /** The answers to a list of calls, each naming the text it reads from. */
  function Serve(texts: seq<string>, calls: seq<nat>): seq<Option<string>>
    requires forall k | 0 <= k < |calls| :: calls[k] < |texts|
    decreases |calls|
  {
    if calls == [] then []
    else [NextLine(texts[calls[0]])] + Serve(texts[calls[0] := AfterLine(texts[calls[0]])], calls[1..])
  }

  /** How often `fd` was called before position k. */
  function Earlier(calls: seq<nat>, k: nat, fd: nat): nat
    requires k <= |calls|
  {
    if k == 0 then 0 else (if calls[0] == fd then 1 else 0) + Earlier(calls[1..], k - 1, fd)
  }

  lemma {:induction false} EarlierNext(calls: seq<nat>, k: nat, fd: nat)
    requires k < |calls|
    ensures Earlier(calls, k + 1, fd) == Earlier(calls, k, fd) + if calls[k] == fd then 1 else 0
    decreases k
  {
    if k > 0 {
      EarlierNext(calls[1..], k - 1, fd);
    }
  }

  /** However calls are interleaved, each descriptor sees its own lines in order. */
  lemma {:induction false} CallsDoNotMix(texts: seq<string>, calls: seq<nat>, k: nat)
    requires forall i | 0 <= i < |calls| :: calls[i] < |texts|
    requires k < |calls|
    ensures |Serve(texts, calls)| == |calls|
    ensures Serve(texts, calls)[k] == Answer(texts[calls[k]], Earlier(calls, k, calls[k]))
    decreases |calls|
  {
    ServeLength(texts, calls);
    var fd := calls[0];
    if k == 0 {
      AnswerNext(texts[fd], 0);
    } else {
      CallsDoNotMix(texts[fd := AfterLine(texts[fd])], calls[1..], k - 1);
      if calls[k] == fd {
        AnswerNext(texts[fd], Earlier(calls[1..], k - 1, fd));
      }
    }
  }

  lemma {:induction false} ServeLength(texts: seq<string>, calls: seq<nat>)
    requires forall i | 0 <= i < |calls| :: calls[i] < |texts|
    ensures |Serve(texts, calls)| == |calls|
    decreases |calls|
  {
    if calls != [] {
      ServeLength(texts[calls[0] := AfterLine(texts[calls[0]])], calls[1..]);
    }
  }
}
