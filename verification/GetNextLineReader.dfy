/** get_next_line over arbitrary block sizes and short or failing reads. */
module Reader {
  import opened Basics
  import opened Split

  ghost predicate NulFree(s: string) {
    forall k | 0 <= k < |s| :: s[k] != '\0'
  }

  /** The C string in a buffer: everything before the first NUL. */
  function CString(s: string): (r: string)
    ensures |r| <= |s|
    ensures NulFree(s) ==> r == s
  {
    if s == "" || s[0] == '\0' then "" else [s[0]] + CString(s[1..])
  }

  /** It is the text up to the first NUL, all of it if there is none. */
  lemma {:induction false} CStringIs(s: string)
    ensures var r := CString(s);
            && r <= s && NulFree(r)
            && (r != s ==> s[|r|] == '\0')
  {
    if s != "" && s[0] != '\0' {
      CStringIs(s[1..]);
      assert s == [s[0]] + s[1..];
    }
  }

  /** An open file: what has not been read yet, the text that the blocks read so far have as C
      strings, and how many reads have failed. */
  class File {
    var rest: string
    ghost var seen: string
    ghost var failures: nat

    constructor (content: string)
      ensures rest == content && seen == "" && failures == 0
    {
      rest := content;
      seen := "";
      failures := 0;
    }

    /** read(2): -1 on failure, 0 at the end, otherwise any number of bytes up to `size`. */
    method Read(size: int) returns (n: int, data: string)
      requires size > 0
      modifies this
      ensures n == -1 ==> rest == old(rest) && data == ""
      ensures n == 0 ==> old(rest) == "" && rest == "" && data == ""
      ensures n > 0 ==> n <= size && data + rest == old(rest) && |data| == n
      ensures seen == old(seen) + CString(data)
      ensures n >= -1 && failures == old(failures) + if n == -1 then 1 else 0
    {
      var fails: bool := *;
      if fails {
        failures := failures + 1;
        return -1, "";
      }
      if rest == "" {
        return 0, "";
      }
      n :| 1 <= n <= size && n <= |rest|;
      data := rest[..n];
      rest := rest[n..];
      seen := seen + CString(data);
    }
  }

  /** What reading makes of a file: `got` is the text of the blocks read, which are just the
      bytes that the rest has lost if there is no NUL among them. */
  ghost predicate Progress(rest0: string, seen0: string, got: string, rest: string, seen: string) {
    && seen == seen0 + got
    && |got| + |rest| <= |rest0|
    && (NulFree(rest0) ==> NulFree(rest) && got + rest == rest0)
  }

  lemma NoProgress(rest: string, seen: string)
    ensures Progress(rest, seen, "", rest, seen) && CString("") == ""
  {
    assert "" + rest == rest && seen + "" == seen;
  }

  /** One more block. */
  lemma BlockProgress(block: string, rest: string, seen: string)
    ensures Progress(block + rest, seen, CString(block), rest, seen + CString(block))
  {
    if NulFree(block + rest) {
      assert forall k | 0 <= k < |block| :: block[k] == (block + rest)[k];
      assert forall k | 0 <= k < |rest| :: rest[k] == (block + rest)[|block| + k];
    }
  }

  lemma MoreProgress(rest0: string, seen0: string, got: string, rest1: string, seen1: string,
                     more: string, rest: string, seen: string)
    requires Progress(rest0, seen0, got, rest1, seen1) && Progress(rest1, seen1, more, rest, seen)
    ensures Progress(rest0, seen0, got + more, rest, seen)
  {
    assert got + more + rest == got + (more + rest);
    assert seen0 + got + more == seen0 + (got + more);
  }

  /** The bytes of a static buffer, NULL meaning none. */
  function Text(buffer: Option<string>): string {
    if buffer.Some? then buffer.value else ""
  }

  ghost predicate Newline(s: string, pos: int) {
    0 <= pos < |s| && s[pos] == '\n' && forall k | 0 <= k < pos :: s[k] != '\n'
  }

  ghost predicate NoNewline(s: string) {
    forall k | 0 <= k < |s| :: s[k] != '\n'
  }

  /** The position of the first newline, if there is one. */
  method StrChrNewline(s: Option<string>, nlinePos: int) returns (found: bool, pos: int)
    ensures found ==> s.Some? && Newline(s.value, pos)
    ensures !found ==> (s.Some? ==> NoNewline(s.value)) && pos == nlinePos
  {
    pos := nlinePos;
    if s == None {
      return false, pos;
    }
    var i := 0;
    while i < |s.value|
      invariant 0 <= i <= |s.value|
      invariant forall k | 0 <= k < i :: s.value[k] != '\n'
    {
      if s.value[i] == '\n' {
        return true, i;
      }
      i := i + 1;
    }
    return false, pos;
  }

  method CreateCopyReturn(buffer: Option<string>, temp: string) returns (joined: string, myline: int)
    ensures joined == Text(buffer) + CString(temp) && myline == |joined|
  {
    var old', block := Text(buffer), CString(temp);
    myline := |old'| + |block|;
    var memory := new char[myline];
    var i, j := 0, 0;
    while i < |old'|
      invariant 0 <= i <= |old'|
      invariant memory[..i] == old'[..i]
    {
      memory[i] := old'[i];
      i := i + 1;
    }
    assert memory[..i] == old';
    while j < |block|
      invariant 0 <= j <= |block| && i == |old'| + j
      invariant memory[..i] == old' + block[..j]
    {
      memory[i] := block[j];
      i, j := i + 1, j + 1;
    }
    assert block[..j] == block && memory[..i] == memory[..];
    joined := memory[..];
  }

  method CopyUntilN(buffer: string, nlinePos: int, myline: int) returns (copied: Option<string>)
    requires -1 <= nlinePos < |buffer|
    requires nlinePos == -1 && buffer != "" ==> 0 <= myline <= |buffer|
    ensures nlinePos == -1 && buffer == "" ==> copied == None
    ensures nlinePos == -1 && buffer != "" ==> copied == Some(buffer[..myline])
    ensures nlinePos != -1 ==> copied == Some(buffer[..nlinePos + 1])
  {
    var len := 0;
    if nlinePos == -1 {
      if buffer == "" {
        return None;
      }
      len := myline;
    } else {
      len := nlinePos + 1;
    }
    var memory := new char[len];
    var i := 0;
    while i < len
      invariant 0 <= i <= len
      invariant memory[..i] == buffer[..i]
    {
      memory[i] := buffer[i];
      i := i + 1;
    }
    assert memory[..i] == memory[..];
    copied := Some(memory[..]);
  }

  method StaticHandler(buffer: string, line: Option<string>, nlinePos: int) returns (kept: Option<string>)
    requires line.Some? && nlinePos >= 0 ==> nlinePos < |line.value| && nlinePos < |buffer|
    requires nlinePos >= -1
    ensures kept == if line.Some? && nlinePos >= 0 && line.value[nlinePos] == '\n'
                    then Some(buffer[nlinePos + 1..]) else None
  {
    if line == None {
      return None;
    }
    var i := nlinePos + 1;
    if i > 0 && line.value[i - 1] == '\n' {
      var memory := new char[|buffer| - i];
      var j := 0;
      while j + i < |buffer|
        invariant 0 <= j <= |buffer| - i
        invariant memory[..j] == buffer[i..i + j]
      {
        memory[j] := buffer[j + i];
        j := j + 1;
      }
      assert memory[..j] == memory[..] && buffer[i..i + j] == buffer[i..];
      return Some(memory[..]);
    } else {
      return None;
    }
  }

  /** Reads blocks until the buffer holds a newline or the file is used up. */
  method FtRead(file: File, size: int, buffer0: Option<string>, nlinePos0: int, myline0: int)
    returns (buffer: Option<string>, nlinePos: int, myline: int, ghost failed: bool, ghost got: string)
    requires size > 0
    modifies file
    ensures Progress(old(file.rest), old(file.seen), got, file.rest, file.seen)
    ensures file.failures == old(file.failures) + if failed then 1 else 0
    ensures failed ==> buffer == None
    ensures !failed ==> buffer.Some? && buffer.value == Text(buffer0) + got
    ensures !failed ==>
              || Newline(buffer.value, nlinePos)
              || (NoNewline(buffer.value) && nlinePos == nlinePos0 && file.rest == "" && myline == |buffer.value|)
  {
    hide Progress, NulFree, CString, Newline, NoNewline;
    NoProgress(file.rest, file.seen);
    buffer, nlinePos, myline, failed, got := buffer0, nlinePos0, myline0, false, "";
    var readVal := 1;
    var found: bool;
    found, nlinePos := StrChrNewline(buffer, nlinePos);
    while !found && readVal > 0
      invariant readVal >= 0 && file.failures == old(file.failures)
      invariant Progress(old(file.rest), old(file.seen), got, file.rest, file.seen)
      invariant Text(buffer) == Text(buffer0) + got && (found ==> buffer.Some?)
      invariant found ==> Newline(buffer.value, nlinePos)
      invariant !found ==> (buffer.Some? ==> NoNewline(buffer.value)) && nlinePos == nlinePos0
      invariant readVal == 0 ==> file.rest == "" && buffer.Some? && myline == |buffer.value|
      decreases |file.rest| + readVal
    {
      ghost var before, seen, block := file.rest, file.seen, "";
      readVal, buffer, myline, block := ReadBlock(file, size, buffer, myline);
      MoreProgress(old(file.rest), old(file.seen), got, before, seen, block, file.rest, file.seen);
      got := got + block;
      if readVal == -1 {
        return None, nlinePos, myline, true, got;
      }
      found, nlinePos := StrChrNewline(buffer, nlinePos);
    }
  }

  /** One turn of the loop in `ft_read`. */
  method ReadBlock(file: File, size: int, buffer0: Option<string>, myline0: int)
    returns (readVal: int, buffer: Option<string>, myline: int, ghost block: string)
    requires size > 0
    modifies file
    ensures readVal >= -1 && file.failures == old(file.failures) + if readVal == -1 then 1 else 0
    ensures Progress(old(file.rest), old(file.seen), block, file.rest, file.seen)
    ensures readVal >= 0 ==> buffer == Some(Text(buffer0) + block) && myline == |buffer.value|
    ensures readVal == 0 ==> old(file.rest) == "" && file.rest == ""
    ensures readVal > 0 ==> |file.rest| + readVal <= |old(file.rest)|
  {
    hide Progress, NulFree, CString;
    ghost var before, seen := file.rest, file.seen;
    buffer, myline := buffer0, myline0;
    var temp: string;
    readVal, temp := file.Read(size);
    block := CString(temp);
    assert temp + file.rest == before;
    BlockProgress(temp, file.rest, seen);
    if readVal == -1 {
      return;
    }
    var joined: string;
    joined, myline := CreateCopyReturn(buffer, temp);
    buffer := Some(joined);
  }

  lemma FirstLineAt(text: string, pos: int)
    requires Newline(text, pos)
    ensures FirstLine(text) == text[..pos + 1]
  {
    FirstLineFound(text[..pos + 1], text[pos + 1..]);
    assert text == text[..pos + 1] + text[pos + 1..];
  }

  lemma FirstLineWhole(text: string)
    requires text != "" && NoNewline(text)
    ensures FirstLine(text) == text
  {
    FirstLineFound(text, "");
    assert text + "" == text;
  }

  /** What a call owes for a text: its first line, and the rest of the text kept.  Only the end
      of the file may leave the line without a newline. */
  ghost predicate Served(text: string, rest: string, line: Option<string>, left: string) {
    && line == NextLine(text) && left == AfterLine(text)
    && (rest == "" || (line.Some? && Terminated(line.value)))
  }

  /** The newline found in the buffer ends the first line. */
  lemma CutAt(content: string, rest: string, pos: int)
    requires Newline(content, pos)
    ensures Served(content, rest, Some(content[..pos + 1]), content[pos + 1..])
  {
    FirstLineAt(content, pos);
  }

  /** Without a newline the file is used up, and what is left is its last line. */
  lemma CutWhole(content: string)
    requires NoNewline(content)
    ensures Served(content, "", if content == "" then None else Some(content), "")
  {
    if content != "" {
      FirstLineWhole(content);
    }
  }

  /** The line is also the first one of all that is still to come. */
  lemma ServedAhead(text: string, rest: string, line: Option<string>, left: string)
    requires Served(text, rest, line, left)
    ensures line == NextLine(text + rest) && left + rest == AfterLine(text + rest)
  {
    if rest == "" {
      assert text + rest == text && left + rest == left;
    } else {
      FirstLineIsLine(text);
      assert text + rest == FirstLine(text) + (left + rest);
      FirstLineFound(FirstLine(text), left + rest);
    }
  }

  /** One call on one buffer, whatever the block size and however the reads were cut; after a
      failed read the buffer is gone. */
  method Deliver(file: File, size: int, buffer0: Option<string>)
    returns (line: Option<string>, buffer: Option<string>, ghost failed: bool, ghost got: string)
    requires size > 0
    modifies file
    ensures Progress(old(file.rest), old(file.seen), got, file.rest, file.seen)
    ensures file.failures == old(file.failures) + if failed then 1 else 0
    ensures failed ==> line == None && buffer == None
    ensures !failed ==> Served(Text(buffer0) + got, file.rest, line, Text(buffer))
  {
    var nlinePos, myline := -1, 0;
    buffer, nlinePos, myline, failed, got := FtRead(file, size, buffer0, nlinePos, myline);
    if buffer == None {
      return None, None, true, got;
    }
    hide FirstLine, AfterLine, NextLine, Served, Progress;
    var content := buffer.value;
    if nlinePos >= 0 {
      CutAt(content, file.rest, nlinePos);
    } else {
      CutWhole(content);
      assert content[..myline] == content;
    }
    line := CopyUntilN(content, nlinePos, myline);
    buffer := StaticHandler(content, line, nlinePos);
  }

  /** The one static buffer of get_next_line.c. */
  class Single {
    var buffer: Option<string>

    constructor ()
      ensures buffer == None
    {
      buffer := None;
    }

    /** `readable` is the outcome of the probing read of no bytes.  Blocks count as C strings;
        without NUL bytes the answer is the next line of what is left of the file. */
    method GetNextLine(file: File, fd: int, size: int, readable: bool)
      returns (line: Option<string>, ghost failed: bool, ghost got: string)
      modifies this, file
      ensures failed ==> line == None && buffer == None
      ensures failed <==> !readable || fd < 0 || size <= 0 || file.failures > old(file.failures)
      ensures Progress(old(file.rest), old(file.seen), got, file.rest, file.seen) && file.failures >= old(file.failures)
      ensures !failed ==> Served(old(Text(buffer)) + got, file.rest, line, Text(buffer))
      ensures !failed && NulFree(old(file.rest)) ==>
                && line == NextLine(old(Text(buffer) + file.rest))
                && Text(buffer) + file.rest == AfterLine(old(Text(buffer) + file.rest))
    {
      hide NextLine, AfterLine, Served;
      NoProgress(file.rest, file.seen);
      got := "";
      if !readable || fd < 0 || size <= 0 {
        buffer := None;
        return None, true, got;
      }
      line, buffer, failed, got := Deliver(file, size, buffer);
      if !failed {
        ServedAhead(old(Text(buffer)) + got, file.rest, line, Text(buffer));
        assert old(Text(buffer)) + got + file.rest == old(Text(buffer)) + (got + file.rest);
      }
    }

    /** `parse` of so_long: the lines of a file until NULL, all of them unless a read fails. */
    method Parse(file: File, fd: int, size: int)
      returns (lines: seq<string>, ghost failed: bool, ghost got: string)
      requires fd >= 0 && size > 0
      modifies this, file
      ensures Progress(old(file.rest), old(file.seen), got, file.rest, file.seen)
      ensures failed <==> file.failures > old(file.failures)
      ensures !failed ==> lines == Lines(old(Text(buffer)) + got)
      ensures !failed && NulFree(old(file.rest)) ==> lines == Lines(old(Text(buffer) + file.rest))
      ensures !failed ==> Text(buffer) + file.rest == ""
    {
      hide FirstLine, NextLine, AfterLine, Concat, Progress, NulFree;
      NoProgress(file.rest, file.seen);
      lines, failed, got := [], false, "";
      var line: Option<string>;
      NoLines();
      while true
        invariant !failed && file.failures == old(file.failures)
        invariant Progress(old(file.rest), old(file.seen), got, file.rest, file.seen)
        invariant Concat(lines) + Text(buffer) == old(Text(buffer)) + got
        invariant forall k | 0 <= k < |lines| :: OneLine(lines[k])
        invariant forall k | 0 <= k < |lines| - 1 :: Terminated(lines[k])
        invariant lines == [] || Terminated(lines[|lines| - 1]) || (Text(buffer) == "" && file.rest == "")
        decreases |Text(buffer)| + |file.rest|
      {
        ghost var text, rest, seen, more := Text(buffer), file.rest, file.seen, "";
        line, failed, more := GetNextLine(file, fd, size, true);
        MoreProgress(old(file.rest), old(file.seen), got, rest, seen, more, file.rest, file.seen);
        CutOff(text + more);
        Onward(Concat(lines), text, old(Text(buffer)) + got, more, Text(line), Text(buffer));
        got := got + more;
        Shorter(rest, seen, more, file.rest, file.seen);
        if line == None {
          if !failed {
            SplitIsLines(lines, old(Text(buffer)) + got);
            Shorter(old(file.rest), old(file.seen), got, file.rest, file.seen);
            assert got + "" == got && old(Text(buffer)) + got == old(Text(buffer)) + got + file.rest;
          }
          return;
        }
        ConcatSnoc(lines, line.value);
        lines := lines + [line.value];
      }
    }
  }

  lemma NoLines()
    ensures Concat([]) == ""
  {
  }

  lemma Shorter(rest0: string, seen0: string, got: string, rest: string, seen: string)
    requires Progress(rest0, seen0, got, rest, seen)
    ensures |got| + |rest| <= |rest0| && (NulFree(rest0) ==> NulFree(rest) && got + rest == rest0)
  {
  }

  lemma Onward(done: string, text: string, total: string, more: string, line: string, left: string)
    requires done + text == total
    ensures line + left == text + more ==> done + line + left == total + more
    ensures text + more == "" ==> done == total + more
  {
    assert done + line + left == done + (line + left);
    assert total + more == done + (text + more);
  }

  lemma CutOff(text: string)
    ensures NextLine(text) == None ==> text == "" && AfterLine(text) == ""
    ensures Text(NextLine(text)) + AfterLine(text) == text
    ensures NextLine(text).Some? ==>
              && OneLine(NextLine(text).value)
              && (Terminated(NextLine(text).value) || AfterLine(text) == "")
  {
    if text != "" {
      FirstLineIsLine(text);
    }
  }

  /** get_next_line_bonus.c: one static buffer per descriptor. */
  class Several {
    const buffers: array<Option<string>>
    const files: seq<File>

    ghost predicate Valid() {
      buffers.Length == |files| && forall i, j | 0 <= i < j < |files| :: files[i] != files[j]
    }

    /** What each descriptor still has to deliver. */
    ghost function Pending(fd: int): string
      requires 0 <= fd < buffers.Length == |files|
      reads this, buffers, files
    {
      Text(buffers[fd]) + files[fd].rest
    }

    ghost function AllPending(): (r: seq<string>)
      requires buffers.Length == |files|
      reads this, buffers, files
      ensures |r| == |files| && forall fd | 0 <= fd < |files| :: r[fd] == Pending(fd)
    {
      seq(|files|, fd requires 0 <= fd < |files| reads this, buffers, files => Pending(fd))
    }

    constructor (files: seq<File>)
      requires forall i, j | 0 <= i < j < |files| :: files[i] != files[j]
      ensures Valid() && this.files == files && fresh(buffers)
      ensures forall fd | 0 <= fd < |files| :: Pending(fd) == files[fd].rest
    {
      this.files := files;
      buffers := new Option<string>[|files|](_ => None);
    }

    /** A call moves on the descriptor it names and no other. */
    method GetNextLine(fd: nat, size: int, readable: bool)
      returns (line: Option<string>, ghost failed: bool, ghost got: string)
      requires Valid() && fd < |files|
      modifies buffers, files[fd]
      ensures forall other {:trigger Pending(other)} {:trigger files[other]} | 0 <= other < |files| && other != fd ::
                && Pending(other) == old(Pending(other)) && files[other].rest == old(files[other].rest)
                && files[other].failures == old(files[other].failures)
      ensures failed <==> !readable || size <= 0 || files[fd].failures > old(files[fd].failures)
      ensures files[fd].failures >= old(files[fd].failures)
      ensures Progress(old(files[fd].rest), old(files[fd].seen), got, files[fd].rest, files[fd].seen)
      ensures failed ==> line == None && buffers[fd] == None
      ensures !failed ==> Served(old(Text(buffers[fd])) + got, files[fd].rest, line, Text(buffers[fd]))
      ensures !failed && NulFree(old(files[fd].rest)) ==>
                line == NextLine(old(Pending(fd))) && Pending(fd) == AfterLine(old(Pending(fd)))
    {
      hide NextLine, AfterLine, Served;
      NoProgress(files[fd].rest, files[fd].seen);
      got := "";
      if !readable || size <= 0 {
        buffers[fd] := None;
        return None, true, got;
      }
      var buffer: Option<string>;
      line, buffer, failed, got := Deliver(files[fd], size, buffers[fd]);
      buffers[fd] := buffer;
      if !failed {
        ServedAhead(old(Text(buffers[fd])) + got, files[fd].rest, line, Text(buffer));
        assert old(Text(buffers[fd])) + got + files[fd].rest == old(Text(buffers[fd])) + (got + files[fd].rest);
      }
    }

    /** Interleaved calls on several descriptors answer as if each file were alone.  A failed
        read costs its own descriptor the buffer and leaves the others' answers as they are. */
    method Calls(calls: seq<nat>, size: int) returns (answers: seq<Option<string>>, ghost failed: bool)
      requires Valid() && size > 0 && forall k | 0 <= k < |calls| :: calls[k] < |files|
      modifies buffers, files
      ensures failed <==> exists fd :: 0 <= fd < |files| && files[fd].failures > old(files[fd].failures)
      ensures |answers| == |calls|
      ensures forall k {:trigger answers[k]} | 0 <= k < |calls| && NulFree(old(files[calls[k]].rest))
                && files[calls[k]].failures == old(files[calls[k]].failures) ::
                answers[k] == Answer(old(AllPending())[calls[k]], Earlier(calls, k, calls[k]))
      ensures !failed && (forall fd | 0 <= fd < |files| :: NulFree(old(files[fd].rest))) ==>
                answers == Serve(old(AllPending()), calls)
    {
      hide NulFree, Answer, Earlier, Later, NextLine, AfterLine, Served, Progress, Pending, AllPending;
      answers, failed := [], false;
      var i := 0;
      ghost var texts, bad := AllPending(), 0;
      ghost var sound := seq(|files|, fd requires 0 <= fd < |files| reads files => NulFree(files[fd].rest));
      NobodyYet(texts, calls);
      while i < |calls|
        invariant 0 <= i <= |calls| && |answers| == i && |sound| == |files|
        invariant failed ==> 0 <= bad < |files| && files[bad].failures > old(files[bad].failures)
        invariant !failed ==> forall fd | 0 <= fd < |files| :: files[fd].failures == old(files[fd].failures)
        invariant forall fd | 0 <= fd < |files| :: files[fd].failures >= old(files[fd].failures)
        invariant forall fd | 0 <= fd < |files| ::
                    sound[fd] <==> NulFree(old(files[fd].rest)) && files[fd].failures == old(files[fd].failures)
        invariant forall fd | 0 <= fd < |files| && sound[fd] ::
                    NulFree(files[fd].rest) && Pending(fd) == Later(texts[fd], Earlier(calls, i, fd))
        invariant forall k | 0 <= k < i && sound[calls[k]] ::
                    answers[k] == Answer(texts[calls[k]], Earlier(calls, k, calls[k]))
      {
        var fd := calls[i];
        ghost var rest, seen := files[fd].rest, files[fd].seen;
        var line: Option<string>;
        ghost var fails: bool, got: string;
        line, fails, got := GetNextLine(fd, size, true);
        Shorter(rest, seen, got, files[fd].rest, files[fd].seen);
        failed, bad := failed || fails, if fails then fd else bad;
        sound := if fails then sound[fd := false] else sound;
        OneCallMore(texts, calls, i);
        answers := answers + [line];
        i := i + 1;
      }
      if !failed && forall fd | 0 <= fd < |files| :: NulFree(old(files[fd].rest)) {
        AllServed(texts, calls, answers);
      }
    }
  }

  lemma NobodyYet(texts: seq<string>, calls: seq<nat>)
    ensures forall fd | 0 <= fd < |texts| :: Later(texts[fd], Earlier(calls, 0, fd)) == texts[fd]
  {
  }

  lemma OneCallMore(texts: seq<string>, calls: seq<nat>, i: nat)
    requires i < |calls| && calls[i] < |texts|
    ensures var fd := calls[i];
            && Answer(texts[fd], Earlier(calls, i, fd)) == NextLine(Later(texts[fd], Earlier(calls, i, fd)))
            && Later(texts[fd], Earlier(calls, i + 1, fd)) == AfterLine(Later(texts[fd], Earlier(calls, i, fd)))
    ensures forall fd {:trigger texts[fd]} | 0 <= fd < |texts| && fd != calls[i] ::
              Earlier(calls, i + 1, fd) == Earlier(calls, i, fd)
  {
    AnswerLater(texts[calls[i]], Earlier(calls, i, calls[i]));
    forall fd | 0 <= fd < |texts|
      ensures Earlier(calls, i + 1, fd) == Earlier(calls, i, fd) + if calls[i] == fd then 1 else 0
    {
      EarlierNext(calls, i, fd);
    }
  }

  lemma AllServed(texts: seq<string>, calls: seq<nat>, answers: seq<Option<string>>)
    requires |answers| == |calls| && forall k | 0 <= k < |calls| :: calls[k] < |texts|
    requires forall k | 0 <= k < |calls| :: answers[k] == Answer(texts[calls[k]], Earlier(calls, k, calls[k]))
    ensures answers == Serve(texts, calls)
  {
    ServeLength(texts, calls);
    forall k | 0 <= k < |calls| ensures answers[k] == Serve(texts, calls)[k] {
      CallsDoNotMix(texts, calls, k);
    }
  }
}
