/** `stream_file_chunked`: one call per writable event, with full, short and failed writes. */
module ChunkStream {
  import opened Basics
  import opened Coding

  /** What the caller keeps between calls, and every byte the client has been sent. */
  datatype Stream = Stream(offset: nat, pending: string, pendingSent: nat, sent: string, finished: bool)

  const START := Stream(0, "", 0, "", false)

  /** The result of write(2) on n bytes. */
  predicate IsWrite(w: int, n: nat) {
    -1 <= w <= n
  }

  function Block(file: string, offset: nat, size: nat): string
    requires offset <= |file|
  {
    if offset + size <= |file| then file[offset..offset + size] else file[offset..]
  }

  predicate CanFlush(s: Stream, w: int) {
    s.pending != "" && s.pendingSent <= |s.pending| && IsWrite(w, |s.pending| - s.pendingSent)
  }

  /** First half of a call: the rest of what is pending is written. */
  function Flushed(s: Stream, w: int): Stream
    requires CanFlush(s, w)
  {
    if w < 0 then s
    else
      var s1 := s.(pendingSent := s.pendingSent + w,
                   sent := s.sent + s.pending[s.pendingSent..s.pendingSent + w]);
      if s1.pendingSent < |s1.pending| then s1
      else s1.(pending := "", pendingSent := 0, finished := s1.pending == FINAL)
  }

  predicate CanSend(file: string, size: nat, s: Stream, w: int) {
    s.pending == "" && (s.offset < |file| ==> IsWrite(w, |Encode(Block(file, s.offset, size))|))
  }

  /** Second half: the next block, or the last chunk once the file is used up. */
  function Sent(file: string, size: nat, s: Stream, w: int): Stream
    requires CanSend(file, size, s, w)
  {
    if |file| <= s.offset then s.(pending := FINAL, pendingSent := 0)
    else
      var block := Block(file, s.offset, size);
      var chunk := Encode(block);
      if w < 0 then s.(pending := chunk, pendingSent := 0)
      else if w < |chunk| then s.(pending := chunk, pendingSent := w, sent := s.sent + chunk[..w])
      else
        var s1 := s.(offset := s.offset + |block|, sent := s.sent + chunk);
        if |file| <= s1.offset then s1.(pending := FINAL, pendingSent := 0) else s1
  }

  /** The results of the two writes a call can make. */
  datatype Writes = Writes(first: int, second: int)

  function AfterFlush(s: Stream, w: int): Stream
    requires s.pending != "" ==> CanFlush(s, w)
  {
    if s.pending != "" then Flushed(s, w) else s
  }

  predicate Possible(file: string, size: nat, s: Stream, w: Writes) {
    && (s.pending != "" ==> CanFlush(s, w.first))
    && var f := AfterFlush(s, w.first);
       (f.pending == "" && !f.finished ==> CanSend(file, size, f, w.second))
  }

  function Called(file: string, size: nat, s: Stream, w: Writes): Stream
    requires Possible(file, size, s, w)
  {
    var f := AfterFlush(s, w.first);
    if f.pending == "" && !f.finished then Sent(file, size, f, w.second) else f
  }

  // ---------------------------------------------------------------------- history

  /** What a run has amounted to: the chunks completely written, and how many writes of each
      block as a new chunk were short or failed, for the blocks passed and the present one. */
  datatype Log = Log(done: seq<string>, past: seq<nat>, here: nat)

  function Sum(counts: seq<nat>): nat {
    if counts == [] then 0 else Sum(counts[..|counts| - 1]) + counts[|counts| - 1]
  }

  function Interrupted(log: Log): nat {
    Sum(log.past) + log.here
  }

  function FlushLogged(file: string, size: nat, s: Stream, log: Log, w: int): Log
    requires s.pending != "" ==> CanFlush(s, w)
    requires s.offset <= |file|
  {
    if s.pending != "" && s.pending != FINAL && Flushed(s, w).pending == ""
    then log.(done := log.done + [Block(file, s.offset, size)])
    else log
  }

  function SendLogged(file: string, size: nat, s: Stream, log: Log, w: int): Log
    requires CanSend(file, size, s, w)
  {
    if |file| <= s.offset then log
    else if w < |Encode(Block(file, s.offset, size))| then log.(here := log.here + 1)
    else Log(log.done + [Block(file, s.offset, size)], log.past + [log.here], 0)
  }

  function Logged(file: string, size: nat, s: Stream, log: Log, w: Writes): Log
    requires Possible(file, size, s, w) && s.offset <= |file|
  {
    var f := AfterFlush(s, w.first);
    var log1 := FlushLogged(file, size, s, log, w.first);
    if f.pending == "" && !f.finished then SendLogged(file, size, f, log1, w.second) else log1
  }

  function Repeat(block: string, n: nat): seq<string> {
    if n == 0 then [] else Repeat(block, n - 1) + [block]
  }

  /** Where the file goes on after so many blocks. */
  function Passed(file: string, size: nat, blocks: nat): (offset: nat)
    ensures offset <= |file|
  {
    if blocks == 0 then 0
    else
      var offset := Passed(file, size, blocks - 1);
      BlockFits(file, offset, size);
      offset + |Block(file, offset, size)|
  }

  /** The blocks of the file in order, each once and once more for every interrupted attempt. */
  function Sends(file: string, size: nat, past: seq<nat>): seq<string>
    decreases |past|
  {
    if past == [] then []
    else
      var n := |past| - 1;
      Sends(file, size, past[..n]) + Repeat(Block(file, Passed(file, size, n), size), past[n] + 1)
  }

  /** The bytes written are complete chunks plus the sent part of the pending one. */
  ghost predicate Framed(s: Stream, log: Log) {
    && s.pendingSent <= |s.pending|
    && (forall k | 0 <= k < |log.done| :: log.done[k] != "")
    && s.sent == EncodeAll(log.done) + if s.finished then FINAL else s.pending[..s.pendingSent]
  }

  /** What is pending: nothing, the last chunk, or the very block at the present offset. */
  ghost predicate Pended(file: string, size: nat, s: Stream) {
    && s.offset <= |file|
    && (s.finished ==> s.pending == "" && s.offset == |file|)
    && (s.pending != "" ==>
          if s.offset == |file| then s.pending == FINAL
          else s.pending == Encode(Block(file, s.offset, size)))
  }

  /** A block is pending, as a chunk whose write was interrupted. */
  predicate Owing(file: string, s: Stream) {
    s.pending != "" && s.offset < |file|
  }

  /** The chunks written are the blocks passed, each repeated for its interrupted attempts, and
      then the present block for those attempts that have been made good. */
  ghost predicate Covered(file: string, size: nat, s: Stream, log: Log) {
    && s.offset == Passed(file, size, |log.past|)
    && (log.past != [] ==> Passed(file, size, |log.past| - 1) < |file|)
    && (s.offset == |file| ==> log.here == 0)
    && (Owing(file, s) ==> log.here > 0)
    && log.done == Sends(file, size, log.past)
                   + Repeat(Block(file, s.offset, size), if Owing(file, s) then log.here - 1 else log.here)
  }

  ghost predicate Good(file: string, size: nat, s: Stream, log: Log) {
    Framed(s, log) && Pended(file, size, s) && Covered(file, size, s, log)
  }

  /** A block is as long as it may be. */
  lemma BlockLength(file: string, offset: nat, size: nat)
    requires offset <= |file|
    ensures |Block(file, offset, size)| == if offset + size < |file| then size else |file| - offset
    ensures Block(file, offset, size) == file[offset..offset + |Block(file, offset, size)|]
  {
  }

  lemma BlockFits(file: string, offset: nat, size: nat)
    requires offset <= |file|
    ensures offset + |Block(file, offset, size)| <= |file|
  {
  }

  lemma BlockIsNext(file: string, offset: nat, size: nat)
    requires offset < |file| && size > 0
    ensures Block(file, offset, size) != ""
    ensures offset + |Block(file, offset, size)| <= |file|
    ensures file[..offset + |Block(file, offset, size)|] == file[..offset] + Block(file, offset, size)
  {
  }

  /** A whole chunk more, its last part just written. */
  lemma ChunkMore(done: seq<string>, block: string, sent: string, part: string, chunk: string)
    requires chunk == Encode(block) && sent == EncodeAll(done) + part && part <= chunk
    ensures sent + chunk[|part|..] == EncodeAll(done + [block]) + ""
  {
    hide Encode;
    EncodeAllSnoc(done, block);
    assert chunk == part + chunk[|part|..];
  }

  lemma FlushFramed(file: string, size: nat, s: Stream, log: Log, w: int)
    requires size > 0 && Framed(s, log) && Pended(file, size, s) && !s.finished && CanFlush(s, w)
    ensures Framed(Flushed(s, w), FlushLogged(file, size, s, log, w)) && Pended(file, size, Flushed(s, w))
  {
    hide Encode, EncodeAll, Block;
    if w >= 0 {
      var part := s.pending[..s.pendingSent];
      assert part + s.pending[s.pendingSent..s.pendingSent + w] == s.pending[..s.pendingSent + w];
      if s.pendingSent + w == |s.pending| {
        assert s.pending[s.pendingSent..s.pendingSent + w] == s.pending[|part|..];
        assert s.pending[..|s.pending|] == s.pending;
        if s.offset < |file| {
          BlockIsNext(file, s.offset, size);
          DataIsNotFinal(Block(file, s.offset, size));
          ChunkMore(log.done, Block(file, s.offset, size), s.sent, part, s.pending);
        }
      }
    }
  }

  lemma FlushCovered(file: string, size: nat, s: Stream, log: Log, w: int)
    requires size > 0 && Good(file, size, s, log) && !s.finished && CanFlush(s, w)
    ensures Covered(file, size, Flushed(s, w), FlushLogged(file, size, s, log, w))
  {
    hide Framed, Encode, Block;
    if s.offset < |file| {
      BlockIsNext(file, s.offset, size);
      DataIsNotFinal(Block(file, s.offset, size));
    }
  }

  lemma SendFramed(file: string, size: nat, s: Stream, log: Log, w: int)
    requires size > 0 && Framed(s, log) && Pended(file, size, s) && !s.finished && CanSend(file, size, s, w)
    ensures Framed(Sent(file, size, s, w), SendLogged(file, size, s, log, w))
    ensures Pended(file, size, Sent(file, size, s, w))
  {
    hide Encode, EncodeAll, Block;
    assert EncodeAll(log.done) + "" == EncodeAll(log.done);
    if s.offset < |file| {
      var block := Block(file, s.offset, size);
      BlockIsNext(file, s.offset, size);
      DataIsNotFinal(block);
      ChunkMore(log.done, block, s.sent, "", Encode(block));
      assert Encode(block)[|""|..] == Encode(block);
    }
  }

  lemma SendCovered(file: string, size: nat, s: Stream, log: Log, w: int)
    requires size > 0 && Good(file, size, s, log) && !s.finished && CanSend(file, size, s, w)
    ensures Covered(file, size, Sent(file, size, s, w), SendLogged(file, size, s, log, w))
  {
    hide Framed, Encode, Block;
    if s.offset < |file| {
      var block := Block(file, s.offset, size);
      BlockIsNext(file, s.offset, size);
      DataIsNotFinal(block);
      var past := log.past + [log.here];
      assert past[..|log.past|] == log.past;
      assert Sends(file, size, past) == Sends(file, size, log.past) + Repeat(block, log.here + 1);
      assert Sends(file, size, past) + [] == Sends(file, size, past);
    }
  }

  lemma CallGood(file: string, size: nat, s: Stream, log: Log, w: Writes)
    requires size > 0 && Good(file, size, s, log) && !s.finished && Possible(file, size, s, w)
    ensures Good(file, size, Called(file, size, s, w), Logged(file, size, s, log, w))
  {
    hide Framed, Covered, Sent, Flushed;
    if s.pending != "" {
      FlushFramed(file, size, s, log, w.first);
      FlushCovered(file, size, s, log, w.first);
    }
    var f := AfterFlush(s, w.first);
    if f.pending == "" && !f.finished {
      SendFramed(file, size, f, FlushLogged(file, size, s, log, w.first), w.second);
      SendCovered(file, size, f, FlushLogged(file, size, s, log, w.first), w.second);
    }
  }

  // ------------------------------------------------------------------------- runs

  datatype Session = Session(stream: Stream, log: Log)

  /** A streamed response: calls until the last chunk is out; None when a listed write result
      is impossible or a call comes after the end. */
  function Run(file: string, size: nat, session: Session, writes: seq<Writes>): Option<Session>
    decreases |writes|
  {
    if writes == [] then Some(session)
    else if session.stream.finished || session.stream.offset > |file| then None
    else if !Possible(file, size, session.stream, writes[0]) then None
    else Run(file, size, Session(Called(file, size, session.stream, writes[0]),
                                 Logged(file, size, session.stream, session.log, writes[0])), writes[1..])
  }

  const FRESH := Session(START, Log([], [], 0))

  lemma StartGood(file: string, size: nat)
    ensures Good(file, size, START, Log([], [], 0))
  {
  }

  lemma {:induction false} RunGood(file: string, size: nat, session: Session, writes: seq<Writes>)
    requires size > 0 && Good(file, size, session.stream, session.log)
    requires Run(file, size, session, writes).Some?
    ensures var end := Run(file, size, session, writes).value; Good(file, size, end.stream, end.log)
    decreases |writes|
  {
    if writes != [] {
      CallGood(file, size, session.stream, session.log, writes[0]);
      RunGood(file, size, Session(Called(file, size, session.stream, writes[0]),
                                  Logged(file, size, session.stream, session.log, writes[0])), writes[1..]);
    }
  }

  lemma {:induction false} RepeatAmount(block: string, n: nat)
    requires block != ""
    ensures Concat(Repeat(block, 1)) == block
    ensures n > 0 ==> |Concat(Repeat(block, n))| >= |block| + n - 1
    decreases n
  {
    ConcatSnoc([], block);
    assert [] + [block] == [block] && Repeat(block, 0) == [];
    if n > 1 {
      RepeatAmount(block, n - 1);
      ConcatSnoc(Repeat(block, n - 1), block);
    }
  }

  lemma {:induction false} ConcatPlus(first: seq<string>, second: seq<string>)
    ensures Concat(first + second) == Concat(first) + Concat(second)
  {
    if first == [] {
      assert first + second == second;
    } else {
      assert (first + second)[1..] == first[1..] + second;
      ConcatPlus(first[1..], second);
    }
  }

  /** What the repeated blocks amount to: the file so far if nothing was interrupted, and more
      bytes than that otherwise. */
  lemma {:induction false} SendsAmount(file: string, size: nat, past: seq<nat>)
    requires size > 0 && (past != [] ==> Passed(file, size, |past| - 1) < |file|)
    ensures Sum(past) == 0 ==> Concat(Sends(file, size, past)) == file[..Passed(file, size, |past|)]
    ensures |Concat(Sends(file, size, past))| >= Passed(file, size, |past|) + Sum(past)
    decreases |past|
  {
    hide Block, Repeat, Concat;
    if past == [] {
      NothingSent();
    } else {
      var n := |past| - 1;
      var offset := Passed(file, size, n);
      var block := Block(file, offset, size);
      EarlierPassed(file, size, n);
      SendsAmount(file, size, past[..n]);
      BlockIsNext(file, offset, size);
      RepeatAmount(block, past[n] + 1);
      ConcatPlus(Sends(file, size, past[..n]), Repeat(block, past[n] + 1));
    }
  }

  /** The blocks of a file start at the multiples of the size. */
  lemma {:induction false} PassedIs(file: string, size: nat, k: nat)
    ensures Passed(file, size, k) == if k * size <= |file| then k * size else |file|
    decreases k
  {
    if k > 0 {
      PassedIs(file, size, k - 1);
      BlockLength(file, Passed(file, size, k - 1), size);
      assert k * size == (k - 1) * size + size;
    }
  }

  /** A piece of the file of the full size, or the end of the file. */
  ghost predicate IsPiece(file: string, size: nat, piece: string) {
    && 1 <= |piece| <= size
    && exists k: nat :: k * size + |piece| <= |file| && piece == file[k * size..k * size + |piece|]
                        && (|piece| == size || k * size + |piece| == |file|)
  }

  lemma BlockIsPiece(file: string, size: nat, k: nat)
    requires size > 0 && Passed(file, size, k) < |file|
    ensures IsPiece(file, size, Block(file, Passed(file, size, k), size))
  {
    PassedIs(file, size, k);
    BlockLength(file, k * size, size);
    var piece := Block(file, k * size, size);
    assert k * size + |piece| <= |file| && piece == file[k * size..k * size + |piece|];
  }

  lemma {:induction false} RepeatOnly(block: string, n: nat)
    ensures |Repeat(block, n)| == n && forall i | 0 <= i < n :: Repeat(block, n)[i] == block
    decreases n
  {
    if n > 0 {
      RepeatOnly(block, n - 1);
    }
  }

  /** Every chunk sent is a piece of the file. */
  lemma {:induction false} SendsPieces(file: string, size: nat, past: seq<nat>)
    requires size > 0 && (past != [] ==> Passed(file, size, |past| - 1) < |file|)
    ensures forall i | 0 <= i < |Sends(file, size, past)| :: IsPiece(file, size, Sends(file, size, past)[i])
    decreases |past|
  {
    hide IsPiece, Block, Repeat, Passed;
    if past != [] {
      var n := |past| - 1;
      EarlierPassed(file, size, n);
      SendsPieces(file, size, past[..n]);
      BlockIsPiece(file, size, n);
      RepeatOnly(Block(file, Passed(file, size, n), size), past[n] + 1);
    }
  }

  /** The successive pieces of a file, all of the size but the last, which is the rest. */
  ghost predicate CutEvenly(file: string, size: nat, pieces: seq<string>) {
    forall i | 0 <= i < |pieces| :: CutAt(file, size, i * size, pieces[i])
  }

  predicate CutAt(file: string, size: nat, from: nat, piece: string) {
    from < |file| && piece == if from + size < |file| then file[from..from + size] else file[from..]
  }

  lemma NoPieces(file: string, size: nat)
    ensures CutEvenly(file, size, [])
  {
  }

  lemma CutMore(file: string, size: nat, pieces: seq<string>, piece: string)
    requires CutEvenly(file, size, pieces) && CutAt(file, size, |pieces| * size, piece)
    ensures CutEvenly(file, size, pieces + [piece])
  {
    hide CutAt;
  }

  /** Without interruptions the chunks are the successive pieces of the file. */
  lemma {:induction false} SendsInOrder(file: string, size: nat, past: seq<nat>)
    requires size > 0 && (past != [] ==> Passed(file, size, |past| - 1) < |file|) && Sum(past) == 0
    ensures |Sends(file, size, past)| == |past| && CutEvenly(file, size, Sends(file, size, past))
    decreases |past|
  {
    hide Block, Repeat, Passed, CutEvenly;
    if past != [] {
      var n := |past| - 1;
      EarlierPassed(file, size, n);
      SendsInOrder(file, size, past[..n]);
      PassedIs(file, size, n);
      BlockLength(file, Passed(file, size, n), size);
      var block := Block(file, Passed(file, size, n), size);
      RepeatOnly(block, 1);
      assert Repeat(block, 1) == [block];
      CutMore(file, size, Sends(file, size, past[..n]), block);
    } else {
      NoPieces(file, size);
    }
  }

  lemma NothingSent()
    ensures Concat([]) == ""
  {
  }

  lemma EarlierPassed(file: string, size: nat, n: nat)
    ensures n > 0 ==> Passed(file, size, n - 1) <= Passed(file, size, n)
    ensures n > 0 && Passed(file, size, n) < |file| ==> Passed(file, size, n - 1) < |file|
  {
  }

  /** For every pattern of full, short and failed writes the bytes sent are complete chunks and
      a prefix of the pending one.  A finished stream is a complete message; its content is the
      blocks of the file in order, each once more for every interrupted attempt, and it is the
      file exactly when no data-chunk write was short or failed. */
  lemma StreamTheorem(file: string, size: nat, writes: seq<Writes>)
    requires size > 0 && Run(file, size, FRESH, writes).Some?
    ensures var end := Run(file, size, FRESH, writes).value;
            && Framed(end.stream, end.log)
            && (forall i | 0 <= i < |end.log.done| :: IsPiece(file, size, end.log.done[i]))
            && (end.stream.finished && Interrupted(end.log) == 0 ==> CutEvenly(file, size, end.log.done))
            && (end.stream.finished ==>
                  && Passed(file, size, |end.log.past|) == |file|
                  && Decode(end.stream.sent) == Some(Concat(Sends(file, size, end.log.past)))
                  && (Decode(end.stream.sent) == Some(file) <==> Interrupted(end.log) == 0))
  {
    hide Decode, Called, Logged, IsPiece, CutEvenly, Passed, Block;
    StartGood(file, size);
    RunGood(file, size, FRESH, writes);
    var end := Run(file, size, FRESH, writes).value;
    DonePieces(file, size, end.stream, end.log);
    if end.stream.finished {
      StreamDecodes(end.log.done);
      SendsAmount(file, size, end.log.past);
      assert Sends(file, size, end.log.past) + [] == Sends(file, size, end.log.past);
      assert file[..|file|] == file;
      if Interrupted(end.log) == 0 {
        SendsInOrder(file, size, end.log.past);
      }
    }
  }

  lemma DonePieces(file: string, size: nat, s: Stream, log: Log)
    requires size > 0 && Good(file, size, s, log)
    ensures forall i | 0 <= i < |log.done| :: IsPiece(file, size, log.done[i])
  {
    hide IsPiece, Block, Repeat, Passed;
    SendsPieces(file, size, log.past);
    if s.offset < |file| {
      BlockIsPiece(file, size, |log.past|);
    }
    RepeatOnly(Block(file, s.offset, size), if Owing(file, s) then log.here - 1 else log.here);
  }

  lemma RunStep(file: string, size: nat, session: Session, w: Writes, rest: seq<Writes>)
    requires !session.stream.finished && session.stream.offset <= |file| && Possible(file, size, session.stream, w)
    ensures Run(file, size, session, [w] + rest)
            == Run(file, size, Session(Called(file, size, session.stream, w),
                                       Logged(file, size, session.stream, session.log, w)), rest)
  {
    assert ([w] + rest)[1..] == rest;
  }

  /** A file of one block whose first write fails: the client decodes it twice over. */
  lemma SentTwice(file: string, size: nat) returns (writes: seq<Writes>)
    requires 0 < |file| <= size
    ensures Run(file, size, FRESH, writes).Some?
    ensures var end := Run(file, size, FRESH, writes).value;
            && end.stream.finished && Interrupted(end.log) == 1
            && Decode(end.stream.sent) == Some(file + file)
  {
    hide Encode, Decode, Run;
    var chunk := Encode(file);
    DataIsNotFinal(file);
    assert Block(file, 0, size) == file;
    var w1, w2, w3 := Writes(0, -1), Writes(|chunk|, |chunk|), Writes(|FINAL|, 0);
    var s1 := Session(START.(pending := chunk), Log([], [], 1));
    assert chunk[0..|chunk|] == chunk && FINAL[0..|FINAL|] == FINAL && "" + chunk == chunk;
    var s2 := Session(Stream(|file|, FINAL, 0, chunk + chunk, false), Log([file, file], [1], 0));
    assert [] + [file] + [file] == [file, file] && [] + [1] == [1];
    var s3 := Session(Stream(|file|, "", 0, chunk + chunk + FINAL, true), Log([file, file], [1], 0));
    RunStep(file, size, FRESH, w1, [w2, w3]);
    RunStep(file, size, s1, w2, [w3]);
    RunStep(file, size, s2, w3, []);
    assert [w1] + [w2, w3] == [w1, w2, w3] && [w2] + [w3] == [w2, w3] && [w3] + [] == [w3];
    writes := [w1, w2, w3];
    RunEnds(file, size, s3);
    StreamDecodes([file, file]);
    TwoBlocks(file);
    assert forall k | 0 <= k < 2 :: [file, file][k] == file;
  }

  lemma TwoBlocks(block: string)
    ensures EncodeAll([block, block]) == Encode(block) + Encode(block)
    ensures Concat([block, block]) == block + block
  {
    hide Encode;
    var none: seq<string> := [];
    EncodeAllSnoc(none, block);
    ConcatSnoc(none, block);
    EncodeAllSnoc([block], block);
    ConcatSnoc([block], block);
    assert none + [block] == [block] && [block] + [block] == [block, block];
    assert "" + Encode(block) == Encode(block) && "" + block == block;
  }

  lemma RunEnds(file: string, size: nat, session: Session)
    ensures Run(file, size, session, []) == Some(session)
  {
  }

  // --------------------------------------------------------------------- progress

  /** The writes of a call that both go through in full. */
  function FullWrites(file: string, size: nat, s: Stream): Writes
    requires s.offset <= |file| && s.pendingSent <= |s.pending|
  {
    Writes(|s.pending| - s.pendingSent, |Encode(Block(file, s.offset, size))|)
  }

  function CallsLeft(file: string, s: Stream): nat
    requires s.offset <= |file|
  {
    2 * (|file| - s.offset) + if s.pending == FINAL && s.offset == |file| then 1 else 2
  }

  lemma FullCallAdvances(file: string, size: nat, s: Stream, log: Log)
    requires size > 0 && Good(file, size, s, log) && !s.finished
    ensures var w := FullWrites(file, size, s);
            && Possible(file, size, s, w)
            && var s' := Called(file, size, s, w);
               && s'.offset <= |file|
               && (s'.finished || CallsLeft(file, s') < CallsLeft(file, s))
  {
    hide Encode, EncodeAll, Concat, Block;
    if s.offset < |file| {
      BlockIsNext(file, s.offset, size);
      DataIsNotFinal(Block(file, s.offset, size));
    }
  }

  /** Whatever happened before, writes that go through finish the stream. */
  lemma {:induction false} CanFinish(file: string, size: nat, session: Session) returns (writes: seq<Writes>)
    requires size > 0 && Good(file, size, session.stream, session.log) && !session.stream.finished
    ensures Run(file, size, session, writes).Some? && Run(file, size, session, writes).value.stream.finished
    ensures |writes| <= CallsLeft(file, session.stream)
    decreases CallsLeft(file, session.stream)
  {
    hide Good, Called, Logged, FullWrites, Possible;
    GoodOffset(file, size, session.stream, session.log);
    var w := FullWrites(file, size, session.stream);
    FullCallAdvances(file, size, session.stream, session.log);
    CallGood(file, size, session.stream, session.log, w);
    var next := Session(Called(file, size, session.stream, w), Logged(file, size, session.stream, session.log, w));
    if next.stream.finished {
      writes := [w];
      assert writes[1..] == [];
    } else {
      var rest := CanFinish(file, size, next);
      writes := [w] + rest;
      assert writes[1..] == rest;
    }
  }

  lemma GoodOffset(file: string, size: nat, s: Stream, log: Log)
    requires Good(file, size, s, log)
    ensures s.offset <= |file| && s.pendingSent <= |s.pending|
  {
  }

  // ----------------------------------------------------------------- the function

  datatype Status = OK | InternalServerError

  /** A write(2) that was made: the bytes offered and its result. */
  datatype Attempt = Attempt(data: string, result: int)

  /** The client's connection: what it has received and which writes were made. */
  class Client {
    var received: string
    ghost var attempts: seq<Attempt>

    constructor ()
      ensures received == "" && attempts == []
    {
      received, attempts := "", [];
    }

    method Write(data: string) returns (w: int)
      modifies this
      ensures IsWrite(w, |data|)
      ensures received == old(received) + if w > 0 then data[..w] else ""
      ensures attempts == old(attempts) + [Attempt(data, w)]
    {
      w :| -1 <= w <= |data|;
      if w > 0 {
        received := received + data[..w];
      }
      attempts := attempts + [Attempt(data, w)];
    }
  }

  /** The writes a call makes, in order. */
  function Attempts(file: string, size: nat, s: Stream, w: Writes): seq<Attempt>
    requires Possible(file, size, s, w)
  {
    var f := AfterFlush(s, w.first);
    (if s.pending != "" then [Attempt(s.pending[s.pendingSent..], w.first)] else [])
    + (if f.pending == "" && !f.finished && f.offset < |file|
       then [Attempt(Encode(Block(file, f.offset, size)), w.second)] else [])
  }

  /** The state `stream_file_chunked` is given by reference. */
  class Streamer {
    const client: Client
    var offset: nat
    var pending: string
    var pendingSent: nat

    constructor (client: Client)
      requires client.received == ""
      ensures this.client == client && View(false) == START
    {
      this.client := client;
      offset, pending, pendingSent := 0, "", 0;
    }

    ghost function View(finished: bool): Stream
      reads this, client
    {
      Stream(offset, pending, pendingSent, client.received, finished)
    }

    /** One call on an unchanged file; `opens` is the outcome of opening it. */
    method StreamFileChunked(file: string, opens: bool, configured: nat)
      returns (status: Status, finished: bool, ghost size: nat, ghost w: Writes)
      requires pendingSent <= |pending|
      modifies this, client
      ensures size == if configured > 0 then configured else 8192
      ensures !opens ==> status == InternalServerError && View(finished) == old(View(false))
      ensures opens ==> status == OK && Possible(file, size, old(View(false)), w)
      ensures opens ==> View(finished) == Called(file, size, old(View(false)), w)
      ensures opens ==> client.attempts == old(client.attempts) + Attempts(file, size, old(View(false)), w)
    {
      hide Encode, Block;
      finished, w := false, Writes(0, 0);
      var chunkSize := 8192;
      if configured > 0 {
        chunkSize := configured;
      }
      size := chunkSize;
      if !opens {
        return InternalServerError, false, size, w;
      }
      ghost var s := View(false);
      var n := 0;
      status := OK;
      if pending != "" {
        n, finished := Flush();
        if pending != "" || finished {
          w := Writes(n, 0);
          return;
        }
        assert View(false) == AfterFlush(s, n);
      }
      ghost var m := SendNext(file, chunkSize);
      w := Writes(n, m);
    }

    /** The pending bytes are written first; the call ends here unless they all go and are not
        the last chunk. */
    method Flush() returns (n: int, finished: bool)
      requires pending != "" && pendingSent <= |pending|
      modifies this, client
      ensures CanFlush(old(View(false)), n) && View(finished) == Flushed(old(View(false)), n)
      ensures client.attempts == old(client.attempts) + [Attempt(old(pending[pendingSent..]), n)]
    {
      finished := false;
      var buf := pending[pendingSent..];
      n := client.Write(buf);
      if n < 0 {
        return;
      }
      assert buf[..n] == pending[pendingSent..pendingSent + n];
      pendingSent := pendingSent + n;
      if pendingSent < |pending| {
        return;
      }
      finished := pending == FINAL;
      pending := "";
      pendingSent := 0;
    }

    /** The next block is encoded and written, or the last chunk is left pending. */
    method SendNext(file: string, chunkSize: nat) returns (n: int)
      requires pending == "" && chunkSize > 0
      modifies this, client
      ensures CanSend(file, chunkSize, old(View(false)), n)
      ensures View(false) == Sent(file, chunkSize, old(View(false)), n)
      ensures client.attempts == old(client.attempts)
              + if old(offset) < |file| then [Attempt(Encode(Block(file, old(offset), chunkSize)), n)] else []
      ensures old(offset) + chunkSize < |file| ==>
                client.attempts == old(client.attempts)
                                   + [Attempt(Encode(file[old(offset)..old(offset) + chunkSize]), n)]
      ensures old(offset) < |file| <= old(offset) + chunkSize ==>
                client.attempts == old(client.attempts) + [Attempt(Encode(file[old(offset)..]), n)]
    {
      hide Encode;
      n := 0;
      if |file| <= offset {
        pending := FINAL;
        pendingSent := 0;
        return;
      }
      var chunkData := Block(file, offset, chunkSize);
      BlockLength(file, offset, chunkSize);
      assert chunkData == if offset + chunkSize < |file| then file[offset..offset + chunkSize] else file[offset..];
      var encodedChunk := Encode(chunkData);
      n := client.Write(encodedChunk);
      if n < 0 {
        pending := encodedChunk;
        pendingSent := 0;
        return;
      }
      if n < |encodedChunk| {
        pending := encodedChunk;
        pendingSent := n;
        return;
      }
      assert encodedChunk[..n] == encodedChunk;
      offset := offset + |chunkData|;
      if |file| <= offset {
        pending := FINAL;
        pendingSent := 0;
      }
    }
  }
}
