/** The chunked transfer coding of section 7.1 of RFC 9112: the encoder of the server and an
    independent decoder. */
module Coding {
  import opened Basics

  const CRLF := "\r\n"

  function Digit(d: nat): char
    requires d < 16
  {
    "0123456789abcdef"[d]
  }

  /** std::hex: lower case, no leading zeros. */
  function Hex(n: nat): (s: string)
    ensures |s| >= 1
  {
    if n < 16 then [Digit(n)] else Hex(n / 16) + [Digit(n % 16)]
  }

  function Encode(data: string): string {
    Hex(|data|) + CRLF + data + CRLF
  }

  const FINAL := "0\r\n\r\n"

  function EncodeAll(chunks: seq<string>): string {
    if chunks == [] then "" else Encode(chunks[0]) + EncodeAll(chunks[1..])
  }

  // --------------------------------------------------------------------- decoding

  function DigitValue(c: char): Option<nat> {
    if '0' <= c <= '9' then Some((c - '0') as nat)
    else if 'a' <= c <= 'f' then Some((c - 'a') as nat + 10)
    else if 'A' <= c <= 'F' then Some((c - 'A') as nat + 10)
    else None
  }

  /** Reads a chunk size and the CRLF after it; `any` says whether a digit has been seen. */
  function ReadSize(s: string, acc: nat, any: bool): (r: Option<(nat, string)>)
    ensures r.Some? ==> |r.value.1| < |s|
    decreases |s|
  {
    if s != "" && DigitValue(s[0]).Some? then ReadSize(s[1..], 16 * acc + DigitValue(s[0]).value, true)
    else if any && |s| >= 2 && s[..2] == CRLF then Some((acc, s[2..]))
    else None
  }

  /** The content of a complete stream: chunks, then the last chunk and an empty trailer. */
  function Decode(s: string): Option<string>
    decreases |s|
  {
    match ReadSize(s, 0, false)
    case None => None
    case Some((size, rest)) =>
      if size == 0 then (if rest == CRLF then Some("") else None)
      else if |rest| < size + 2 || rest[size..size + 2] != CRLF then None
      else
        match Decode(rest[size + 2..])
        case None => None
        case Some(tail) => Some(rest[..size] + tail)
  }

  // ------------------------------------------------------------------- round trip

  lemma DigitReads(d: nat)
    requires d < 16
    ensures DigitValue(Digit(d)) == Some(d)
  {
  }

  /** Reading on after a number has been read, digit by digit. */
  lemma {:induction false} HexReads(n: nat, rest: string)
    ensures ReadSize(Hex(n) + rest, 0, false) == ReadSize(rest, n, true)
  {
    if n < 16 {
      DigitReads(n);
      assert (Hex(n) + rest)[1..] == rest;
    } else {
      var low := [Digit(n % 16)] + rest;
      DigitReads(n % 16);
      assert low[1..] == rest;
      assert Hex(n) + rest == Hex(n / 16) + low;
      HexReads(n / 16, low);
    }
  }

  lemma SizeReads(n: nat, rest: string)
    ensures ReadSize(Hex(n) + CRLF + rest, 0, false) == Some((n, rest))
  {
    assert Hex(n) + CRLF + rest == Hex(n) + (CRLF + rest);
    HexReads(n, CRLF + rest);
    assert DigitValue((CRLF + rest)[0]) == None;
    assert (CRLF + rest)[..2] == CRLF && (CRLF + rest)[2..] == rest;
  }

  lemma ChunkReads(data: string, rest: string)
    requires data != ""
    ensures Decode(Encode(data) + rest) ==
            match Decode(rest) case None => None case Some(tail) => Some(data + tail)
  {
    var body := data + CRLF + rest;
    assert Encode(data) + rest == Hex(|data|) + CRLF + body;
    SizeReads(|data|, body);
    assert body[|data|..|data| + 2] == CRLF && body[|data| + 2..] == rest && body[..|data|] == data;
  }

  lemma FinalReads()
    ensures Decode(FINAL) == Some("")
  {
    assert FINAL == Hex(0) + CRLF + CRLF;
    SizeReads(0, CRLF);
  }

  /** Whatever non-empty chunks a stream consists of, it decodes to their concatenation. */
  lemma {:induction false} StreamDecodes(chunks: seq<string>)
    requires forall k | 0 <= k < |chunks| :: chunks[k] != ""
    ensures Decode(EncodeAll(chunks) + FINAL) == Some(Concat(chunks))
  {
    if chunks == [] {
      FinalReads();
      assert EncodeAll(chunks) + FINAL == FINAL;
    } else {
      StreamDecodes(chunks[1..]);
      ChunkReads(chunks[0], EncodeAll(chunks[1..]) + FINAL);
      assert EncodeAll(chunks) + FINAL == Encode(chunks[0]) + (EncodeAll(chunks[1..]) + FINAL);
    }
  }

  lemma {:induction false} EncodeAllSnoc(chunks: seq<string>, data: string)
    ensures EncodeAll(chunks + [data]) == EncodeAll(chunks) + Encode(data)
  {
    hide Encode;
    if chunks == [] {
      assert chunks + [data] == [data] && [data][1..] == [];
      assert Encode(data) + "" == Encode(data);
    } else {
      assert (chunks + [data])[1..] == chunks[1..] + [data];
      EncodeAllSnoc(chunks[1..], data);
    }
  }

  /** No data chunk looks like the last chunk. */
  lemma DataIsNotFinal(data: string)
    requires data != ""
    ensures Encode(data) != FINAL && Encode(data) != ""
  {
    assert |Encode(data)| == |Hex(|data|)| + 2 + |data| + 2;
  }
}
