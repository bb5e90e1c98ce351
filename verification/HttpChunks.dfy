/** The chunked transfer coding of section 3.6.1 of RFC 2616: the text HttpBase produces for
    a body, and the proof that HttpParser takes it apart again. */
module HttpChunks {
  import opened HttpText
  import opened HttpGrammar

  const CHUNK_DIGITS: nat := 8
  const LAST_CHUNK: string := "0\r\n\r\n"
  // No chunk is longer than the send buffer.
  const MAX_CHUNK: nat := 32 * 1024

  function HexDigit(v: nat): char
    requires v < 16
  {
    if v < 10 then (v + '0' as int) as char else (v - 10 + 'a' as int) as char
  }

  // sprintf("%.*x", digits, n)
  function Hex(n: nat, digits: nat): (s: string)
    ensures |s| == digits
    ensures forall k :: 0 <= k < |s| ==> IsDigit(s[k], 16) && s[k] != 'x' && s[k] != 'X'
    decreases digits, n
  {
    if digits == 0 then "" else Hex(n / 16, digits - 1) + [HexDigit(n % 16)]
  }

  function Chunk(data: string): string {
    Hex(|data|, CHUNK_DIGITS) + CRLF + data + CRLF
  }

  function Chunks(pieces: seq<string>): string {
    if pieces == [] then "" else Chunks(pieces[..|pieces| - 1]) + Chunk(pieces[|pieces| - 1])
  }

  function Joined(pieces: seq<string>): string {
    if pieces == [] then "" else Joined(pieces[..|pieces| - 1]) + pieces[|pieces| - 1]
  }

  predicate Sendable(pieces: seq<string>) {
    forall k :: 0 <= k < |pieces| ==> 0 < |pieces[k]| <= MAX_CHUNK
  }

  ghost predicate FitsIn(n: nat, digits: nat) {
    if digits == 0 then n == 0 else FitsIn(n / 16, digits - 1)
  }

  lemma {:induction false} HexIsRead(n: nat, digits: nat)
    requires FitsIn(n, digits)
    ensures Number(Hex(n, digits), 16) == n
    decreases digits, n
  {
    if digits > 0 {
      var s := Hex(n, digits);
      assert s[..digits - 1] == Hex(n / 16, digits - 1);
      HexIsRead(n / 16, digits - 1);
    }
  }

  lemma ChunkSizeFits(n: nat)
    requires n <= MAX_CHUNK
    ensures FitsIn(n, CHUNK_DIGITS)
  {
    var a := n / 16; var b := a / 16; var d := b / 16; var e := d / 16;
    assert e == 0;
    assert FitsIn(e, 4) by { assert FitsIn(0, 0) && FitsIn(0, 1) && FitsIn(0, 2) && FitsIn(0, 3); }
    assert FitsIn(d, 5) && FitsIn(b, 6) && FitsIn(a, 7);
  }

  lemma {:induction false} AllDigits(s: string, i: nat)
    requires i <= |s| && forall k :: i <= k < |s| ==> IsDigit(s[k], 16)
    ensures DigitsEnd(s, i, 16) == |s|
    decreases |s| - i
  {
    if i < |s| { AllDigits(s, i + 1); }
  }

  lemma HexIsScanned(n: nat)
    requires n <= MAX_CHUNK
    ensures StrToUl(Hex(n, CHUNK_DIGITS), 16) == Scan(n, CHUNK_DIGITS)
  {
    var s := Hex(n, CHUNK_DIGITS);
    ChunkSizeFits(n);
    HexIsRead(n, CHUNK_DIGITS);
    assert IsDigit(s[0], 16) && SkipSpace(s, 0) == 0 && SignEnd(s) == 0;
    assert PrefixEnd(s, 16) == 0;
    AllDigits(s, 0);
    assert s[0..|s|] == s;
  }

  lemma LineEnd(line: string, rest: string)
    requires '\n' !in line
    ensures var input := line + CRLF + rest;
            && IndexOf(input, '\n') == |line| + 1
            && input[|line| + 2..] == rest
            && TrimRight(input[..|line| + 1]) == TrimRight(line)
  {
    LineBreak(line, rest);
    LineCut(line, rest);
    TrimmedOfReturn(line);
  }

  lemma LineCut(line: string, rest: string)
    ensures (line + CRLF + rest)[..|line| + 1] == line + ['\r'] && (line + CRLF + rest)[|line| + 2..] == rest
  {
  }

  lemma LineBreak(line: string, rest: string)
    requires '\n' !in line
    ensures IndexOf(line + CRLF + rest, '\n') == |line| + 1
  {
    var input := line + CRLF + rest;
    forall k | 0 <= k < |line| + 1 ensures input[k] != '\n' {
      if k < |line| { assert input[k] == line[k]; }
    }
    IndexOfUnique(input, '\n', |line| + 1);
  }

  lemma TrimmedOfReturn(line: string)
    ensures TrimRight(line + ['\r']) == TrimRight(line)
  {
    assert (line + ['\r'])[..|line|] == line;
  }

  // What becomes of a line that ends in CR LF, at the head of an input.
  lemma LineIsRead(owner: Owner, c: Conf, line: string, rest: string, step: Step)
    requires ReadsLines(c.st) && '\n' !in line
    requires c.st == Headers ==> !EmptyContentLength(TrimRight(line))
    requires LineStep(owner, c, TrimRight(line), "") == step
    ensures step.Go? ==> Parse(owner, c, line + CRLF + rest) == Parse(owner, step.conf, rest)
    ensures step.Finish? ==> Parse(owner, c, line + CRLF + rest) == Outcome(step.conf, rest, Done(step.error))
  {
    LineEnd(line, rest);
  }

  /** One chunk, whatever follows it, adds its data to the body and leaves the parser waiting
      for the next chunk. */
  lemma ChunkIsParsed(owner: Owner, c: Conf, data: string, more: string)
    requires c.st == ChunkSize && c.chunked && 0 < |data| <= MAX_CHUNK
    ensures Parse(owner, c, Chunk(data) + more) == Parse(owner, c.(size := 0, body := c.body + data), more)
  {
    var n := |data|;
    var digits := Hex(n, CHUNK_DIGITS);
    var c1 := c.(st := Data, size := n);
    var input := data + (CRLF + more);
    assert Chunk(data) + more == digits + CRLF + input;
    SizeLineIsRead(owner, c, n, input);
    assert input[..n] == data && input[n..] == CRLF + more;
    DataInPieces(owner, c1, input, n);
    EndOfChunk(owner, Absorb(c1, data), more);
  }

  lemma SizeLineIsRead(owner: Owner, c: Conf, n: nat, rest: string)
    requires c.st == ChunkSize && n <= MAX_CHUNK
    ensures Parse(owner, c, Hex(n, CHUNK_DIGITS) + CRLF + rest) ==
            Parse(owner, c.(st := if n == 0 then Trailers else Data, size := n), rest)
  {
    var digits := Hex(n, CHUNK_DIGITS);
    HexIsScanned(n);
    assert digits + "" == digits;
    LineIsRead(owner, c, digits, rest, Go(c.(st := if n == 0 then Trailers else Data, size := n)));
  }

  lemma EndOfChunk(owner: Owner, c: Conf, more: string)
    requires c.st == Data && c.size == 0 && c.chunked
    ensures Parse(owner, c, CRLF + more) == Parse(owner, c.(st := ChunkSize), more)
  {
    assert "" + CRLF + more == CRLF + more;
    LineIsRead(owner, c.(st := ChunkTerm), "", more, Go(c.(st := ChunkSize)));
  }

  lemma EndOfTrailers(owner: Owner, c: Conf, more: string)
    requires c.st == Trailers
    ensures Parse(owner, c, CRLF + more) == Outcome(c, more, Done(NoError))
  {
    assert "" + CRLF + more == CRLF + more;
    LineIsRead(owner, c, "", more, Finish(c, NoError));
  }

  lemma ZeroIsScanned()
    ensures StrToUl("0", 16) == Scan(0, 1)
  {
    assert DigitsEnd("0", 1, 16) == 1 && DigitsEnd("0", 0, 16) == 1;
    assert "0"[0..1] == "0" && "0"[..0] == "" && Number("", 16) == 0 && Number("0", 16) == 0;
  }

  lemma LastChunkIsParsed(owner: Owner, c: Conf, more: string)
    requires c.st == ChunkSize && c.chunked
    ensures Parse(owner, c, LAST_CHUNK + more) == Outcome(c.(st := Trailers, size := 0), more, Done(NoError))
  {
    var c1 := c.(st := Trailers, size := 0);
    assert LAST_CHUNK + more == "0" + CRLF + (CRLF + more);
    ZeroIsScanned();
    assert "0" + "" == "0";
    LineIsRead(owner, c, "0", CRLF + more, Go(c1));
    EndOfTrailers(owner, c1, more);
  }

  // The parser after some chunks: its body has grown by their data.
  function AfterChunks(c: Conf, pieces: seq<string>): Conf {
    c.(size := if pieces == [] then c.size else 0, body := c.body + Joined(pieces))
  }

  lemma AfterOneMore(c: Conf, pieces: seq<string>)
    requires pieces != []
    ensures var before := AfterChunks(c, pieces[..|pieces| - 1]);
            AfterChunks(c, pieces) == before.(size := 0, body := before.body + pieces[|pieces| - 1])
  {
    var init, last := pieces[..|pieces| - 1], pieces[|pieces| - 1];
    assert c.body + Joined(init) + last == c.body + (Joined(init) + last);
  }

  lemma {:induction false} ChunksAreParsed(owner: Owner, c: Conf, pieces: seq<string>, more: string)
    requires c.st == ChunkSize && c.chunked && Sendable(pieces)
    ensures Parse(owner, c, Chunks(pieces) + more) == Parse(owner, AfterChunks(c, pieces), more)
    decreases |pieces|
  {
    if pieces == [] {
      assert Chunks(pieces) + more == more && c.body + Joined(pieces) == c.body;
    } else {
      var init, last := pieces[..|pieces| - 1], pieces[|pieces| - 1];
      assert Chunks(pieces) + more == Chunks(init) + (Chunk(last) + more);
      ChunksAreParsed(owner, c, init, Chunk(last) + more);
      ChunkIsParsed(owner, AfterChunks(c, init), last, more);
      AfterOneMore(c, pieces);
    }
  }

  /** The coding is undone by the parser: however a body was cut into non-empty pieces, the
      chunks followed by the last chunk deliver exactly that body, complete without an error,
      and consume every byte up to whatever comes next on the connection. */
  lemma ChunkedBodyRoundTrip(owner: Owner, c: Conf, pieces: seq<string>, more: string)
    requires c.st == ChunkSize && c.chunked && Sendable(pieces)
    ensures Parse(owner, c, Chunks(pieces) + LAST_CHUNK + more) ==
            Outcome(c.(st := Trailers, size := 0, body := c.body + Joined(pieces)), more, Done(NoError))
  {
    assert Chunks(pieces) + LAST_CHUNK + more == Chunks(pieces) + (LAST_CHUNK + more);
    ChunksAreParsed(owner, c, pieces, LAST_CHUNK + more);
    LastChunkIsParsed(owner, AfterChunks(c, pieces), more);
  }

  /** An empty piece is not sendable: its chunk is taken for the last one. */
  lemma EmptyPieceEndsBody(owner: Owner, c: Conf, more: string)
    requires c.st == ChunkSize && c.chunked
    ensures Parse(owner, c, Chunk("") + more) == Outcome(c.(st := Trailers, size := 0), more, Done(NoError))
  {
    assert Chunk("") + more == Hex(0, CHUNK_DIGITS) + CRLF + (CRLF + more);
    SizeLineIsRead(owner, c, 0, CRLF + more);
    EndOfTrailers(owner, c.(st := Trailers, size := 0), more);
  }
}
