/** No line of a message that HttpBase sends fills the buffer of the HttpBase that receives it. */
module HttpLines {
  import opened HttpText
  import opened HttpGrammar
  import opened HttpChunks
  import opened HttpMessage
  import opened Sequences
  import Sending = HttpSender
  import Receiving = HttpReceiver

  // Every line that the parser meets on its way through the input ends within the buffer.
  ghost predicate LinesFit(owner: Owner, c: Conf, input: string)
    requires c.st != Complete
    decreases |input|, c.st == Data
  {
    if ReadsLines(c.st) then
      var n := IndexOf(input, '\n');
      && n < Receiving.BUFFER_SIZE
      && (n < |input| ==>
            var step := FirstLine(owner, c, input); step.Go? ==> LinesFit(owner, step.conf, input[n + 1..]))
    else if c.size == 0 then c.chunked ==> LinesFit(owner, c.(st := ChunkTerm), input)
    else
      var n := DataLength(c, input);
      n > 0 ==> LinesFit(owner, Absorb(c, input[..n]), input[n..])
  }

  lemma PiecesOfData(c: Conf, input: string, k: nat)
    requires c.st == Data && c.size != 0 && 0 < k < DataLength(c, input)
    ensures var n, c' := DataLength(c, input), Absorb(c, input[..k]);
            && DataLength(c', input[k..]) == n - k && input[k..][n - k..] == input[n..]
            && Absorb(c', input[k..][..n - k]) == Absorb(c, input[..n])
  {
    var n := DataLength(c, input);
    assert input[..k] + input[k..][..n - k] == input[..n];
    assert (c.body + input[..k]) + input[k..][..n - k] == c.body + (input[..k] + input[k..][..n - k]);
  }

  lemma DataFitsInPieces(owner: Owner, c: Conf, input: string, k: nat)
    requires c.st == Data && c.size != 0 && 0 < k <= DataLength(c, input)
    ensures LinesFit(owner, c, input) <==> LinesFit(owner, Absorb(c, input[..k]), input[k..])
  {
    if k < DataLength(c, input) { PiecesOfData(c, input, k); }
  }

  /** A parser that has met a part of such an input never waits with a full buffer. */
  lemma {:induction false} NeverFull(owner: Owner, c: Conf, a: string, b: string)
    requires c.st != Complete && LinesFit(owner, c, a + b)
    ensures Parse(owner, c, a).stop == NeedMore ==> |Parse(owner, c, a).rest| < Receiving.BUFFER_SIZE
    decreases |a|, c.st == Data
  {
    if ReadsLines(c.st) {
      var n := IndexOf(a, '\n');
      if n < |a| {
        FirstLineExtended(owner, c, a, b);
        var step := FirstLine(owner, c, a);
        assert (a + b)[n + 1..] == a[n + 1..] + b;
        if step.Go? { NeverFull(owner, step.conf, a[n + 1..], b); }
      } else {
        IndexOfExtended(a, b, '\n');
      }
    } else if c.size == 0 {
      if c.chunked { NeverFull(owner, c.(st := ChunkTerm), a, b); }
    } else {
      var n := DataLength(c, a);
      if n > 0 {
        assert (a + b)[..n] == a[..n] && (a + b)[n..] == a[n..] + b;
        DataFitsInPieces(owner, c, a + b, n);
        NeverFull(owner, Absorb(c, a[..n]), a[n..], b);
      }
    }
  }

  lemma LineFits(owner: Owner, c: Conf, line: string, rest: string, step: Step)
    requires ReadsLines(c.st) && '\n' !in line && |line| + 1 < Receiving.BUFFER_SIZE
    requires c.st == Headers ==> !EmptyContentLength(TrimRight(line))
    requires LineStep(owner, c, TrimRight(line), "") == step && step.Go? && LinesFit(owner, step.conf, rest)
    ensures LinesFit(owner, c, line + CRLF + rest)
  {
    LineEnd(line, rest);
  }

  lemma LastLineFits(owner: Owner, c: Conf, rest: string)
    requires c.st == Trailers
    ensures LinesFit(owner, c, CRLF + rest)
  {
    assert "" + CRLF + rest == CRLF + rest;
    LineEnd("", rest);
  }

  lemma HeaderLineFits(owner: Owner, c: Conf, h: Sending.Header, more: string)
    requires c.st == Headers && PlainHeader(h) && LinesFit(owner, Told(c, h), more)
    ensures LinesFit(owner, c, Sending.FormatHeader(h) + more)
  {
    HeaderLineParts(h);
    HeaderIsTold(owner, c, h);
    LineFits(owner, c, HeaderLine(h), more, Go(Told(c, h)));
  }

  lemma {:induction false} HeadersFit(owner: Owner, c: Conf, headers: seq<Sending.Header>, more: string)
    requires c.st == Headers && Plain(headers) && LinesFit(owner, AfterHeaders(c, headers), more)
    ensures LinesFit(owner, c, Sending.HeaderText(headers) + more)
    decreases |headers|
  {
    if headers == [] {
      assert Sending.HeaderText(headers) + more == more;
    } else {
      var init, h := headers[..|headers| - 1], headers[|headers| - 1];
      assert Sending.HeaderText(headers) + more == Sending.HeaderText(init) + (Sending.FormatHeader(h) + more);
      HeaderLineFits(owner, AfterHeaders(c, init), h, more);
      HeadersFit(owner, c, init, Sending.FormatHeader(h) + more);
    }
  }

  lemma LeaderFits(owner: Owner, m: Sending.Message, more: string)
    requires Acceptable(owner, m) && LinesFit(owner, AfterLeader(m.leader), more)
    ensures LinesFit(owner, FRESH, m.leader + CRLF + more)
  {
    assert [] + [LeaderLine(m.leader)] == [LeaderLine(m.leader)];
    assert LineStep(owner, FRESH, m.leader, "") == Go(AfterLeader(m.leader));
    LineFits(owner, FRESH, m.leader, more, Go(AfterLeader(m.leader)));
  }

  lemma HeadEndFits(owner: Owner, m: Sending.Message, more: string)
    requires Acceptable(owner, m) && LinesFit(owner, AfterHead(owner, m), more)
    ensures LinesFit(owner, AfterFields(m), CRLF + more)
  {
    assert "" + CRLF + more == CRLF + more;
    assert LineStep(owner, AfterFields(m), "", "") == Go(AfterHead(owner, m));
    LineFits(owner, AfterFields(m), "", more, Go(AfterHead(owner, m)));
  }

  lemma HeadFits(owner: Owner, m: Sending.Message, more: string)
    requires Acceptable(owner, m) && LinesFit(owner, AfterHead(owner, m), more)
    ensures LinesFit(owner, FRESH, Sending.HeadText(m.leader, m.headers, |m.headers|) + more)
  {
    var rest := Sending.HeaderText(m.headers) + (CRLF + more);
    Sending.HeadIsExact(m.leader, m.headers);
    assert m.headers[..|m.headers|] == m.headers;
    assert Sending.HeadText(m.leader, m.headers, |m.headers|) + more == m.leader + CRLF + rest;
    HeadEndFits(owner, m, more);
    HeadersFit(owner, AfterLeader(m.leader), m.headers, CRLF + more);
    LeaderFits(owner, m, rest);
  }

  // A body that is not chunked has no lines.
  lemma {:induction false} DataFits(owner: Owner, c: Conf, input: string)
    requires c.st == Data && !c.chunked
    ensures LinesFit(owner, c, input)
    decreases |input|
  {
    if c.size != 0 && DataLength(c, input) > 0 {
      var n := DataLength(c, input);
      DataFits(owner, Absorb(c, input[..n]), input[n..]);
    }
  }

  lemma SizeLineFits(owner: Owner, c: Conf, n: nat, rest: string)
    requires c.st == ChunkSize && n <= MAX_CHUNK
    requires LinesFit(owner, c.(st := if n == 0 then Trailers else Data, size := n), rest)
    ensures LinesFit(owner, c, Hex(n, CHUNK_DIGITS) + CRLF + rest)
  {
    var digits := Hex(n, CHUNK_DIGITS);
    HexIsScanned(n);
    assert digits + "" == digits;
    LineFits(owner, c, digits, rest, Go(c.(st := if n == 0 then Trailers else Data, size := n)));
  }

  lemma ChunkEndFits(owner: Owner, c: Conf, more: string)
    requires c.st == Data && c.size == 0 && c.chunked && LinesFit(owner, c.(st := ChunkSize), more)
    ensures LinesFit(owner, c, CRLF + more)
  {
    assert "" + CRLF + more == CRLF + more;
    LineFits(owner, c.(st := ChunkTerm), "", more, Go(c.(st := ChunkSize)));
  }

  lemma ChunkFits(owner: Owner, c: Conf, data: string, more: string)
    requires c.st == ChunkSize && c.chunked && 0 < |data| <= MAX_CHUNK
    requires LinesFit(owner, c.(size := 0, body := c.body + data), more)
    ensures LinesFit(owner, c, Chunk(data) + more)
  {
    var c1, input := c.(st := Data, size := |data|), data + (CRLF + more);
    assert Chunk(data) + more == Hex(|data|, CHUNK_DIGITS) + CRLF + input;
    ChunkEndFits(owner, Absorb(c1, data), more);
    assert input[..|data|] == data && input[|data|..] == CRLF + more;
    DataFitsInPieces(owner, c1, input, |data|);
    SizeLineFits(owner, c, |data|, input);
  }

  lemma OneMoreFits(owner: Owner, c: Conf, pieces: seq<string>, more: string)
    requires c.st == ChunkSize && c.chunked && Sendable(pieces) && pieces != []
    requires LinesFit(owner, AfterChunks(c, pieces), more)
    ensures LinesFit(owner, AfterChunks(c, pieces[..|pieces| - 1]), Chunk(pieces[|pieces| - 1]) + more)
  {
    AfterOneMore(c, pieces);
    ChunkFits(owner, AfterChunks(c, pieces[..|pieces| - 1]), pieces[|pieces| - 1], more);
  }

  lemma LastOfChunks(pieces: seq<string>, more: string)
    requires pieces != []
    ensures Chunks(pieces) + more == Chunks(pieces[..|pieces| - 1]) + (Chunk(pieces[|pieces| - 1]) + more)
  {
    Associative(Chunks(pieces[..|pieces| - 1]), Chunk(pieces[|pieces| - 1]), more);
  }

  lemma {:induction false} ChunksFit(owner: Owner, c: Conf, pieces: seq<string>, more: string)
    requires c.st == ChunkSize && c.chunked && Sendable(pieces) && LinesFit(owner, AfterChunks(c, pieces), more)
    ensures LinesFit(owner, c, Chunks(pieces) + more)
    decreases |pieces|
  {
    if pieces == [] {
      assert Chunks(pieces) + more == more && c.body + Joined(pieces) == c.body;
    } else {
      var last := pieces[|pieces| - 1];
      OneMoreFits(owner, c, pieces, more);
      ChunksFit(owner, c, pieces[..|pieces| - 1], Chunk(last) + more);
      LastOfChunks(pieces, more);
    }
  }

  lemma LastChunkFits(owner: Owner, c: Conf)
    requires c.st == ChunkSize && c.chunked
    ensures LinesFit(owner, c, LAST_CHUNK)
  {
    var c1 := c.(st := Trailers, size := 0);
    assert LAST_CHUNK == "0" + CRLF + (CRLF + "");
    ZeroIsScanned();
    assert "0" + "" == "0";
    LastLineFits(owner, c1, "");
    LineFits(owner, c, "0", CRLF + "", Go(c1));
  }

  /** The lines of the head have been queued in a buffer of the same size, and those of the
      body are the sizes and ends of chunks. */
  lemma MessageFits(owner: Owner, m: Sending.Message, pieces: seq<string>)
    requires Acceptable(owner, m) && Sendable(pieces) && (m.chunked ==> m.has_document)
    requires m.chunked <==> AfterFields(m).chunked
    ensures LinesFit(owner, FRESH, Sending.WholeMessage(m, pieces))
  {
    var body := Sending.BodyText(m.chunked, pieces, m.has_document);
    if m.chunked {
      LastChunkFits(owner, AfterChunks(AfterHead(owner, m), pieces));
      ChunksFit(owner, AfterHead(owner, m), pieces, LAST_CHUNK);
    } else {
      DataFits(owner, AfterHead(owner, m), body);
    }
    HeadFits(owner, m, body);
  }
}
