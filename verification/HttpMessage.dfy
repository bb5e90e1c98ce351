/** From one HttpBase to another: the parser reads a chunked message that the sender wrote,
    head and body, exactly as it was meant. */
module HttpMessage {
  import opened HttpText
  import opened HttpGrammar
  import opened HttpChunks
  import opened HttpSender

  predicate Clean(s: string) { '\n' !in s && '\0' !in s }

  predicate NamesLength(h: Header) { SameIgnoringCase(h.0, "Content-Length") }

  /** A header whose name holds no colon and whose value does not start or end with white
      space. A length is a number, and a coding is one of the two the parser knows. */
  predicate PlainHeader(h: Header) {
    && HeaderFits(h) && Clean(h.0) && Clean(h.1) && ':' !in h.0
    && (h.1 != "" ==> !IsSpace(h.1[0]) && !IsSpace(h.1[|h.1| - 1]))
    && (NamesLength(h) ==> StrToUl(h.1, 10).end > 0)
    && (NamesCoding(h) ==> SameIgnoringCase(h.1, "chunked") || SameIgnoringCase(h.1, "identity"))
  }

  predicate Plain(headers: seq<Header>) {
    forall k :: 0 <= k < |headers| ==> PlainHeader(headers[k])
  }

  // What a header tells the receiving side.
  function Told(c: Conf, h: Header): Conf {
    c.(chunked := if NamesCoding(h) then SameIgnoringCase(h.1, "chunked") else c.chunked,
       size := if NamesLength(h) then StrToUl(h.1, 10).value % UINT_RANGE else c.size,
       heads := c.heads + [HeaderField(h.0, h.1)])
  }

  function AfterHeaders(c: Conf, headers: seq<Header>): (r: Conf)
    ensures r.st == c.st && r.body == c.body
  {
    if headers == [] then c else Told(AfterHeaders(c, headers[..|headers| - 1]), headers[|headers| - 1])
  }

  function HeaderLine(h: Header): string { h.0 + ": " + h.1 }

  // The line as the parser sees it.
  function LineRead(h: Header): string { if h.1 == "" then h.0 + ":" else HeaderLine(h) }

  lemma PrintedWhole(s: string)
    requires '\0' !in s
    ensures Printed(s) == s
  {
  }

  lemma {:induction false} ColonFound(name: string, rest: string)
    requires ':' !in name && '\0' !in name && rest != "" && rest[0] == ':'
    ensures FindColon(name + rest) == |name|
    decreases |name|
  {
    if name == "" {
      assert name + rest == rest;
    } else {
      assert (name + rest)[1..] == name[1..] + rest;
      ColonFound(name[1..], rest);
    }
  }

  lemma HeaderLineParts(h: Header)
    requires PlainHeader(h)
    ensures FormatHeader(h) == HeaderLine(h) + CRLF
    ensures '\n' !in HeaderLine(h) && TrimRight(HeaderLine(h)) == LineRead(h)
    ensures FindColon(LineRead(h)) == |h.0| < |LineRead(h)| && LineRead(h)[..|h.0|] == h.0
    ensures HeaderValue(LineRead(h), |h.0|) == h.1
  {
    PrintedWhole(h.0);
    PrintedWhole(h.1);
    NameOfHeader(h);
    ValueOfHeader(h);
    LineOfHeader(h);
  }

  lemma NameOfHeader(h: Header)
    requires PlainHeader(h)
    ensures FindColon(LineRead(h)) == |h.0| < |LineRead(h)| && LineRead(h)[..|h.0|] == h.0
  {
    var rest := if h.1 == "" then ":" else ": " + h.1;
    assert LineRead(h) == h.0 + rest && rest[0] == ':';
    ColonFound(h.0, rest);
  }

  lemma ValueOfHeader(h: Header)
    requires PlainHeader(h)
    ensures |h.0| < |LineRead(h)| && HeaderValue(LineRead(h), |h.0|) == h.1
  {
    var line, n := LineRead(h), |h.0|;
    if h.1 == "" {
      assert line[n + 1..] == "";
    } else {
      assert line[n + 1] == ' ' && line[n + 2] == h.1[0];
      assert SkipSpace(line, n + 2) == n + 2 && SkipSpace(line, n + 1) == n + 2;
      assert line[n + 2..] == h.1;
    }
  }

  lemma LineOfHeader(h: Header)
    requires PlainHeader(h)
    ensures TrimRight(HeaderLine(h)) == LineRead(h)
  {
    var line := HeaderLine(h);
    if h.1 == "" {
      assert line == h.0 + ": " && line[..|line| - 1] == h.0 + ":";
      assert TrimRight(h.0 + ":") == h.0 + ":";
    } else {
      assert line[|line| - 1] == h.1[|h.1| - 1];
    }
  }

  lemma HeaderIsParsed(owner: Owner, c: Conf, h: Header, more: string)
    requires c.st == Headers && PlainHeader(h)
    ensures Parse(owner, c, FormatHeader(h) + more) == Parse(owner, Told(c, h), more)
  {
    HeaderLineParts(h);
    HeaderIsTold(owner, c, h);
    LineIsRead(owner, c, HeaderLine(h), more, Go(Told(c, h)));
  }

  lemma HeaderIsTold(owner: Owner, c: Conf, h: Header)
    requires c.st == Headers && PlainHeader(h)
    ensures !EmptyContentLength(LineRead(h)) && LineStep(owner, c, LineRead(h), "") == Go(Told(c, h))
  {
    HeaderLineParts(h);
    assert h.1 + "" == h.1;
    CodingsDiffer(h.1);
  }

  lemma CodingsDiffer(s: string)
    ensures !(SameIgnoringCase(s, "chunked") && SameIgnoringCase(s, "identity"))
  {
  }

  lemma {:induction false} HeadersAreParsed(owner: Owner, c: Conf, headers: seq<Header>, more: string)
    requires c.st == Headers && Plain(headers)
    ensures Parse(owner, c, HeaderText(headers) + more) == Parse(owner, AfterHeaders(c, headers), more)
    decreases |headers|
  {
    if headers == [] {
      assert HeaderText(headers) + more == more;
    } else {
      var init, h := headers[..|headers| - 1], headers[|headers| - 1];
      assert HeaderText(headers) + more == HeaderText(init) + (FormatHeader(h) + more);
      HeadersAreParsed(owner, c, init, FormatHeader(h) + more);
      HeaderIsParsed(owner, AfterHeaders(c, init), h, more);
    }
  }

  lemma LeaderIsParsed(owner: Owner, leader: string, more: string)
    requires Clean(leader) && TrimRight(leader) == leader && owner.leader(leader) == NoError
    ensures Parse(owner, FRESH, leader + CRLF + more) == Parse(owner, AfterLeader(leader), more)
  {
    assert [] + [LeaderLine(leader)] == [LeaderLine(leader)];
    assert LineStep(owner, FRESH, leader, "") == Go(AfterLeader(leader));
    LineIsRead(owner, FRESH, leader, more, Go(AfterLeader(leader)));
  }

  function AfterLeader(leader: string): Conf { FRESH.(st := Headers, heads := [LeaderLine(leader)]) }

  // What the receiving side knows before the end of the head, and what it has been told then.
  function AfterFields(m: Message): (c: Conf)
    ensures c.st == Headers && c.body == ""
  {
    AfterHeaders(AfterLeader(m.leader), m.headers)
  }

  function HeadEvents(m: Message): seq<Head> {
    AfterFields(m).heads + [HeadersDone(AfterFields(m).chunked, AfterFields(m).size)]
  }

  // The owner has the last word on the size of the body.
  function SizeTold(owner: Owner, m: Message): SizeT { owner.headersDone(HeadEvents(m)).1 }

  function AfterHead(owner: Owner, m: Message): (c: Conf)
    ensures c.st != Complete
  {
    var c := AfterFields(m);
    c.(st := if c.chunked then ChunkSize else Data, heads := HeadEvents(m), size := SizeTold(owner, m))
  }

  lemma HeadEndIsParsed(owner: Owner, m: Message, more: string)
    requires owner.headersDone(HeadEvents(m)).0 == NoError
    ensures Parse(owner, AfterFields(m), CRLF + more) == Parse(owner, AfterHead(owner, m), more)
  {
    assert "" + CRLF + more == CRLF + more;
    assert LineStep(owner, AfterFields(m), "", "") == Go(AfterHead(owner, m));
    LineIsRead(owner, AfterFields(m), "", more, Go(AfterHead(owner, m)));
  }

  /** A head that reaches the other side as it is: nothing is cut off or discarded, no line can
      be misread, and the other side has no objection to it. */
  ghost predicate Acceptable(owner: Owner, m: Message) {
    && |m.leader| + (if m.headers == [] then 4 else 2) < BUFFER_SIZE
    && Clean(m.leader) && TrimRight(m.leader) == m.leader && Plain(m.headers)
    && owner.leader(m.leader) == NoError && owner.headersDone(HeadEvents(m)).0 == NoError
  }

  lemma HeadIsParsed(owner: Owner, m: Message, more: string)
    requires Acceptable(owner, m)
    ensures Parse(owner, FRESH, HeadText(m.leader, m.headers, |m.headers|) + more)
            == Parse(owner, AfterHead(owner, m), more)
  {
    var rest := HeaderText(m.headers) + (CRLF + more);
    HeadIsExact(m.leader, m.headers);
    assert m.headers[..|m.headers|] == m.headers;
    assert HeadText(m.leader, m.headers, |m.headers|) + more == m.leader + CRLF + rest;
    LeaderIsParsed(owner, m.leader, rest);
    HeadersAreParsed(owner, AfterLeader(m.leader), m.headers, CRLF + more);
    HeadEndIsParsed(owner, m, more);
  }

  // The value that the parser goes by, if there is one.
  function LastCoding(headers: seq<Header>): string {
    if headers == [] then ""
    else
      var last := headers[|headers| - 1];
      if NamesCoding(last) then last.1 else LastCoding(headers[..|headers| - 1])
  }

  lemma {:induction false} CodingRead(c: Conf, headers: seq<Header>)
    requires !c.chunked
    ensures AfterHeaders(c, headers).chunked <==> SameIgnoringCase(LastCoding(headers), "chunked")
    decreases |headers|
  {
    if headers != [] { CodingRead(c, headers[..|headers| - 1]); }
  }

  /** The two sides agree on whether the body is chunked exactly when the first coding is
      "chunked" as it is and the last one ignoring case, or neither. */
  lemma CodingAgreed(leader: string, headers: seq<Header>, has_document: bool, document: string)
    ensures var m := Sent(leader, headers, has_document, document);
            (m.chunked <==> AfterFields(m).chunked)
            <==> (TransferEncoding(headers) == "chunked" <==> SameIgnoringCase(LastCoding(headers), "chunked"))
  {
    CodingRead(AfterLeader(leader), headers);
  }

  /** For a single coding that is to say that it is not "chunked" in any other case. */
  lemma OneCodingAgreed(leader: string, coding: string, document: string)
    ensures var m := Sent(leader, [("Transfer-Encoding", coding)], true, document);
            (m.chunked <==> AfterFields(m).chunked) <==> coding == "chunked" || !SameIgnoringCase(coding, "chunked")
  {
    var headers := [("Transfer-Encoding", coding)];
    CodingAgreed(leader, headers, true, document);
    assert NamesCoding(headers[0]) && TransferEncoding(headers) == coding && LastCoding(headers) == coding;
  }

  /** Otherwise a body that is sent as it is may be waited for as the size of a chunk. */
  lemma RawReadAsChunks(owner: Owner, m: Message, pieces: seq<string>)
    requires Acceptable(owner, m) && !m.chunked && AfterFields(m).chunked
    requires Joined(pieces) == m.document && '\n' !in m.document
    ensures Parse(owner, FRESH, WholeMessage(m, pieces)) == Outcome(AfterHead(owner, m), m.document, NeedMore)
  {
    HeadIsParsed(owner, m, m.document);
    IndexOfUnique(m.document, '\n', |m.document|);
  }

  /** End to end: whatever pieces the sending document handed out, the receiver is told of
      the same leader and the same headers in the same order, its document gets the same
      body, and it stops without an error at the first byte after the message. */
  lemma MessageRoundTrip(owner: Owner, m: Message, pieces: seq<string>, more: string)
    requires Acceptable(owner, m) && m.has_document && m.chunked && AfterFields(m).chunked
    requires Sendable(pieces) && Joined(pieces) == m.document
    ensures Parse(owner, FRESH, WholeMessage(m, pieces) + more) ==
            Outcome(Conf(Trailers, true, 0, HeadEvents(m), m.document), more, Done(NoError))
  {
    var head, body := HeadText(m.leader, m.headers, |m.headers|), Chunks(pieces) + LAST_CHUNK;
    assert WholeMessage(m, pieces) + more == head + (body + more);
    HeadIsParsed(owner, m, body + more);
    ChunkedBodyRoundTrip(owner, AfterHead(owner, m), pieces, more);
    assert "" + Joined(pieces) == m.document;
  }

  // A body of a known size is taken byte by byte.
  lemma SizedBodyIsParsed(owner: Owner, c: Conf, body: string, more: string)
    requires c.st == Data && !c.chunked && c.size == |body| < SIZE_UNKNOWN
    ensures Parse(owner, c, body + more) == Outcome(c.(size := 0, body := c.body + body), more, Done(NoError))
  {
    if body == "" {
      assert body + more == more && c.body + body == c.body;
    } else {
      assert (body + more)[..|body|] == body && (body + more)[|body|..] == more;
      assert DataLength(c, body + more) == |body|;
      var c' := Absorb(c, body);
      assert Parse(owner, c', more) == Outcome(c', more, Done(NoError));
    }
  }

  /** The same for a message that is not chunked, when the size of its body is what the
      receiving side has been told. */
  lemma SizedRoundTrip(owner: Owner, m: Message, pieces: seq<string>, more: string)
    requires Acceptable(owner, m) && !m.chunked && !AfterFields(m).chunked
    requires Joined(pieces) == m.document && SizeTold(owner, m) == |m.document| < SIZE_UNKNOWN
    ensures Parse(owner, FRESH, WholeMessage(m, pieces) + more) ==
            Outcome(Conf(Data, false, 0, HeadEvents(m), m.document), more, Done(NoError))
  {
    var head := HeadText(m.leader, m.headers, |m.headers|);
    assert WholeMessage(m, pieces) + more == head + (m.document + more);
    HeadIsParsed(owner, m, m.document + more);
    SizedBodyIsParsed(owner, AfterHead(owner, m), m.document, more);
    assert "" + m.document == m.document;
  }

  /** Without a size the body runs to the end of the connection. */
  lemma UnsizedRoundTrip(owner: Owner, m: Message, pieces: seq<string>)
    requires Acceptable(owner, m) && !m.chunked && !AfterFields(m).chunked
    requires Joined(pieces) == m.document && SizeTold(owner, m) == SIZE_UNKNOWN
    ensures Parse(owner, FRESH, WholeMessage(m, pieces)) ==
            Outcome(Conf(Data, false, SIZE_UNKNOWN, HeadEvents(m), m.document), "", NeedMore)
  {
    HeadIsParsed(owner, m, m.document);
    ReadUntilClose(owner, AfterHead(owner, m), m.document);
    assert "" + m.document == m.document;
  }
}
