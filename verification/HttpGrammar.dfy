/** What an HTTP byte stream means to HttpParser: the reference semantics of its state machine.

    `Parse` reads a whole input at once, with a document that accepts every byte. The
    imperative parser in HttpReceiving.dfy is proved against it; here the semantics itself is
    shown not to depend on how the input is cut. */
module HttpGrammar {
  import opened HttpText

  datatype HttpError =
    | NoError | Protocol | Disconnected | Overflow | ConnectFailed | SocketError | Shutdown
    | Cancelled | Auth | CertificateExpired | StreamFailure | CacheFailure | DefaultError

  // The states in the order of the source's enumeration.
  datatype State = Leader | Headers | ChunkSize | ChunkTerm | Trailers | Data | Complete

  // The structural callbacks, in the order in which they are made.
  datatype Head =
    | LeaderLine(text: string)
    | HeaderField(name: string, value: string)
    | HeadersDone(chunked: bool, size: SizeT)

  /** The parser's owner: its verdict on the leader, and its answer to the end of the headers,
      which sees all the events so far and may replace the data size. */
  datatype Owner = Owner(leader: string -> HttpError, headersDone: seq<Head> -> (HttpError, SizeT))

  /** A parser's fields together with everything it has handed to its owner. */
  datatype Conf = Conf(st: State, chunked: bool, size: SizeT, heads: seq<Head>, body: string)

  const FRESH: Conf := Conf(Leader, false, SIZE_UNKNOWN, [], "")

  predicate ReadsLines(st: State) { st != Data && st != Complete }

  datatype Step = Go(conf: Conf) | Finish(conf: Conf, error: HttpError) | Garbled

  // The value part of a header line whose colon is at the given position.
  function HeaderValue(line: string, colon: nat): string
    requires colon < |line|
  {
    line[SkipSpace(line, colon + 1)..]
  }

  /** A Content-Length header without a value: the scan for a number then runs past the end
      of the line. */
  predicate EmptyContentLength(line: string) {
    var colon := FindColon(line);
    colon < |line| && SameIgnoringCase(line[..colon], "Content-Length") && HeaderValue(line, colon) == ""
  }

  function HeaderStep(c: Conf, line: string, after: string): Step {
    var colon := FindColon(line);
    if colon == |line| then Finish(c, Protocol)
    else
      var name, value := line[..colon], HeaderValue(line, colon);
      var field := c.heads + [HeaderField(name, value)];
      if SameIgnoringCase(name, "Content-Length") then
        var scan := StrToUl(value + after, 10);
        if scan.end == 0 then Finish(c, Protocol)
        else Go(c.(size := scan.value % UINT_RANGE, heads := field))
      else if SameIgnoringCase(name, "Transfer-Encoding") then
        if SameIgnoringCase(value, "chunked") then Go(c.(chunked := true, heads := field))
        else if SameIgnoringCase(value, "identity") then Go(c.(chunked := false, heads := field))
        else Finish(c, Protocol)
      else Go(c.(heads := field))
  }

  function EndHeaders(owner: Owner, c: Conf): Step {
    var c' := c.(st := if c.chunked then ChunkSize else Data,
                 heads := c.heads + [HeadersDone(c.chunked, c.size)]);
    var (error, size) := owner.headersDone(c'.heads);
    if error == NoError then Go(c'.(size := size)) else Finish(c'.(size := size), error)
  }

  /** One line, trimmed of trailing white space, with the memory that lies after it. */
  function LineStep(owner: Owner, c: Conf, line: string, after: string): (step: Step)
    requires ReadsLines(c.st)
    ensures !step.Garbled? && step.conf.st != Complete
  {
    match c.st
    case Leader =>
      var c' := c.(st := Headers, heads := c.heads + [LeaderLine(line)]);
      var error := owner.leader(line);
      if error == NoError then Go(c') else Finish(c', error)
    case Headers =>
      if line != "" then HeaderStep(c, line, after) else EndHeaders(owner, c)
    case ChunkSize =>
      if line == "" then Finish(c, Protocol)
      else
        var scan := StrToUl(line + after, 16);
        if scan.end != |line| then Finish(c.(size := scan.value), Protocol)
        else Go(c.(size := scan.value, st := if scan.value == 0 then Trailers else Data))
    case ChunkTerm =>
      if line != "" then Finish(c, Protocol)
      else Go(c.(st := if c.chunked then ChunkSize else Data))
    case Trailers =>
      if line == "" then Finish(c, NoError) else Go(c)
  }

  datatype Stop = NeedMore | Done(error: HttpError) | Unpredictable

  datatype Outcome = Outcome(conf: Conf, rest: string, stop: Stop)

  // How much of the input belongs to the current stretch of body data.
  function DataLength(c: Conf, input: string): (n: nat)
    ensures n <= |input|
  {
    if c.size == SIZE_UNKNOWN || |input| <= c.size then |input| else c.size
  }

  // The parser after it has handed some body data on.
  function Absorb(c: Conf, data: string): Conf
    requires c.size == SIZE_UNKNOWN || |data| <= c.size
  {
    c.(body := c.body + data, size := if c.size == SIZE_UNKNOWN then c.size else c.size - |data|)
  }

  // The first line of the input, read without a look at the memory behind it.
  function FirstLine(owner: Owner, c: Conf, input: string): (step: Step)
    requires ReadsLines(c.st) && IndexOf(input, '\n') < |input|
    ensures !step.Garbled? ==> step.conf.st != Complete
  {
    var line := TrimRight(input[..IndexOf(input, '\n')]);
    if c.st == Headers && EmptyContentLength(line) then Garbled else LineStep(owner, c, line, "")
  }

  /** Everything the parser makes of an input: its final configuration, the unread rest, and
      why it stops there. */
  function Parse(owner: Owner, c: Conf, input: string): (o: Outcome)
    requires c.st != Complete
    decreases |input|, c.st == Data
  {
    if ReadsLines(c.st) then
      var n := IndexOf(input, '\n');
      if n == |input| then Outcome(c, input, NeedMore)
      else
        match FirstLine(owner, c, input)
        case Garbled => Outcome(c, input, Unpredictable)
        case Finish(c', error) => Outcome(c', input[n + 1..], Done(error))
        case Go(c') => Parse(owner, c', input[n + 1..])
    else if c.size == 0 then
      if c.chunked then Parse(owner, c.(st := ChunkTerm), input) else Outcome(c, input, Done(NoError))
    else
      var n := DataLength(c, input);
      if n == 0 then Outcome(c, input, NeedMore) else Parse(owner, Absorb(c, input[..n]), input[n..])
  }

  // What a leader means is its owner's verdict, here a function of the line. Of the other
  // lines none but an empty Content-Length has a meaning that depends on the memory behind it...
  lemma LineIgnoresMemory(owner: Owner, c: Conf, line: string, after: string)
    requires ReadsLines(c.st) && TrimRight(line) == line && Separates(after)
    requires !(c.st == Headers && EmptyContentLength(line))
    ensures LineStep(owner, c, line, after) == LineStep(owner, c, line, "")
  {
    if c.st == ChunkSize && line != "" {
      ScanStopsAtSpace(line, after, 16);
      assert line + "" == line;
    } else if c.st == Headers && FindColon(line) < |line| {
      var value := HeaderValue(line, FindColon(line));
      assert value + "" == value;
      if value != "" { ScanStopsAtSpace(value, after, 10); }
    }
  }

  // The number is then taken from whatever the buffer holds behind the line.
  lemma EmptyValueReadsOn(owner: Owner, c: Conf, line: string)
    requires c.st == Headers && EmptyContentLength(line)
    ensures LineStep(owner, c, line, "\n7") != LineStep(owner, c, line, "\n8")
  {
    OneDigitScan('7');
    OneDigitScan('8');
    assert "" + "\n7" == "\n7" == ['\n', '7'] && "" + "\n8" == "\n8" == ['\n', '8'];
    assert HeaderStep(c, line, "\n7").conf.size == 7;
    assert HeaderStep(c, line, "\n8").conf.size == 8;
  }

  /** ... and that exception is exact: a header line means the same whatever follows it in
      memory if and only if it is not an empty Content-Length. */
  lemma HeaderLineIsPredictable(owner: Owner, c: Conf, line: string)
    requires c.st == Headers && TrimRight(line) == line
    ensures !EmptyContentLength(line) <==>
            forall after: string, after' :: Separates(after) && Separates(after') ==>
              LineStep(owner, c, line, after) == LineStep(owner, c, line, after')
  {
    if EmptyContentLength(line) {
      EmptyValueReadsOn(owner, c, line);
      assert Separates("\n7") && Separates("\n8");
    } else {
      forall after: string, after' | Separates(after) && Separates(after')
        ensures LineStep(owner, c, line, after) == LineStep(owner, c, line, after')
      {
        LineIgnoresMemory(owner, c, line, after);
        LineIgnoresMemory(owner, c, line, after');
      }
    }
  }

  lemma OneDigitScan(digit: char)
    requires '0' <= digit <= '9'
    ensures StrToUl(['\n', digit], 10) == Scan(DigitValue(digit), 2)
  {
    var s := ['\n', digit];
    assert SkipSpace(s, 1) == 1 && SkipSpace(s, 0) == 1;
    assert DigitsEnd(s, 2, 10) == 2 && DigitsEnd(s, 1, 10) == 2;
    assert s[1..2] == [digit] && [digit][..0] == "";
    assert Number("", 10) == 0;
    assert Number([digit], 10) == DigitValue(digit);
  }

  // Body data may be handed on in any number of pieces.
  lemma DataInPieces(owner: Owner, c: Conf, input: string, k: nat)
    requires c.st == Data && c.size != 0 && 0 < k <= DataLength(c, input)
    ensures Parse(owner, c, input) == Parse(owner, Absorb(c, input[..k]), input[k..])
  {
    var n := DataLength(c, input);
    var c' := Absorb(c, input[..k]);
    if k < n {
      assert DataLength(c', input[k..]) == n - k;
      assert input[k..][..n - k] == input[k..n];
      assert input[k..][n - k..] == input[n..];
      assert (c.body + input[..k]) + input[k..n] == c.body + input[..n] by {
        assert input[..k] + input[k..n] == input[..n];
      }
      assert Absorb(c', input[k..n]) == Absorb(c, input[..n]);
    }
  }

  // A body without a length takes in everything that is left.
  lemma ReadUntilClose(owner: Owner, c: Conf, input: string)
    requires c.st == Data && c.size == SIZE_UNKNOWN
    ensures Parse(owner, c, input) == Outcome(c.(body := c.body + input), "", NeedMore)
  {
    if input == "" {
      assert c.body + input == c.body;
    } else {
      assert input[..|input|] == input && input[|input|..] == "";
      var c' := Absorb(c, input);
      assert Parse(owner, c', "") == Outcome(c', "", NeedMore);
    }
  }

  lemma FirstLineExtended(owner: Owner, c: Conf, a: string, b: string)
    requires ReadsLines(c.st) && IndexOf(a, '\n') < |a|
    ensures IndexOf(a + b, '\n') == IndexOf(a, '\n')
    ensures FirstLine(owner, c, a + b) == FirstLine(owner, c, a)
  {
    IndexOfExtended(a, b, '\n');
    assert (a + b)[..IndexOf(a, '\n')] == a[..IndexOf(a, '\n')];
  }

  /** The parser can be stopped after any prefix of its input and taken up again: what it has
      not read is presented once more, and nothing is lost, repeated or read differently. */
  lemma {:induction false} Resume(owner: Owner, c: Conf, a: string, b: string)
    requires c.st != Complete
    ensures var o := Parse(owner, c, a);
            o.conf.st != Complete &&
            Parse(owner, c, a + b) ==
              if o.stop == NeedMore then Parse(owner, o.conf, o.rest + b) else o.(rest := o.rest + b)
    decreases |a|, c.st == Data
  {
    if ReadsLines(c.st) {
      var n := IndexOf(a, '\n');
      if n < |a| {
        FirstLineExtended(owner, c, a, b);
        var step := FirstLine(owner, c, a);
        assert (a + b)[n + 1..] == a[n + 1..] + b;
        if step.Go? { Resume(owner, step.conf, a[n + 1..], b); }
      }
    } else if c.size == 0 {
      if c.chunked { Resume(owner, c.(st := ChunkTerm), a, b); }
    } else {
      var n := DataLength(c, a);
      if n > 0 {
        assert n <= DataLength(c, a + b);
        assert (a + b)[..n] == a[..n] && (a + b)[n..] == a[n..] + b;
        DataInPieces(owner, c, a + b, n);
        Resume(owner, Absorb(c, a[..n]), a[n..], b);
      }
    }
  }

  function Flatten(pieces: seq<string>): string {
    if pieces == [] then "" else pieces[0] + Flatten(pieces[1..])
  }

  /** One call for every piece that arrives, the unread rest of the last call put in front of
      it, until the parser stops for good. */
  function Feed(owner: Owner, c: Conf, pending: string, pieces: seq<string>): Outcome
    requires c.st != Complete
    decreases |pieces|
  {
    if pieces == [] then Parse(owner, c, pending)
    else
      var o := Parse(owner, c, pending + pieces[0]);
      Resume(owner, c, pending + pieces[0], "");
      if o.stop != NeedMore then o.(rest := o.rest + Flatten(pieces[1..]))
      else Feed(owner, o.conf, o.rest, pieces[1..])
  }

  /** However a stream is cut into calls, the events, the body, the final state, the result
      and the unread bytes are those of one call on the whole stream. */
  lemma {:induction false} SplitIndependence(owner: Owner, c: Conf, pending: string, pieces: seq<string>)
    requires c.st != Complete
    ensures Feed(owner, c, pending, pieces) == Parse(owner, c, pending + Flatten(pieces))
    decreases |pieces|
  {
    if pieces == [] {
      assert pending + "" == pending;
    } else {
      var a, b := pending + pieces[0], Flatten(pieces[1..]);
      assert pending + Flatten(pieces) == a + b;
      Resume(owner, c, a, b);
      var o := Parse(owner, c, a);
      if o.stop == NeedMore { SplitIndependence(owner, o.conf, o.rest, pieces[1..]); }
    }
  }

  /** A parser at c with these bytes unread stands where one that started at c0 would stand
      after all of the stream (unless the stream holds an empty Content-Length). */
  ghost predicate Follows(owner: Owner, c0: Conf, stream: string, c: Conf, unread: string) {
    && c0.st != Complete && c.st != Complete
    && (Parse(owner, c0, stream).stop == Unpredictable || Parse(owner, c0, stream) == Parse(owner, c, unread))
  }

  lemma FollowsMore(owner: Owner, c0: Conf, stream: string, c: Conf, unread: string, more: string)
    requires Follows(owner, c0, stream, c, unread)
    ensures Follows(owner, c0, stream + more, c, unread + more)
  {
    Resume(owner, c0, stream, more);
    Resume(owner, c, unread, more);
  }
}
