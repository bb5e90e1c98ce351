/** HttpParser and the receiving half of HttpBase, as they run: fields updated in loops, a
    document that may take part of what it is offered, stall or fail, and a network that
    delivers what it likes. */
module HttpReceiving {
  import opened HttpText
  import opened HttpGrammar
  import opened HttpMemory

  datatype ProcessResult = PrContinue | PrBlock | PrComplete

  /** What the document says to an offer of data: it takes at most so much, and at least one byte,
      or nothing at the moment, or it fails. It is a function of how much it has taken so far. */
  datatype Intake = Takes(most: nat) | Stalls | Fails

  // How much is moved when there are n bytes.
  function Portion(most: nat, n: nat): (k: nat)
    requires n > 0
    ensures 0 < k <= n
  {
    if most == 0 then 1 else if most > n then n else most
  }

  // The end of the headers has been reported, and nothing after it.
  predicate HeadEnded(before: seq<Head>, after: seq<Head>) {
    before < after && after[|after| - 1].HeadersDone?
  }

  method Strchrn(line: string) returns (colon: nat)
    ensures colon == FindColon(line)
  {
    colon := 0;
    while colon < |line| && line[colon] != ':' && line[colon] != '\0'
      invariant colon <= |line|
      invariant FindColon(line) ==
                if FindColon(line[colon..]) == |line| - colon then |line| else colon + FindColon(line[colon..])
    {
      colon := colon + 1;
    }
    if colon < |line| && line[colon] == '\0' {
      colon := |line|;
    }
  }

  method AfterSpace(line: string, from: nat) returns (start: nat)
    requires from <= |line|
    ensures start == SkipSpace(line, from)
  {
    start := from;
    while start < |line| && IsSpace(line[start])
      invariant start <= |line| && SkipSpace(line, from) == SkipSpace(line, start)
    {
      start := start + 1;
    }
  }

  // The first newline of memory[from..len] is at pos, or there is none and pos is len.
  ghost predicate EndsAt(memory: string, from: nat, len: nat, pos: nat) {
    from <= pos <= len <= |memory| && pos - from == IndexOf(memory[from..len], '\n')
  }

  method FindNewline(memory: string, from: nat, len: nat) returns (pos: nat)
    requires from <= len <= |memory|
    ensures from <= pos <= len && EndsAt(memory, from, len, pos)
  {
    pos := from;
    while pos < len && memory[pos] != '\n'
      invariant from <= pos <= len
      invariant forall k :: from <= k < pos ==> memory[k] != '\n'
    {
      pos := pos + 1;
    }
    IndexOfUnique(memory[from..len], '\n', pos - from);
  }

  method TrimmedLength(memory: string, start: nat, pos: nat) returns (length: nat)
    requires start <= pos <= |memory|
    ensures start + length <= pos
    ensures memory[start..start + length] == TrimRight(memory[start..pos])
  {
    var line := memory[start..pos];
    length := pos - start;
    assert line[..length] == line;
    while length > 0 && IsSpace(memory[start + length - 1])
      invariant length <= pos - start
      invariant TrimRight(line) == TrimRight(line[..length])
    {
      assert line[..length][..length - 1] == line[..length - 1];
      length := length - 1;
    }
    assert line[..length] == memory[start..start + length];
  }

  /** A call that ends like this, with these bytes unread, agrees with the grammar: it stops
      for want of input where `Parse` stops, it completes where `Parse` completes and with the
      same error, and a stall or a failing document leaves the rest of the work undone. */
  ghost predicate Agrees(owner: Owner, ideal: Outcome, c: Conf, unread: string, result: ProcessResult,
      error: HttpError, document: nat -> Intake) {
    c.st != Complete && EndsAs(ideal, Parse(owner, c, unread), c, unread, result, error, document)
  }

  // What is still to come of the work is what is still to come from here.
  predicate EndsAs(ideal: Outcome, ahead: Outcome, c: Conf, unread: string, result: ProcessResult, error: HttpError,
      document: nat -> Intake) {
    match result
    case PrContinue => error == NoError && ideal == Outcome(c, unread, NeedMore)
    case PrBlock => error == NoError && ideal == ahead
    case PrComplete =>
      || ideal == Outcome(c, unread, Done(error))
      || (error == StreamFailure && Offered(c, |unread|) && document(|c.body|) == Fails && ideal == ahead)
  }

  // There is data for the document.
  predicate Offered(c: Conf, unread: nat) { c.st == Data && c.size != 0 && unread > 0 }

  /** The same for a call that starts here with this input, which may hold an empty
      Content-Length. */
  ghost predicate Obeys(owner: Owner, c: Conf, input: string, c': Conf, unread: string, result: ProcessResult,
      error: HttpError, document: nat -> Intake)
    requires c.st != Complete
  {
    || Parse(owner, c, input).stop == Unpredictable
    || Agrees(owner, Parse(owner, c, input), c', unread, result, error, document)
  }

  /** A call may be blocked only by a document that takes nothing of what it is offered, or by an
      owner that switches streams at the end of the headers. */
  predicate Blocked(before: seq<Head>, c: Conf, unread: nat, document: nat -> Intake, switches: bool) {
    (Offered(c, unread) && document(|c.body|) == Stalls) || (switches && HeadEnded(before, c.heads))
  }

  /** The same without an exception, for a call that works through memory[at..len] and leaves what
      begins at processed: an empty Content-Length looks at the memory that is there. */
  ghost predicate ObeysIn(owner: Owner, c: Conf, memory: string, at: nat, len: nat, c': Conf, processed: nat,
      result: ProcessResult, error: HttpError, document: nat -> Intake)
    requires at <= processed <= len <= |memory| && c.st != Complete
  {
    && c'.st != Complete
    && EndsAs(ParseIn(owner, c, memory, at, len), ParseIn(owner, c', memory, processed, len), c', memory[processed..len],
              result, error, document)
  }

  /** With a document that takes what it is offered, and an owner that does not switch, a call ends
      exactly as one call of the grammar in its memory does. */
  lemma EndsLikeParse(owner: Owner, c: Conf, memory: string, len: nat, c': Conf, processed: nat, result: ProcessResult,
      error: HttpError, document: nat -> Intake, switches: bool)
    requires processed <= len <= |memory| && c.st != Complete
    requires ObeysIn(owner, c, memory, 0, len, c', processed, result, error, document)
    requires result == PrBlock ==> Blocked(c.heads, c', len - processed, document, switches)
    requires (forall n :: document(n).Takes?) && !switches
    ensures ParseIn(owner, c, memory, 0, len)
            == Outcome(c', memory[processed..len], if result == PrContinue then NeedMore else Done(error))
  {
    hide ParseIn;
    assert document(|c'.body|).Takes?;
  }

  ghost predicate ObeysLineIn(owner: Owner, c: Conf, memory: string, at: nat, len: nat, c': Conf, processed: nat,
      complete: bool, result: ProcessResult, error: HttpError)
    requires at <= processed <= len <= |memory| && c.st != Complete
  {
    var ideal := ParseIn(owner, c, memory, at, len);
    && c'.st != Complete
    && if result == PrComplete then ideal == Outcome(c', memory[processed..len], Done(error))
       else error == NoError
            && ideal == if complete then ParseIn(owner, c', memory, processed, len)
                        else Outcome(c', memory[processed..len], NeedMore)
  }

  // The same for one line, after which the parser can go on, or for the lack of one.
  ghost predicate ObeysLine(owner: Owner, c: Conf, input: string, c': Conf, unread: string, complete: bool,
      result: ProcessResult, error: HttpError)
    requires c.st != Complete
  {
    var ideal := Parse(owner, c, input);
    || ideal.stop == Unpredictable
    || (c'.st != Complete
        && if result == PrComplete then ideal == Outcome(c', unread, Done(error))
           else error == NoError && ideal == if complete then Parse(owner, c', unread) else Outcome(c', unread, NeedMore))
  }

  // What ProcessLine reports about a step of the grammar.
  ghost predicate Reports(step: Step, c: Conf, result: ProcessResult, error: HttpError) {
    match step
    case Go(c') => c == c' && result != PrComplete && error == NoError
    case Finish(c', e) => c == c' && result == PrComplete && error == e
    case Garbled => false
  }

  lemma OneLine(owner: Owner, c: Conf, input: string, rest: string, step: Step,
                c': Conf, result: ProcessResult, error: HttpError)
    requires ReadsLines(c.st) && IndexOf(input, '\n') < |input| && rest == input[IndexOf(input, '\n') + 1..]
    requires FirstLine(owner, c, input).Garbled? || FirstLine(owner, c, input) == step
    requires Reports(step, c', result, error) && c'.st != Complete
    ensures ObeysLine(owner, c, input, c', rest, true, result, error)
  {
    var first := FirstLine(owner, c, input);
    ParseOfLine(owner, c, input, first);
    if first.Go? {
      assert Parse(owner, c, input) == Parse(owner, c', rest);
    } else if first.Finish? {
      assert Parse(owner, c, input) == Outcome(c', rest, Done(error));
    }
  }

  lemma OneLineIn(owner: Owner, c: Conf, memory: string, at: nat, len: nat, n: nat, step: Step,
                  c': Conf, result: ProcessResult, error: HttpError)
    requires at <= len <= |memory| && ReadsLines(c.st) && n == IndexOf(memory[at..len], '\n') < len - at
    requires step == LineIn(owner, c, memory, at, at + n) && Reports(step, c', result, error) && c'.st != Complete
    ensures ObeysLineIn(owner, c, memory, at, len, c', at + n + 1, true, result, error)
  {
    hide LineIn, ParseIn;
    ParseOfLineIn(owner, c, memory, at, len, n, step);
  }

  class HttpParser {
    const owner: Owner
    var state_: State
    var chunked_: bool
    var data_size_: SizeT
    // What ProcessLeader, ProcessHeader and ProcessHeaderComplete have been given so far,
    // and what the document has accepted.
    var heads: seq<Head>
    var body: string

    constructor (owner: Owner)
      ensures this.owner == owner && Snapshot() == FRESH
    {
      this.owner := owner;
      state_, chunked_, data_size_ := Leader, false, SIZE_UNKNOWN;
      heads, body := [], "";
    }

    ghost function Snapshot(): Conf
      reads this
    {
      Conf(state_, chunked_, data_size_, heads, body)
    }

    method ProcessHeader(line: string, after: string) returns (result: ProcessResult, error: HttpError)
      requires state_ == Headers && line != ""
      modifies this
      ensures Reports(LineStep(owner, old(Snapshot()), line, after), Snapshot(), result, error)
      ensures result != PrBlock
    {
      var colon := Strchrn(line);
      if colon == |line| {
        return PrComplete, Protocol;
      }
      var start := AfterSpace(line, colon + 1);
      var name, value := line[..colon], line[start..];
      if SameIgnoringCase(name, "Content-Length") {
        var scan := StrToUl(value + after, 10);
        if scan.end == 0 {
          return PrComplete, Protocol;
        }
        data_size_ := scan.value % UINT_RANGE;
      } else if SameIgnoringCase(name, "Transfer-Encoding") {
        if |value| == 7 && SameIgnoringCase(value, "chunked") {
          chunked_ := true;
        } else if |value| == 8 && SameIgnoringCase(value, "identity") {
          chunked_ := false;
        } else {
          return PrComplete, Protocol;
        }
      }
      heads := heads + [HeaderField(name, value)];
      return PrContinue, NoError;
    }

    // The owner may switch to reading through a document stream meanwhile.
    method ProcessHeaderComplete(switches: bool) returns (result: ProcessResult, error: HttpError)
      modifies this
      ensures var c := old(Snapshot()).(heads := old(heads) + [HeadersDone(chunked_, old(data_size_))]);
              var (e, size) := owner.headersDone(c.heads);
              Snapshot() == c.(size := size) && error == e &&
              result == if e != NoError then PrComplete else if switches then PrBlock else PrContinue
    {
      heads := heads + [HeadersDone(chunked_, data_size_)];
      var (e, size) := owner.headersDone(heads);
      data_size_ := size;
      if e != NoError {
        return PrComplete, e;
      }
      return if switches then PrBlock else PrContinue, NoError;
    }

    method ProcessLine(line: string, after: string, switches: bool) returns (result: ProcessResult, error: HttpError)
      requires ReadsLines(state_)
      modifies this
      ensures Reports(LineStep(owner, old(Snapshot()), line, after), Snapshot(), result, error)
      ensures state_ != Complete && old(heads) <= heads && body == old(body)
      ensures result == PrBlock ==> switches && HeadEnded(old(heads), heads)
    {
      result, error := PrContinue, NoError;
      match state_
      case Leader =>
        state_ := Headers;
        heads := heads + [LeaderLine(line)];
        error := owner.leader(line);
        result := if error == NoError then PrContinue else PrComplete;
      case Headers =>
        if |line| > 0 {
          result, error := ProcessHeader(line, after);
        } else {
          state_ := if chunked_ then ChunkSize else Data;
          result, error := ProcessHeaderComplete(switches);
        }
      case ChunkSize =>
        if |line| > 0 {
          var scan := StrToUl(line + after, 16);
          data_size_ := scan.value;
          if scan.end != |line| {
            return PrComplete, Protocol;
          }
          state_ := if data_size_ == 0 then Trailers else Data;
        } else {
          return PrComplete, Protocol;
        }
      case ChunkTerm =>
        if |line| > 0 {
          return PrComplete, Protocol;
        }
        state_ := if chunked_ then ChunkSize else Data;
      case Trailers =>
        if |line| == 0 {
          return PrComplete, NoError;
        }
    }

    // The document is offered some data.
    method ProcessData(data: string, document: nat -> Intake) returns (result: ProcessResult, read: nat, error: HttpError)
      requires data != ""
      modifies this`body
      ensures match document(|old(body)|)
              case Takes(most) => result == PrContinue && read == Portion(most, |data|) && body == old(body) + data[..read]
              case Stalls => result == PrBlock && body == old(body)
              case Fails => result == PrComplete && body == old(body)
      ensures error == if result == PrComplete then StreamFailure else NoError
    {
      read, error := 0, NoError;
      match document(|body|)
      case Takes(most) =>
        result, read := PrContinue, Portion(most, |data|);
        body := body + data[..read];
      case Stalls =>
        result := PrBlock;
      case Fails =>
        result, error := PrComplete, StreamFailure;
    }

    // The line branch of Process: false when the buffer does not hold a whole line.
    method ReadLine(memory: string, len: nat, at: nat, switches: bool)
      returns (complete: bool, result: ProcessResult, processed: nat, error: HttpError)
      requires at <= len <= |memory| && ReadsLines(state_)
      modifies this
      ensures at <= processed <= len && state_ != Complete
      ensures complete ==> at < processed
      ensures !complete ==> result == PrContinue && processed == at
      ensures old(heads) <= heads && (result == PrBlock ==> switches && HeadEnded(old(heads), heads))
      ensures ObeysLine(owner, old(Snapshot()), memory[at..len], Snapshot(), memory[processed..len], complete, result, error)
      ensures ObeysLineIn(owner, old(Snapshot()), memory, at, len, Snapshot(), processed, complete, result, error)
    {
      hide Parse, ParseIn, ObeysLine, ObeysLineIn;
      var pos := FindNewline(memory, at, len);
      if pos >= len {
        WaitsForLine(owner, Snapshot(), memory, at, len);
        return false, PrContinue, at, NoError;
      }
      complete, processed := true, pos + 1;
      result, error := TakeLine(memory, len, at, pos, switches);
    }

    // A line that ends at pos, without the white space at its end.
    method TakeLine(memory: string, len: nat, at: nat, pos: nat, switches: bool)
      returns (result: ProcessResult, error: HttpError)
      requires at <= pos < len <= |memory| && EndsAt(memory, at, len, pos) && ReadsLines(state_)
      modifies this
      ensures state_ != Complete
      ensures old(heads) <= heads && (result == PrBlock ==> switches && HeadEnded(old(heads), heads))
      ensures ObeysLine(owner, old(Snapshot()), memory[at..len], Snapshot(), memory[pos + 1..len], true, result, error)
      ensures ObeysLineIn(owner, old(Snapshot()), memory, at, len, Snapshot(), pos + 1, true, result, error)
    {
      hide LineStep, FirstLine, Parse, ParseIn, TrimRight;
      ghost var c := Snapshot();
      var length := TrimmedLength(memory, at, pos);
      result, error := ProcessLine(memory[at..at + length], memory[at + length..], switches);
      ghost var step := LineIn(owner, c, memory, at, pos);
      FirstLineIn(owner, c, memory, at, len);
      SliceOn(memory, at, pos + 1 - at, len);
      OneLine(owner, c, memory[at..len], memory[pos + 1..len], step, Snapshot(), result, error);
      OneLineIn(owner, c, memory, at, len, pos - at, step, Snapshot(), result, error);
    }

    // The body branch of Process.
    method ReadData(memory: string, len: nat, at: nat, document: nat -> Intake)
      returns (result: ProcessResult, processed: nat, error: HttpError)
      requires at < len <= |memory| && state_ == Data && data_size_ != 0
      modifies this
      ensures at <= processed <= len && state_ == Data
      ensures Parse(owner, old(Snapshot()), memory[at..len]) == Parse(owner, Snapshot(), memory[processed..len])
      ensures ParseIn(owner, old(Snapshot()), memory, at, len) == ParseIn(owner, Snapshot(), memory, processed, len)
      ensures heads == old(heads)
      ensures match result
              case PrContinue => at < processed && error == NoError
              case PrBlock => error == NoError && document(|body|) == Stalls
              case PrComplete => error == StreamFailure && document(|body|) == Fails
      ensures result != PrContinue ==> processed == at && Snapshot() == old(Snapshot())
    {
      hide Parse, ParseIn;
      ghost var c, unread := Snapshot(), memory[at..len];
      var available := len - at;
      if data_size_ != SIZE_UNKNOWN && available > data_size_ {
        available := data_size_;
      }
      var read: nat;
      result, read, error := ProcessData(memory[at..at + available], document);
      processed := at;
      if result == PrContinue {
        processed := at + read;
        SliceOn(memory, at, read, len);
        assert memory[at..at + available][..read] == unread[..read];
        DataInPieces(owner, c, unread, read);
        PiecesIn(owner, c, memory, at, len, read);
        if data_size_ != SIZE_UNKNOWN {
          data_size_ := data_size_ - read;
        }
        assert Snapshot() == Absorb(c, unread[..read]);
      }
    }

    /** Works through memory[..len]; only an empty Content-Length makes it look further.
        Everything else it does, and what it leaves unread, is what the grammar prescribes. It
        is blocked only by the document, or by an owner that switches streams at the end of the
        headers, and otherwise it ends as a call of the grammar does. */
    method Process(memory: string, len: nat, document: nat -> Intake, switches: bool)
      returns (result: ProcessResult, processed: nat, error: HttpError)
      requires len <= |memory|
      modifies this
      ensures processed <= len
      ensures old(state_) == Complete ==>
                result == PrComplete && processed == 0 && error == NoError && Snapshot() == old(Snapshot())
      ensures old(state_) != Complete ==> state_ != Complete
      ensures old(state_) != Complete ==>
                Obeys(owner, old(Snapshot()), memory[..len], Snapshot(), memory[processed..len], result, error, document)
      ensures old(state_) != Complete ==>
                ObeysIn(owner, old(Snapshot()), memory, 0, len, Snapshot(), processed, result, error, document)
      ensures result == PrBlock ==> Blocked(old(heads), Snapshot(), len - processed, document, switches)
      ensures old(heads) <= heads
    {
      hide Parse, ParseIn;
      processed, error := 0, NoError;
      if state_ == Complete {
        return PrComplete, 0, NoError;
      }
      ghost var ideal := Parse(owner, Snapshot(), memory[..len]);
      assert memory[0..len] == memory[..len];
      while true
        invariant processed <= len && state_ != Complete && old(heads) <= heads
        invariant ideal.stop == Unpredictable || ideal == Parse(owner, Snapshot(), memory[processed..len])
        invariant ParseIn(owner, old(Snapshot()), memory, 0, len) == ParseIn(owner, Snapshot(), memory, processed, len)
        decreases len - processed, state_ == Data
      {
        var again;
        again, result, processed, error := Turn(memory, len, processed, document, switches);
        if !again {
          return;
        }
      }
    }

    // One turn of the loop.
    method Turn(memory: string, len: nat, at: nat, document: nat -> Intake, switches: bool)
      returns (again: bool, result: ProcessResult, processed: nat, error: HttpError)
      requires at <= len <= |memory| && state_ != Complete
      modifies this
      ensures at <= processed <= len && state_ != Complete && old(heads) <= heads
      ensures again ==> at < processed || (old(state_) == Data && state_ != Data)
      ensures again ==>
                || Parse(owner, old(Snapshot()), memory[at..len]).stop == Unpredictable
                || Parse(owner, old(Snapshot()), memory[at..len]) == Parse(owner, Snapshot(), memory[processed..len])
      ensures again ==>
                ParseIn(owner, old(Snapshot()), memory, at, len) == ParseIn(owner, Snapshot(), memory, processed, len)
      ensures !again ==>
                ObeysIn(owner, old(Snapshot()), memory, at, len, Snapshot(), processed, result, error, document)
      ensures !again ==>
                Obeys(owner, old(Snapshot()), memory[at..len], Snapshot(), memory[processed..len], result, error, document)
      ensures !again && result == PrBlock ==> Blocked(old(heads), Snapshot(), len - processed, document, switches)
    {
      again, result, processed, error := true, PrContinue, at, NoError;
      if ReadsLines(state_) {
        var complete: bool;
        complete, result, processed, error := ReadLine(memory, len, at, switches);
        again := complete && result == PrContinue;
      } else if data_size_ == 0 {
        again := chunked_;
        if chunked_ {
          state_ := ChunkTerm;
        } else {
          result := PrComplete;
        }
      } else if len - at <= 0 {
        again := false;
      } else {
        result, processed, error := ReadData(memory, len, at, document);
        again := result == PrContinue;
      }
    }

    predicate IsValidEndOfInput()
      reads this
    {
      state_ == Data && data_size_ == SIZE_UNKNOWN
    }
  }

  lemma WaitsForLine(owner: Owner, c: Conf, memory: string, at: nat, len: nat)
    requires ReadsLines(c.st) && EndsAt(memory, at, len, len)
    ensures ObeysLine(owner, c, memory[at..len], c, memory[at..len], false, PrContinue, NoError)
    ensures ObeysLineIn(owner, c, memory, at, len, c, at, false, PrContinue, NoError)
  {
  }
}
