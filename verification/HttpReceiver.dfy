/** The receiving half of HttpBase: a 32K buffer between the network and the parser. */
module HttpReceiver {
  import opened HttpText
  import opened HttpGrammar
  import opened HttpMemory
  import opened HttpReceiving

  const BUFFER_SIZE: nat := 32 * 1024
  const MAX_READ_COUNT: nat := 20

  datatype Read = Success(data: string) | Block | EndOfStream | Failure(code: CloseCode)
  datatype CloseCode = Clean | AccessDenied | ExpiredCertificate | OtherCode

  // What the network says to an attempt to read: it gives at most so much, and at least one byte
  // of what has arrived, or nothing at the moment, or it is closed.
  datatype Reading = Gives(most: nat) | Blocks | Ends | Breaks(code: CloseCode)

  // What a close means in the middle of a response, and at a place where it may end.
  function Verdict(code: CloseCode, valid: bool): HttpError {
    match code
    case Clean => if valid then NoError else Disconnected
    case AccessDenied => Auth
    case ExpiredCertificate => CertificateExpired
    case OtherCode => SocketError
  }

  datatype Ending = NotYet | ByParser | ByClose | ByOverflow

  function Smaller(a: nat, b: nat): nat { if a < b then a else b }

  class HttpBase {
    const parser: HttpParser
    const buffer_: array<char>
    var len_: nat
    // What has arrived from the other side and has not been read.
    var incoming: string
    // The bytes the network has delivered, and the configuration they were first parsed in.
    ghost var received: string
    ghost var start: Conf

    constructor (owner: Owner)
      ensures Valid() && fresh(parser) && fresh(buffer_) && buffer_.Length == 32768
      ensures parser.owner == owner && received == "" && incoming == "" && start == FRESH
    {
      parser := new HttpParser(owner);
      buffer_ := new char[BUFFER_SIZE];
      len_, incoming, received, start := 0, "", "", FRESH;
    }

    ghost function Unread(): string
      reads this, buffer_
      requires len_ <= buffer_.Length
    {
      buffer_[..len_]
    }

    /** The parser, with the buffered bytes still to read, stands exactly where a single call
        on everything received would stand. */
    ghost predicate Valid()
      reads this, parser, buffer_
    {
      && buffer_.Length == BUFFER_SIZE && len_ <= BUFFER_SIZE
      && Follows(parser.owner, start, received, parser.Snapshot(), Unread())
    }

    ghost function Whole(): Outcome
      reads this, parser
      requires start.st != Complete
    {
      Parse(parser.owner, start, received)
    }

    method Append(data: string)
      requires len_ + |data| <= buffer_.Length
      modifies this`len_, buffer_
      ensures len_ == old(len_) + |data| && Unread() == old(Unread()) + data
    {
      forall i | 0 <= i < |data| { buffer_[len_ + i] := data[i]; }
      assert buffer_[..len_ + |data|] == old(buffer_[..len_]) + data;
      len_ := len_ + |data|;
    }

    method Arrive(data: string)
      modifies this`incoming
      ensures incoming == old(incoming) + data
    {
      incoming := incoming + data;
    }

    // There is nothing to read at the moment.
    predicate Dry(reading: Reading)
      reads this`incoming
    {
      reading == Blocks || (reading.Gives? && incoming == "")
    }

    /** The network fills some of the free space with the next bytes that have arrived, has
        nothing to give, or is closed. */
    method ReadNetwork(reading: Reading) returns (r: Read)
      requires Valid() && len_ < BUFFER_SIZE
      modifies this`len_, this`incoming, this`received, buffer_
      ensures Valid() && received + incoming == old(received + incoming)
      ensures r.Success? <==> reading.Gives? && !old(Dry(reading))
      ensures r.Block? <==> old(Dry(reading))
      ensures r.EndOfStream? <==> reading == Ends
      ensures r.Failure? <==> reading.Breaks? && r.Failure? && r.code == reading.code
      ensures r.Success? ==>
                && received == old(received) + r.data && Unread() == old(Unread()) + r.data
                && |r.data| == Portion(reading.most, Smaller(BUFFER_SIZE - old(len_), |old(incoming)|))
      ensures !r.Success? ==> received == old(received) && len_ == old(len_) && Unread() == old(Unread())
    {
      match reading
      case Gives(most) =>
        if incoming == "" {
          return Block;
        }
        var n := Portion(most, Smaller(BUFFER_SIZE - len_, |incoming|));
        var data := incoming[..n];
        Take(data);
        return Success(data);
      case Blocks => return Block;
      case Ends => return EndOfStream;
      case Breaks(code) => return Failure(code);
    }

    method Take(data: string)
      requires Valid() && data <= incoming && len_ + |data| <= BUFFER_SIZE
      modifies this`len_, this`incoming, this`received, buffer_
      ensures Valid() && received + incoming == old(received + incoming)
      ensures received == old(received) + data && Unread() == old(Unread()) + data
    {
      assert received + incoming == received + data + incoming[|data|..];
      incoming := incoming[|data|..];
      FollowsMore(parser.owner, start, received, parser.Snapshot(), Unread(), data);
      Append(data);
      received := received + data;
    }

    method HandleStreamClose(code: CloseCode) returns (error: HttpError)
      ensures error == Verdict(code, parser.IsValidEndOfInput())
      ensures error == NoError <==> code == Clean && parser.IsValidEndOfInput()
    {
      match code
      case Clean =>
        error := if parser.IsValidEndOfInput() then NoError else Disconnected;
      case AccessDenied => error := Auth;
      case ExpiredCertificate => error := CertificateExpired;
      case OtherCode => error := SocketError;
    }

    // memmove(buffer_, buffer_ + processed, len_ - processed)
    method Discard(processed: nat)
      requires len_ <= buffer_.Length && processed <= len_
      modifies this`len_, buffer_
      ensures len_ == old(len_) - processed && Unread() == old(Unread())[processed..]
    {
      len_ := len_ - processed;
      forall i | 0 <= i < len_ { buffer_[i] := buffer_[processed + i]; }
    }

    method ProcessBuffer(document: nat -> Intake, switches: bool)
      returns (result: ProcessResult, error: HttpError, ghost processed: nat)
      requires Valid()
      modifies this`len_, buffer_, parser
      ensures len_ <= BUFFER_SIZE && old(parser.heads) <= parser.heads
      ensures result != PrComplete ==> Valid()
      ensures Obeys(parser.owner, start, received, parser.Snapshot(), Unread(), result, error, document)
      ensures processed <= old(len_) && Unread() == old(Unread())[processed..]
      ensures ObeysIn(parser.owner, old(parser.Snapshot()), old(buffer_[..]), 0, old(len_), parser.Snapshot(), processed,
                      result, error, document)
      ensures result == PrBlock ==> Blocked(old(parser.heads), parser.Snapshot(), len_, document, switches)
    {
      hide ParseIn;
      ghost var c, unread := parser.Snapshot(), Unread();
      assert buffer_[..][..len_] == unread;
      var n: nat;
      result, n, error := parser.Process(buffer_[..], len_, document, switches);
      processed := n;
      assert buffer_[..][n..len_] == unread[n..];
      StaysInStep(parser.owner, start, received, c, unread, parser.Snapshot(), unread[n..], result, error, document);
      Discard(n);
    }

    // Everything received has been processed, as far as it goes.
    ghost predicate Drained()
      reads this, parser, buffer_
    {
      && len_ <= buffer_.Length && start.st != Complete
      && (Whole().stop == Unpredictable || Whole() == Outcome(parser.Snapshot(), Unread(), NeedMore))
    }

    // The code of a close.
    function CloseOf(reading: Reading): CloseCode { if reading.Breaks? then reading.code else Clean }

    /** What it means that the pump stops, and what it has come from in the last turn.
        - It rests: the document or its owner has blocked it, or everything received has been
          processed and there is nothing more to read.
        - The parser completed, with the error the whole stream prescribes, or the document
          failed.
        - The connection closed: without an error only when the body runs until the close,
          and then the document has everything except what is still in the buffer.
        - One line is longer than the whole buffer. */
    ghost predicate Stops(ending: Ending, error: HttpError, heads: seq<Head>, reading: Reading,
        document: nat -> Intake, switches: bool)
      reads this, parser, buffer_
    {
      && start.st != Complete && len_ <= buffer_.Length
      && match ending
      case NotYet => Blocked(heads, parser.Snapshot(), len_, document, switches) || (Drained() && Dry(reading))
      case ByParser => Whole().stop != Unpredictable ==>
        || Whole() == Outcome(parser.Snapshot(), Unread(), Done(error))
        || (error == StreamFailure && Offered(parser.Snapshot(), len_) && document(|parser.body|) == Fails
            && Whole() == Parse(parser.owner, parser.Snapshot(), Unread()))
      case ByClose =>
        && (reading == Ends || reading.Breaks?) && error == Verdict(CloseOf(reading), parser.IsValidEndOfInput())
        && (error == NoError && Whole().stop != Unpredictable ==>
              && Whole().stop == NeedMore && Whole().conf.body == parser.body + Unread()
              && (parser.body == Whole().conf.body <==> len_ == 0))
      case ByOverflow =>
        && error == Overflow && len_ == BUFFER_SIZE
        && (Whole().stop != Unpredictable ==>
              Whole().stop == NeedMore && |Whole().rest| == BUFFER_SIZE && '\n' !in Whole().rest)
    }

    method Closed(code: CloseCode) returns (error: HttpError)
      requires Valid()
      ensures error == Verdict(code, parser.IsValidEndOfInput())
      ensures error == NoError && Whole().stop != Unpredictable ==>
                && Whole().stop == NeedMore && Whole().conf.body == parser.body + Unread()
                && (parser.body == Whole().conf.body <==> len_ == 0)
    {
      error := HandleStreamClose(code);
      if error == NoError { ReadUntilClose(parser.owner, parser.Snapshot(), Unread()); }
    }

    // The first half of a turn: a read, if there is room.
    method ReadSome(reading: Reading, requires_more: bool, ghost heads: seq<Head>, ghost document: nat -> Intake,
        ghost switches: bool) returns (again: bool, done: bool, error: HttpError, ghost ending: Ending)
      requires Valid() && (requires_more ==> Drained())
      modifies this`len_, this`incoming, this`received, buffer_
      ensures Valid() && old(received) <= received && received + incoming == old(received + incoming)
      ensures again && requires_more ==> |received| > |old(received)|
      ensures !again ==> Stops(ending, error, heads, reading, document, switches) && ending != ByParser
      ensures !again ==> (done <==> ending != NotYet)
      ensures reading == Ends && old(len_) < BUFFER_SIZE ==> !again && ending == ByClose && Unread() == old(Unread())
    {
      hide Parse;
      again, done, error, ending := true, false, NoError, NotYet;
      if len_ < BUFFER_SIZE {
        var r := ReadNetwork(reading);
        match r
        case Success(_) =>
        case Block =>
          again := !requires_more;
        case EndOfStream =>
          error := Closed(Clean);
          return false, true, error, ByClose;
        case Failure(code) =>
          error := Closed(code);
          return false, true, error, ByClose;
      } else if requires_more {
        if Whole().stop != Unpredictable { WaitsForNewline(parser.owner, start, received); }
        return false, true, Overflow, ByOverflow;
      }
    }

    // One turn: a read, and what the parser makes of it.
    method Turn(reading: Reading, requires_more: bool, ghost heads: seq<Head>, document: nat -> Intake, switches: bool)
      returns (again: bool, done: bool, error: HttpError, ghost ending: Ending)
      requires Valid() && (requires_more ==> Drained()) && heads <= parser.heads
      modifies this`len_, this`incoming, this`received, buffer_, parser
      ensures old(received) <= received && len_ <= BUFFER_SIZE && received + incoming == old(received + incoming)
      ensures again ==> Valid() && Drained() && heads <= parser.heads
      ensures again && requires_more ==> |received| > |old(received)|
      ensures !again ==> Stops(ending, error, heads, reading, document, switches) && (done <==> ending != NotYet)
      ensures !again && ending != ByParser ==> Valid()
      ensures reading == Ends && old(len_) < BUFFER_SIZE ==>
                !again && ending == ByClose && parser.Snapshot() == old(parser.Snapshot()) && Unread() == old(Unread())
    {
      hide Parse;
      again, done, error, ending := ReadSome(reading, requires_more, heads, document, switches);
      if again {
        var result;
        ghost var processed;
        result, error, processed := ProcessBuffer(document, switches);
        match result
        case PrContinue =>
        case PrBlock => again, done, ending := false, false, NotYet;
        case PrComplete => again, done, ending := false, true, ByParser;
      }
    }

    /** The I/O pump. However the network delivers and the document stalls, the pump keeps
        in step with the grammar, and it stops only for a reason: what it has come to in the last
        turn, or that it has been at it for long enough. All turns but the first and the last
        read something. */
    method DoReceiveLoop(network: nat -> Reading, document: nat -> Intake, switches: bool)
      returns (done: bool, error: HttpError, ghost ending: Ending, ghost turns: nat)
      requires Valid()
      modifies this`len_, this`incoming, this`received, buffer_, parser
      ensures old(received) <= received && len_ <= BUFFER_SIZE
      ensures received + incoming == old(received + incoming)
      ensures ending != ByParser ==> Valid()
      ensures done <==> ending != NotYet
      ensures turns > 0 && |received| + 2 >= |old(received)| + turns
      ensures || Stops(ending, error, old(parser.heads), network(turns - 1), document, switches)
              || (ending == NotYet && Drained() && turns == 21)
      ensures network(0) == Ends && old(len_) < BUFFER_SIZE ==>
                ending == ByClose && turns == 1 && parser.Snapshot() == old(parser.Snapshot()) && Unread() == old(Unread())
    {
      hide Parse;
      error, ending, turns := NoError, NotYet, 0;
      ghost var heads, c, unread := parser.heads, parser.Snapshot(), Unread();
      ghost var at_once := network(0) == Ends && len_ < BUFFER_SIZE;
      var loop_count := 0;
      var requires_more := false;
      while loop_count <= MAX_READ_COUNT
        decreases MAX_READ_COUNT - loop_count
        invariant Valid() && old(received) <= received && received + incoming == old(received + incoming)
        invariant loop_count <= MAX_READ_COUNT + 1 && heads <= parser.heads && turns == loop_count
        invariant requires_more <==> loop_count > 0
        invariant requires_more ==> Drained()
        invariant |received| + 1 >= |old(received)| + loop_count
        invariant at_once ==> loop_count == 0 && Unread() == unread && parser.Snapshot() == c && len_ < BUFFER_SIZE
      {
        turns := loop_count + 1;
        var again;
        again, done, error, ending := Turn(network(loop_count), requires_more, heads, document, switches);
        if !again {
          return;
        }
        requires_more := true;
        loop_count := loop_count + 1;
      }
      return false, NoError, NotYet, turns;
    }
  }

  // A call that agrees with the grammar on the unread bytes agrees with it on the stream.
  lemma StaysInStep(owner: Owner, c0: Conf, stream: string, c: Conf, unread: string,
                    c': Conf, unread': string, result: ProcessResult, error: HttpError, document: nat -> Intake)
    requires Follows(owner, c0, stream, c, unread) && c'.st != Complete
    requires Obeys(owner, c, unread, c', unread', result, error, document)
    ensures Obeys(owner, c0, stream, c', unread', result, error, document)
    ensures result != PrComplete ==> Follows(owner, c0, stream, c', unread')
  {
    Resume(owner, c, unread, "");
    assert unread + "" == unread && unread' + "" == unread';
  }

  // A parser that waits has no newline in hand.
  ghost predicate AwaitsLine(o: Outcome) { o.stop == NeedMore ==> '\n' !in o.rest }

  lemma NoNewline(input: string)
    requires IndexOf(input, '\n') == |input|
    ensures '\n' !in input
  {
    IndexOfIsFirst(input, '\n');
  }

  lemma LineWaits(owner: Owner, c: Conf, input: string, step: Step)
    requires ReadsLines(c.st) && IndexOf(input, '\n') < |input| && step == FirstLine(owner, c, input)
    requires step.Go? ==> AwaitsLine(Parse(owner, step.conf, input[IndexOf(input, '\n') + 1..]))
    ensures AwaitsLine(Parse(owner, c, input))
  {
    ParseOfLine(owner, c, input, step);
  }

  // The only thing the parser waits for with bytes in hand is the end of a line.
  lemma {:induction false} WaitsForNewline(owner: Owner, c: Conf, input: string)
    requires c.st != Complete
    ensures AwaitsLine(Parse(owner, c, input))
    decreases |input|, c.st == Data
  {
    if ReadsLines(c.st) {
      var n := IndexOf(input, '\n');
      if n == |input| {
        NoNewline(input);
      } else {
        var step := FirstLine(owner, c, input);
        if step.Go? { WaitsForNewline(owner, step.conf, input[n + 1..]); }
        LineWaits(owner, c, input, step);
      }
    } else if c.size == 0 {
      if c.chunked { WaitsForNewline(owner, c.(st := ChunkTerm), input); }
    } else {
      var n := DataLength(c, input);
      if n > 0 { WaitsForNewline(owner, Absorb(c, input[..n]), input[n..]); }
    }
  }
}
