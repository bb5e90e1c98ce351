/** Two HttpBase ends of one connection: what one sends and the other receives, over a network
    that takes and delivers bytes as it likes. */
module HttpDelivery {
  import opened HttpText
  import opened HttpGrammar
  import HttpMemory
  import opened HttpChunks
  import opened HttpLines
  import opened HttpMessage
  import HttpReceiving
  import Sending = HttpSender
  import Receiving = HttpReceiver

  type Message = Sending.Message
  type Progress = Sending.Progress

  lemma Prefixes(a: string, b: string, c: string)
    requires a <= b && b <= c
    ensures a <= c && c == a + c[|a|..]
  {
  }

  lemma {:induction false} HeaderTextGrows(headers: seq<Sending.Header>, n: nat)
    requires n <= |headers|
    ensures Sending.HeaderText(headers[..n]) <= Sending.HeaderText(headers)
    decreases |headers|
  {
    if n == |headers| {
      assert headers[..n] == headers;
    } else {
      var init := headers[..|headers| - 1];
      assert headers[..n] == init[..n];
      HeaderTextGrows(init, n);
      Prefixes(Sending.HeaderText(headers[..n]), Sending.HeaderText(init), Sending.HeaderText(headers));
    }
  }

  lemma PrefixInContext(a: string, b: string, c: string, d: string)
    requires b <= c
    ensures a + b <= a + c + d
  {
  }

  lemma HeadCompleted(m: Message, p: Progress)
    requires Sending.Possible(m, p) && p.header < |m.headers|
    ensures Sending.Possible(m, p.(header := |m.headers|))
    ensures Sending.Produced(m, p) <= Sending.Produced(m, p.(header := |m.headers|))
  {
    HeaderTextGrows(m.headers, p.header);
    assert m.headers[..|m.headers|] == m.headers;
    assert BodyNotBegun(m, p);
    PrefixInContext(Sending.Opening(m.leader), Sending.HeaderText(m.headers[..p.header]), Sending.HeaderText(m.headers),
                    Sending.Closing(m.leader, m.headers));
  }

  predicate BodyNotBegun(m: Message, p: Progress) { Sending.BodyText(m.chunked, p.pieces, !p.chunking) == "" }

  function PieceLength(p: Progress): (n: nat)
    ensures n <= |p.left| && n <= MAX_CHUNK && (p.left != "" ==> n > 0)
  {
    if |p.left| < MAX_CHUNK then |p.left| else MAX_CHUNK
  }

  // What a sender at this point may do next, if there is anything left to do.
  function Onward(m: Message, p: Progress): Progress {
    if p.header < |m.headers| then p.(header := |m.headers|)
    else if p.left != "" then
      p.(pieces := p.pieces + [p.left[..PieceLength(p)]], left := p.left[PieceLength(p)..])
    else if m.has_document then p.(chunking := false)
    else p
  }

  lemma Prefixed(a: string, b: string, more: string)
    requires b == a + more
    ensures a <= b
  {
  }

  lemma OnePieceOnward(m: Message, p: Progress)
    requires Sending.Possible(m, p) && p.header == |m.headers| && p.left != ""
    ensures Sending.Possible(m, Onward(m, p))
    ensures Sending.Produced(m, p) <= Sending.Produced(m, Onward(m, p))
  {
    var n := PieceLength(p);
    Sending.PieceProduced(m, p, n);
    Prefixed(Sending.Produced(m, p), Sending.Produced(m, Onward(m, p)), Sending.Piece(p.chunking, p.left[..n]));
  }

  lemma OnwardProduces(m: Message, p: Progress)
    requires Sending.Possible(m, p)
    ensures Sending.Possible(m, Onward(m, p))
    ensures Sending.Produced(m, p) <= Sending.Produced(m, Onward(m, p))
  {
    if p.header < |m.headers| {
      HeadCompleted(m, p);
    } else if p.left != "" {
      OnePieceOnward(m, p);
    } else if m.has_document && p.chunking {
      Sending.EndProduced(m, p);
    }
  }

  /** Wherever the sender stands, what it has produced is the beginning of a whole message. */
  lemma {:induction false} Completion(m: Message, p: Progress) returns (pieces: seq<string>)
    requires Sending.Possible(m, p)
    ensures Sendable(pieces) && Joined(pieces) == m.document
    ensures Sending.Produced(m, p) <= Sending.WholeMessage(m, pieces)
    decreases |m.headers| - p.header, |p.left|, p.chunking
  {
    var p' := Onward(m, p);
    if p' == p {
      Sending.CompleteMessage(m, p);
      pieces := p.pieces;
    } else {
      OnwardProduces(m, p);
      pieces := Completion(m, p');
      Prefixes(Sending.Produced(m, p), Sending.Produced(m, p'), Sending.WholeMessage(m, pieces));
    }
  }

  /** The two sides agree on how the body is delimited: by chunks, by its size, or by the end
      of the connection. */
  ghost predicate Framed(owner: Owner, m: Message) {
    && Acceptable(owner, m)
    && if m.chunked then m.has_document && AfterFields(m).chunked
       else !AfterFields(m).chunked && (SizeTold(owner, m) == SIZE_UNKNOWN || SizeTold(owner, m) == |m.document|)
  }

  // What the receiving side should make of the whole message.
  ghost function Ideal(owner: Owner, m: Message): Outcome {
    if m.chunked then Outcome(Conf(Trailers, true, 0, HeadEvents(m), m.document), "", Done(NoError))
    else if SizeTold(owner, m) == SIZE_UNKNOWN then
      Outcome(Conf(Data, false, SIZE_UNKNOWN, HeadEvents(m), m.document), "", NeedMore)
    else Outcome(Conf(Data, false, 0, HeadEvents(m), m.document), "", Done(NoError))
  }

  lemma WholeIsRead(owner: Owner, m: Message, pieces: seq<string>)
    requires Framed(owner, m) && Sendable(pieces) && Joined(pieces) == m.document
    ensures Parse(owner, FRESH, Sending.WholeMessage(m, pieces)) == Ideal(owner, m)
  {
    assert Sending.WholeMessage(m, pieces) + "" == Sending.WholeMessage(m, pieces);
    if m.chunked {
      MessageRoundTrip(owner, m, pieces, "");
    } else if SizeTold(owner, m) == SIZE_UNKNOWN {
      UnsizedRoundTrip(owner, m, pieces);
    } else {
      SizedRoundTrip(owner, m, pieces, "");
    }
  }

  ghost predicate Within(c: Conf, heads: seq<Head>, body: string) { c.heads <= heads && c.body <= body }

  lemma StillWithin(c: Conf, c': Conf, heads: seq<Head>, body: string)
    requires Within(c, c'.heads, c'.body) && Within(c', heads, body)
    ensures Within(c, heads, body)
  {
  }

  lemma HeaderOnlyAdds(c: Conf, line: string)
    ensures var step := HeaderStep(c, line, ""); !step.Garbled? ==> Within(c, step.conf.heads, step.conf.body)
  {
  }

  lemma LineOnlyAdds(owner: Owner, c: Conf, line: string)
    requires ReadsLines(c.st)
    ensures var step := LineStep(owner, c, line, ""); Within(c, step.conf.heads, step.conf.body)
  {
    if c.st == Headers && line != "" {
      HeaderOnlyAdds(c, line);
    }
  }

  lemma FirstLineOnlyAdds(owner: Owner, c: Conf, input: string)
    requires ReadsLines(c.st) && IndexOf(input, '\n') < |input|
    ensures var step := FirstLine(owner, c, input); !step.Garbled? ==> Within(c, step.conf.heads, step.conf.body)
  {
    LineOnlyAdds(owner, c, TrimRight(input[..IndexOf(input, '\n')]));
  }

  lemma DataOnlyAdds(c: Conf, data: string)
    requires c.size == SIZE_UNKNOWN || |data| <= c.size
    ensures Within(c, Absorb(c, data).heads, Absorb(c, data).body)
  {
  }

  // Nothing that has been handed on is taken back.
  lemma {:induction false} ParseOnlyAdds(owner: Owner, c: Conf, input: string)
    requires c.st != Complete
    ensures Within(c, Parse(owner, c, input).conf.heads, Parse(owner, c, input).conf.body)
    decreases |input|, c.st == Data, 1
  {
    if ReadsLines(c.st) {
      LinesOnlyAdd(owner, c, input);
    } else if c.size != 0 {
      PieceOnlyAdds(owner, c, input);
    } else if c.chunked {
      ParseOnlyAdds(owner, c.(st := ChunkTerm), input);
    }
  }

  lemma {:induction false} LinesOnlyAdd(owner: Owner, c: Conf, input: string)
    requires ReadsLines(c.st)
    ensures Within(c, Parse(owner, c, input).conf.heads, Parse(owner, c, input).conf.body)
    decreases |input|, c.st == Data, 0
  {
    hide LineStep;
    var n := IndexOf(input, '\n');
    if n < |input| {
      var step := FirstLine(owner, c, input);
      if step.Go? { ParseOnlyAdds(owner, step.conf, input[n + 1..]); }
      OneLineOnlyAdds(owner, c, input, step);
    }
  }

  lemma OneLineOnlyAdds(owner: Owner, c: Conf, input: string, step: Step)
    requires ReadsLines(c.st) && IndexOf(input, '\n') < |input| && step == FirstLine(owner, c, input)
    requires step.Go? ==> var o := Parse(owner, step.conf, input[IndexOf(input, '\n') + 1..]);
                          Within(step.conf, o.conf.heads, o.conf.body)
    ensures Within(c, Parse(owner, c, input).conf.heads, Parse(owner, c, input).conf.body)
  {
    FirstLineOnlyAdds(owner, c, input);
    HttpMemory.ParseOfLine(owner, c, input, step);
  }

  lemma {:induction false} PieceOnlyAdds(owner: Owner, c: Conf, input: string)
    requires c.st == Data && c.size != 0
    ensures Within(c, Parse(owner, c, input).conf.heads, Parse(owner, c, input).conf.body)
    decreases |input|, c.st == Data, 0
  {
    var o, n := Parse(owner, c, input), DataLength(c, input);
    if n > 0 {
      var c' := Absorb(c, input[..n]);
      DataOnlyAdds(c, input[..n]);
      ParseOnlyAdds(owner, c', input[n..]);
      StillWithin(c, c', o.conf.heads, o.conf.body);
    }
  }

  // Any beginning of what stands for the whole message.
  lemma BeginningIsRead(owner: Owner, received: string, tail: string, ideal: Outcome)
    requires Parse(owner, FRESH, received + tail) == ideal && ideal.rest == "" && ideal.stop != Unpredictable
    ensures var o := Parse(owner, FRESH, received);
            && o.stop != Unpredictable
            && Within(o.conf, ideal.conf.heads, ideal.conf.body)
            && (o.stop.Done? ==> o == ideal && tail == "")
  {
    var o := Parse(owner, FRESH, received);
    Resume(owner, FRESH, received, tail);
    if o.stop == NeedMore {
      ParseOnlyAdds(owner, o.conf, o.rest + tail);
    } else {
      assert |o.rest + tail| == 0;
    }
  }

  /** Whatever part of what the sender has produced so far has been received: the receiver has
      been told a beginning of the head and a beginning of the body, it never loses its way, and
      once it is done it has the whole message, without an error. */
  lemma ReceivedSoFar(owner: Owner, m: Message, p: Progress, received: string)
    requires Framed(owner, m) && Sending.Possible(m, p) && received <= Sending.Produced(m, p)
    ensures var o := Parse(owner, FRESH, received);
            && o.stop != Unpredictable
            && Within(o.conf, HeadEvents(m), m.document)
            && (o.stop.Done? ==> o == Ideal(owner, m))
  {
    var pieces := Completion(m, p);
    var whole := Sending.WholeMessage(m, pieces);
    Prefixes(received, Sending.Produced(m, p), whole);
    WholeIsRead(owner, m, pieces);
    BeginningIsRead(owner, received, whole[|received|..], Ideal(owner, m));
  }

  // It never waits for a line with its buffer full.
  lemma RoomForMore(owner: Owner, m: Message, p: Progress, received: string)
    requires Framed(owner, m) && Sending.Possible(m, p) && received <= Sending.Produced(m, p)
    ensures var o := Parse(owner, FRESH, received); o.stop == NeedMore ==> |o.rest| < Receiving.BUFFER_SIZE
  {
    var pieces := Completion(m, p);
    var whole := Sending.WholeMessage(m, pieces);
    Prefixes(received, Sending.Produced(m, p), whole);
    MessageFits(owner, m, pieces);
    NeverFull(owner, FRESH, received, whole[|received|..]);
  }

  // The same for a parser that has some of it still to read.
  lemma ReadSoFar(owner: Owner, m: Message, p: Progress, received: string, c: Conf, unread: string)
    requires Framed(owner, m) && Sending.Possible(m, p) && received <= Sending.Produced(m, p)
    requires Follows(owner, FRESH, received, c, unread)
    ensures Within(c, HeadEvents(m), m.document)
  {
    ReceivedSoFar(owner, m, p, received);
    ParseOnlyAdds(owner, c, unread);
    var o := Parse(owner, c, unread);
    StillWithin(c, o.conf, HeadEvents(m), m.document);
  }

  /** When the body runs to the end of the connection, a parser that has read the head only is
      in step with the whole message, and ready to take the close for the end of the body. */
  lemma BodyUnread(owner: Owner, m: Message, pieces: seq<string>)
    requires Framed(owner, m) && !m.chunked && SizeTold(owner, m) == SIZE_UNKNOWN && Joined(pieces) == m.document
    ensures Follows(owner, FRESH, Sending.WholeMessage(m, pieces), AfterHead(owner, m), m.document)
    ensures Parse(owner, FRESH, Sending.WholeMessage(m, pieces)).conf.body == m.document
    ensures var c := AfterHead(owner, m); c.st == Data && c.size == SIZE_UNKNOWN && c.body == ""
  {
    HeadIsParsed(owner, m, m.document);
    UnsizedRoundTrip(owner, m, pieces);
  }

  /** And the close is then taken for the end, and the body lost. */
  method CloseLosesBody(receiver: Receiving.HttpBase, m: Message) returns (error: HttpError)
    requires var owner := receiver.parser.owner;
             && Framed(owner, m) && !m.chunked && SizeTold(owner, m) == SIZE_UNKNOWN && m.document != ""
             && receiver.Valid() && receiver.start == FRESH
             && receiver.received == Sending.WholeMessage(m, [m.document])
             && receiver.parser.Snapshot() == AfterHead(owner, m) && receiver.Unread() == m.document
    ensures error == NoError && receiver.parser.body == "" && receiver.Whole().conf.body == m.document
  {
    assert Joined([m.document]) == m.document by { assert [m.document][..0] == []; }
    BodyUnread(receiver.parser.owner, m, [m.document]);
    error := receiver.HandleStreamClose(Receiving.Clean);
  }

  const LENIENT: Owner := Owner((line: string) => NoError, (heads: seq<Head>) => (NoError, SIZE_UNKNOWN))

  lemma AnswerIsFramed()
    ensures Framed(LENIENT, Sending.Message("HTTP/1.1 200 OK", [], true, "abc", false))
  {
    var leader := "HTTP/1.1 200 OK";
    assert leader[14] == 'K' && TrimRight(leader) == leader;
  }

  /** For example. */
  lemma AnswerUnread()
    ensures var c := Conf(Data, false, SIZE_UNKNOWN, [LeaderLine("HTTP/1.1 200 OK"), HeadersDone(false, SIZE_UNKNOWN)], "");
            && Follows(LENIENT, FRESH, "HTTP/1.1 200 OK" + CRLF + CRLF + "abc", c, "abc")
            && Parse(LENIENT, FRESH, "HTTP/1.1 200 OK" + CRLF + CRLF + "abc").conf.body == "abc"
  {
    var leader, body := "HTTP/1.1 200 OK", "abc";
    var m := Sending.Message(leader, [], true, body, false);
    AnswerIsFramed();
    ShortMessage(leader, body);
    BodyUnread(LENIENT, m, [body]);
  }

  lemma ShortMessage(leader: string, body: string)
    requires |leader| + 4 < Sending.BUFFER_SIZE
    ensures Joined([body]) == body
    ensures Sending.WholeMessage(Sending.Message(leader, [], true, body, false), [body]) == leader + CRLF + CRLF + body
  {
    Sending.ShortHead(leader);
    assert [body][..0] == [];
  }

  lemma MoreOnTheWay(received: string, incoming: string, before: string, after: string)
    requires received + incoming == before <= after
    ensures received + (incoming + after[|before|..]) == after
  {
  }

  // What a receiving end in step has, when some of what was produced has reached it.
  lemma EndIsReached(owner: Owner, m: Message, p: Progress, received: string, o: Outcome, c: Conf, unread: string,
      error: HttpError)
    requires Framed(owner, m) && Sending.Possible(m, p) && received <= Sending.Produced(m, p)
    requires o == Parse(owner, FRESH, received)
    requires o.stop == Unpredictable || o == Outcome(c, unread, Done(error))
    ensures error == NoError && c.body == m.document && c.heads == HeadEvents(m) && unread == ""
    ensures Within(c, HeadEvents(m), m.document)
  {
    ReceivedSoFar(owner, m, p, received);
  }

  class Exchange {
    const sender: Sending.HttpBase
    const receiver: Receiving.HttpBase

    ghost predicate Agreed() { Framed(receiver.parser.owner, sender.data_) }

    ghost predicate Valid()
      reads this, sender, sender.buffer_, receiver, receiver.parser, receiver.buffer_
    {
      && sender.Valid() && receiver.Valid() && sender.buffer_ != receiver.buffer_
      && receiver.start == FRESH && receiver.received + receiver.incoming == sender.wire
    }

    constructor (owner: Owner, leader: string, headers: seq<Sending.Header>, has_document: bool, document: string)
      requires Framed(owner, Sending.Sent(leader, headers, has_document, document)) && (has_document || document == "")
      ensures Valid() && Agreed() && fresh(sender) && fresh(receiver)
      ensures sender.data_ == Sending.Sent(leader, headers, has_document, document) && receiver.parser.owner == owner
    {
      sender := new Sending.HttpBase(leader, headers, has_document, document);
      receiver := new Receiving.HttpBase(owner);
    }

    method Send(network: nat -> Sending.Answer, offers: nat -> Sending.Offer, patience: nat)
      returns (ending: Sending.Ending, ghost turns: nat)
      requires Valid()
      modifies sender, sender.buffer_, receiver`incoming
      ensures Valid() && sender.Ended(ending) && receiver.received == old(receiver.received)
      ensures turns > 0 && sender.Because(ending, network(turns - 1), offers(turns - 1))
    {
      var before := sender.wire;
      ending, turns := sender.FlushData(network, offers, patience);
      Forward(before);
    }

    // What the network has taken goes to the other side.
    method Forward(before: string)
      requires sender.Valid() && receiver.Valid() && sender.buffer_ != receiver.buffer_ && receiver.start == FRESH
      requires receiver.received + receiver.incoming == before <= sender.wire
      modifies receiver`incoming
      ensures Valid()
    {
      MoreOnTheWay(receiver.received, receiver.incoming, before, sender.wire);
      receiver.Arrive(sender.wire[|before|..]);
    }

    /** At any time the receiving document holds a beginning of the sending one, and the owner
        has been told a beginning of the head. When the parser is done, both have everything,
        and there is no error but a failure of the receiving document. No line is too long for
        the buffer, so that otherwise only a close of the connection ends the exchange. */
    method Receive(network: nat -> Receiving.Reading, document: nat -> HttpReceiving.Intake, switches: bool)
      returns (done: bool, error: HttpError, ghost ending: Receiving.Ending, ghost turns: nat)
      requires Valid() && Agreed()
      modifies receiver, receiver.buffer_, receiver.parser
      ensures ending != Receiving.ByParser ==> Valid()
      ensures (done <==> ending != Receiving.NotYet) && ending != Receiving.ByOverflow
      ensures turns > 0 && |receiver.received| + 2 >= |old(receiver.received)| + turns
      ensures || receiver.Stops(ending, error, old(receiver.parser.heads), network(turns - 1), document, switches)
              || (ending == Receiving.NotYet && receiver.Drained() && turns == Receiving.MAX_READ_COUNT + 1)
      ensures network(0) == Receiving.Ends && old(receiver.len_) < Receiving.BUFFER_SIZE ==>
                && ending == Receiving.ByClose && turns == 1
                && receiver.parser.Snapshot() == old(receiver.parser.Snapshot()) && receiver.Unread() == old(receiver.Unread())
      ensures Within(receiver.parser.Snapshot(), HeadEvents(sender.data_), sender.data_.document)
      ensures ending == Receiving.ByClose && error == NoError && sender.AllSent() && receiver.incoming == "" ==>
                receiver.parser.body + receiver.Unread() == sender.data_.document
      ensures ending == Receiving.ByParser ==>
                || (error == StreamFailure && document(|receiver.parser.body|) == HttpReceiving.Fails)
                || (error == NoError && receiver.parser.body == sender.data_.document
                    && receiver.parser.heads == HeadEvents(sender.data_) && receiver.len_ == 0)
    {
      hide Parse;
      done, error, ending, turns := receiver.DoReceiveLoop(network, document, switches);
      ghost var owner, m, p := receiver.parser.owner, sender.data_, sender.At();
      ghost var c, unread := receiver.parser.Snapshot(), receiver.Unread();
      Prefixes(receiver.received, sender.wire, sender.produced);
      ReceivedSoFar(owner, m, p, receiver.received);
      RoomForMore(owner, m, p, receiver.received);
      if ending != Receiving.ByParser {
        ReadSoFar(owner, m, p, receiver.received, c, unread);
        if sender.AllSent() { WholeIsRead(owner, m, sender.pieces); }
      } else if receiver.Whole() == Outcome(c, unread, Done(error)) {
        EndIsReached(owner, m, p, receiver.received, receiver.Whole(), c, unread, error);
      } else {
        ReadSoFar(owner, m, p, receiver.received, c, unread);
      }
    }

    // Everything sent has been received, and all of it processed.
    lemma AllReceived()
      requires Valid() && Agreed() && sender.AllSent() && receiver.incoming == "" && receiver.Drained()
      ensures var ideal := Ideal(receiver.parser.owner, sender.data_);
              ideal == Outcome(receiver.parser.Snapshot(), receiver.Unread(), NeedMore)
    {
      WholeIsRead(receiver.parser.owner, sender.data_, sender.pieces);
      assert receiver.received == sender.wire;
    }

    // The receiving side goes on until it is done, or waits with everything processed.
    method ReceiveAll(inbound: nat -> Receiving.Reading, document: nat -> HttpReceiving.Intake)
      returns (done: bool, error: HttpError)
      requires Valid() && Agreed() && sender.AllSent()
      requires (forall n :: inbound(n).Gives?) && (forall n :: document(n).Takes?)
      modifies receiver, receiver.buffer_, receiver.parser
      ensures done ==> error == NoError && receiver.parser.body == sender.data_.document
                       && receiver.parser.heads == HeadEvents(sender.data_)
      ensures !done ==> Valid() && receiver.incoming == "" && receiver.Drained()
      decreases |receiver.incoming|
    {
      hide Parse;
      ghost var ending, turns;
      ghost var was := receiver.received;
      done, error, ending, turns := Receive(inbound, document, false);
      if !done {
        assert document(|receiver.parser.body|).Takes? && (turns > 0 ==> inbound(turns - 1).Gives?);
        if receiver.incoming != "" {
          Shrinks(was, old(receiver.incoming), receiver.received, receiver.incoming);
          done, error := ReceiveAll(inbound, document);
        }
      } else {
        assert turns > 0 ==> inbound(turns - 1).Gives?;
        assert document(|receiver.parser.body|).Takes?;
      }
    }

    // The connection is closed when everything has been processed.
    method Close(document: nat -> HttpReceiving.Intake) returns (error: HttpError)
      requires Valid() && Agreed() && sender.AllSent() && receiver.incoming == "" && receiver.Drained()
      modifies receiver, receiver.buffer_, receiver.parser
      ensures error == NoError && receiver.parser.body == sender.data_.document
      ensures receiver.parser.heads == HeadEvents(sender.data_)
      ensures Ideal(receiver.parser.owner, sender.data_).stop == NeedMore
    {
      hide Parse;
      AllReceived();
      var done;
      ghost var ending, turns;
      done, error, ending, turns := Receive((n: nat) => Receiving.Ends, document, false);
    }

    /** A network that keeps moving bytes, and documents that keep moving data: the exchange comes
        to its end, with the whole message received and without an error. Only a body without a
        length and without chunks needs the connection to be closed for it. */
    method Deliver(outbound: nat -> Sending.Answer, offers: nat -> Sending.Offer, inbound: nat -> Receiving.Reading,
        document: nat -> HttpReceiving.Intake) returns (closed: bool, error: HttpError)
      requires Valid() && Agreed()
      requires (forall n :: outbound(n).Takes?) && (sender.data_.has_document ==> forall n :: offers(n).Offers?)
      requires (forall n :: inbound(n).Gives?) && (forall n :: document(n).Takes?)
      modifies sender, sender.buffer_, receiver, receiver.buffer_, receiver.parser
      ensures error == NoError && receiver.parser.body == sender.data_.document
      ensures receiver.parser.heads == HeadEvents(sender.data_)
      ensures closed ==> Ideal(receiver.parser.owner, sender.data_).stop == NeedMore
    {
      hide Parse, Framed, Within;
      var before := sender.wire;
      sender.SendAll(outbound, offers);
      Forward(before);
      var done;
      done, error := ReceiveAll(inbound, document);
      closed := !done;
      if closed {
        error := Close(document);
      }
    }
  }

  lemma Shrinks(received: string, incoming: string, received': string, incoming': string)
    requires received + incoming == received' + incoming' && |received| < |received'|
    ensures |incoming'| < |incoming|
  {
    assert |received + incoming| == |received' + incoming'|;
  }
}
