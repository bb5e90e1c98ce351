/** The sending half of HttpBase: leader, headers and body packed into a 32K buffer, under
    partial writes, blocked writes and a document that hands out its data as it likes. */
module HttpSender {
  import opened HttpText
  import opened HttpChunks
  import opened Sequences

  const BUFFER_SIZE: nat := 32 * 1024

  type Header = (string, string)

  // What a "%.*s" conversion prints: a NUL character ends the string.
  function Printed(s: string): string { s[..IndexOf(s, '\0')] }

  function FormatHeader(h: Header): string { Printed(h.0) + ": " + Printed(h.1) + CRLF }

  // The only headers that are never sent are those that do not fit an empty buffer.
  predicate HeaderFits(h: Header) { |FormatHeader(h)| < BUFFER_SIZE - 3 }

  function HeaderText(headers: seq<Header>): string {
    if headers == [] then ""
    else
      var last := headers[|headers| - 1];
      HeaderText(headers[..|headers| - 1]) + if HeaderFits(last) then FormatHeader(last) else ""
  }

  // strcpyn into a space of the given size, which keeps one place for a NUL.
  function Copied(room: nat, s: string): (r: string)
    ensures r <= s && (|r| == |s| || |r| == room - 1 || room == 0)
    ensures |r| < room || room == 0 == |r|
  {
    if |s| < room then s else if room == 0 then "" else s[..room - 1]
  }

  // A truncated copy is never taken for one that fits.
  lemma Room(used: nat, text: string)
    requires used < BUFFER_SIZE
    ensures used + |Copied(BUFFER_SIZE - used, text)| < BUFFER_SIZE - 3 <==> used + |text| < BUFFER_SIZE - 3
  {
  }

  function Opening(leader: string): (s: string)
    ensures |s| < BUFFER_SIZE
  {
    var text := Copied(BUFFER_SIZE, leader);
    text + Copied(BUFFER_SIZE - |text|, CRLF)
  }

  function Closing(leader: string, headers: seq<Header>): string {
    if headers == [] then Copied(BUFFER_SIZE - |Opening(leader)|, CRLF) else CRLF
  }

  /** The text of the message head, as far as the first n headers; the empty line that closes
      the head belongs to the last of them. */
  function HeadText(leader: string, headers: seq<Header>, n: nat): string
    requires n <= |headers|
  {
    Opening(leader) + HeaderText(headers[..n]) + if n == |headers| then Closing(leader, headers) else ""
  }

  /** The head is exact, with the whole leader and two unbroken line ends, if and only if the
      leader leaves room for the line ends that are written straight after it. */
  lemma HeadIsExact(leader: string, headers: seq<Header>)
    ensures |leader| + (if headers == [] then 4 else 2) < BUFFER_SIZE <==>
            Opening(leader) == leader + CRLF && Closing(leader, headers) == CRLF
  {
    var text := Copied(BUFFER_SIZE, leader);
    if |leader| + 2 < BUFFER_SIZE {
      assert Opening(leader) == leader + CRLF;
    } else {
      assert |Opening(leader)| < |leader + CRLF|;
    }
  }

  function BodyText(chunked: bool, pieces: seq<string>, ended: bool): string {
    if chunked then Chunks(pieces) + (if ended then LAST_CHUNK else "") else Joined(pieces)
  }

  /** A message as send() takes it: `document` is what the document holds, if there is one, and
      `chunked` is whether send() has decided to chunk it. */
  datatype Message = Message(leader: string, headers: seq<Header>, has_document: bool, document: string, chunked: bool)

  predicate NamesCoding(h: Header) { SameIgnoringCase(h.0, "Transfer-Encoding") }

  // hasHeader finds the first header of that name; its value is compared as it is.
  function TransferEncoding(headers: seq<Header>): string {
    if headers == [] then "" else if NamesCoding(headers[0]) then headers[0].1 else TransferEncoding(headers[1..])
  }

  function Sent(leader: string, headers: seq<Header>, has_document: bool, document: string): (m: Message)
    ensures m.chunked <==> TransferEncoding(headers) == "chunked"
  {
    Message(leader, headers, has_document, document, TransferEncoding(headers) == "chunked")
  }

  /** How far the sender has got: headers dealt with, whether the end of the chunks is still
      to come, the pieces read from the document, and what it still holds. */
  datatype Progress = Progress(header: nat, chunking: bool, pieces: seq<string>, left: string)

  ghost predicate Possible(m: Message, p: Progress) {
    && p.header <= |m.headers|
    && Sendable(p.pieces) && Joined(p.pieces) + p.left == m.document
    && (p.chunking ==> m.chunked)
    && (p.header < |m.headers| || !m.has_document ==> p.pieces == [] && p.chunking == m.chunked)
    && (m.chunked && !p.chunking ==> p.left == "")
    && (!m.has_document ==> p.left == "")
  }

  /** All the text that a sender at this point has produced. */
  function Produced(m: Message, p: Progress): string
    requires p.header <= |m.headers|
  {
    HeadText(m.leader, m.headers, p.header) + BodyText(m.chunked, p.pieces, !p.chunking)
  }

  function Piece(chunking: bool, data: string): string {
    if chunking then Chunk(data) else data
  }

  // Everything has been dealt with.
  ghost predicate Complete(m: Message, p: Progress) {
    p.header == |m.headers| && Joined(p.pieces) == m.document && Sendable(p.pieces)
  }

  function WholeMessage(m: Message, pieces: seq<string>): string {
    HeadText(m.leader, m.headers, |m.headers|) + BodyText(m.chunked, pieces, m.has_document)
  }

  lemma CompleteMessage(m: Message, p: Progress)
    requires Possible(m, p) && p.header == |m.headers| && p.left == "" && (m.has_document ==> !p.chunking)
    ensures Complete(m, p) && Produced(m, p) == WholeMessage(m, p.pieces)
  {
    assert Joined(p.pieces) + "" == Joined(p.pieces);
  }

  // Before anything has been queued.
  lemma StartProduced(m: Message, p: Progress)
    requires p == Progress(0, m.chunked, [], m.document) && (m.has_document || m.document == "")
    ensures Possible(m, p)
    ensures Produced(m, p) == if m.headers == [] then Opening(m.leader) + Closing(m.leader, m.headers) else Opening(m.leader)
  {
    assert m.headers[..0] == [] && BodyText(m.chunked, [], false) == "";
    assert Joined([]) + m.document == m.document;
  }

  lemma PiecesExtended(pieces: seq<string>, data: string)
    ensures Joined(pieces + [data]) == Joined(pieces) + data
    ensures Chunks(pieces + [data]) == Chunks(pieces) + Chunk(data)
  {
    assert (pieces + [data])[..|pieces|] == pieces;
  }

  lemma PieceProduced(m: Message, p: Progress, n: nat)
    requires Possible(m, p) && p.header == |m.headers| && m.has_document && 0 < n <= |p.left| && n <= MAX_CHUNK
    ensures var p' := p.(pieces := p.pieces + [p.left[..n]], left := p.left[n..]);
            Possible(m, p') && Produced(m, p') == Produced(m, p) + Piece(p.chunking, p.left[..n])
  {
    PiecePossible(m, p, n);
    PieceText(m, p, p.left[..n]);
  }

  lemma PiecePossible(m: Message, p: Progress, n: nat)
    requires Possible(m, p) && p.header == |m.headers| && m.has_document && 0 < n <= |p.left| && n <= MAX_CHUNK
    ensures Possible(m, p.(pieces := p.pieces + [p.left[..n]], left := p.left[n..]))
  {
    var data := p.left[..n];
    PiecesExtended(p.pieces, data);
    assert data + p.left[n..] == p.left;
    Associative(Joined(p.pieces), data, p.left[n..]);
  }

  lemma PieceText(m: Message, p: Progress, data: string)
    requires p.header <= |m.headers| && (m.chunked ==> p.chunking) && (!m.chunked ==> !p.chunking)
    ensures BodyText(m.chunked, p.pieces + [data], !p.chunking) == BodyText(m.chunked, p.pieces, !p.chunking) + Piece(p.chunking, data)
  {
    PiecesExtended(p.pieces, data);
  }

  lemma EndProduced(m: Message, p: Progress)
    requires Possible(m, p) && p.header == |m.headers| && m.has_document && p.chunking && p.left == ""
    ensures Possible(m, p.(chunking := false))
    ensures Produced(m, p.(chunking := false)) == Produced(m, p) + LAST_CHUNK
  {
  }

  // The head before its closing empty line.
  function Queued(m: Message, n: nat): string
    requires n <= |m.headers|
  {
    Opening(m.leader) + HeaderText(m.headers[..n])
  }

  lemma NextHeader(m: Message, n: nat)
    requires n < |m.headers|
    ensures Queued(m, n + 1) == Queued(m, n) + if HeaderFits(m.headers[n]) then FormatHeader(m.headers[n]) else ""
  {
    assert m.headers[..n + 1][..n] == m.headers[..n];
  }

  lemma HeadOnly(m: Message, p: Progress)
    requires p.header <= |m.headers| && p.pieces == [] && p.chunking == m.chunked
    ensures m.headers != [] ==>
              Produced(m, p) == Queued(m, p.header) + if p.header == |m.headers| then CRLF else ""
  {
    assert BodyText(m.chunked, [], false) == "";
  }

  // Something more of the message has been dealt with.
  ghost predicate Ahead(p: Progress, p': Progress) {
    || |p.left| < |p'.left|
    || (|p.left| == |p'.left| && p.header > p'.header)
    || (|p.left| == |p'.left| && p.header == p'.header && !p.chunking && p'.chunking)
  }

  lemma StillAhead(p: Progress, q: Progress, r: Progress)
    requires Ahead(p, q) || p == q
    requires Ahead(q, r) || q == r
    ensures Ahead(p, r) || p == q == r
    ensures Ahead(p, q) ==> Ahead(p, r)
  {
  }

  // Less is left to do, by the lexicographic order of what remains.
  ghost predicate Less(p: Progress, len: nat, p': Progress, len': nat) {
    || Ahead(p, p')
    || (|p.left| == |p'.left| && p.header == p'.header && p.chunking == p'.chunking && len < len')
  }

  // Three copies around n bytes of data leave a framed chunk.
  lemma Framed(before: string, after: string, at: nat, size: string, n: nat)
    requires |before| == |after| && at + |size| + 2 + n + 2 <= |before|
    requires forall i :: 0 <= i < |after| ==>
               after[i] == if at + |size| + 2 + n <= i < at + |size| + 2 + n + 2 then CRLF[i - (at + |size| + 2 + n)]
                           else if at + |size| <= i < at + |size| + 2 then CRLF[i - (at + |size|)]
                           else if at <= i < at + |size| then size[i - at]
                           else before[i]
    ensures var offset := at + |size| + 2;
            after[..offset + n + 2] == before[..at] + (size + CRLF + before[offset..offset + n] + CRLF)
  {
  }

  datatype Result = Success(count: nat) | Block | EndOfStream | Failure
  datatype Ending = Finished | WaitsForNetwork | WaitsForDocument | DocumentFailed | NetworkFailed | StillTrying

  // What the network says to an attempt to write: it takes at most so much, and at least one
  // byte, or nothing at the moment, or it is broken.
  datatype Answer = Takes(most: nat) | Blocks | Breaks

  // What the document says to an attempt to read from it: it hands out at most so much, and at
  // least one byte of what it holds, or nothing at the moment, or it fails.
  datatype Offer = Offers(most: nat) | Stalls | Fails

  // How much is moved when there are n bytes.
  function Portion(most: nat, n: nat): (k: nat)
    requires n > 0
    ensures 0 < k <= n
  {
    if most == 0 then 1 else if most > n then n else most
  }

  function Smaller(a: nat, b: nat): nat { if a < b then a else b }

  ghost predicate NoneBreaks(network: nat -> Answer, n: nat) { forall k :: 0 <= k < n ==> network(k) != Breaks }

  // How often a network blocks, in its first n answers.
  function Blocked(network: nat -> Answer, n: nat): nat {
    if n == 0 then 0 else Blocked(network, n - 1) + if network(n - 1) == Blocks then 1 else 0
  }

  // How often a network takes something, in its first n answers.
  function Taken(network: nat -> Answer, n: nat): nat {
    if n == 0 then 0 else Taken(network, n - 1) + if network(n - 1).Takes? then 1 else 0
  }

  // What a document that holds this makes of it, with so much room.
  predicate Answers(result: Result, document: string, offer: Offer, room: nat) {
    match result
    case Success(n) => offer.Offers? && 0 < n <= room && n <= |document| && n == Portion(offer.most, Smaller(room, |document|))
    case Block => offer == Stalls
    case EndOfStream => offer.Offers? && document == ""
    case Failure => offer == Fails
  }

  class HttpBase {
    const data_: Message
    const buffer_: array<char>
    var len_: nat
    var header_: nat
    var chunk_data_: bool
    // What the document still holds, and what has reached the network.
    var document: string
    var wire: string
    // The pieces read from the document, and all the text produced for the network.
    ghost var pieces: seq<string>
    ghost var produced: string

    ghost function Buffered(): string
      reads this`len_, buffer_
      requires len_ <= buffer_.Length
    {
      buffer_[..len_]
    }

    ghost function At(): Progress
      reads this`header_, this`chunk_data_, this`pieces, this`document
    {
      Progress(header_, chunk_data_, pieces, document)
    }

    /** Bytes written followed by bytes buffered are all the text produced, and the buffer
        never overflows. */
    ghost predicate Stored()
      reads this`len_, this`wire, this`produced, buffer_
    {
      buffer_.Length == BUFFER_SIZE && len_ <= BUFFER_SIZE && wire + Buffered() == produced
    }

    /** The text produced is the message, as far as it has been dealt with. */
    ghost predicate Accounted()
      reads this`header_, this`chunk_data_, this`pieces, this`document, this`produced
    {
      Possible(data_, At()) && produced == Produced(data_, At())
    }

    ghost predicate Valid()
      reads this, buffer_
    {
      Stored() && Accounted()
    }

    method Append(text: string)
      requires Stored() && len_ + |text| <= BUFFER_SIZE
      modifies this`len_, this`produced, buffer_
      ensures Stored() && len_ == old(len_) + |text| && produced == old(produced) + text
    {
      forall i | 0 <= i < |text| { buffer_[len_ + i] := text[i]; }
      assert buffer_[..len_ + |text|] == old(buffer_[..len_]) + text;
      len_, produced := len_ + |text|, produced + text;
    }

    /** Set up as send() does: leader and CR LF in the buffer, and the closing empty line at
        once when there are no headers. */
    constructor (leader: string, headers: seq<Header>, has_document: bool, document: string)
      requires has_document || document == ""
      ensures fresh(buffer_) && buffer_.Length == 32768
      ensures Valid() && data_ == Sent(leader, headers, has_document, document) && wire == ""
      ensures At() == Progress(0, TransferEncoding(headers) == "chunked", [], document)
    {
      var encoding := TransferEncoding(headers);
      data_ := Message(leader, headers, has_document, document, encoding == "chunked");
      this.document := document;
      buffer_ := new char[BUFFER_SIZE];
      len_, header_, chunk_data_ := 0, 0, encoding == "chunked";
      wire, pieces, produced := "", [], "";
      new;
      assert buffer_[..0] == "";
      Begin();
    }

    method Begin()
      requires Stored() && wire == "" && produced == "" && At() == Progress(0, data_.chunked, [], data_.document)
      requires data_.has_document || data_.document == ""
      modifies this`len_, this`produced, buffer_
      ensures Valid()
    {
      Append(Copied(BUFFER_SIZE, data_.leader));
      Append(Copied(BUFFER_SIZE - len_, CRLF));
      assert produced == Opening(data_.leader);
      if header_ == |data_.headers| {
        Append(Copied(BUFFER_SIZE - len_, CRLF));
      }
      StartProduced(data_, At());
    }

    // While headers are being queued, the closing empty line is not there yet.
    ghost predicate Queueing()
      reads this`header_, this`chunk_data_, this`pieces, this`document, this`produced
    {
      && Possible(data_, At()) && pieces == [] && chunk_data_ == data_.chunked
      && produced == Queued(data_, header_)
    }

    method QueueText(text: string)
      requires Stored() && Queueing() && header_ < |data_.headers| && text == FormatHeader(data_.headers[header_])
      requires len_ + |text| < BUFFER_SIZE - 3
      modifies this`len_, this`header_, this`produced, buffer_
      ensures Stored() && Queueing() && header_ == old(header_) + 1 && len_ < BUFFER_SIZE - 3
    {
      NextHeader(data_, header_);
      Append(text);
      header_ := header_ + 1;
    }

    // One header: queued, discarded for good, or left for later.
    method QueueHeader() returns (more: bool)
      requires Stored() && Queueing() && header_ < |data_.headers| && len_ < BUFFER_SIZE
      modifies this`len_, this`header_, this`produced, buffer_
      ensures Stored() && Queueing() && len_ < BUFFER_SIZE
      ensures more ==> header_ == old(header_) + 1 && len_ < BUFFER_SIZE - 3
      ensures !more ==> header_ == old(header_) && len_ == old(len_) > 0
    {
      var text := FormatHeader(data_.headers[header_]);
      // sprintfn reports what it could fit into the rest of the buffer.
      var len := |Copied(BUFFER_SIZE - len_, text)|;
      Room(len_, text);
      NextHeader(data_, header_);
      more := true;
      if len_ + len < BUFFER_SIZE - 3 {
        QueueText(text);
      } else if len_ == 0 {
        // Discarding a header that is too long.
        header_ := header_ + 1;
      } else {
        // Not enough room for the next header: write to the network first.
        more := false;
      }
    }

    method QueueHeaders() returns (send_required: bool)
      requires Valid() && header_ < |data_.headers| && len_ < BUFFER_SIZE
      modifies this`len_, this`header_, this`produced, buffer_
      ensures Valid()
      ensures old(header_) < header_ || (header_ == old(header_) && len_ == old(len_))
      ensures if send_required then len_ > 0 else header_ == |data_.headers|
      ensures len_ < BUFFER_SIZE
    {
      HeadOnly(data_, At());
      while header_ < |data_.headers|
        invariant Stored() && Queueing() && len_ < BUFFER_SIZE
        invariant old(header_) < header_ || (header_ == old(header_) && len_ == old(len_))
        invariant header_ == |data_.headers| ==> len_ < BUFFER_SIZE - 3
        decreases |data_.headers| - header_
      {
        var more := QueueHeader();
        if !more {
          HeadOnly(data_, At());
          return true;
        }
      }
      HeadOnly(data_, At());
      Append(CRLF);
      return false;
    }

    // memcpy to a place in the buffer.
    method Put(at: nat, text: string)
      requires at + |text| <= buffer_.Length
      modifies buffer_
      ensures forall i :: 0 <= i < buffer_.Length ==>
                buffer_[i] == if at <= i < at + |text| then text[i - at] else old(buffer_[i])
    {
      forall i | 0 <= i < |text| { buffer_[at + i] := text[i]; }
    }

    // The document puts some of its data into the buffer.
    method ReadDocument(at: nat, room: nat, offer: Offer) returns (result: Result)
      requires buffer_.Length == BUFFER_SIZE && at + room <= BUFFER_SIZE && room > 0
      modifies this`document, buffer_
      ensures buffer_[..at] == old(buffer_[..at])
      ensures Answers(result, old(document), offer, room)
      ensures match result
              case Success(n) => document == old(document)[n..] && buffer_[at..at + n] == old(document)[..n]
              case _ => document == old(document)
    {
      match offer
      case Offers(most) =>
        if document == "" {
          return EndOfStream;
        }
        var n := Portion(most, Smaller(room, |document|));
        Put(at, document[..n]);
        document := document[n..];
        result := Success(n);
      case Stalls => result := Block;
      case Fails => result := Failure;
    }

    // The length and the line ends around a piece that lies in the buffer.
    method Frame(offset: nat, read: nat)
      requires offset == len_ + CHUNK_DIGITS + 2 && offset + read + 2 <= buffer_.Length
      modifies buffer_
      ensures buffer_[..offset + read + 2] == old(buffer_[..len_]) + Chunk(old(buffer_[offset..offset + read]))
    {
      ghost var before := buffer_[..];
      Put(len_, Hex(read, CHUNK_DIGITS));
      Put(len_ + CHUNK_DIGITS, CRLF);
      Put(offset + read, CRLF);
      Framed(before, buffer_[..], len_, Hex(read, CHUNK_DIGITS), read);
    }

    /** Read a piece into the buffer, behind room for the chunk's length, and frame it. */
    method ReadPiece(offset: nat, reserve: nat, offer: Offer) returns (result: Result)
      requires Stored() && len_ <= offset <= reserve < BUFFER_SIZE
      requires if chunk_data_ then offset == len_ + CHUNK_DIGITS + 2 && reserve == offset + 2
               else offset == reserve == len_
      modifies this`len_, this`document, this`pieces, this`produced, buffer_
      ensures Stored() && Answers(result, old(document), offer, BUFFER_SIZE - reserve)
      ensures match result
              case Success(n) =>
                && 0 < n <= MAX_CHUNK && n <= |old(document)| && document == old(document)[n..]
                && var data := old(document)[..n];
                   pieces == old(pieces) + [data] && produced == old(produced) + Piece(chunk_data_, data)
              case EndOfStream => document == old(document) == "" && len_ == old(len_) && produced == old(produced) && pieces == old(pieces)
              case _ => document == old(document) && len_ == old(len_) && produced == old(produced) && pieces == old(pieces)
    {
      ghost var doc := document;
      result := ReadDocument(offset, BUFFER_SIZE - reserve, offer);
      if result.Success? {
        TakePiece(offset, reserve, result.count, doc[..result.count]);
      }
    }

    // A piece that has been read into its place goes into the buffer with its frame.
    method TakePiece(offset: nat, reserve: nat, read: nat, ghost data: string)
      requires Stored() && len_ <= offset <= reserve && reserve + read <= BUFFER_SIZE && |data| == read
      requires buffer_[offset..offset + read] == data
      requires if chunk_data_ then offset == len_ + CHUNK_DIGITS + 2 && reserve == offset + 2
               else offset == reserve == len_
      modifies this`len_, this`pieces, this`produced, buffer_
      ensures Stored() && pieces == old(pieces) + [data] && produced == old(produced) + Piece(chunk_data_, data)
    {
      ghost var before := Buffered();
      if chunk_data_ {
        Frame(offset, read);
      }
      assert buffer_[..reserve + read] == before + Piece(chunk_data_, data);
      Associative(wire, before, Piece(chunk_data_, data));
      len_ := reserve + read;
      pieces, produced := pieces + [data], produced + Piece(chunk_data_, data);
    }

    // The document has ended.
    method QueueEnd() returns (send_required: bool, ended: bool)
      requires Valid() && data_.has_document && header_ == |data_.headers| && document == ""
      requires chunk_data_ ==> len_ + CHUNK_DIGITS + 4 < BUFFER_SIZE
      modifies this`len_, this`chunk_data_, this`produced, buffer_
      ensures Valid() && (chunk_data_ ==> old(chunk_data_))
      ensures ended ==> len_ == 0 && !chunk_data_
      ensures !send_required ==> ended
      ensures send_required ==> len_ > 0
      ensures chunk_data_ == old(chunk_data_) ==> len_ == old(len_)
    {
      if chunk_data_ {
        // The empty chunk and the empty trailers.
        EndProduced(data_, At());
        Append(LAST_CHUNK);
        chunk_data_ := false;
        return true, false;
      }
      // All read and all written, or something is still to be written.
      ended := len_ == 0;
      send_required := !ended;
    }

    /** Queue what the document has to offer, as a chunk if the body is chunked. Without a
        need to send afterwards, the document has become shorter. */
    method QueueDocument(offer: Offer) returns (send_required: bool, ended: bool, failed: bool)
      requires Valid() && data_.has_document && header_ == |data_.headers|
      modifies this`len_, this`chunk_data_, this`document, this`pieces, this`produced, buffer_
      ensures Valid()
      ensures ended ==> len_ == 0 && document == "" && !chunk_data_
      ensures Ahead(At(), old(At())) || (At() == old(At()) && len_ == old(len_))
      ensures !send_required && !ended && !failed ==> Ahead(At(), old(At())) && len_ > 0
      ensures failed ==> offer == Fails
      ensures send_required && len_ == 0 ==> offer == Stalls
    {
      hide Possible, Produced;
      send_required, ended, failed := false, false, false;
      ghost var p := At();
      var offset, reserve := len_, len_;
      if chunk_data_ {
        offset := len_ + CHUNK_DIGITS + 2;
        reserve := offset + 2;
      }
      if reserve >= BUFFER_SIZE {
        send_required := true;
      } else {
        var result := ReadPiece(offset, reserve, offer);
        match result
        case Success(read) =>
          PieceProduced(data_, p, read);
        case Block =>
          send_required := true;
        case EndOfStream =>
          send_required, ended := QueueEnd();
        case Failure =>
          failed := true;
      }
    }

    // The network takes some of the buffered bytes.
    method WriteNetwork(answer: Answer) returns (result: Result)
      requires Stored() && len_ > 0
      modifies this`len_, this`wire, buffer_
      ensures Stored() && old(wire) <= wire
      ensures match result
              case Success(written) => answer.Takes? && written == Portion(answer.most, old(len_)) && len_ == old(len_) - written
              case Block => answer == Blocks && len_ == old(len_) && wire == old(wire)
              case EndOfStream => false
              case Failure => answer == Breaks && len_ == old(len_) && wire == old(wire)
    {
      match answer
      case Takes(most) =>
        var written := Portion(most, len_);
        Written(written);
        result := Success(written);
      case Blocks => result := Block;
      case Breaks => result := Failure;
    }

    // memmove(buffer_, buffer_ + written, len_ - written)
    method Written(written: nat)
      requires Stored() && written <= len_
      modifies this`len_, this`wire, buffer_
      ensures Stored() && len_ == old(len_) - written && old(wire) <= wire
    {
      ghost var all := Buffered();
      assert buffer_[..written] == all[..written];
      wire := wire + buffer_[..written];
      len_ := len_ - written;
      forall i | 0 <= i < len_ { buffer_[i] := buffer_[written + i]; }
      assert Buffered() == all[written..];
      assert all[..written] + all[written..] == all;
      Associative(old(wire), all[..written], all[written..]);
    }

    /** The complete message is on the wire, and nothing else. */
    ghost predicate AllSent()
      reads this
    {
      Complete(data_, At()) && wire == WholeMessage(data_, pieces)
    }

    // There is nothing left to queue, and no reason to wait for the network either.
    predicate OnlyWrites()
      reads this`header_
    {
      !data_.has_document && header_ == |data_.headers|
    }

    // First, attempt to queue more of the head.
    method QueueHead(send_required: bool) returns (required: bool)
      requires Valid()
      requires send_required ==> len_ == BUFFER_SIZE
      requires !send_required && header_ < |data_.headers| ==> len_ < BUFFER_SIZE
      modifies this`len_, this`header_, this`produced, buffer_
      ensures Valid()
      ensures Ahead(At(), old(At())) || (At() == old(At()) && len_ == old(len_))
      ensures required ==> len_ > 0
      ensures !required ==> header_ == |data_.headers|
      ensures header_ < |data_.headers| ==> send_required || len_ < BUFFER_SIZE
      ensures old(OnlyWrites()) ==> required == send_required
    {
      required := send_required;
      if !required && header_ < |data_.headers| {
        required := QueueHeaders();
      }
    }

    // Before any write, queue as much as possible.
    method FillBuffer(send_required: bool, offer: Offer) returns (required: bool, ended: bool, failed: bool)
      requires Valid()
      requires send_required ==> len_ == BUFFER_SIZE
      requires !send_required && header_ < |data_.headers| ==> len_ < BUFFER_SIZE
      modifies this`len_, this`header_, this`chunk_data_, this`document, this`pieces, this`produced, buffer_
      ensures Valid()
      ensures Ahead(At(), old(At())) || (At() == old(At()) && len_ == old(len_))
      ensures ended ==> data_.has_document && len_ == 0 && document == "" && !chunk_data_
      ensures !required ==> header_ == |data_.headers|
      ensures !required && !ended && !failed && data_.has_document ==> Ahead(At(), old(At()))
      ensures header_ < |data_.headers| ==> len_ > 0 && (send_required || len_ < BUFFER_SIZE)
      ensures required && len_ == 0 ==> data_.has_document && offer == Stalls
      ensures failed ==> data_.has_document && offer == Fails
      ensures !required && !ended && !failed && len_ == 0 ==> !data_.has_document
      ensures old(OnlyWrites()) ==>
                required == send_required && !ended && !failed && At() == old(At()) && len_ == old(len_)
    {
      ended, failed := false, false;
      ghost var start := At();
      required := QueueHead(send_required);
      if !required && data_.has_document {
        ghost var queued := At();
        required, ended, failed := QueueDocument(offer);
        StillAhead(At(), queued, start);
      }
    }

    /** One turn of the loop. It ends the sending only when the whole message is on the wire,
        or for a failure; it suspends it only with something to wait for; and otherwise there
        is less left to do, except in one case: without a document, and with all headers
        queued, a blocked write leaves everything as it was. */
    method FlushStep(send_required: bool, answer: Answer, offer: Offer) returns (again: bool, ending: Ending, spun: bool)
      requires Valid()
      requires send_required ==> len_ == BUFFER_SIZE
      requires !send_required && header_ < |data_.headers| ==> len_ < BUFFER_SIZE
      modifies this`len_, this`header_, this`chunk_data_, this`document, this`wire, this`pieces, this`produced, buffer_
      ensures Valid() && old(wire) <= wire
      ensures again && header_ < |data_.headers| ==> len_ < BUFFER_SIZE
      ensures !again ==> Concluded(ending, answer, offer)
      ensures again ==> (answer.Takes? && |wire| > |old(wire)|) || answer == Blocks
      ensures spun <==> old(OnlyWrites()) && !send_required && old(len_) > 0 && answer == Blocks
      ensures spun ==> again && At() == old(At()) && len_ == old(len_) && wire == old(wire)
      ensures again && !spun ==> Less(At(), len_, old(At()), old(len_))
    {
      hide Produced;
      var queued := OnlyWrites();
      var required, ended, failed := FillBuffer(send_required, offer);
      var blocked;
      again, ending, blocked := FlushBuffer(required, ended, failed, answer, offer);
      spun := blocked && queued;
    }

    /** What it means that the sending has ended or is suspended. */
    ghost predicate Ended(ending: Ending)
      reads this
    {
      match ending
      case Finished => AllSent()
      case WaitsForNetwork => len_ > 0
      case WaitsForDocument => data_.has_document && len_ == 0
      case StillTrying => OnlyWrites() && len_ > 0
      case _ => true
    }

    // And what it has come from, in the last turn.
    ghost predicate Because(ending: Ending, answer: Answer, offer: Offer) {
      match ending
      case WaitsForNetwork => answer == Blocks
      case NetworkFailed => answer == Breaks
      case WaitsForDocument => data_.has_document && offer == Stalls
      case DocumentFailed => data_.has_document && offer == Fails
      case StillTrying => answer == Blocks
      case Finished => true
    }

    ghost predicate Concluded(ending: Ending, answer: Answer, offer: Offer)
      reads this
    {
      ending != StillTrying && Ended(ending) && Because(ending, answer, offer)
    }

    // After the queueing: the end, for one reason or another, or a write.
    method FlushBuffer(required: bool, ended: bool, failed: bool, answer: Answer, ghost offer: Offer)
      returns (again: bool, ending: Ending, blocked: bool)
      requires Valid()
      requires ended ==> data_.has_document && len_ == 0 && document == "" && !chunk_data_
      requires header_ < |data_.headers| || (required && !data_.has_document) ==> len_ > 0
      requires ended ==> header_ == |data_.headers|
      requires failed ==> data_.has_document && offer == Fails
      requires !ended && !failed && len_ == 0 && data_.has_document ==> offer == Stalls
      modifies this`len_, this`wire, buffer_
      ensures Valid() && old(wire) <= wire
      ensures !again ==> Concluded(ending, answer, offer)
      ensures again ==> (answer.Takes? && |wire| > |old(wire)|) || answer == Blocks
      ensures again ==> !ended && !failed
      ensures blocked <==> !ended && !failed && !required && old(len_) > 0 && answer == Blocks
      ensures blocked ==> again && len_ == old(len_) && wire == old(wire)
      ensures again && !blocked ==> len_ < old(len_)
    {
      again, blocked := false, false;
      if ended {
        CompleteMessage(data_, At());
        return false, Finished, false;
      }
      if failed {
        return false, DocumentFailed, false;
      }
      if len_ == 0 {
        if data_.has_document {
          return false, WaitsForDocument, false;
        }
        CompleteMessage(data_, At());
        return false, Finished, false;
      }
      again, ending, blocked := SendSome(required, answer);
    }

    // Send what is in the buffer; a blocked write that was not required leaves everything.
    method SendSome(required: bool, answer: Answer) returns (again: bool, ending: Ending, blocked: bool)
      requires Valid() && len_ > 0
      modifies this`len_, this`wire, buffer_
      ensures Valid() && old(wire) <= wire
      ensures again <==> answer.Takes? || (answer == Blocks && !required)
      ensures blocked <==> !required && answer == Blocks
      ensures !answer.Takes? ==> len_ == old(len_) && wire == old(wire)
      ensures answer.Takes? ==> len_ < old(len_) && |wire| > |old(wire)|
      ensures ending == if answer == Blocks && required then WaitsForNetwork else NetworkFailed
    {
      again, ending, blocked := false, NetworkFailed, false;
      var result := WriteNetwork(answer);
      match result
      case Success(_) =>
        again := true;
      case Block =>
        if required {
          ending := WaitsForNetwork;
        } else {
          again, blocked := true, true;
        }
      case _ =>
    }

    // One turn, and an end to it when the network has blocked for so long.
    method Attempt(send_required: bool, answer: Answer, offer: Offer, patience: nat)
      returns (again: bool, ending: Ending, left: nat)
      requires Valid()
      requires send_required ==> len_ == BUFFER_SIZE
      requires !send_required && header_ < |data_.headers| ==> len_ < BUFFER_SIZE
      modifies this`len_, this`header_, this`chunk_data_, this`document, this`wire, this`pieces, this`produced, buffer_
      ensures Valid() && old(wire) <= wire
      ensures again && header_ < |data_.headers| ==> len_ < BUFFER_SIZE
      ensures !again ==> Ended(ending) && Because(ending, answer, offer)
      ensures again ==> answer != Breaks && (answer.Takes? ==> |wire| > |old(wire)|)
      ensures again ==> Less(At(), len_, old(At()), old(len_)) || (At() == old(At()) && len_ == old(len_) && left < patience)
      ensures again ==> left == patience || (left == patience - 1 && answer == Blocks)
      ensures !again && ending == StillTrying ==> patience == 0
      ensures old(OnlyWrites()) && !send_required && old(len_) > 0 && answer == Blocks ==>
                OnlyWrites() && len_ == old(len_) && wire == old(wire) && (!again ==> ending == StillTrying)
    {
      left := patience;
      var spun;
      again, ending, spun := FlushStep(send_required, answer, offer);
      if spun {
        if patience == 0 {
          return false, StillTrying, 0;
        }
        left := patience - 1;
      }
    }

    /** The sending loop, for a network and a document that give these answers in turn. It ends or
        is suspended for what one of them has said in the last turn, and until then every turn in
        which the network takes something has written. With a document it always comes to an end
        on its own. Without one, and with the head queued, it tries again and again as long as the
        network blocks: `patience` is how often it is watched doing so. */
    method FlushData(network: nat -> Answer, offers: nat -> Offer, patience: nat)
      returns (ending: Ending, ghost turns: nat)
      requires Valid()
      modifies this`len_, this`header_, this`chunk_data_, this`document, this`wire, this`pieces, this`produced, buffer_
      ensures Valid() && Ended(ending) && old(wire) <= wire
      ensures turns > 0 && Because(ending, network(turns - 1), offers(turns - 1))
      ensures |wire| >= |old(wire)| + Taken(network, turns - 1) && NoneBreaks(network, turns - 1)
      ensures ending == StillTrying ==> Blocked(network, turns) > patience
      ensures old(OnlyWrites()) && 0 < old(len_) < BUFFER_SIZE && (forall n :: network(n) == Blocks) ==>
                ending == StillTrying && wire == old(wire) && len_ == old(len_)
    {
      hide Produced, Complete;
      var send_required := len_ >= BUFFER_SIZE;
      var left: nat, tries := patience, 0;
      ghost var stuck := OnlyWrites() && 0 < len_ < BUFFER_SIZE && forall n :: network(n) == Blocks;
      while true
        invariant Valid() && old(wire) <= wire
        invariant send_required ==> len_ == BUFFER_SIZE
        invariant !send_required && header_ < |data_.headers| ==> len_ < BUFFER_SIZE
        invariant |wire| >= |old(wire)| + Taken(network, tries) && NoneBreaks(network, tries)
        invariant left <= patience <= left + Blocked(network, tries)
        invariant stuck ==> OnlyWrites() && !send_required && len_ == old(len_) && wire == old(wire)
        decreases |document|, |data_.headers| - header_, chunk_data_, len_, left
      {
        var again;
        turns := tries + 1;
        again, ending, left := Attempt(send_required, network(tries), offers(tries), left);
        if !again {
          return;
        }
        tries, send_required := tries + 1, false;
      }
    }

    /** A network that keeps taking bytes, and a document that keeps handing them out: the whole
        message is sent. */
    method SendAll(network: nat -> Answer, offers: nat -> Offer)
      requires Valid() && (forall n :: network(n).Takes?) && (data_.has_document ==> forall n :: offers(n).Offers?)
      modifies this`len_, this`header_, this`chunk_data_, this`document, this`wire, this`pieces, this`produced, buffer_
      ensures Valid() && AllSent() && old(wire) <= wire
    {
      ghost var turns;
      var ending;
      ending, turns := FlushData(network, offers, 0);
      assert network(turns - 1).Takes? && (data_.has_document ==> offers(turns - 1).Offers?);
    }
  }

  lemma ShortHead(leader: string)
    requires |leader| + 4 < BUFFER_SIZE
    ensures HeadText(leader, [], 0) == leader + CRLF + CRLF
  {
    HeadIsExact(leader, []);
  }

  /** A request or an answer without a document, over a network that takes nothing: however
      long it is watched, the loop is still trying, with nothing sent. */
  method TriesForever(leader: string, offers: nat -> Offer, patience: nat) returns (ending: Ending, sent: string)
    requires |leader| + 4 < BUFFER_SIZE
    ensures ending == StillTrying && sent == ""
  {
    var base := new HttpBase(leader, [], false, "");
    ShortHead(leader);
    assert BodyText(false, [], true) == "";
    assert base.Buffered() == base.produced == leader + CRLF + CRLF;
    ghost var turns;
    ending, turns := base.FlushData((n: nat) => Blocks, offers, patience);
    sent := base.wire;
  }
}
