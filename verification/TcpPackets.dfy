/** asynctcpsocket.cc: datagrams over a byte stream. Packets are framed by a 16-bit length;
    the sender drops whole packets rather than buffering them, and the receiver reassembles
    them from whatever pieces the stream delivers. */
module TcpPackets {
  import opened Bytes
  import opened Sequences

  const MAX_PACKET_SIZE: nat := 64 * 1024
  const PKT_LEN_SIZE: nat := 2
  const BUF_SIZE: nat := MAX_PACKET_SIZE + PKT_LEN_SIZE

  type Packet = seq<Byte>

  // The length as a uint16 in network order: anything above 65535 is cut off.
  function Header(n: nat): (h: seq<Byte>)
    ensures |h| == PKT_LEN_SIZE
  {
    [n / 256 % 256, n % 256]
  }

  function HeaderLength(s: seq<Byte>): (n: nat)
    requires |s| >= PKT_LEN_SIZE
    ensures n < 65536
  {
    s[0] as int * 256 + s[1]
  }

  function Frame(p: Packet): seq<Byte> { Header(|p|) + p }

  function Frames(ps: seq<Packet>): seq<Byte> {
    if ps == [] then [] else Frames(ps[..|ps| - 1]) + Frame(ps[|ps| - 1])
  }

  predicate HasFrame(s: seq<Byte>) {
    |s| >= PKT_LEN_SIZE && |s| >= PKT_LEN_SIZE + HeaderLength(s)
  }

  // The packets a byte stream carries, read from the front.
  function Packets(s: seq<Byte>): seq<Packet>
    decreases |s|
  {
    if !HasFrame(s) then []
    else
      var n := PKT_LEN_SIZE + HeaderLength(s);
      [s[PKT_LEN_SIZE..n]] + Packets(s[n..])
  }

  // What is left of it: less than a packet.
  function Leftover(s: seq<Byte>): (r: seq<Byte>)
    ensures !HasFrame(r)
    decreases |s|
  {
    if !HasFrame(s) then s else Leftover(s[PKT_LEN_SIZE + HeaderLength(s)..])
  }

  // Packets whose length survives the trip through 16 bits.
  predicate Short(ps: seq<Packet>) {
    forall k :: 0 <= k < |ps| ==> |ps[k]| <= 65535
  }

  lemma FrameIsRead(p: Packet, more: seq<Byte>)
    requires |p| <= 65535
    ensures Packets(Frame(p) + more) == [p] + Packets(more)
    ensures Leftover(Frame(p) + more) == Leftover(more)
  {
    var s := Frame(p) + more;
    assert s[0] == |p| / 256 % 256 == |p| / 256 && s[1] == |p| % 256;
    assert HeaderLength(s) == |p|;
    assert s[PKT_LEN_SIZE..PKT_LEN_SIZE + |p|] == p;
    assert s[PKT_LEN_SIZE + |p|..] == more;
  }

  /** A packet that passes Send's length check comes out again as itself if and only if its
      length fits the header; one of 65536 bytes is announced as empty. */
  lemma FrameRoundTrip(p: Packet)
    requires |p| <= MAX_PACKET_SIZE
    ensures Packets(Frame(p)) == [p] <==> |p| <= 65535
  {
    var s := Frame(p);
    if |p| <= 65535 {
      assert s + [] == s;
      FrameIsRead(p, []);
    } else {
      assert HeaderLength(s) == 0;
      assert Packets(s)[0] == s[2..2] == [];
    }
  }

  // Moving a packet from the front of the unread bytes to the delivered ones.
  lemma PacketMoves(before: seq<Packet>, p: Packet, unread: seq<Byte>, seen: seq<Packet>)
    requires |p| <= 65535
    ensures Frames(before) + (Frame(p) + unread) == Frames(before + [p]) + unread
    ensures seen + Packets(Frame(p) + unread) == seen + [p] + Packets(unread)
  {
    FrameIsRead(p, unread);
    Associative(seen, [p], Packets(unread));
    assert (before + [p])[..|before|] == before;
    Associative(Frames(before), Frame(p), unread);
  }

  lemma {:induction false} FramesAreRead(ps: seq<Packet>, more: seq<Byte>)
    requires Short(ps)
    ensures Packets(Frames(ps) + more) == ps + Packets(more)
    ensures Leftover(Frames(ps) + more) == Leftover(more)
    decreases |ps|
  {
    if ps == [] {
      assert Frames(ps) + more == more && ps + Packets(more) == Packets(more);
    } else {
      var init, last := ps[..|ps| - 1], ps[|ps| - 1];
      Associative(Frames(init), Frame(last), more);
      FramesAreRead(init, Frame(last) + more);
      FrameIsRead(last, more);
      assert ps == init + [last];
      Associative(init, [last], Packets(more));
    }
  }

  // More bytes only ever add packets at the end.
  lemma {:induction false} PacketsExtended(s: seq<Byte>, more: seq<Byte>)
    ensures Packets(s + more) == Packets(s) + Packets(Leftover(s) + more)
    decreases |s|
  {
    if !HasFrame(s) {
      assert [] + Packets(s + more) == Packets(s + more);
    } else {
      var n := PKT_LEN_SIZE + HeaderLength(s);
      FirstPacketExtended(s, more);
      PacketsExtended(s[n..], more);
      var p, a, b := s[PKT_LEN_SIZE..n], Packets(s[n..]), Packets(Leftover(s) + more);
      Associative([p], a, b);
    }
  }

  lemma FirstPacketExtended(s: seq<Byte>, more: seq<Byte>)
    requires HasFrame(s)
    ensures var n := PKT_LEN_SIZE + HeaderLength(s);
            Packets(s + more) == [s[PKT_LEN_SIZE..n]] + Packets(s[n..] + more)
  {
    var n := PKT_LEN_SIZE + HeaderLength(s);
    assert (s + more)[n..] == s[n..] + more;
    assert (s + more)[PKT_LEN_SIZE..n] == s[PKT_LEN_SIZE..n];
  }

  /** End to end, at any moment of any run: with the sender's and the receiver's invariant and
      a stream that loses and reorders nothing, the delivered packets are the first of the
      accepted ones, in order and unchanged, and all of them once the bytes have drained. */
  lemma EndToEnd(accepted: seq<Packet>, wire: seq<Byte>, unsent: seq<Byte>,
                 delivered: seq<Packet>, received: seq<Byte>, unread: seq<Byte>)
    requires Short(accepted) && wire + unsent == Frames(accepted)
    requires Short(delivered) && received == Frames(delivered) + unread && !HasFrame(unread)
    requires received <= wire
    ensures delivered <= accepted
    ensures received == wire && unsent == [] ==> delivered == accepted && unread == []
  {
    var all := Frames(accepted);
    FramesAreRead(delivered, unread);
    FramesAreRead(accepted, []);
    assert all + [] == all;
    assert Packets(all) == accepted + [] == accepted && Leftover(all) == [];
    assert Packets(received) == delivered + [] == delivered && Leftover(received) == unread;
    assert all == received + all[|received|..];
    PacketsExtended(received, all[|received|..]);
    if received == wire && unsent == [] {
      assert all == received;
    }
  }

  lemma SomeTaken<T>(before: seq<T>, all: seq<T>, n: nat)
    requires n <= |all|
    ensures before + all[..n] + all[n..] == before + all
  {
  }

  lemma FramesGrow(packets: seq<Packet>, p: Packet)
    ensures Frames(packets + [p]) == Frames(packets) + Frame(p)
  {
    assert (packets + [p])[..|packets|] == packets;
  }

  // Some bytes of a new frame are on the wire, and the others wait.
  lemma FrameBegun(packets: seq<Packet>, p: Packet, wire: seq<Byte>, unsent: seq<Byte>, n: nat)
    requires 0 < n <= |Frame(p)| && wire == Frames(packets) + Frame(p)[..n] && unsent == Frame(p)[n..]
    ensures wire + unsent == Frames(packets + [p]) && Frames(packets) < wire
  {
    SomeTaken(Frames(packets), Frame(p), n);
    FramesGrow(packets, p);
  }

  function Least(a: int, b: int): int { if a < b then a else b }

  class AsyncTCPSocket {
    const inbuf_: array<Byte>
    const outbuf_: array<Byte>
    var inpos_: nat
    var outpos_: nat
    // All bytes given to the stream, and those taken from it; the packets that Send took on, and
    // those that have been signalled.
    var wire: seq<Byte>
    var received: seq<Byte>
    ghost var accepted: seq<Packet>
    ghost var delivered: seq<Packet>

    constructor ()
      ensures Valid() && fresh(inbuf_) && fresh(outbuf_)
      ensures accepted == [] && wire == [] && received == [] && delivered == []
    {
      inbuf_ := new Byte[BUF_SIZE];
      outbuf_ := new Byte[BUF_SIZE];
      inpos_, outpos_ := 0, 0;
      accepted, wire, received, delivered := [], [], [], [];
    }

    ghost function Unsent(): seq<Byte>
      reads this`outpos_, outbuf_
      requires outpos_ <= outbuf_.Length
    {
      outbuf_[..outpos_]
    }

    ghost function Unread(): seq<Byte>
      reads this`inpos_, inbuf_
      requires inpos_ <= inbuf_.Length
    {
      inbuf_[..inpos_]
    }

    // Bytes sent and bytes buffered are the frames of the accepted packets, and no others.
    ghost predicate SenderValid()
      reads this`outpos_, this`wire, this`accepted, outbuf_
    {
      && outbuf_.Length == BUF_SIZE && outpos_ <= BUF_SIZE
      && wire + Unsent() == Frames(accepted)
    }

    // Bytes received are the frames of the delivered packets and less than one more.
    ghost predicate ReceiverValid()
      reads this`inpos_, this`received, this`delivered, inbuf_
    {
      && inbuf_.Length == BUF_SIZE && inpos_ < BUF_SIZE
      && received == Frames(delivered) + Unread()
      && Short(delivered) && !HasFrame(Unread())
    }

    ghost predicate Valid()
      reads this, inbuf_, outbuf_
    {
      inbuf_ != outbuf_ && SenderValid() && ReceiverValid()
    }

    /** The socket takes so many of the pending bytes, if there are so many; 0 and negative numbers
        say that it blocks, or an error. */
    method Flush(sent: int) returns (res: int)
      requires outbuf_.Length == BUF_SIZE && 0 < outpos_ <= BUF_SIZE
      modifies this`outpos_, this`wire, outbuf_
      ensures res == Least(sent, old(outpos_))
      ensures res <= 0 ==> outpos_ == old(outpos_) && wire == old(wire) && outbuf_[..] == old(outbuf_[..])
      ensures res > 0 ==> wire == old(wire) + old(Unsent())[..res]
                          && outpos_ == old(outpos_) - res && Unsent() == old(Unsent())[res..]
    {
      res := Least(sent, outpos_);
      if res <= 0 {
        return;
      }
      wire := wire + outbuf_[..res];
      outpos_ := outpos_ - res;
      forall i | 0 <= i < outpos_ { outbuf_[i] := outbuf_[res + i]; }
    }

    method WriteFrame(pv: Packet)
      requires outbuf_.Length == BUF_SIZE && |pv| <= MAX_PACKET_SIZE
      modifies this`outpos_, outbuf_
      ensures outpos_ == PKT_LEN_SIZE + |pv| && Unsent() == Frame(pv)
    {
      var header := Header(|pv|);
      outbuf_[0], outbuf_[1] := header[0], header[1];
      forall i | 0 <= i < |pv| { outbuf_[PKT_LEN_SIZE + i] := pv[i]; }
      outpos_ := PKT_LEN_SIZE + |pv|;
    }

    /** A packet is refused as too long, dropped without a trace, or accepted; a dropped
        packet leaves no bytes on the wire. The caller cannot tell a packet that was dropped
        because an earlier one is still pending from one that was accepted. */
    method Send(pv: Packet, sent: int) returns (res: int, ghost took: bool)
      requires Valid()
      modifies this`outpos_, this`wire, this`accepted, outbuf_
      ensures Valid()
      ensures accepted == if took then old(accepted) + [pv] else old(accepted)
      ensures !took ==> wire == old(wire) && outpos_ == old(outpos_) && Unsent() == old(Unsent())
      ensures took <==> |pv| <= MAX_PACKET_SIZE && old(outpos_) == 0 && sent > 0
      ensures took ==> wire == old(wire) + Frame(pv)[..Least(sent, |Frame(pv)|)] && old(wire) < wire
      ensures res == if |pv| > MAX_PACKET_SIZE then -1 else if old(outpos_) > 0 || sent > 0 then |pv| else sent
    {
      took := false;
      if |pv| > MAX_PACKET_SIZE {
        return -1, false;
      }
      // An earlier packet is still on its way out: this one is lost without a word.
      if outpos_ > 0 {
        return |pv|, false;
      }
      res, took := SendFrame(pv, sent);
    }

    method SendFrame(pv: Packet, sent: int) returns (res: int, ghost took: bool)
      requires Valid() && |pv| <= MAX_PACKET_SIZE && outpos_ == 0
      modifies this`outpos_, this`wire, this`accepted, outbuf_
      ensures Valid()
      ensures took <==> sent > 0
      ensures if took then accepted == old(accepted) + [pv] && res == |pv| && old(wire) < wire
                           && wire == old(wire) + Frame(pv)[..Least(sent, |Frame(pv)|)]
              else accepted == old(accepted) && wire == old(wire) && outpos_ == 0 && res == sent
    {
      took := false;
      assert Unsent() == [] && wire == Frames(accepted);
      WriteFrame(pv);
      res := Flush(sent);
      if res <= 0 {
        // Not a byte went out, so nothing of the packet is kept.
        outpos_ := 0;
        assert Unsent() == [] && wire + [] == Frames(accepted);
        return;
      }
      FrameBegun(accepted, pv, wire, Unsent(), res);
      accepted := accepted + [pv];
      return |pv|, true;
    }

    method OnWriteEvent(sent: int)
      requires Valid()
      modifies this`outpos_, this`wire, outbuf_
      ensures Valid() && old(wire) <= wire
      ensures var n := if sent <= 0 then 0 else Least(sent, old(outpos_));
              wire == old(wire) + old(Unsent())[..n] && Unsent() == old(Unsent())[n..]
    {
      if outpos_ > 0 {
        ghost var all := Unsent();
        var res := Flush(sent);
        if res > 0 { SomeTaken(old(wire), all, res); }
      }
    }

    // The packet at the front of the buffer goes to the listeners and is moved out.
    method SignalReadPacket() returns (ghost p: Packet)
      requires inbuf_.Length == BUF_SIZE && inpos_ <= BUF_SIZE && HasFrame(Unread())
      modifies this`inpos_, this`delivered, inbuf_
      ensures inpos_ < old(inpos_) && |p| <= 65535
      ensures old(Unread()) == Frame(p) + Unread()
      ensures delivered == old(delivered) + [p]
    {
      ghost var all := Unread();
      var len := inbuf_[0] as int * 256 + inbuf_[1];
      var n := PKT_LEN_SIZE + len;
      p := all[PKT_LEN_SIZE..n];
      assert len / 256 == all[0] && len % 256 == all[1];
      assert all == Frame(p) + all[n..];
      delivered := delivered + [p];
      inpos_ := inpos_ - n;
      forall i | 0 <= i < inpos_ { inbuf_[i] := inbuf_[n + i]; }
      assert Unread() == all[n..];
    }

    // There is a length, and the buffer holds a packet of that length.
    predicate WholePacket()
      requires inbuf_.Length == BUF_SIZE && inpos_ <= BUF_SIZE
      reads this`inpos_, inbuf_
    {
      inpos_ >= PKT_LEN_SIZE && inpos_ >= PKT_LEN_SIZE + (inbuf_[0] as int * 256 + inbuf_[1])
    }

    lemma FrameIsThere()
      requires inbuf_.Length == BUF_SIZE && inpos_ <= BUF_SIZE
      ensures WholePacket() <==> HasFrame(Unread())
    {
      if inpos_ >= PKT_LEN_SIZE {
        assert Unread()[0] == inbuf_[0] && Unread()[1] == inbuf_[1];
      }
    }

    /** Signals every whole packet in the buffer, in order, and keeps the rest. */
    method ProcessInput()
      requires inbuf_.Length == BUF_SIZE && inpos_ <= BUF_SIZE
      requires received == Frames(delivered) + Unread() && Short(delivered)
      modifies this`inpos_, this`delivered, inbuf_
      ensures ReceiverValid()
      ensures delivered == old(delivered) + Packets(old(Unread()))
    {
      ghost var packets, seen := Packets(Unread()), [];
      ghost var before := delivered;
      while WholePacket()
        invariant inpos_ <= BUF_SIZE
        invariant received == Frames(delivered) + Unread() && Short(delivered)
        invariant delivered == before + seen && packets == seen + Packets(Unread())
        decreases inpos_
      {
        ghost var sofar := delivered;
        FrameIsThere();
        ghost var p := SignalReadPacket();
        PacketMoves(sofar, p, Unread(), seen);
        Associative(before, seen, [p]);
        seen := seen + [p];
      }
      FrameIsThere();
    }

    // socket_->Recv hands over so many bytes, if there are so many and there is room for them; a
    // negative number says that it blocks, or an error.
    method Recv(in_flight: seq<Byte>, got: int) returns (len: int)
      requires inbuf_.Length == BUF_SIZE && inpos_ <= BUF_SIZE
      modifies this`inpos_, this`received, inbuf_
      ensures len == Least(got, Least(|in_flight|, BUF_SIZE - old(inpos_)))
      ensures len < 0 ==> inpos_ == old(inpos_) && received == old(received) && Unread() == old(Unread())
      ensures len >= 0 ==> len <= |in_flight| && inpos_ == old(inpos_) + len <= BUF_SIZE
                           && Unread() == old(Unread()) + in_flight[..len]
                           && received == old(received) + in_flight[..len]
    {
      len := Least(got, Least(|in_flight|, BUF_SIZE - inpos_));
      if len >= 0 {
        forall i | 0 <= i < len { inbuf_[inpos_ + i] := in_flight[i]; }
        assert inbuf_[..inpos_ + len] == old(Unread()) + in_flight[..len];
        inpos_ := inpos_ + len;
        received := received + in_flight[..len];
      }
    }

    /** Some of the bytes in flight arrive. The overflow branch is never taken: what is left
        in the buffer is always less than a frame. */
    method OnReadEvent(in_flight: seq<Byte>, got: int) returns (taken: nat)
      requires Valid()
      modifies this`inpos_, this`received, this`delivered, inbuf_
      ensures Valid() && taken <= |in_flight|
      ensures taken == if got < 0 then 0 else Least(got, Least(|in_flight|, BUF_SIZE - old(inpos_)))
      ensures received == old(received) + in_flight[..taken]
      ensures delivered == old(delivered) + Packets(old(Unread()) + in_flight[..taken])
    {
      ghost var frames, unread := Frames(delivered), Unread();
      var len := Recv(in_flight, got);
      if len < 0 {
        assert unread + in_flight[..0] == unread;
        return 0;
      }
      taken := len;
      assert received == frames + Unread();
      ProcessInput();
      if inpos_ >= BUF_SIZE {
        assert false;
      }
    }
  }

  /** Two sockets and the stream between them, one way. Every event of a run is one of the
      three methods, and after any number of them in any order the delivered packets are the
      first of the accepted ones. */
  class Connection {
    const sender: AsyncTCPSocket
    const receiver: AsyncTCPSocket

    constructor ()
      ensures Valid() && fresh(sender) && fresh(receiver)
    {
      sender := new AsyncTCPSocket();
      receiver := new AsyncTCPSocket();
    }

    ghost predicate Valid()
      reads this, sender, receiver, sender.inbuf_, sender.outbuf_, receiver.inbuf_, receiver.outbuf_
    {
      && sender.Valid() && receiver.Valid()
      && sender != receiver && {sender.inbuf_, sender.outbuf_} !! {receiver.inbuf_, receiver.outbuf_}
      && receiver.received <= sender.wire
      && (Short(sender.accepted) ==> receiver.delivered <= sender.accepted)
    }

    ghost predicate Drained()
      reads sender, receiver
    {
      receiver.received == sender.wire && sender.outpos_ == 0
    }

    method Submit(p: Packet, sent: int) returns (res: int, ghost took: bool)
      requires Valid()
      modifies sender`outpos_, sender`wire, sender`accepted, sender.outbuf_
      ensures Valid()
      ensures took <==> |p| <= MAX_PACKET_SIZE && old(sender.outpos_) == 0 && sent > 0
      ensures took ==> sender.accepted == old(sender.accepted) + [p]
      ensures !took ==> sender.accepted == old(sender.accepted)
    {
      res, took := sender.Send(p, sent);
      Conclude();
    }

    method Writable(sent: int)
      requires Valid()
      modifies sender`outpos_, sender`wire, sender.outbuf_
      ensures Valid() && receiver.received == old(receiver.received)
      ensures sender.outpos_ == if sent <= 0 then old(sender.outpos_) else old(sender.outpos_) - Least(sent, old(sender.outpos_))
    {
      sender.OnWriteEvent(sent);
      Conclude();
    }

    // The network hands over some of the bytes that are under way.
    method Readable(in_flight: seq<Byte>, got: int)
      requires Valid() && receiver.received + in_flight == sender.wire
      modifies receiver`inpos_, receiver`received, receiver`delivered, receiver.inbuf_
      ensures Valid() && old(receiver.delivered) <= receiver.delivered
      ensures in_flight != [] && got > 0 ==> |receiver.received| > |old(receiver.received)|
      ensures Drained() && Short(sender.accepted) ==> receiver.delivered == sender.accepted
    {
      ghost var before := receiver.received;
      var taken := receiver.OnReadEvent(in_flight, got);
      assert before + in_flight[..taken] <= before + in_flight;
      Conclude();
    }

    /** As long as the sockets move something at every event, all packets that have been accepted
        are delivered, if they are short enough. */
    method Drain(in_flight: seq<Byte>, sent: nat -> int, got: nat -> int)
      requires Valid() && receiver.received + in_flight == sender.wire
      requires (forall n :: sent(n) > 0) && (forall n :: got(n) > 0)
      modifies sender`outpos_, sender`wire, sender.outbuf_
      modifies receiver`inpos_, receiver`received, receiver`delivered, receiver.inbuf_
      ensures Valid() && Drained() && sender.accepted == old(sender.accepted)
      ensures Short(sender.accepted) ==> receiver.delivered == sender.accepted
    {
      var n := 0;
      while sender.outpos_ > 0
        invariant Valid() && receiver.received <= sender.wire && sender.accepted == old(sender.accepted)
        decreases sender.outpos_
      {
        assert sent(n) > 0;
        Writable(sent(n));
        n := n + 1;
      }
      n := 0;
      while receiver.received != sender.wire
        invariant Valid() && receiver.received <= sender.wire && sender.outpos_ == 0
        invariant sender.accepted == old(sender.accepted)
        decreases |sender.wire| - |receiver.received|
      {
        assert got(n) > 0;
        Readable(sender.wire[|receiver.received|..], got(n));
        n := n + 1;
      }
      Conclude();
    }

    lemma Conclude()
      requires sender.Valid() && receiver.Valid() && receiver.received <= sender.wire
      ensures Short(sender.accepted) ==> receiver.delivered <= sender.accepted
      ensures Drained() && Short(sender.accepted) ==> receiver.delivered == sender.accepted
    {
      if Short(sender.accepted) {
        EndToEnd(sender.accepted, sender.wire, sender.Unsent(),
                 receiver.delivered, receiver.received, receiver.Unread());
      }
    }
  }
}
