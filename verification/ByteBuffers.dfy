/** bytebuffer.cc and byteorder.h: a queue of bytes that integers are written to and read from;
    and xmppsocket.cc, whose output waits in one. */
module ByteBuffers {
  import opened Bytes

  datatype ByteOrder = ORDER_NETWORK | ORDER_HOST

  // The memory of an n-byte unsigned integer.
  function Memory(v: nat, n: nat, bigEndian: bool): (s: seq<Byte>)
    ensures |s| == n
  {
    if bigEndian then BigEndian(v, n) else LittleEndian(v, n)
  }

  function FromMemory(s: seq<Byte>, bigEndian: bool): nat {
    if bigEndian then FromBigEndian(s) else FromLittleEndian(s)
  }

  /** HostToNetwork16/32/64, and the same the other way: on a little-endian host the memory is
      read as a big-endian number. */
  function HostToNetwork(v: nat, n: nat, bigEndian: bool): nat {
    if bigEndian then v else FromBigEndian(LittleEndian(v, n))
  }

  // How a number is laid out on the wire.
  function Wire(v: nat, n: nat, order: ByteOrder, bigEndian: bool): (s: seq<Byte>)
    ensures |s| == n
  {
    Memory(v, n, order == ORDER_NETWORK || bigEndian)
  }

  function FromWire(s: seq<Byte>, order: ByteOrder, bigEndian: bool): nat {
    FromMemory(s, order == ORDER_NETWORK || bigEndian)
  }

  /** A number is read as it was written, cut to its width. */
  lemma WireRoundTrip(v: nat, n: nat, order: ByteOrder, bigEndian: bool)
    ensures FromWire(Wire(v, n, order, bigEndian), order, bigEndian) == v % Power256(n)
  {
    BigEndianRoundTrip(v, n);
    LittleEndianRoundTrip(v, n);
  }

  /** In network order the layout does not depend on the host. */
  lemma NetworkOrder(v: nat, n: nat, bigEndian: bool)
    ensures Memory(HostToNetwork(v, n, bigEndian), n, bigEndian) == BigEndian(v, n)
  {
    if !bigEndian {
      var s := LittleEndian(v, n);
      var w := FromBigEndian(s);
      BigEndianOnto(s);
      forall k | 0 <= k < n ensures LittleEndian(w, n)[k] == BigEndian(v, n)[k] { MirroredTwice(v, w, n, k); }
      assert LittleEndian(w, n) == BigEndian(v, n);
    }
  }

  lemma MirroredTwice(v: nat, w: nat, n: nat, k: nat)
    requires BigEndian(w, n) == LittleEndian(v, n) && k < n
    ensures LittleEndian(w, n)[k] == BigEndian(v, n)[k]
  {
    OrdersMirror(w, n, n - 1 - k);
    OrdersMirror(v, n, k);
  }

  // Reading in network order and converting is the conversion of the big-endian number.
  lemma NetworkRead(s: seq<Byte>, bigEndian: bool)
    ensures HostToNetwork(FromMemory(s, bigEndian), |s|, bigEndian) == FromBigEndian(s)
  {
    if !bigEndian { LittleEndianOnto(s); }
  }

  lemma {:induction false} LowBytes(v: nat, n: nat)
    ensures BigEndian(v, n + 1)[1..] == BigEndian(v, n)
    ensures LittleEndian(v, n + 1)[..n] == LittleEndian(v, n)
    decreases n
  {
    if n > 0 {
      LowBytes(v / 256, n - 1);
      assert BigEndian(v, n + 1) == BigEndian(v / 256, n) + [v % 256];
      assert BigEndian(v, n + 1)[1..] == BigEndian(v / 256, n)[1..] + [v % 256];
      assert LittleEndian(v, n + 1) == [v % 256] + LittleEndian(v / 256, n);
      assert LittleEndian(v, n + 1)[..n] == [v % 256] + LittleEndian(v / 256, n)[..n - 1];
    }
  }

  // A zero byte at the high end changes nothing.
  lemma {:induction false} ZeroHigh(s: seq<Byte>)
    ensures FromBigEndian([0] + s) == FromBigEndian(s)
    ensures FromLittleEndian(s + [0]) == FromLittleEndian(s)
    decreases |s|
  {
    if s == [] {
      assert [0] + s == [0] && s + [0] == [0];
      assert [0][..0] == [] && [0][1..] == [];
    } else {
      ZeroHighBig(s);
      ZeroHigh(s[1..]);
      assert (s + [0])[1..] == s[1..] + [0];
    }
  }

  lemma {:induction false} ZeroHighBig(s: seq<Byte>)
    ensures FromBigEndian([0] + s) == FromBigEndian(s)
    decreases |s|
  {
    if s == [] {
      assert [0] + s == [0] && [0][..0] == [];
    } else {
      ZeroHighBig(s[..|s| - 1]);
      assert ([0] + s)[..|s|] == [0] + s[..|s| - 1];
    }
  }

  class ByteBuffer {
    const byte_order_: ByteOrder
    const bigEndian: bool
    var bytes_: array<Byte>
    var size_: nat
    var start_: nat
    var end_: nat

    ghost predicate Valid()
      reads this
    {
      start_ <= end_ <= size_ == bytes_.Length
    }

    ghost function Contents(): seq<Byte>
      reads this, bytes_
      requires Valid()
    {
      bytes_[start_..end_]
    }

    constructor (bytes: seq<Byte>, spare: nat, order: ByteOrder, bigEndian: bool)
      ensures Valid() && Contents() == bytes && byte_order_ == order && this.bigEndian == bigEndian && fresh(bytes_)
    {
      byte_order_, this.bigEndian := order, bigEndian;
      var memory := new Byte[|bytes| + spare];
      forall k | 0 <= k < |bytes| {
        memory[k] := bytes[k];
      }
      bytes_, size_, start_, end_ := memory, |bytes| + spare, 0, |bytes|;
    }

    function Length(): nat
      reads this
      requires Valid()
    {
      end_ - start_
    }

    function Capacity(): nat
      reads this
      requires Valid()
    {
      size_ - start_
    }

    /** Grows by half at least; a size below the length cuts the newest bytes off. */
    method Resize(size: nat)
      requires Valid()
      modifies this
      ensures Valid() && start_ == 0 && fresh(bytes_)
      ensures Contents() == old(Contents())[..if size < |old(Contents())| then size else |old(Contents())|]
      ensures size_ == if size > old(size_) && size < 3 * old(size_) / 2 then 3 * old(size_) / 2 else size
    {
      var newSize := size;
      if size > size_ && size < 3 * size_ / 2 {
        newSize := 3 * size_ / 2;
      }
      var len := if end_ - start_ < newSize then end_ - start_ else newSize;
      var newBytes := new Byte[newSize];
      forall k | 0 <= k < len {
        newBytes[k] := bytes_[start_ + k];
      }
      ghost var kept := Contents()[..len];
      assert newBytes[..len] == kept;
      start_, end_, size_, bytes_ := 0, len, newSize, newBytes;
      assert Contents() == kept;
    }

    method WriteBytes(val: seq<Byte>)
      requires Valid()
      modifies this, bytes_
      ensures Valid() && (bytes_ == old(bytes_) || fresh(bytes_))
      ensures Contents() == old(Contents()) + val
      ensures old(Length()) + |val| <= old(Capacity()) ==>
                bytes_ == old(bytes_) && start_ == old(start_) && size_ == old(size_)
    {
      if Length() + |val| > Capacity() {
        Resize(Length() + |val|);
      }
      Append(val);
    }

    method Append(val: seq<Byte>)
      requires Valid() && end_ + |val| <= size_
      modifies this`end_, bytes_
      ensures Valid() && Contents() == old(Contents()) + val
    {
      forall k | 0 <= k < |val| {
        bytes_[end_ + k] := val[k];
      }
      end_ := end_ + |val|;
    }

    method ReadBytes(len: nat) returns (success: bool, val: seq<Byte>)
      requires Valid()
      modifies this`start_
      ensures Valid() && success == (len <= |old(Contents())|)
      ensures if success then old(Contents()) == val + Contents() && |val| == len else Contents() == old(Contents())
    {
      if len > Length() {
        return false, [];
      }
      val := bytes_[start_..start_ + len];
      start_ := start_ + len;
      success := true;
    }

    method Consume(size: nat)
      requires Valid()
      modifies this`start_
      ensures Valid()
      ensures Contents() == if size > |old(Contents())| then old(Contents()) else old(Contents())[size..]
    {
      if size > Length() {
        return;
      }
      start_ := start_ + size;
    }

    /** Like Consume, but the rest is moved to the front. */
    method Shift(size: nat)
      requires Valid()
      modifies this`start_, this`end_, bytes_
      ensures Valid()
      ensures Contents() == if size > |old(Contents())| then old(Contents()) else old(Contents())[size..]
      ensures size <= |old(Contents())| ==> start_ == 0
    {
      if size > Length() {
        return;
      }
      var from, len := start_ + size, Length() - size;
      forall k | 0 <= k < len {
        bytes_[k] := bytes_[from + k];
      }
      start_, end_ := 0, len;
    }

    // WriteUInt8, 16, 32 and 64, by width.
    method WriteUInt(val: nat, width: nat)
      requires Valid()
      modifies this, bytes_
      ensures Valid() && (bytes_ == old(bytes_) || fresh(bytes_))
      ensures Contents() == old(Contents()) + Wire(val, width, byte_order_, bigEndian)
    {
      var v := if byte_order_ == ORDER_NETWORK then HostToNetwork(val, width, bigEndian) else val;
      NetworkOrder(val, width, bigEndian);
      WriteBytes(Memory(v, width, bigEndian));
    }

    // ReadUInt8, 16, 32 and 64, by width.
    method ReadUInt(width: nat) returns (success: bool, val: nat)
      requires Valid()
      modifies this`start_
      ensures Valid() && success == (width <= |old(Contents())|)
      ensures if success then
                old(Contents())[width..] == Contents()
                && val == FromWire(old(Contents())[..width], byte_order_, bigEndian)
              else Contents() == old(Contents())
    {
      var bytes;
      success, bytes := ReadBytes(width);
      if !success {
        return false, 0;
      }
      var v := FromMemory(bytes, bigEndian);
      NetworkRead(bytes, bigEndian);
      val := if byte_order_ == ORDER_NETWORK then HostToNetwork(v, width, bigEndian) else v;
    }

    // Three of the four bytes of a 32-bit number.
    method WriteUInt24(val: nat)
      requires Valid()
      modifies this, bytes_
      ensures Valid() && (bytes_ == old(bytes_) || fresh(bytes_))
      ensures Contents() == old(Contents()) + Wire(val, 3, byte_order_, bigEndian)
    {
      var v := if byte_order_ == ORDER_NETWORK then HostToNetwork(val, 4, bigEndian) else val;
      NetworkOrder(val, 4, bigEndian);
      LowBytes(val, 3);
      var memory := Memory(v, 4, bigEndian);
      if byte_order_ == ORDER_NETWORK || bigEndian {
        WriteBytes(memory[1..]);
      } else {
        WriteBytes(memory[..3]);
      }
    }

    method ReadUInt24() returns (success: bool, val: nat)
      requires Valid()
      modifies this`start_
      ensures Valid() && success == (3 <= |old(Contents())|)
      ensures if success then
                old(Contents())[3..] == Contents()
                && val == FromWire(old(Contents())[..3], byte_order_, bigEndian)
              else Contents() == old(Contents())
    {
      var bytes;
      success, bytes := ReadBytes(3);
      if !success {
        return false, 0;
      }
      var memory: seq<Byte> := if byte_order_ == ORDER_NETWORK || bigEndian then [0] + bytes else bytes + [0];
      var v := FromMemory(memory, bigEndian);
      NetworkRead(memory, bigEndian);
      ZeroHigh(bytes);
      val := if byte_order_ == ORDER_NETWORK then HostToNetwork(v, 4, bigEndian) else v;
    }
  }

  /** A number that is written to an empty queue is the one that is read. */
  method RoundTrip(buffer: ByteBuffer, val: nat, width: nat) returns (read: nat)
    requires buffer.Valid() && buffer.Contents() == []
    modifies buffer, buffer.bytes_
    ensures buffer.Valid() && buffer.Contents() == [] && read == val % Power256(width)
  {
    buffer.WriteUInt(val, width);
    WireRoundTrip(val, width, buffer.byte_order_, buffer.bigEndian);
    assert buffer.Contents() == Wire(val, width, buffer.byte_order_, buffer.bigEndian);
    assert buffer.Contents()[..width] == buffer.Contents();
    var success;
    success, read := buffer.ReadUInt(width);
  }

  lemma TakenFromFront(sent: seq<Byte>, waiting: seq<Byte>, n: nat)
    requires n <= |waiting|
    ensures sent + waiting[..n] + waiting[n..] == sent + waiting
  {
  }

  class XmppSocket {
    const buffer_: ByteBuffer
    ghost var sent: seq<Byte>
    ghost var written: seq<Byte>

    /** What has been handed to the socket and what waits is all that has been written. */
    ghost predicate Valid()
      reads this, buffer_, buffer_.bytes_
    {
      buffer_.Valid() && sent + buffer_.Contents() == written
    }

    constructor ()
      ensures Valid() && written == [] && fresh(buffer_) && fresh(buffer_.bytes_)
    {
      buffer_ := new ByteBuffer([], 4096, ORDER_NETWORK, false);
      sent, written := [], [];
    }

    // cricket_socket_->Send takes so many bytes, if there are so many; 0 and negative numbers say
    // that it has failed or would block.
    method Send(data: seq<Byte>, taken: int) returns (result: int)
      requires data != []
      modifies this`sent
      ensures result == if taken > |data| then |data| else taken
      ensures sent == old(sent) + if result > 0 then data[..result] else []
    {
      result := if taken > |data| then |data| else taken;
      if result > 0 {
        sent := sent + data[..result];
      }
    }

    /** The socket answers the attempts in turn: the loop is left when everything has been taken,
        or at the first attempt that takes nothing. */
    method OnWriteEvent(socket: nat -> int) returns (failed: bool, ghost tries: nat)
      requires Valid()
      modifies this`sent, buffer_, buffer_.bytes_
      ensures Valid() && buffer_.bytes_ == old(buffer_.bytes_)
      ensures old(sent) <= sent && |sent| >= |old(sent)| + tries
      ensures if failed then socket(tries) <= 0 && sent != written else sent == written
    {
      tries := 0;
      var k := 0;
      while buffer_.Length() != 0
        invariant Valid() && buffer_.bytes_ == old(buffer_.bytes_) && old(sent) <= sent
        invariant tries == k && |sent| >= |old(sent)| + k
        decreases buffer_.Length()
      {
        ghost var data, before := buffer_.Contents(), sent;
        var result := Send(buffer_.bytes_[buffer_.start_..buffer_.end_], socket(k));
        if result > 0 {
          buffer_.Shift(result);
          TakenFromFront(before, data, result);
          k := k + 1;
          tries := k;
          continue;
        }
        assert |written| == |sent| + |data|;
        return true, tries;
      }
      assert sent + [] == sent;
      failed := false;
    }

    /** However the socket takes them, all bytes go out once, in order, or wait. */
    method Write(data: seq<Byte>, socket: nat -> int) returns (failed: bool, ghost tries: nat)
      requires Valid()
      modifies this, buffer_, buffer_.bytes_
      ensures Valid() && written == old(written) + data && old(sent) <= sent
      ensures |sent| >= |old(sent)| + tries
      ensures if failed then socket(tries) <= 0 && sent != written else sent == written
    {
      ghost var waiting := buffer_.Contents();
      buffer_.WriteBytes(data);
      written := written + data;
      assert sent + (waiting + data) == sent + waiting + data;
      failed, tries := OnWriteEvent(socket);
    }
  }
}
