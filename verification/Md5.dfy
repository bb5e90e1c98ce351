/** md5.cc: the streaming MD5 of RFC 1321, for a 32-bit uint32. */
module Md5 {
  import opened Bytes
  import opened Sequences

  const TWO32: nat := 0x1_0000_0000
  const TWO64: nat := 0x1_0000_0000_0000_0000

  type Word = n: nat | n < TWO32

  datatype State = State(a: bv32, b: bv32, c: bv32, d: bv32)

  function Initial(): State { State(0x67452301, 0xefcdab89, 0x98badcfe, 0x10325476) }

  // The auxiliary functions, F as the source optimises it.
  datatype Auxiliary = F1 | F2 | F3 | F4

  function Apply(f: Auxiliary, x: bv32, y: bv32, z: bv32): bv32 {
    match f
    case F1 => z ^ (x & (y ^ z))
    case F2 => y ^ (z & (x ^ y))
    case F3 => x ^ y ^ z
    case F4 => y ^ (x | !z)
  }

  // Section 3.4 of RFC 1321.
  lemma AuxiliaryFunctions(x: bv32, y: bv32, z: bv32)
    ensures Apply(F1, x, y, z) == (x & y) | (!x & z)
    ensures Apply(F2, x, y, z) == (x & z) | (y & !z)
  {
  }

  type Index = n: nat | n < 16
  type Shift = n: nat | n <= 32

  datatype MixStep = MixStep(f: Auxiliary, index: Index, constant: bv32, shift: Shift)

  const ROUND1: seq<MixStep> := [
    MixStep(F1, 0, 0xd76aa478, 7), MixStep(F1, 1, 0xe8c7b756, 12), MixStep(F1, 2, 0x242070db, 17), MixStep(F1, 3, 0xc1bdceee, 22),
    MixStep(F1, 4, 0xf57c0faf, 7), MixStep(F1, 5, 0x4787c62a, 12), MixStep(F1, 6, 0xa8304613, 17), MixStep(F1, 7, 0xfd469501, 22),
    MixStep(F1, 8, 0x698098d8, 7), MixStep(F1, 9, 0x8b44f7af, 12), MixStep(F1, 10, 0xffff5bb1, 17), MixStep(F1, 11, 0x895cd7be, 22),
    MixStep(F1, 12, 0x6b901122, 7), MixStep(F1, 13, 0xfd987193, 12), MixStep(F1, 14, 0xa679438e, 17), MixStep(F1, 15, 0x49b40821, 22)
  ]

  const ROUND2: seq<MixStep> := [
    MixStep(F2, 1, 0xf61e2562, 5), MixStep(F2, 6, 0xc040b340, 9), MixStep(F2, 11, 0x265e5a51, 14), MixStep(F2, 0, 0xe9b6c7aa, 20),
    MixStep(F2, 5, 0xd62f105d, 5), MixStep(F2, 10, 0x02441453, 9), MixStep(F2, 15, 0xd8a1e681, 14), MixStep(F2, 4, 0xe7d3fbc8, 20),
    MixStep(F2, 9, 0x21e1cde6, 5), MixStep(F2, 14, 0xc33707d6, 9), MixStep(F2, 3, 0xf4d50d87, 14), MixStep(F2, 8, 0x455a14ed, 20),
    MixStep(F2, 13, 0xa9e3e905, 5), MixStep(F2, 2, 0xfcefa3f8, 9), MixStep(F2, 7, 0x676f02d9, 14), MixStep(F2, 12, 0x8d2a4c8a, 20)
  ]

  const ROUND3: seq<MixStep> := [
    MixStep(F3, 5, 0xfffa3942, 4), MixStep(F3, 8, 0x8771f681, 11), MixStep(F3, 11, 0x6d9d6122, 16), MixStep(F3, 14, 0xfde5380c, 23),
    MixStep(F3, 1, 0xa4beea44, 4), MixStep(F3, 4, 0x4bdecfa9, 11), MixStep(F3, 7, 0xf6bb4b60, 16), MixStep(F3, 10, 0xbebfbc70, 23),
    MixStep(F3, 13, 0x289b7ec6, 4), MixStep(F3, 0, 0xeaa127fa, 11), MixStep(F3, 3, 0xd4ef3085, 16), MixStep(F3, 6, 0x04881d05, 23),
    MixStep(F3, 9, 0xd9d4d039, 4), MixStep(F3, 12, 0xe6db99e5, 11), MixStep(F3, 15, 0x1fa27cf8, 16), MixStep(F3, 2, 0xc4ac5665, 23)
  ]

  const ROUND4: seq<MixStep> := [
    MixStep(F4, 0, 0xf4292244, 6), MixStep(F4, 7, 0x432aff97, 10), MixStep(F4, 14, 0xab9423a7, 15), MixStep(F4, 5, 0xfc93a039, 21),
    MixStep(F4, 12, 0x655b59c3, 6), MixStep(F4, 3, 0x8f0ccc92, 10), MixStep(F4, 10, 0xffeff47d, 15), MixStep(F4, 1, 0x85845dd1, 21),
    MixStep(F4, 8, 0x6fa87e4f, 6), MixStep(F4, 15, 0xfe2ce6e0, 10), MixStep(F4, 6, 0xa3014314, 15), MixStep(F4, 13, 0x4e0811a1, 21),
    MixStep(F4, 4, 0xf7537e82, 6), MixStep(F4, 11, 0xbd3af235, 10), MixStep(F4, 2, 0x2ad7d2bb, 15), MixStep(F4, 9, 0xeb86d391, 21)
  ]

  function Step(n: nat): MixStep
    requires n < 64
  {
    if n < 16 then ROUND1[n] else if n < 32 then ROUND2[n - 16] else if n < 48 then ROUND3[n - 32] else ROUND4[n - 48]
  }

  function WordAt(block: seq<Byte>, k: Index): bv32
    requires |block| == 64
  {
    WordOf(block[4 * k..4 * k + 4])
  }

  function WordOf(s: seq<Byte>): bv32
    requires |s| == 4
  {
    (s[0] as bv32) | ((s[1] as bv32) << 8) | ((s[2] as bv32) << 16) | ((s[3] as bv32) << 24)
  }

  function RotateLeft(w: bv32, s: Shift): bv32 {
    (w << s) | (w >> (32 - s))
  }

  // MD5STEP; the register that was changed takes its turn as the second operand next.
  function Mix(s: State, block: seq<Byte>, m: MixStep): State
    requires |block| == 64
  {
    State(s.d, Mixed(m.f, WordAt(block, m.index), m.constant, m.shift, s.a, s.b, s.c, s.d), s.b, s.c)
  }

  // What becomes of the first register.
  function Mixed(f: Auxiliary, word: bv32, k: bv32, s: Shift, a: bv32, b: bv32, c: bv32, d: bv32): bv32 {
    RotateLeft(a + Apply(f, b, c, d) + (word + k), s) + b
  }

  function Rounds(s: State, block: seq<Byte>, n: nat): State
    requires |block| == 64 && n <= 64
  {
    if n == 0 then s else Mix(Rounds(s, block, n - 1), block, Step(n - 1))
  }

  function Transform(s: State, block: Block): State
  {
    var t := Rounds(s, block, 64);
    State(s.a + t.a, s.b + t.b, s.c + t.c, s.d + t.d)
  }

  // Section 3.4 of RFC 1321: the function of a round, the order in which it takes the words,
  // and its shifts.
  function Round(n: nat): Auxiliary {
    if n < 16 then F1 else if n < 32 then F2 else if n < 48 then F3 else F4
  }

  function Order(n: nat): nat {
    if n < 16 then n else if n < 32 then (5 * n + 1) % 16 else if n < 48 then (3 * n + 5) % 16 else 7 * n % 16
  }

  function Turn(n: nat): nat {
    if n < 16 then [7, 12, 17, 22][n % 4]
    else if n < 32 then [5, 9, 14, 20][n % 4]
    else if n < 48 then [4, 11, 16, 23][n % 4]
    else [6, 10, 15, 21][n % 4]
  }

  predicate Follows(m: MixStep, n: nat) { m.f == Round(n) && m.index == Order(n) && m.shift == Turn(n) }

  lemma Round1(k: nat)
    requires k < 16
    ensures Follows(ROUND1[k], k)
  {
    assert k == 0 || k == 1 || k == 2 || k == 3 || k == 4 || k == 5 || k == 6 || k == 7
        || k == 8 || k == 9 || k == 10 || k == 11 || k == 12 || k == 13 || k == 14 || k == 15;
  }

  lemma Round2(k: nat)
    requires k < 16
    ensures Follows(ROUND2[k], k + 16)
  {
    assert k == 0 || k == 1 || k == 2 || k == 3 || k == 4 || k == 5 || k == 6 || k == 7
        || k == 8 || k == 9 || k == 10 || k == 11 || k == 12 || k == 13 || k == 14 || k == 15;
  }

  lemma Round3(k: nat)
    requires k < 16
    ensures Follows(ROUND3[k], k + 32)
  {
    assert k == 0 || k == 1 || k == 2 || k == 3 || k == 4 || k == 5 || k == 6 || k == 7
        || k == 8 || k == 9 || k == 10 || k == 11 || k == 12 || k == 13 || k == 14 || k == 15;
  }

  lemma Round4(k: nat)
    requires k < 16
    ensures Follows(ROUND4[k], k + 48)
  {
    assert k == 0 || k == 1 || k == 2 || k == 3 || k == 4 || k == 5 || k == 6 || k == 7
        || k == 8 || k == 9 || k == 10 || k == 11 || k == 12 || k == 13 || k == 14 || k == 15;
  }

  /** All sixty-four steps have the function, the word and the shift of the standard. */
  lemma StepsFollowStandard(n: nat)
    requires n < 64
    ensures Follows(Step(n), n)
  {
    if n < 16 { Round1(n); }
    else if n < 32 { Round2(n - 16); }
    else if n < 48 { Round3(n - 32); }
    else { Round4(n - 48); }
  }

  type Block = s: seq<Byte> | |s| == 64 witness seq(64, _ => 0)

  // What MD5Transform does to a state; the streaming below works for any such function.
  type Compression = (State, Block) -> State

  // The whole blocks of some data, folded into a state; what is left over is ignored.
  function Fold(f: Compression, s: State, data: seq<Byte>): State
    decreases |data|
  {
    if |data| < 64 then s else Fold(f, f(s, data[..64]), data[64..])
  }

  lemma {:induction false} FoldAppend(f: Compression, s: State, a: seq<Byte>, b: seq<Byte>)
    requires |a| % 64 == 0
    ensures Fold(f, s, a + b) == Fold(f, Fold(f, s, a), b)
    decreases |a|
  {
    if |a| == 0 {
      assert a + b == b;
    } else {
      var t := f(s, a[..64]);
      FoldAppend(f, t, a[64..], b);
      assert Fold(f, s, a + b) == Fold(f, t, a[64..] + b) by {
        assert (a + b)[..64] == a[..64] && (a + b)[64..] == a[64..] + b;
      }
    }
  }

  // One more block.
  lemma FoldBlock(f: Compression, s: State, a: seq<Byte>, block: Block, t: State)
    requires |a| % 64 == 0 && t == Fold(f, s, a)
    ensures f(t, block) == Fold(f, s, a + block)
  {
    FoldAppend(f, s, a, block);
    assert block[..64] == block;
  }

  // A state as sixteen bytes.
  function Bytes32(w: bv32): seq<Byte> { LittleEndian(w as nat, 4) }

  function Encoded(s: State): seq<Byte> { Bytes32(s.a) + Bytes32(s.b) + Bytes32(s.c) + Bytes32(s.d) }

  // Four bytes, given as the two hexadecimal digits that each of them is.
  lemma FourBytes(n: nat, a: Byte, b: Byte, c: Byte, d: Byte)
    requires n == a + 0x100 * b + 0x1_0000 * c + 0x100_0000 * d
    ensures LittleEndian(n, 4) == [a, b, c, d]
  {
    var n1, n2 := b + 0x100 * c + 0x1_0000 * d, c + 0x100 * d;
    assert LittleEndian(d, 1) == [d] + LittleEndian(0, 0);
    assert n2 % 256 == c && n2 / 256 == d && LittleEndian(n2, 2) == [c] + LittleEndian(d, 1);
    assert n1 % 256 == b && n1 / 256 == n2 && LittleEndian(n1, 3) == [b] + LittleEndian(n2, 2);
    assert n % 256 == a && n / 256 == n1;
  }

  /** Sections 3.3 and 3.5 of RFC 1321: the registers start with the bytes 01 23 45 67 and so on, and
      they are given out in the order A, B, C, D, low-order bytes first. */
  lemma InitialBytes()
    ensures Encoded(Initial()) ==
              [0x01, 0x23, 0x45, 0x67, 0x89, 0xab, 0xcd, 0xef, 0xfe, 0xdc, 0xba, 0x98, 0x76, 0x54, 0x32, 0x10]
  {
    hide LittleEndian;
    FourBytes(0x67452301, 0x01, 0x23, 0x45, 0x67);
    FourBytes(0xefcdab89, 0x89, 0xab, 0xcd, 0xef);
    FourBytes(0x98badcfe, 0xfe, 0xdc, 0xba, 0x98);
    FourBytes(0x10325476, 0x76, 0x54, 0x32, 0x10);
  }

  // A block is read in the same order: these four bytes are the first register.
  lemma InitialWord()
    ensures WordOf([0x01, 0x23, 0x45, 0x67]) == Initial().a
  {
  }

  function Zeros(n: nat): seq<Byte> { seq(n, _ => 0) }

  // The length in bits, modulo 2^64, as eight bytes.
  function LengthField(length: nat): (s: seq<Byte>)
    ensures |s| == 8
  {
    LittleEndian(8 * length % TWO64, 8)
  }

  // Zeros up to 56 modulo 64.
  function Gap(length: nat): (n: nat)
    ensures n < 64 && (length + 1 + n + 8) % 64 == 0
  {
    var r := length % 64;
    if r < 56 then 55 - r else 119 - r
  }

  // Sections 3.1 and 3.2 of RFC 1321: a one bit, zeros up to 56 modulo 64, the length in bits.
  function Padded(message: seq<Byte>): (p: seq<Byte>)
    ensures |p| == |message| + 1 + Gap(|message|) + 8 && |p| % 64 == 0
  {
    message + [0x80] + Zeros(Gap(|message|)) + LengthField(|message|)
  }

  function Digest(message: seq<Byte>): seq<Byte> { Encoded(Fold(Transform, Initial(), Padded(message))) }

  lemma LengthAtEnd(message: seq<Byte>)
    ensures Padded(message)[|Padded(message)| - 8..] == LengthField(|message|)
    ensures Padded(message)[..|message|] == message
  {
  }

  // No two messages shorter than 2^61 bytes are padded alike.
  lemma PaddingIsInjective(a: seq<Byte>, b: seq<Byte>)
    requires 8 * |a| < TWO64 && 8 * |b| < TWO64 && Padded(a) == Padded(b)
    ensures a == b
  {
    LengthAtEnd(a);
    LengthAtEnd(b);
    FieldsDiffer(|a|, |b|);
  }

  lemma FieldsDiffer(a: nat, b: nat)
    requires 8 * a < TWO64 && 8 * b < TWO64 && LengthField(a) == LengthField(b)
    ensures a == b
  {
    LengthFieldIsInjective(a, b, 8 * a % TWO64, 8 * b % TWO64, 8);
  }

  lemma LengthFieldIsInjective(a: nat, b: nat, v: nat, w: nat, n: nat)
    requires v == 8 * a % TWO64 == 8 * a && w == 8 * b % TWO64 == 8 * b && n == 8 && LittleEndian(v, n) == LittleEndian(w, n)
    ensures a == b
  {
    Power64(n);
    SameValue(v, w, n, TWO64);
  }

  lemma SameValue(v: nat, w: nat, n: nat, m: nat)
    requires Power256(n) == m && v < m && w < m && LittleEndian(v, n) == LittleEndian(w, n)
    ensures v == w
  {
    LittleEndianRoundTrip(v, n);
    LittleEndianRoundTrip(w, n);
    Remainder(v, m, 0, v);
    Remainder(w, m, 0, w);
  }

  lemma Power64(n: nat)
    requires n == 8
    ensures Power256(n) == TWO64
  {
    assert Power256(n - 8) == 1;
    assert Power256(n - 6) == 0x1_0000;
    assert Power256(n - 4) == TWO32;
    assert Power256(n - 2) == 0x1_0000 * TWO32;
  }

  // The bit count after len more bytes, in two words with a carry.
  function LowBits(low: Word, len: nat): Word { (low + 8 * len % TWO32) % TWO32 }

  function HighBits(low: Word, high: Word, len: nat): Word {
    (high + (if LowBits(low, len) < low then 1 else 0) + len / 0x2000_0000) % TWO32
  }

  lemma BitsCounted(low: Word, high: Word, len: nat, total: nat)
    requires len < TWO32 && low + TWO32 * high == 8 * total % TWO64
    ensures LowBits(low, len) + TWO32 * HighBits(low, high, len) == 8 * (total + len) % TWO64
  {
    var shifted, above := 8 * len % TWO32, len / 0x2000_0000;
    assert 8 * len == shifted + TWO32 * above;
    var carry := if LowBits(low, len) < low then 1 else 0;
    assert low + shifted == LowBits(low, len) + TWO32 * carry;
    var sum := high + carry + above;
    assert low + TWO32 * high + 8 * len == LowBits(low, len) + TWO32 * sum;
    var wrapped, rest := sum / TWO32, HighBits(low, high, len);
    assert sum == rest + TWO32 * wrapped;
    var q := 8 * total / TWO64;
    assert 8 * (total + len) == LowBits(low, len) + TWO32 * rest + TWO64 * (wrapped + q);
    Remainder(8 * (total + len), TWO64, wrapped + q, LowBits(low, len) + TWO32 * rest);
  }

  lemma FillLevel(low: Word, high: Word, folded: nat, waiting: nat)
    requires low + TWO32 * high == 8 * (folded + waiting) % TWO64 && folded % 64 == 0 && waiting < 64
    ensures low / 8 % 64 == waiting
  {
    var q := 8 * (folded + waiting) / TWO64;
    assert 8 * (folded + waiting) == low + TWO32 * high + TWO64 * q;
    var blocks := folded / 64;
    WholeBlocks(low, waiting, blocks - 0x80_0000 * high - 0x80_0000_0000_0000 * q);
  }

  lemma WholeBlocks(low: nat, waiting: nat, blocks: int)
    requires low == 8 * (64 * blocks + waiting) && waiting < 64
    ensures low / 8 % 64 == waiting
  {
  }

  lemma LengthInTwoWords(low: Word, high: Word, length: nat, n: nat)
    requires low + TWO32 * high == 8 * length % TWO64 && n == 4
    ensures LittleEndian(low, n) + LittleEndian(high, n) == LengthField(length)
  {
    assert Power256(n - 4) == 1;
    assert Power256(n - 2) == 0x1_0000;
    LittleEndianFields(low, high, n, n);
  }

  /** buf and in hold what has been streamed: whole blocks are folded, the rest waits at the
      front of in. */
  ghost predicate Holds(f: Compression, start: State, buf: State, data: seq<Byte>, folded: seq<Byte>,
      waiting: seq<Byte>) {
    && |folded| % 64 == 0 && |waiting| < 64 == |data|
    && buf == Fold(f, start, folded) && data[..|waiting|] == waiting
  }

  // A block is full, and is folded.
  lemma HoldsBlock(f: Compression, start: State, buf: State, data: seq<Byte>, folded: seq<Byte>, waiting: seq<Byte>,
      block: Block)
    requires Holds(f, start, buf, data, folded, waiting)
    ensures Holds(f, start, f(buf, block), block, folded + block, [])
  {
    FoldBlock(f, start, folded, block, buf);
  }

  /** A context over which some bytes have been streamed, with their length in bits modulo 2^64. */
  class MD5Context {
    const transform: Compression
    var buf: State
    var bits0: Word
    var bits1: Word
    const in_: array<Byte>
    ghost var start: State
    ghost var folded: seq<Byte>
    ghost var waiting: seq<Byte>

    ghost function Message(): seq<Byte>
      reads this
    {
      folded + waiting
    }

    ghost predicate Valid()
      reads this, in_
    {
      bits0 + TWO32 * bits1 == 8 * |Message()| % TWO64 && Holds(transform, start, buf, in_[..], folded, waiting)
    }

    constructor (transform: Compression)
      ensures this.transform == transform && Valid() && Message() == [] && start == Initial() && fresh(in_)
    {
      this.transform := transform;
      in_ := new Byte[64];
      buf, bits0, bits1 := Initial(), 0, 0;
      start, folded, waiting := Initial(), [], [];
    }

    method MD5Init()
      requires in_.Length == 64
      modifies this
      ensures Valid() && Message() == [] && start == Initial()
    {
      buf, bits0, bits1 := Initial(), 0, 0;
      start, folded, waiting := Initial(), [], [];
    }

    method Copy(at: nat, data: seq<Byte>)
      requires at + |data| <= in_.Length
      modifies in_
      ensures in_[..] == old(in_[..at]) + data + old(in_[at + |data|..])
    {
      forall k | 0 <= k < |data| {
        in_[at + k] := data[k];
      }
    }

    method CountBits(len: nat)
      requires len < TWO32
      modifies this`bits0, this`bits1
      ensures bits0 == LowBits(old(bits0), len) && bits1 == HighBits(old(bits0), old(bits1), len)
    {
      var t := bits0;
      bits0 := (t + 8 * len % TWO32) % TWO32;
      if bits0 < t {
        bits1 := (bits1 + 1) % TWO32;
      }
      bits1 := (bits1 + len / 0x2000_0000) % TWO32;
    }

    method MD5Transform()
      requires in_.Length == 64
      modifies this`buf
      ensures buf == transform(old(buf), in_[..])
    {
      buf := transform(buf, in_[..]);
    }

    method MD5Update(data: seq<Byte>)
      requires Valid() && |data| < TWO32
      modifies this, in_
      ensures Valid() && Message() == old(Message()) + data && start == old(start)
    {
      var t := BufferedBytes();
      ghost var before := Message();
      BitsCounted(bits0, bits1, |data|, |before|);
      CountBits(|data|);
      Stream(t, data);
      assert |Message()| == |before| + |data|;
    }

    method BufferedBytes() returns (t: nat)
      requires Valid()
      ensures t == |waiting|
    {
      t := bits0 / 8 % 64;
      assert |Message()| == |folded| + |waiting|;
      FillLevel(bits0, bits1, |folded|, |waiting|);
    }

    method Stream(t: nat, data: seq<Byte>)
      requires Holds(transform, start, buf, in_[..], folded, waiting) && t == |waiting|
      modifies this`buf, this`folded, this`waiting, in_
      ensures Holds(transform, start, buf, in_[..], folded, waiting) && Message() == old(Message()) + data
    {
      var pos := 0;
      if t != 0 {
        if |data| < 64 - t {
          Wait(t, data);
          return;
        }
        FillBlock(t, data[..64 - t]);
        pos := 64 - t;
      }
      StreamBlocks(data, pos);
      Associative(old(Message()), data[..pos], data[pos..]);
      assert data[..pos] + data[pos..] == data;
    }

    method Wait(t: nat, data: seq<Byte>)
      requires Holds(transform, start, buf, in_[..], folded, waiting) && t == |waiting| && t + |data| < 64
      modifies this`waiting, in_
      ensures Holds(transform, start, buf, in_[..], folded, waiting) && waiting == old(waiting) + data
      ensures Message() == old(Message()) + data
    {
      Copy(t, data);
      Associative(folded, waiting, data);
      waiting := waiting + data;
      assert in_[..|waiting|] == waiting;
    }

    method FillBlock(t: nat, data: seq<Byte>)
      requires Holds(transform, start, buf, in_[..], folded, waiting) && t == |waiting| && t + |data| == 64
      modifies this`buf, this`folded, this`waiting, in_
      ensures Holds(transform, start, buf, in_[..], folded, waiting) && waiting == []
      ensures Message() == old(Message()) + data
    {
      ghost var was := in_[..];
      Copy(t, data);
      assert in_[..] == waiting + data;
      HoldsBlock(transform, start, buf, was, folded, waiting, waiting + data);
      Associative(folded, waiting, data);
      MD5Transform();
      folded, waiting := folded + (waiting + data), [];
    }

    // The data in 64-byte chunks from here on, and any remaining bytes.
    method StreamBlocks(data: seq<Byte>, from: nat)
      requires from <= |data| && Holds(transform, start, buf, in_[..], folded, waiting) && waiting == []
      modifies this`buf, this`folded, this`waiting, in_
      ensures Holds(transform, start, buf, in_[..], folded, waiting) && Message() == old(Message()) + data[from..]
    {
      var pos := from;
      while |data| - pos >= 64
        invariant from <= pos <= |data| && Holds(transform, start, buf, in_[..], folded, waiting) && waiting == []
        invariant Message() == old(Message()) + data[from..pos]
      {
        FillBlock(0, data[pos..pos + 64]);
        assert data[from..pos] + data[pos..pos + 64] == data[from..pos + 64];
        pos := pos + 64;
      }
      Wait(0, data[pos..]);
      assert data[from..pos] + data[pos..] == data[from..];
    }

    // Pads out to 56 modulo 64, starting a second block if the first one has no room left.
    method Pad()
      requires Valid()
      modifies this`buf, this`folded, this`waiting, in_
      ensures Holds(transform, start, buf, in_[..], folded, waiting) && |waiting| == 56
      ensures Message() == old(Message()) + ([0x80] + Zeros(Gap(|old(Message())|)))
    {
      var count := BufferedBytes();
      GapFound(|folded|, |waiting|);
      if 63 - count < 8 {
        FillBlock(count, [0x80] + Zeros(63 - count));
        Wait(0, Zeros(56));
        Associative(old(Message()), [0x80] + Zeros(63 - count), Zeros(56));
        assert [0x80] + Zeros(63 - count) + Zeros(56) == [0x80] + Zeros(119 - count);
      } else {
        Wait(count, [0x80] + Zeros(55 - count));
      }
    }

    /** The digest of all that has been streamed; nothing of it is left in the context. */
    method MD5Final() returns (digest: seq<Byte>)
      requires Valid()
      modifies this, in_
      ensures digest == Encoded(Fold(transform, old(start), Padded(old(Message()))))
      ensures buf == State(0, 0, 0, 0) && bits0 == 0 && bits1 == 0
      ensures in_[..] == Zeros(64)
    {
      ghost var message := Message();
      Pad();
      ghost var padded := Message();
      LengthInTwoWords(bits0, bits1, |message|, 4);
      FillBlock(56, LittleEndian(bits0, 4) + LittleEndian(bits1, 4));
      assert folded + waiting == folded;
      PaddedInSteps(message);
      digest := Encoded(buf);
      buf, bits0, bits1 := State(0, 0, 0, 0), 0, 0;
      folded, waiting := [], [];
      forall k | 0 <= k < in_.Length {
        in_[k] := 0;
      }
    }
  }

  lemma GapFound(folded: nat, waiting: nat)
    requires folded % 64 == 0 && waiting < 64
    ensures Gap(folded + waiting) == if 63 - waiting < 8 then 119 - waiting else 55 - waiting
  {
    assert (folded + waiting) % 64 == waiting;
  }

  lemma PaddedInSteps(message: seq<Byte>)
    ensures Padded(message) == message + ([0x80] + Zeros(Gap(|message|))) + LengthField(|message|)
  {
    Associative(message, [0x80], Zeros(Gap(|message|)));
  }

  function Flatten(pieces: seq<seq<Byte>>): seq<Byte> {
    if pieces == [] then [] else Flatten(pieces[..|pieces| - 1]) + pieces[|pieces| - 1]
  }

  /** The digest is that of the concatenation, however it is cut into buffers. */
  method MD5(pieces: seq<seq<Byte>>) returns (digest: seq<Byte>)
    requires forall k :: 0 <= k < |pieces| ==> |pieces[k]| < TWO32
    ensures digest == Digest(Flatten(pieces))
  {
    var context := new MD5Context(Transform);
    var k := 0;
    while k < |pieces|
      invariant k <= |pieces| && context.Valid() && context.Message() == Flatten(pieces[..k])
      invariant context.start == Initial() && fresh(context) && fresh(context.in_)
    {
      context.MD5Update(pieces[k]);
      assert pieces[..k + 1][..k] == pieces[..k];
      k := k + 1;
    }
    assert pieces[..k] == pieces;
    digest := context.MD5Final();
  }
}
