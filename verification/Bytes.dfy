/** Bytes and the big- and little-endian layout of unsigned integers. */
module Bytes {
  type Byte = n: nat | n < 256

  // The n low-order bytes of v, most significant first: byteorder.h's SetBE16/32/64.
  function BigEndian(v: nat, n: nat): (s: seq<Byte>)
    ensures |s| == n
  {
    if n == 0 then [] else BigEndian(v / 256, n - 1) + [v % 256]
  }

  // The same, least significant first: SetLE16/32/64.
  function LittleEndian(v: nat, n: nat): (s: seq<Byte>)
    ensures |s| == n
  {
    if n == 0 then [] else [v % 256] + LittleEndian(v / 256, n - 1)
  }

  // GetBE16/32/64 and GetLE16/32/64.
  function FromBigEndian(s: seq<Byte>): nat {
    if s == [] then 0 else FromBigEndian(s[..|s| - 1]) * 256 + s[|s| - 1]
  }

  function FromLittleEndian(s: seq<Byte>): nat {
    if s == [] then 0 else s[0] + 256 * FromLittleEndian(s[1..])
  }

  function Power256(n: nat): (p: nat)
    ensures p > 0
  {
    if n == 0 then 1 else 256 * Power256(n - 1)
  }

  // v modulo 256 times m is its low byte and, above it, v / 256 modulo m.
  lemma LowByte(v: nat, m: nat)
    requires m > 0
    ensures v % (256 * m) == v % 256 + 256 * (v / 256 % m)
  {
    var high, q := v / 256, v / 256 / m;
    assert v == v % 256 + 256 * (high % m + m * q);
    var r := v % 256 + 256 * (high % m);
    assert 256 * (m * q) == 256 * m * q;
    assert v == r + 256 * m * q && high % m <= m - 1;
    Remainder(v, 256 * m, q, r);
  }

  lemma Multiple(m: nat, d: int)
    requires m > 0
    ensures d >= 1 ==> m * d >= m
    ensures d <= -1 ==> m * d + m <= 0
  {
  }

  // The remainder is the only one below the divisor.
  lemma Remainder(v: nat, m: nat, q: nat, r: nat)
    requires m > 0 && v == r + m * q && r < m
    ensures v % m == r && v / m == q
  {
    Multiple(m, v / m - q);
    assert m * (v / m - q) == m * (v / m) - m * q;
  }

  // What is read back is what was written, cut to the width of the field.
  lemma {:induction false} LittleEndianRoundTrip(v: nat, n: nat)
    ensures FromLittleEndian(LittleEndian(v, n)) == v % Power256(n)
    decreases n
  {
    if n > 0 {
      LittleEndianRoundTrip(v / 256, n - 1);
      LowByte(v, Power256(n - 1));
      assert LittleEndian(v, n)[1..] == LittleEndian(v / 256, n - 1);
    }
  }

  lemma {:induction false} BigEndianRoundTrip(v: nat, n: nat)
    ensures FromBigEndian(BigEndian(v, n)) == v % Power256(n)
    decreases n
  {
    if n > 0 {
      BigEndianRoundTrip(v / 256, n - 1);
      LowByte(v, Power256(n - 1));
      assert BigEndian(v, n)[..n - 1] == BigEndian(v / 256, n - 1);
    }
  }

  // Any n bytes are what some value below 256^n is written as.
  lemma {:induction false} LittleEndianOnto(s: seq<Byte>)
    ensures FromLittleEndian(s) < Power256(|s|) && LittleEndian(FromLittleEndian(s), |s|) == s
    decreases |s|
  {
    if s != [] {
      LittleEndianOnto(s[1..]);
      var rest := FromLittleEndian(s[1..]);
      assert (s[0] + 256 * rest) / 256 == rest && (s[0] + 256 * rest) % 256 == s[0];
      assert s == [s[0]] + s[1..];
    }
  }

  lemma {:induction false} BigEndianOnto(s: seq<Byte>)
    ensures FromBigEndian(s) < Power256(|s|) && BigEndian(FromBigEndian(s), |s|) == s
    decreases |s|
  {
    if s != [] {
      var init, last := s[..|s| - 1], s[|s| - 1];
      BigEndianOnto(init);
      var rest := FromBigEndian(init);
      assert (rest * 256 + last) / 256 == rest && (rest * 256 + last) % 256 == last;
      assert s == init + [last];
    }
  }

  // One order is the other reversed.
  lemma {:induction false} OrdersMirror(v: nat, n: nat, k: nat)
    requires k < n
    ensures BigEndian(v, n)[k] == LittleEndian(v, n)[n - 1 - k]
    decreases n
  {
    if k < n - 1 { OrdersMirror(v / 256, n - 1, k); }
  }

  // Two adjacent fields are one wide one.
  lemma {:induction false} LittleEndianFields(low: nat, high: nat, m: nat, n: nat)
    requires low < Power256(m)
    ensures LittleEndian(low, m) + LittleEndian(high, n) == LittleEndian(low + Power256(m) * high, m + n)
    decreases m
  {
    if m == 0 {
      assert LittleEndian(low, m) == [];
    } else {
      LittleEndianFields(low / 256, high, m - 1, n);
      FieldStep(low, high, Power256(m - 1));
    }
  }

  lemma FieldStep(low: nat, high: nat, p: nat)
    ensures (low + 256 * p * high) / 256 == low / 256 + p * high
    ensures (low + 256 * p * high) % 256 == low % 256
  {
    assert 256 * p * high == 256 * (p * high);
    Remainder(low + 256 * p * high, 256, low / 256 + p * high, low % 256);
  }

  lemma DivideTwice(v: nat, m: nat)
    requires m > 0
    ensures v / 256 / m == v / (256 * m)
  {
    LowByte(v, m);
    var q, r := v / 256 / m, v % (256 * m);
    assert v / 256 == m * q + v / 256 % m;
    assert v == r + 256 * (m * q) && 256 * (m * q) == 256 * m * q;
    Remainder(v, 256 * m, q, r);
  }

  /** The k-th byte of n, most significant first, is the number shifted right by 8(n - 1 - k)
      bits and cut to a byte: what Set8 stores in SetBE16, SetBE32 and SetBE64. */
  lemma {:induction false} ByteAt(v: nat, n: nat, k: nat)
    requires k < n
    ensures BigEndian(v, n)[k] == v / Power256(n - 1 - k) % 256
    decreases n
  {
    if k < n - 1 {
      ByteAt(v / 256, n - 1, k);
      DivideTwice(v, Power256(n - 2 - k));
    }
  }
}
