/** The numbers in an HTTP head and between chunks: what strtoul and sscanf("%u") make of
    digits, and that a body goes by the length that is announced for it. */
module HttpNumbers {
  import opened HttpText
  import opened HttpGrammar
  import opened HttpChunks
  import opened HttpMessage
  import Sending = HttpSender

  function DigitChar(v: nat, capital: bool): char
    requires v < 16
  {
    if v < 10 then "0123456789"[v] else if capital then "ABCDEF"[v - 10] else "abcdef"[v - 10]
  }

  // The digits of a number, by repeated division.
  function Digits(n: nat, base: nat, capital: bool): (s: string)
    requires 2 <= base <= 16
    ensures s != ""
  {
    if n < base then [DigitChar(n, capital)]
    else Digits(n / base, base, capital) + [DigitChar(n % base, capital)]
  }

  function Decimal(n: nat): string { Digits(n, 10, false) }

  lemma DigitIsRead(v: nat, capital: bool)
    requires v < 16
    ensures DigitValue(DigitChar(v, capital)) == v
  {
    assert "0123456789" == ['0', '1', '2', '3', '4', '5', '6', '7', '8', '9'];
    assert "ABCDEF" == ['A', 'B', 'C', 'D', 'E', 'F'] && "abcdef" == ['a', 'b', 'c', 'd', 'e', 'f'];
  }

  lemma NumberGrows(s: string, c: char, base: nat)
    ensures Number(s + [c], base) == Number(s, base) * base + DigitValue(c)
  {
    assert (s + [c])[..|s|] == s;
  }

  lemma OneDigit(n: nat, base: nat, capital: bool)
    requires n < base <= 16
    ensures Number([DigitChar(n, capital)], base) == n
  {
    DigitIsRead(n, capital);
    assert [] + [DigitChar(n, capital)] == [DigitChar(n, capital)];
    NumberGrows([], DigitChar(n, capital), base);
  }

  lemma {:induction false} DigitsAreRead(n: nat, base: nat, capital: bool)
    requires 2 <= base <= 16
    ensures Number(Digits(n, base, capital), base) == n
    decreases n
  {
    if n < base {
      OneDigit(n, base, capital);
    } else {
      DigitIsRead(n % base, capital);
      DigitsAreRead(n / base, base, capital);
      LastDigit(Digits(n / base, base, capital), DigitChar(n % base, capital), n, base);
    }
  }

  lemma LastDigit(s: string, c: char, n: nat, base: nat)
    requires base > 0 && Number(s, base) == n / base && DigitValue(c) == n % base
    ensures Number(s + [c], base) == n
  {
    NumberGrows(s, c, base);
    Division(n, base);
  }

  lemma Division(n: nat, base: nat)
    requires base > 0
    ensures n / base * base + n % base == n
  {
  }

  predicate AllDigit(s: string, base: nat) { forall k :: 0 <= k < |s| ==> IsDigit(s[k], base) }

  lemma OneMoreDigit(s: string, v: nat, base: nat, capital: bool)
    requires AllDigit(s, base) && v < base <= 16
    ensures AllDigit(s + [DigitChar(v, capital)], base)
  {
    DigitIsRead(v, capital);
  }

  lemma {:induction false} DigitsAreDigits(n: nat, base: nat, capital: bool)
    requires 2 <= base <= 16
    ensures AllDigit(Digits(n, base, capital), base)
    decreases n
  {
    if n < base {
      OneMoreDigit([], n, base, capital);
      assert [] + [DigitChar(n, capital)] == [DigitChar(n, capital)];
    } else {
      DigitsAreDigits(n / base, base, capital);
      OneMoreDigit(Digits(n / base, base, capital), n % base, base, capital);
    }
  }

  lemma {:induction false} AllSpace(space: string, s: string, i: nat)
    requires i <= |space| && (forall k :: 0 <= k < |space| ==> IsSpace(space[k])) && (s != "" ==> !IsSpace(s[0]))
    ensures SkipSpace(space + s, i) == |space|
    decreases |space| - i
  {
    if i < |space| {
      assert (space + s)[i] == space[i];
      AllSpace(space, s, i + 1);
    } else if s != "" {
      assert (space + s)[i] == s[0];
    }
  }

  lemma {:induction false} RunOfDigits(before: string, s: string, rest: string, i: nat, base: nat)
    requires i <= |s| && AllDigit(s, base) && (rest != "" ==> !IsDigit(rest[0], base))
    ensures DigitsEnd(before + s + rest, |before| + i, base) == |before| + |s|
    decreases |s| - i
  {
    var t := before + s + rest;
    if i < |s| {
      assert t[|before| + i] == s[i];
      RunOfDigits(before, s, rest, i + 1, base);
    } else if rest != "" {
      assert t[|before| + i] == rest[0];
    }
  }

  // White space and a sign.
  predicate Introduces(space: string, sign: string) {
    (forall k :: 0 <= k < |space| ==> IsSpace(space[k])) && (sign == "" || sign == "+" || sign == "-")
  }

  // Text that cannot be taken for more of a number.
  predicate EndsNumber(rest: string, base: nat) {
    rest != "" ==> !IsDigit(rest[0], base) && rest[0] != 'x' && rest[0] != 'X'
  }

  function Signed(n: nat, sign: string): nat {
    if n >= ULONG_RANGE then ULONG_RANGE - 1 else if sign == "-" && n > 0 then ULONG_RANGE - n else n
  }

  lemma SignFound(space: string, sign: string, s: string)
    requires Introduces(space, sign) && s != "" && !IsSpace(s[0]) && s[0] != '+' && s[0] != '-'
    ensures var t := space + sign + s;
            && SignEnd(t) == |space| + |sign|
            && SkipSpace(t, 0) == |space| && (t[|space|] == '-' <==> sign == "-")
  {
    assert space + sign + s == space + (sign + s);
    AllSpace(space, sign + s, 0);
  }

  lemma DigitIsPlain(c: char, base: nat)
    requires IsDigit(c, base) && base <= 16
    ensures !IsSpace(c) && c != '+' && c != '-' && c != 'x' && c != 'X'
  {
  }

  // Digits are not taken for the prefix 0x.
  lemma NoPrefix(t: string, i: nat, digits: string, rest: string)
    requires digits != "" && i + |digits| + |rest| == |t| && t[i..] == digits + rest && SignEnd(t) == i
    requires AllDigit(digits, 16) && EndsNumber(rest, 16)
    ensures PrefixEnd(t, 16) == i
  {
    if i + 1 < |t| {
      assert t[i + 1] == t[i..][1];
      if |digits| > 1 { DigitIsPlain(digits[1], 16); }
    }
  }

  lemma DigitsFound(space: string, sign: string, digits: string, base: nat, rest: string)
    requires Introduces(space, sign) && (base == 10 || base == 16) && EndsNumber(rest, base)
    requires digits != "" && AllDigit(digits, base)
    ensures var t, i := space + sign + digits + rest, |space| + |sign|;
            && PrefixEnd(t, base) == i && DigitsEnd(t, i, base) == i + |digits| && t[i..i + |digits|] == digits
            && SkipSpace(t, 0) == |space| && (t[|space|] == '-' <==> sign == "-")
  {
    var t, i := space + sign + digits + rest, |space| + |sign|;
    DigitIsPlain(digits[0], base);
    assert t == space + sign + (digits + rest);
    SignFound(space, sign, digits + rest);
    if base == 16 { NoPrefix(t, i, digits, rest); }
    RunOfDigits(space + sign, digits, rest, 0, base);
  }

  /** A number is read as what its digits say, from behind white space and a sign up to the
      first character that is not a digit; out of range it saturates, and a minus sign negates
      it modulo the width. */
  lemma NumberIsScanned(space: string, sign: string, n: nat, base: nat, capital: bool, rest: string)
    requires Introduces(space, sign) && (base == 10 || base == 16) && EndsNumber(rest, base)
    ensures StrToUl(space + sign + Digits(n, base, capital) + rest, base)
            == Scan(Signed(n, sign), |space| + |sign| + |Digits(n, base, capital)|)
  {
    DigitsAreRead(n, base, capital);
    DigitsAreDigits(n, base, capital);
    DigitsAreScanned(space, sign, Digits(n, base, capital), n, base, rest);
  }

  lemma DigitsAreScanned(space: string, sign: string, digits: string, n: nat, base: nat, rest: string)
    requires Introduces(space, sign) && (base == 10 || base == 16) && EndsNumber(rest, base)
    requires digits != "" && AllDigit(digits, base) && Number(digits, base) == n
    ensures StrToUl(space + sign + digits + rest, base) == Scan(Signed(n, sign), |space| + |sign| + |digits|)
  {
    DigitsFound(space, sign, digits, base, rest);
    var t, i := space + sign + digits + rest, |space| + |sign|;
    ScanOfDigits(t, base, i, i + |digits|, n);
  }

  lemma ScanOfDigits(t: string, base: nat, start: nat, end: nat, n: nat)
    requires start == PrefixEnd(t, base) && end == DigitsEnd(t, start, base) > start && n == Number(t[start..end], base)
    requires SkipSpace(t, 0) < |t|
    ensures StrToUl(t, base)
            == Scan(Signed(n, if t[SkipSpace(t, 0)] == '-' then "-" else ""), end)
  {
  }

  /** Without a digit there is no number. */
  lemma NothingIsScanned(space: string, sign: string, rest: string, base: nat)
    requires Introduces(space, sign) && (base == 10 || base == 16)
    requires rest != "" && !IsDigit(rest[0], base) && !IsSpace(rest[0]) && rest[0] != '+' && rest[0] != '-'
    ensures StrToUl(space + sign + rest, base) == Scan(0, 0)
  {
    SignFound(space, sign, rest);
    assert (space + sign + rest)[|space| + |sign|] == rest[0] != '0';
  }

  // Content-Length.

  lemma LengthIsScanned(n: nat)
    ensures StrToUl(Decimal(n), 10) == Scan(if n < ULONG_RANGE then n else ULONG_RANGE - 1, |Decimal(n)|)
  {
    assert "" + "" + Decimal(n) + "" == Decimal(n);
    NumberIsScanned("", "", n, 10, false, "");
  }

  // The length that the receiving side goes by is the last one.
  function LastLength(headers: seq<Sending.Header>): string {
    if headers == [] then ""
    else
      var last := headers[|headers| - 1];
      if NamesLength(last) then last.1 else LastLength(headers[..|headers| - 1])
  }

  /** The length is an unsigned long, of which an unsigned int is kept: what does not fit in 32 bits
      is cut, and what does not fit in 64 is taken for the largest number that does. */
  lemma {:induction false} LengthRead(c: Conf, headers: seq<Sending.Header>, n: nat)
    requires LastLength(headers) == Decimal(n)
    ensures AfterHeaders(c, headers).size == (if n < 0x1_0000_0000_0000_0000 then n % 0x1_0000_0000 else 0xFFFF_FFFF)
    decreases |headers|
  {
    if NamesLength(headers[|headers| - 1]) {
      LengthIsScanned(n);
    } else {
      LengthRead(c, headers[..|headers| - 1], n);
    }
  }

  // An owner that has no objection and no size of its own.
  predicate Keeps(owner: Owner, m: Sending.Message) {
    owner.headersDone(HeadEvents(m)) == (NoError, AfterFields(m).size)
  }

  /** A body that is sent with its length is received as it is, by that length and no other. */
  lemma LengthRoundTrip(owner: Owner, m: Sending.Message, pieces: seq<string>, more: string)
    requires Acceptable(owner, m) && Keeps(owner, m) && !m.chunked && !AfterFields(m).chunked
    requires LastLength(m.headers) == Decimal(|m.document|) && |m.document| < UINT_RANGE && Joined(pieces) == m.document
    ensures Parse(owner, FRESH, Sending.WholeMessage(m, pieces) + more) ==
            Outcome(Conf(Data, false, 0, HeadEvents(m), m.document), more, Done(NoError))
  {
    LengthRead(AfterLeader(m.leader), m.headers, |m.document|);
    SizedRoundTrip(owner, m, pieces, more);
  }

  function Power(k: nat): nat { if k == 0 then 1 else 10 * Power(k - 1) }

  lemma {:induction false} DecimalIsShort(n: nat, k: nat)
    requires k > 0 && n < Power(k)
    ensures |Decimal(n)| <= k
    decreases k
  {
    if n >= 10 { DecimalIsShort(n / 10, k - 1); }
  }

  function LengthHeader(n: nat): Sending.Header { ("Content-Length", Decimal(n)) }

  lemma DigitsAreClean(n: nat, base: nat, capital: bool)
    requires 2 <= base <= 16
    ensures var s := Digits(n, base, capital); Clean(s) && !IsSpace(s[0]) && !IsSpace(s[|s| - 1]) && TrimRight(s) == s
  {
    var s := Digits(n, base, capital);
    DigitsAreDigits(n, base, capital);
    forall k | 0 <= k < |s| ensures s[k] != '\n' && s[k] != '\0' && !IsSpace(s[k]) {
      assert IsDigit(s[k], base);
    }
  }

  lemma LengthIsShort(n: nat)
    requires n < UINT_RANGE
    ensures |Decimal(n)| <= 10
  {
    assert Power(2) == 100 && Power(4) == 10000 && Power(6) == 1000000 && Power(8) == 100000000;
    assert Power(10) == 10000000000;
    DecimalIsShort(n, 10);
  }

  lemma LengthHeaderIsPlain(n: nat)
    requires n < UINT_RANGE
    ensures PlainHeader(LengthHeader(n)) && NamesLength(LengthHeader(n)) && !Sending.NamesCoding(LengthHeader(n))
  {
    DigitsAreClean(n, 10, false);
    LengthIsShort(n);
    LengthIsScanned(n);
    ShortHeaderIsPlain(LengthHeader(n));
  }

  lemma ShortHeaderIsPlain(h: Sending.Header)
    requires h.0 == "Content-Length" && Clean(h.1) && 0 < |h.1| <= 10
    requires !IsSpace(h.1[0]) && !IsSpace(h.1[|h.1| - 1]) && StrToUl(h.1, 10).end > 0
    ensures PlainHeader(h) && NamesLength(h) && !Sending.NamesCoding(h)
  {
    assert h.0[0] == 'C' && |h.0| == 14;
    assert !SameIgnoringCase(h.0, "Transfer-Encoding");
    PrintedWhole(h.0);
    PrintedWhole(h.1);
  }

  // An owner that accepts every message, and leaves its size alone.
  ghost predicate Obliging(owner: Owner) {
    && (forall line :: owner.leader(line) == NoError)
    && forall heads: seq<Head>, chunked, size: SizeT ::
         owner.headersDone(heads + [HeadersDone(chunked, size)]) == (NoError, size)
  }

  lemma ObligingKeeps(owner: Owner, m: Sending.Message)
    requires Obliging(owner)
    ensures Keeps(owner, m) && owner.leader(m.leader) == NoError
  {
  }

  lemma SingleIsAcceptable(owner: Owner, m: Sending.Message, n: nat)
    requires |m.leader| + 2 < Sending.BUFFER_SIZE && Clean(m.leader) && TrimRight(m.leader) == m.leader
    requires Keeps(owner, m) && owner.leader(m.leader) == NoError && n < UINT_RANGE && m.headers == [LengthHeader(n)]
    ensures Acceptable(owner, m) && !AfterFields(m).chunked && LastLength(m.headers) == Decimal(n)
  {
    LengthHeaderIsPlain(n);
    OneHeader(AfterLeader(m.leader), LengthHeader(n));
  }

  lemma OneHeader(c: Conf, h: Sending.Header)
    requires NamesLength(h) && !Sending.NamesCoding(h)
    ensures LastLength([h]) == h.1 && AfterHeaders(c, [h]).chunked == c.chunked
  {
    assert [h][..0] == [];
  }

  /** For example with no other header. */
  lemma SingleLength(owner: Owner, leader: string, document: string, more: string)
    requires |leader| + 2 < Sending.BUFFER_SIZE && Clean(leader) && TrimRight(leader) == leader
    requires Obliging(owner) && |document| < UINT_RANGE
    ensures var m := Sending.Message(leader, [LengthHeader(|document|)], true, document, false);
            Parse(owner, FRESH, Sending.WholeMessage(m, [document]) + more) ==
            Outcome(Conf(Data, false, 0, HeadEvents(m), document), more, Done(NoError))
  {
    var m := Sending.Message(leader, [LengthHeader(|document|)], true, document, false);
    ObligingKeeps(owner, m);
    SingleIsAcceptable(owner, m, |document|);
    assert [document][..0] == [] && Joined([document]) == document;
    LengthRoundTrip(owner, m, [document], more);
  }

  // The sizes of chunks.

  /** A line of any hexadecimal digits is the size of a chunk. */
  lemma SizeIsRead(owner: Owner, c: Conf, n: nat, capital: bool, rest: string)
    requires c.st == ChunkSize && n < ULONG_RANGE
    ensures Parse(owner, c, Digits(n, 16, capital) + CRLF + rest) ==
            Parse(owner, c.(st := if n == 0 then Trailers else Data, size := n), rest)
  {
    var digits := Digits(n, 16, capital);
    var c' := c.(st := if n == 0 then Trailers else Data, size := n);
    SizeIsScanned(n, capital);
    DigitsAreClean(n, 16, capital);
    assert digits + "" == digits;
    LineIsRead(owner, c, digits, rest, Go(c'));
  }

  lemma SizeIsScanned(n: nat, capital: bool)
    requires n < ULONG_RANGE
    ensures StrToUl(Digits(n, 16, capital), 16) == Scan(n, |Digits(n, 16, capital)|)
  {
    assert "" + "" + Digits(n, 16, capital) + "" == Digits(n, 16, capital);
    NumberIsScanned("", "", n, 16, capital, "");
  }
}
