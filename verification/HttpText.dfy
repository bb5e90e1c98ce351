/** The character-level helpers the HTTP engine leans on: isspace, line trimming, strchrn,
    case-insensitive header matching, and the C library's strtoul / sscanf("%u") scanning. */
module HttpText {

  const CRLF: string := "\r\n"
  // size_t and unsigned long are taken to be 64 bits wide.
  const ULONG_RANGE: nat := 0x1_0000_0000_0000_0000
  const UINT_RANGE: nat := 0x1_0000_0000
  type SizeT = n: nat | n < ULONG_RANGE
  const SIZE_UNKNOWN: SizeT := 0xFFFF_FFFF_FFFF_FFFF

  // isspace in the C locale: blank, \t, \n, \v, \f and \r.
  predicate IsSpace(c: char) { c == ' ' || '\t' <= c <= '\r' }

  // A line without its trailing white space.
  function TrimRight(s: string): (r: string)
    ensures r <= s
    ensures r != [] ==> !IsSpace(r[|r| - 1])
    ensures forall k :: |r| <= k < |s| ==> IsSpace(s[k])
  {
    if s != [] && IsSpace(s[|s| - 1]) then TrimRight(s[..|s| - 1]) else s
  }

  // The position of the first c in s, or |s| when there is none.
  function IndexOf(s: string, c: char): (i: nat)
    ensures i <= |s|
    ensures i < |s| ==> s[i] == c
  {
    if s == [] || s[0] == c then 0 else 1 + IndexOf(s[1..], c)
  }

  lemma {:induction false} IndexOfIsFirst(s: string, c: char)
    ensures forall k :: 0 <= k < IndexOf(s, c) ==> s[k] != c
  {
    if s != [] && s[0] != c {
      IndexOfIsFirst(s[1..], c);
      assert forall k :: 0 < k < |s| ==> s[k] == s[1..][k - 1];
    }
  }

  lemma {:induction false} IndexOfUnique(s: string, c: char, i: nat)
    requires i <= |s| && (i < |s| ==> s[i] == c) && forall k :: 0 <= k < i ==> s[k] != c
    ensures IndexOf(s, c) == i
  {
    var j := IndexOf(s, c);
    IndexOfIsFirst(s, c);
    assert !(j < i) && !(i < j);
  }

  lemma {:induction false} IndexOfExtended(s: string, t: string, c: char)
    ensures IndexOf(s, c) < |s| ==> IndexOf(s + t, c) == IndexOf(s, c)
    ensures IndexOf(s, c) == |s| ==> IndexOf(s + t, c) == |s| + IndexOf(t, c)
  {
    if s == [] {
      assert s + t == t;
    } else if s[0] != c {
      assert (s + t)[1..] == s[1..] + t;
      IndexOfExtended(s[1..], t, c);
    }
  }

  // strchrn(line, len, ':'): like IndexOf, but a NUL character ends the search.
  function FindColon(line: string): (i: nat)
    ensures i <= |line|
    ensures i < |line| ==> line[i] == ':'
    ensures forall k :: 0 <= k < i < |line| ==> line[k] != ':' && line[k] != '\0'
  {
    if line == [] || line[0] == '\0' then |line|
    else if line[0] == ':' then 0
    else 1 + FindColon(line[1..])
  }

  // The first position at or after i that does not hold white space.
  function SkipSpace(s: string, i: nat): (j: nat)
    requires i <= |s|
    ensures i <= j <= |s|
    ensures j < |s| ==> !IsSpace(s[j])
    ensures forall k :: i <= k < j ==> IsSpace(s[k])
    decreases |s| - i
  {
    if i < |s| && IsSpace(s[i]) then SkipSpace(s, i + 1) else i
  }

  function Lower(c: char): char {
    if 'A' <= c <= 'Z' then ((c as int) + 32) as char else c
  }

  // MatchHeader and _strnicmp on equally long strings.
  predicate SameIgnoringCase(s: string, t: string) {
    |s| == |t| && forall k :: 0 <= k < |s| ==> Lower(s[k]) == Lower(t[k])
  }

  // A letter matches its counterpart, and everything else only itself.
  lemma LettersMatch(c: char, d: char)
    ensures SameIgnoringCase([c], [d]) <==>
              || c == d
              || ('A' <= c <= 'Z' && d as int == c as int + 32)
              || ('A' <= d <= 'Z' && c as int == d as int + 32)
  {
    assert SameIgnoringCase([c], [d]) <==> Lower([c][0]) == Lower([d][0]);
  }

  function DigitValue(c: char): (v: nat)
    ensures v <= 16
  {
    if '0' <= c <= '9' then c as int - '0' as int
    else if 'a' <= c <= 'f' then c as int - 'a' as int + 10
    else if 'A' <= c <= 'F' then c as int - 'A' as int + 10
    else 16
  }

  predicate IsDigit(c: char, base: nat) { DigitValue(c) < base }

  // The end of the run of digits that starts at i.
  function DigitsEnd(s: string, i: nat, base: nat): (j: nat)
    requires i <= |s|
    ensures i <= j <= |s|
    ensures forall k :: i <= k < j ==> IsDigit(s[k], base)
    ensures j < |s| ==> !IsDigit(s[j], base)
    decreases |s| - i
  {
    if i < |s| && IsDigit(s[i], base) then DigitsEnd(s, i + 1, base) else i
  }

  function Number(digits: string, base: nat): nat {
    if digits == [] then 0
    else Number(digits[..|digits| - 1], base) * base + DigitValue(digits[|digits| - 1])
  }

  datatype Scan = Scan(value: nat, end: nat)

  // Where the digits start: after an optional sign and, in base 16, an optional 0x.
  function SignEnd(s: string): (i: nat)
    ensures i <= |s|
  {
    var i := SkipSpace(s, 0);
    if i < |s| && (s[i] == '-' || s[i] == '+') then i + 1 else i
  }

  function PrefixEnd(s: string, base: nat): (i: nat)
    ensures i <= |s|
  {
    var i := SignEnd(s);
    if base == 16 && i + 2 < |s| && s[i] == '0' && (s[i + 1] == 'x' || s[i + 1] == 'X') && IsDigit(s[i + 2], 16)
    then i + 2 else i
  }

  /** strtoul(s, &end, base): white space, an optional sign, an optional 0x in base 16, then
      digits. A number out of range saturates, whatever its sign; any other one is negated modulo
      the width by a minus sign. Without digits nothing is consumed. */
  function StrToUl(s: string, base: nat): (r: Scan)
    ensures r.value < ULONG_RANGE && r.end <= |s|
  {
    var start := PrefixEnd(s, base);
    var end := DigitsEnd(s, start, base);
    if end == start then Scan(0, 0)
    else
      var n := Number(s[start..end], base);
      var i := SkipSpace(s, 0);
      Scan(if n >= ULONG_RANGE then ULONG_RANGE - 1 else if s[i] == '-' then (ULONG_RANGE - n) % ULONG_RANGE else n, end)
  }

  // Text that follows a token and cannot be taken for part of it.
  predicate Separates(after: string) { after == [] || IsSpace(after[0]) }

  lemma {:induction false} SkipSpaceExtended(s: string, after: string, i: nat)
    requires i < |s| && !IsSpace(s[|s| - 1])
    ensures SkipSpace(s + after, i) == SkipSpace(s, i) < |s|
    decreases |s| - i
  {
    if IsSpace(s[i]) { SkipSpaceExtended(s, after, i + 1); }
  }

  lemma {:induction false} DigitsEndExtended(s: string, after: string, i: nat, base: nat)
    requires i <= |s| && base <= 16 && Separates(after)
    ensures DigitsEnd(s + after, i, base) == DigitsEnd(s, i, base)
    decreases |s| - i
  {
    if i < |s| && IsDigit(s[i], base) { DigitsEndExtended(s, after, i + 1, base); }
  }

  lemma PrefixEndExtended(s: string, after: string, base: nat)
    requires s != [] && !IsSpace(s[|s| - 1]) && Separates(after)
    ensures SignEnd(s + after) == SignEnd(s)
    ensures PrefixEnd(s + after, base) == PrefixEnd(s, base)
  {
    SkipSpaceExtended(s, after, 0);
    var i := SignEnd(s);
    var t := s + after;
    assert forall k :: 0 <= k < |s| ==> t[k] == s[k];
    if base == 16 && i + 2 < |t| && i + 2 >= |s| {
      assert after[0] in {t[|s|]} && |s| in {i, i + 1, i + 2};
    }
  }

  // Scanning a token never looks beyond the white space that follows it.
  lemma ScanStopsAtSpace(s: string, after: string, base: nat)
    requires s != [] && !IsSpace(s[|s| - 1]) && base <= 16 && Separates(after)
    ensures StrToUl(s + after, base) == StrToUl(s, base)
  {
    SkipSpaceExtended(s, after, 0);
    PrefixEndExtended(s, after, base);
    var start := PrefixEnd(s, base);
    DigitsEndExtended(s, after, start, base);
    var end := DigitsEnd(s, start, base);
    assert (s + after)[start..end] == s[start..end];
  }
}
