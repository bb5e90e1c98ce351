/** base64.cc: the encoder, and the decoder with its parsing, padding and termination flags. */
module Base64 {
  import opened Bytes
  import opened Sequences
  import opened Wrappers

  type Six = n: nat | n < 64

  const PAD: char := '='
  const PD: Byte := 0xFD
  const SP: Byte := 0xFE
  const IL: Byte := 0xFF

  // Base64Table.
  function Symbol(v: Six): char {
    if v < 26 then 'A' + v as char
    else if v < 52 then 'a' + (v - 26) as char
    else if v < 62 then '0' + (v - 52) as char
    else if v == 62 then '+' else '/'
  }

  // DecodeTable.
  function Code(c: char): Byte {
    if 'A' <= c <= 'Z' then (c - 'A') as Byte
    else if 'a' <= c <= 'z' then (c - 'a') as Byte + 26
    else if '0' <= c <= '9' then (c - '0') as Byte + 52
    else if c == '+' then 62
    else if c == '/' then 63
    else if c == PAD then PD
    else if 9 as char <= c <= 13 as char || c == ' ' then SP
    else IL
  }

  lemma TablesAgree(v: Six, c: char)
    ensures Code(Symbol(v)) == v && Symbol(v) != PAD
    ensures Code(c) < 64 ==> Symbol(Code(c)) == c
  {
  }

  // Four symbols for the first three bytes, or for what there is of them.
  function Group(x: seq<Byte>): (g: string)
    requires x != []
    ensures |g| == 4
  {
    if |x| == 1 then [Symbol(x[0] / 4), Symbol((x[0] % 4) as int * 16), PAD, PAD]
    else if |x| == 2 then
      [Symbol(x[0] / 4), Symbol((x[0] % 4) as int * 16 + x[1] / 16), Symbol((x[1] % 16) as int * 4), PAD]
    else
      [Symbol(x[0] / 4), Symbol((x[0] % 4) as int * 16 + x[1] / 16), Symbol((x[1] % 16) as int * 4 + x[2] / 64), Symbol(x[2] % 64)]
  }

  function Encoded(x: seq<Byte>): string {
    if x == [] then "" else Group(x) + Encoded(x[Taken(x)..])
  }

  function Taken(x: seq<Byte>): (n: nat)
    ensures n <= |x| && (x != [] ==> n > 0)
  {
    if |x| < 3 then |x| else 3
  }

  lemma OneGroup(x: seq<Byte>)
    requires 0 < |x| <= 3
    ensures Encoded(x) == Group(x)
  {
    assert x[|x|..] == [];
  }

  /** Section 10 of RFC 4648: "f", "fo" and "foo". */
  lemma TestVectors()
    ensures Encoded([102]) == "Zg==" && Encoded([102, 111]) == "Zm8=" && Encoded([102, 111, 111]) == "Zm9v"
  {
    hide Encoded;
    OneGroup([102]);
    OneGroup([102, 111]);
    OneGroup([102, 111, 111]);
  }

  lemma EncodedFrom(data: seq<Byte>, i: nat, before: string)
    requires i < |data|
    ensures before + Encoded(data[i..]) == before + Group(data[i..]) + Encoded(data[i + Taken(data[i..])..])
  {
    assert data[i..][Taken(data[i..])..] == data[i + Taken(data[i..])..];
  }

  method EncodeFromArray(data: seq<Byte>) returns (result: string)
    ensures result == Encoded(data)
  {
    result := "";
    var i := 0;
    while i < |data|
      invariant i <= |data| && result + Encoded(data[i..]) == Encoded(data)
    {
      EncodedFrom(data, i, result);
      result, i := EncodeQuantum(data, i, result);
    }
  }

  // One turn of the loop. A shift under a mask is written with the bits that it keeps, and a
  // disjunction of bit fields that do not overlap as a sum.
  method EncodeQuantum(data: seq<Byte>, start: nat, before: string) returns (result: string, i: nat)
    requires start < |data|
    ensures i == start + Taken(data[start..]) && result == before + Group(data[start..])
  {
    i, result := start, before;
    ghost var x := data[start..];
    assert forall k :: 0 <= k < |x| ==> x[k] == data[start + k];
    var c: nat := data[i] / 4;
    result := result + [Symbol(c)];
    c := (data[i] % 4) as int * 16;
    i := i + 1;
    if i < |data| {
      c := c + data[i] / 16;
    }
    result := result + [Symbol(c)];
    assert result == before + Group(x)[..2];
    if i < |data| {
      c := (data[i] % 16) as int * 4;
      i := i + 1;
      if i < |data| {
        c := c + data[i] / 64;
      }
      result := result + [Symbol(c)];
    } else {
      result := result + [PAD];
    }
    assert result == before + Group(x)[..3];
    if i < |data| {
      c := data[i] % 64;
      result := result + [Symbol(c)];
      i := i + 1;
    } else {
      result := result + [PAD];
    }
  }

  datatype Parse = STRICT | WHITE | ANY
  datatype Padding = PAD_YES | PAD_ANY | PAD_NO
  datatype Term = TERM_BUFFER | TERM_CHAR | TERM_ANY
  datatype Flags = Flags(parse: Parse, pad: Padding, term: Term)

  const DO_STRICT := Flags(STRICT, PAD_YES, TERM_BUFFER)

  /** How far the scan of a quantum has come: the values found, the padding after them and
      where it starts. */
  datatype Quantum = Quantum(values: seq<Six>, pads: nat, padStart: nat, pos: nat)

  const EMPTY := Quantum([], 0, 0, 0)

  // What the next character does to the scan; None when it ends the scan.
  function Next(parse: Parse, illegalPads: bool, code: Byte, q: Quantum): Option<Quantum> {
    var skip := q.(pos := q.pos + 1);
    if code == IL || (illegalPads && code == PD) then
      if parse != ANY then None else Some(skip)
    else if code == SP then
      if parse == STRICT then None else Some(skip)
    else if code == PD then
      if |q.values| < 2 || |q.values| + q.pads >= 4 then
        if parse != ANY then None else Some(skip)
      else
        Some(skip.(pads := q.pads + 1, padStart := if q.pads == 0 then q.pos else q.padStart))
    else if code < 64 then
      if q.pads > 0 && parse != ANY then None
      else Some(skip.(values := q.values + [code], pads := 0))
    else None
  }

  function Scan(parse: Parse, illegalPads: bool, s: string, q: Quantum): (r: Quantum)
    requires q.pos <= |s| && |q.values| <= 4
    ensures q.pos <= r.pos <= |s| && |r.values| <= 4
    ensures |r.values| - |q.values| <= r.pos - q.pos
    decreases |s| - q.pos
  {
    if |q.values| == 4 || q.pos == |s| then q
    else
      var next := Next(parse, illegalPads, Code(s[q.pos]), q);
      if next.None? then q else Scan(parse, illegalPads, s, next.value)
  }

  predicate Padded(q: Quantum) { |q.values| + q.pads == 4 }

  // Where the next quantum starts: illegal padding is rolled back.
  function End(q: Quantum): nat { if !Padded(q) && q.pads > 0 then q.padStart else q.pos }

  // The bytes of a quantum, and the bits of it that no byte uses.
  function Bits(values: seq<Six>): (r: seq<Byte>)
    requires |values| <= 4
  {
    if |values| < 2 then []
    else if |values| == 2 then [values[0] as int * 4 + values[1] / 16]
    else if |values| == 3 then [values[0] as int * 4 + values[1] / 16, (values[1] % 16) as int * 16 + values[2] / 4]
    else [values[0] as int * 4 + values[1] / 16, (values[1] % 16) as int * 16 + values[2] / 4, (values[2] % 4) as int * 64 + values[3]]
  }

  function Unused(values: seq<Six>): Byte
    requires |values| < 4
  {
    if |values| == 0 then 0
    else if |values| == 1 then values[0] as int * 4
    else if |values| == 2 then (values[1] % 16) as int * 16
    else (values[2] % 4) as int * 64
  }

  // A quantum that is not full leaves no bits over, unless any end will do, and has the padding
  // that is required.
  predicate Complete(flags: Flags, q: Quantum)
    requires |q.values| < 4
  {
    (flags.term == TERM_ANY || Unused(q.values) == 0) && (flags.pad == PAD_YES ==> Padded(q))
  }

  datatype Decoded = Decoded(success: bool, bytes: seq<Byte>, used: nat)

  function Decode(flags: Flags, s: string): (r: Decoded)
    ensures s == "" ==> r == Decoded(true, [], 0)
    decreases |s|
  {
    if s == "" then Decoded(true, [], 0)
    else
      var q := Scan(flags.parse, flags.pad == PAD_NO, s, EMPTY);
      if |q.values| == 4 then
        var rest := Decode(flags, s[q.pos..]);
        Decoded(rest.success, Bits(q.values) + rest.bytes, q.pos + rest.used)
      else
        Decoded(Complete(flags, q) && (flags.term == TERM_BUFFER ==> End(q) == |s|), Bits(q.values), End(q))
  }

  lemma ScanStep(parse: Parse, illegalPads: bool, s: string, q: Quantum)
    requires q.pos < |s| && |q.values| < 4
    ensures var next := Next(parse, illegalPads, Code(s[q.pos]), q);
            Scan(parse, illegalPads, s, q) == if next.None? then q else Scan(parse, illegalPads, s, next.value)
  {
  }

  /** The scan of GetNextQuantum. While it goes on, qbuf holds the values found so far and,
      after them, whatever code was looked up last. */
  method GetNextQuantum(parse: Parse, illegalPads: bool, data: string, start: nat, qbuf: array<Byte>)
    returns (byteLen: nat, dpos: nat, padded: bool)
    requires start <= |data| && qbuf.Length == 4
    modifies qbuf
    ensures var q := Scan(parse, illegalPads, data[start..], EMPTY);
            && byteLen == |q.values| && dpos == start + End(q) && padded == Padded(q)
            && (forall k :: 0 <= k < 4 ==> qbuf[k] == if k < byteLen then q.values[k] else 0)
  {
    var padLen, padStart := 0, 0;
    byteLen, dpos := 0, start;
    ghost var s, q := data[start..], EMPTY;
    while byteLen < 4 && dpos < |data|
      invariant start <= dpos <= |data| && byteLen <= 4
      invariant q.pos == dpos - start && q.pads == padLen && |q.values| == byteLen
      invariant padLen > 0 ==> padStart == start + q.padStart
      invariant forall k :: 0 <= k < byteLen ==> qbuf[k] == q.values[k]
      invariant Scan(parse, illegalPads, s, q) == Scan(parse, illegalPads, s, EMPTY)
      decreases |data| - dpos
    {
      qbuf[byteLen] := Code(data[dpos]);
      ghost var next := Next(parse, illegalPads, Code(s[q.pos]), q);
      ScanStep(parse, illegalPads, s, q);
      assert s[q.pos] == data[dpos];
      if qbuf[byteLen] == IL || (illegalPads && qbuf[byteLen] == PD) {
        if parse != ANY { break; }
      } else if qbuf[byteLen] == SP {
        if parse == STRICT { break; }
      } else if qbuf[byteLen] == PD {
        if byteLen < 2 || byteLen + padLen >= 4 {
          if parse != ANY { break; }
        } else {
          padLen := padLen + 1;
          if padLen == 1 {
            padStart := dpos;
          }
        }
      } else {
        if padLen > 0 {
          if parse != ANY { break; }
          padLen := 0;
        }
        byteLen := byteLen + 1;
      }
      dpos := dpos + 1;
      q := next.value;
    }
    ClearRest(qbuf, byteLen);
    if byteLen + padLen == 4 {
      padded := true;
    } else {
      padded := false;
      if padLen > 0 {
        dpos := padStart;
      }
    }
  }

  method ClearRest(qbuf: array<Byte>, byteLen: nat)
    requires byteLen <= 4 == qbuf.Length
    modifies qbuf
    ensures forall k :: 0 <= k < 4 ==> qbuf[k] == if k < byteLen then old(qbuf[k]) else 0
  {
    for i: int := byteLen to 4
      invariant forall k :: 0 <= k < byteLen ==> qbuf[k] == old(qbuf[k])
      invariant forall k :: byteLen <= k < i ==> qbuf[k] == 0
    {
      qbuf[i] := 0;
    }
  }

  // The bytes of the quantum in qbuf, and the bits that are left over.
  method PushBytes(result: seq<Byte>, qbuf: array<Byte>, qlen: nat, ghost values: seq<Six>)
    returns (longer: seq<Byte>, c: Byte)
    requires qbuf.Length == 4 && qlen == |values| <= 4
    requires forall k :: 0 <= k < 4 ==> qbuf[k] == if k < qlen then values[k] else 0
    ensures longer == result + Bits(values) && (qlen < 4 ==> c == Unused(values))
  {
    longer := result;
    assert forall k :: 0 <= k < 4 ==> qbuf[k] < 64;
    c := qbuf[0] as int * 4 + qbuf[1] / 16 % 4;
    if qlen >= 2 {
      longer := longer + [c];
      c := (qbuf[1] % 16) as int * 16 + qbuf[2] / 4 % 16;
      if qlen >= 3 {
        longer := longer + [c];
        c := (qbuf[2] % 4) as int * 64 + qbuf[3];
        if qlen >= 4 {
          longer := longer + [c];
          c := 0;
        }
      }
    }
  }

  // The decoding so far and that of the rest make up the whole.
  ghost predicate SoFar(flags: Flags, whole: Decoded, rest: string, result: seq<Byte>, used: nat) {
    var d := Decode(flags, rest);
    whole == Decoded(d.success, result + d.bytes, used + d.used)
  }

  lemma OneMoreQuantum(flags: Flags, whole: Decoded, rest: string, result: seq<Byte>, used: nat, q: Quantum)
    requires SoFar(flags, whole, rest, result, used) && rest != ""
    requires q == Scan(flags.parse, flags.pad == PAD_NO, rest, EMPTY) && |q.values| == 4
    ensures 0 < End(q) == q.pos <= |rest| && SoFar(flags, whole, rest[q.pos..], result + Bits(q.values), used + q.pos)
  {
    FullHasNoPads(flags.parse, flags.pad == PAD_NO, rest, EMPTY);
    Associative(result, Bits(q.values), Decode(flags, rest[q.pos..]).bytes);
  }

  lemma LastQuantum(flags: Flags, whole: Decoded, rest: string, result: seq<Byte>, used: nat, q: Quantum)
    requires SoFar(flags, whole, rest, result, used) && rest != ""
    requires q == Scan(flags.parse, flags.pad == PAD_NO, rest, EMPTY) && |q.values| < 4
    ensures whole == Decoded(Complete(flags, q) && (flags.term == TERM_BUFFER ==> End(q) == |rest|),
                             result + Bits(q.values), used + End(q))
  {
  }

  /** One turn of the loop: a quantum, its bytes and whether it may be the last one. */
  method DecodeQuantum(data: string, flags: Flags, start: nat, before: seq<Byte>, qbuf: array<Byte>)
    returns (qlen: nat, dpos: nat, result: seq<Byte>, success: bool)
    requires start < |data| && qbuf.Length == 4
    modifies qbuf
    ensures var q := Scan(flags.parse, flags.pad == PAD_NO, data[start..], EMPTY);
            && qlen == |q.values| && start <= dpos == start + End(q) <= |data| && result == before + Bits(q.values)
            && success == (qlen == 4 || Complete(flags, q))
  {
    ghost var q := Scan(flags.parse, flags.pad == PAD_NO, data[start..], EMPTY);
    PadStartInside(flags.parse, flags.pad == PAD_NO, data[start..], EMPTY);
    var padded, c;
    qlen, dpos, padded := GetNextQuantum(flags.parse, flags.pad == PAD_NO, data, start, qbuf);
    result, c := PushBytes(before, qbuf, qlen, q.values);
    success := true;
    if qlen < 4 {
      success := CheckQuantum(flags, c, padded, q);
    }
  }

  method CheckQuantum(flags: Flags, c: Byte, padded: bool, ghost q: Quantum) returns (success: bool)
    requires |q.values| < 4 && c == Unused(q.values) && padded == Padded(q)
    ensures success == Complete(flags, q)
  {
    success := true;
    if flags.term != TERM_ANY && c != 0 {
      success := false;
    }
    if flags.pad == PAD_YES && !padded {
      success := false;
    }
  }

  method DecodeFromArray(data: string, flags: Flags) returns (success: bool, result: seq<Byte>, used: nat)
    ensures Decoded(success, result, used) == Decode(flags, data)
  {
    ghost var whole := Decode(flags, data);
    result := [];
    var qbuf := new Byte[4];
    used, success := 0, true;
    assert data[0..] == data && [] + whole.bytes == whole.bytes;
    while used < |data|
      invariant used <= |data| && success && SoFar(flags, whole, data[used..], result, used)
      decreases |data| - used
    {
      ghost var rest, before, start := data[used..], result, used;
      ghost var q := Scan(flags.parse, flags.pad == PAD_NO, rest, EMPTY);
      var qlen;
      qlen, used, result, success := DecodeQuantum(data, flags, used, result, qbuf);
      if qlen < 4 {
        LastQuantum(flags, whole, rest, before, start, q);
        if flags.term == TERM_BUFFER && used != |data| {
          success := false;
        }
        return;
      }
      OneMoreQuantum(flags, whole, rest, before, start, q);
      assert rest[q.pos..] == data[used..];
    }
    assert data[used..] == "" && result + [] == result;
  }

  lemma {:induction false} PadStartInside(parse: Parse, illegalPads: bool, s: string, q: Quantum)
    requires q.pos <= |s| && |q.values| <= 4 && (q.pads > 0 ==> q.padStart < q.pos)
    ensures var r := Scan(parse, illegalPads, s, q);
            r.pads > 0 ==> r.padStart < r.pos
    decreases |s| - q.pos
  {
    if |q.values| < 4 && q.pos < |s| {
      var next := Next(parse, illegalPads, Code(s[q.pos]), q);
      if next.Some? { PadStartInside(parse, illegalPads, s, next.value); }
    }
  }

  lemma {:induction false} FullHasNoPads(parse: Parse, illegalPads: bool, s: string, q: Quantum)
    requires q.pos <= |s| && |q.values| <= 4 && (|q.values| == 4 ==> q.pads == 0)
    ensures var r := Scan(parse, illegalPads, s, q);
            |r.values| == 4 ==> r.pads == 0
    decreases |s| - q.pos
  {
    if |q.values| < 4 && q.pos < |s| {
      var next := Next(parse, illegalPads, Code(s[q.pos]), q);
      if next.Some? { FullHasNoPads(parse, illegalPads, s, next.value); }
    }
  }

  function Symbols(values: seq<Six>): string {
    if values == [] then "" else Symbols(values[..|values| - 1]) + [Symbol(values[|values| - 1])]
  }

  function Pads(n: nat): string { seq(n, _ => PAD) }

  /** What a strict scan has gone over is symbols and then padding, and nothing else. */
  ghost predicate Clean(s: string, q: Quantum) {
    && q.pos == |q.values| + q.pads <= |s| && q.pos <= 4 && (q.pads > 0 ==> q.padStart == |q.values| >= 2)
    && s[..q.pos] == Symbols(q.values) + Pads(q.pads)
  }

  lemma CleanValue(s: string, q: Quantum, v: Six)
    requires Clean(s, q) && q.pos < |s| && |q.values| < 4 && q.pads == 0 && s[q.pos] == Symbol(v)
    ensures Clean(s, q.(pos := q.pos + 1, values := q.values + [v]))
  {
    assert (q.values + [v])[..|q.values|] == q.values;
    assert s[..q.pos + 1] == s[..q.pos] + [Symbol(v)];
    assert Symbols(q.values + [v]) == Symbols(q.values) + [Symbol(v)];
    assert Pads(0) == "" && Symbols(q.values + [v]) + "" == Symbols(q.values + [v]);
  }

  lemma CleanPad(s: string, q: Quantum)
    requires Clean(s, q) && q.pos < |s| && 2 <= |q.values| && |q.values| + q.pads < 4 && s[q.pos] == PAD
    ensures Clean(s, q.(pos := q.pos + 1, pads := q.pads + 1, padStart := if q.pads == 0 then q.pos else q.padStart))
  {
    assert s[..q.pos + 1] == s[..q.pos] + [PAD];
    assert Pads(q.pads + 1) == Pads(q.pads) + [PAD];
    assert Symbols(q.values) + Pads(q.pads) + [PAD] == Symbols(q.values) + (Pads(q.pads) + [PAD]);
  }

  lemma CodeMeans(c: char)
    ensures Code(c) < 64 ==> c == Symbol(Code(c))
    ensures Code(c) == PD <==> c == PAD
  {
  }

  // What the next character of a strict scan can be: a value, or padding in its place.
  lemma StrictNext(q: Quantum, code: Byte)
    ensures var next := Next(STRICT, false, code, q);
            next.Some? ==>
              || (code < 64 && q.pads == 0 && next.value == q.(pos := q.pos + 1, values := q.values + [code]))
              || (code == PD && 2 <= |q.values| && |q.values| + q.pads < 4
                  && next.value == q.(pos := q.pos + 1, pads := q.pads + 1, padStart := if q.pads == 0 then q.pos else q.padStart))
  {
  }

  lemma CleanStep(s: string, q: Quantum)
    requires Clean(s, q) && q.pos < |s| && |q.values| < 4
    ensures var next := Next(STRICT, false, Code(s[q.pos]), q);
            next.Some? ==> Clean(s, next.value)
  {
    var code := Code(s[q.pos]);
    CodeMeans(s[q.pos]);
    StrictNext(q, code);
    if code < 64 && q.pads == 0 {
      CleanValue(s, q, code);
    } else if code == PD && 2 <= |q.values| && |q.values| + q.pads < 4 {
      CleanPad(s, q);
    }
  }

  lemma {:induction false} StrictScanIsClean(s: string, q: Quantum)
    requires Clean(s, q)
    ensures Clean(s, Scan(STRICT, false, s, q))
    decreases |s| - q.pos
  {
    if |q.values| < 4 && q.pos < |s| {
      CleanStep(s, q);
      var next := Next(STRICT, false, Code(s[q.pos]), q);
      if next.Some? { StrictScanIsClean(s, next.value); }
    }
  }

  // The values that the symbols of a group stand for.
  function Sextets(x: seq<Byte>): (v: seq<Six>)
    requires x != []
    ensures |v| == Taken(x) + 1
  {
    if |x| == 1 then [x[0] / 4, (x[0] % 4) as int * 16]
    else if |x| == 2 then [x[0] / 4, (x[0] % 4) as int * 16 + x[1] / 16, (x[1] % 16) as int * 4]
    else [x[0] / 4, (x[0] % 4) as int * 16 + x[1] / 16, (x[1] % 16) as int * 4 + x[2] / 64, x[2] % 64]
  }

  lemma SextetsCarryTheBytes(x: seq<Byte>)
    requires x != []
    ensures Bits(Sextets(x)) == x[..Taken(x)] && (|x| < 3 ==> Unused(Sextets(x)) == 0)
  {
  }

  // A byte boundary within two values, and the values on both sides of it.
  lemma Cut(v: Six, w: Six)
    ensures (v as int * 4 + w / 16) / 4 == v && ((v as int * 4 + w / 16) % 4) * 16 + w % 16 == w
    ensures ((v % 16) as int * 16 + w / 4) / 16 == v % 16 && (((v % 16) as int * 16 + w / 4) % 16) * 4 + w % 4 == w
    ensures ((v % 4) as int * 64 + w) / 64 == v % 4 && ((v % 4) as int * 64 + w) % 64 == w
  {
  }

  // And no values but those of the encoder leave no bits over.
  lemma BytesGiveTheSextets(values: seq<Six>)
    requires 2 <= |values| <= 4 && (|values| < 4 ==> Unused(values) == 0)
    ensures Bits(values) != [] && Sextets(Bits(values)) == values
  {
    var x := Bits(values);
    Cut(values[0], values[1]);
    assert x[0] / 4 == values[0];
    if |values| > 2 { Cut(values[1], values[2]); }
    if |values| > 3 { Cut(values[2], values[3]); }
    assert Sextets(x)[1] == values[1];
  }

  lemma GroupIsSymbols(x: seq<Byte>)
    requires x != []
    ensures Group(x) == Symbols(Sextets(x)) + Pads(3 - Taken(x))
  {
    var v := Sextets(x);
    SymbolsAt(v);
    if |x| == 1 {
      assert Pads(2) == [PAD, PAD];
      assert Symbols(v) == [Symbol(v[0]), Symbol(v[1])];
    } else if |x| == 2 {
      assert Pads(1) == [PAD];
      assert Symbols(v) == [Symbol(v[0]), Symbol(v[1]), Symbol(v[2])];
    } else {
      assert Pads(0) == [];
      assert Symbols(v) == [Symbol(v[0]), Symbol(v[1]), Symbol(v[2]), Symbol(v[3])];
    }
  }

  lemma {:induction false} SymbolsAt(values: seq<Six>)
    ensures |Symbols(values)| == |values| && forall k :: 0 <= k < |values| ==> Symbols(values)[k] == Symbol(values[k])
    decreases |values|
  {
    if values != [] { SymbolsAt(values[..|values| - 1]); }
  }

  lemma GroupAt(values: seq<Six>, pads: nat, k: nat)
    requires k < |values| + pads
    ensures |Symbols(values)| == |values|
    ensures (Symbols(values) + Pads(pads))[k] == if k < |values| then Symbol(values[k]) else PAD
  {
    SymbolsAt(values);
  }

  // What the scan makes of the next character of a group.
  function GoneOver(values: seq<Six>, n: nat): Quantum
    requires n <= 4
  {
    if n <= |values| then Quantum(values[..n], 0, 0, n) else Quantum(values, n - |values|, |values|, n)
  }

  lemma GroupNext(values: seq<Six>, n: nat, code: Byte)
    requires 2 <= |values| <= 4 && n < 4 && code == if n < |values| then values[n] else PD
    ensures Next(STRICT, false, code, GoneOver(values, n)) == Some(GoneOver(values, n + 1))
  {
    if n < |values| {
      assert values[..n] + [values[n]] == values[..n + 1];
    } else {
      assert values[..|values|] == values;
    }
  }

  lemma GroupStep(s: string, values: seq<Six>, n: nat)
    requires 2 <= |values| <= 4 && n < 4 <= |s| && s[..4] == Symbols(values) + Pads(4 - |values|)
    ensures Next(STRICT, false, Code(s[n]), GoneOver(values, n)) == Some(GoneOver(values, n + 1))
  {
    GroupAt(values, 4 - |values|, n);
    assert s[n] == s[..4][n];
    TablesAgree(if n < |values| then values[n] else 0, s[n]);
    CodeMeans(s[n]);
    GroupNext(values, n, Code(s[n]));
  }

  // A strict scan goes over symbols and the padding that fills up their quantum.
  lemma {:induction false} ScanGoesOver(s: string, values: seq<Six>, n: nat)
    requires 2 <= |values| <= 4 && n <= 4 <= |s| && s[..4] == Symbols(values) + Pads(4 - |values|)
    ensures Scan(STRICT, false, s, GoneOver(values, n)) == GoneOver(values, 4)
    decreases 4 - n
  {
    if n < 4 {
      GroupStep(s, values, n);
      ScanStep(STRICT, false, s, GoneOver(values, n));
      ScanGoesOver(s, values, n + 1);
    }
  }

  /** Strict decoding of an encoding succeeds, gives the bytes back and uses every character. */
  lemma {:induction false} DecodeOfEncoded(x: seq<Byte>)
    ensures Decode(DO_STRICT, Encoded(x)) == Decoded(true, x, |Encoded(x)|)
    decreases |x|
  {
    if x != [] {
      var s, rest := Encoded(x), x[Taken(x)..];
      GroupIsSymbols(x);
      assert s[..4] == Group(x);
      ScanGoesOver(s, Sextets(x), 0);
      assert GoneOver(Sextets(x), 0) == EMPTY && Sextets(x)[..|Sextets(x)|] == Sextets(x);
      SextetsCarryTheBytes(x);
      assert x == x[..Taken(x)] + rest;
      if |x| >= 3 {
        DecodeOfEncoded(rest);
        assert s[4..] == Encoded(rest);
      } else {
        assert rest == [] && x[..Taken(x)] == x;
      }
    }
  }

  lemma EncodedOfMore(three: seq<Byte>, rest: seq<Byte>)
    requires |three| == 3
    ensures Encoded(three + rest) == Group(three) + Encoded(rest)
  {
    assert (three + rest)[3..] == rest;
  }

  /** What strict decoding accepts is an encoding, and of no other bytes than it returns. */
  lemma {:induction false} EncodedOfDecode(s: string)
    requires Decode(DO_STRICT, s).success
    ensures Encoded(Decode(DO_STRICT, s).bytes) == s && Decode(DO_STRICT, s).used == |s|
    decreases |s|
  {
    if s != "" {
      var q := Scan(STRICT, false, s, EMPTY);
      StrictScanIsClean(s, EMPTY);
      FullHasNoPads(STRICT, false, s, EMPTY);
      var bytes, all := Bits(q.values), Decode(DO_STRICT, s).bytes;
      BytesGiveTheSextets(q.values);
      GroupIsSymbols(bytes);
      assert s[..4] == Group(bytes);
      if |q.values| == 4 {
        var rest := Decode(DO_STRICT, s[4..]).bytes;
        EncodedOfDecode(s[4..]);
        EncodedOfMore(bytes, rest);
        assert s == s[..4] + s[4..];
      }
    }
  }

  /** So the texts that strict decoding accepts are exactly the encodings. */
  lemma StrictAcceptsEncodings(s: string)
    ensures Decode(DO_STRICT, s).success <==> exists x :: s == Encoded(x)
  {
    if Decode(DO_STRICT, s).success {
      EncodedOfDecode(s);
    } else if x :| s == Encoded(x) {
      DecodeOfEncoded(x);
    }
  }

  // The characters that a way of parsing promises to ignore.
  predicate Ignored(flags: Flags, c: char) {
    || (flags.parse != STRICT && Code(c) == SP)
    || (flags.parse == ANY && (Code(c) == IL || (flags.pad == PAD_NO && Code(c) == PD)))
  }

  function Filtered(flags: Flags, s: string): string {
    if s == "" then "" else (if Ignored(flags, s[0]) then "" else [s[0]]) + Filtered(flags, s[1..])
  }

  // Two scans side by side, one of them over the filtered text.
  ghost predicate Alike(flags: Flags, s: string, q: Quantum, t: string, r: Quantum) {
    && q.pos <= |s| && r.pos <= |t| && |q.values| <= 4
    && q.values == r.values && q.pads == r.pads && t[r.pos..] == Filtered(flags, s[q.pos..])
    && (q.pads > 0 ==> q.padStart < q.pos && r.padStart < r.pos)
  }

  lemma AlikeStep(flags: Flags, s: string, q: Quantum, t: string, r: Quantum)
    requires Alike(flags, s, q, t, r) && |q.values| < 4 && q.pos < |s|
    ensures var illegal := flags.pad == PAD_NO;
            var next := Next(flags.parse, illegal, Code(s[q.pos]), q);
            if Ignored(flags, s[q.pos]) then next.Some? && Alike(flags, s, next.value, t, r)
            else
              && r.pos < |t| && t[r.pos] == s[q.pos]
              && var next' := Next(flags.parse, illegal, Code(t[r.pos]), r);
                 next.Some? == next'.Some? && (next.Some? ==> Alike(flags, s, next.value, t, next'.value))
  {
    assert s[q.pos..][1..] == s[q.pos + 1..];
    if !Ignored(flags, s[q.pos]) {
      assert t[r.pos..] == [s[q.pos]] + Filtered(flags, s[q.pos + 1..]);
      assert t[r.pos] == t[r.pos..][0];
      assert t[r.pos + 1..] == t[r.pos..][1..];
    }
  }

  lemma {:induction false} ScansStayAlike(flags: Flags, s: string, q: Quantum, t: string, r: Quantum)
    requires Alike(flags, s, q, t, r)
    ensures var illegal := flags.pad == PAD_NO;
            var q', r' := Scan(flags.parse, illegal, s, q), Scan(flags.parse, illegal, t, r);
            Alike(flags, s, q', t, r') && (|q'.values| < 4 ==> (q'.pos == |s| <==> r'.pos == |t|))
    decreases |s| - q.pos
  {
    if |q.values| < 4 && q.pos < |s| {
      AlikeStep(flags, s, q, t, r);
      var illegal := flags.pad == PAD_NO;
      var next := Next(flags.parse, illegal, Code(s[q.pos]), q);
      ScanStep(flags.parse, illegal, s, q);
      if r.pos < |t| { ScanStep(flags.parse, illegal, t, r); }
      if Ignored(flags, s[q.pos]) {
        ScansStayAlike(flags, s, next.value, t, r);
      } else if next.Some? {
        ScansStayAlike(flags, s, next.value, t, Next(flags.parse, illegal, Code(t[r.pos]), r).value);
      }
    }
  }

  // Only ignored characters follow a full quantum, or there is nothing but ignored ones.
  ghost predicate TrailsOff(flags: Flags, s: string)
    decreases |s|
  {
    s != "" &&
    var q := Scan(flags.parse, flags.pad == PAD_NO, s, EMPTY);
    if |q.values| == 4 then TrailsOff(flags, s[q.pos..]) else Filtered(flags, s) == ""
  }

  lemma {:induction false} DecodesAlike(flags: Flags, s: string)
    ensures var d, e := Decode(flags, s), Decode(flags, Filtered(flags, s));
            d.bytes == e.bytes && (d.success <==> e.success && !(flags.pad == PAD_YES && TrailsOff(flags, s)))
    decreases |s|
  {
    if s != "" {
      var t, illegal := Filtered(flags, s), flags.pad == PAD_NO;
      assert s[0..] == s && t[0..] == t;
      ScansStayAlike(flags, s, EMPTY, t, EMPTY);
      var q, r := Scan(flags.parse, illegal, s, EMPTY), Scan(flags.parse, illegal, t, EMPTY);
      if |q.values| == 4 {
        DecodesAlike(flags, s[q.pos..]);
      } else if t == "" {
        assert q.values == [] && q.pads == 0;
      }
    }
  }

  lemma {:induction false} NoneIgnored(flags: Flags, s: string)
    ensures forall k :: 0 <= k < |Filtered(flags, s)| ==> !Ignored(flags, Filtered(flags, s)[k])
  {
    if s != "" { NoneIgnored(flags, s[1..]); }
  }

  lemma {:induction false} AllIgnored(flags: Flags, s: string, k: nat)
    requires Filtered(flags, s) == "" && k < |s|
    ensures Ignored(flags, s[k])
  {
    assert Ignored(flags, s[0]);
    if k > 0 {
      AllIgnored(flags, s[1..], k - 1);
      assert s[1..][k - 1] == s[k];
    }
  }

  // A scan that has filled its quantum has ended with a value...
  ghost predicate ValueLast(s: string, q: Quantum) {
    q.pos <= |s| && |q.values| <= 4 && (|q.values| == 4 ==> q.pos > 0 && Code(s[q.pos - 1]) < 64)
  }

  lemma {:induction false} FullEndsInValue(parse: Parse, illegalPads: bool, s: string, q: Quantum)
    requires ValueLast(s, q)
    ensures ValueLast(s, Scan(parse, illegalPads, s, q))
    decreases |s| - q.pos
  {
    if |q.values| < 4 && q.pos < |s| {
      var next := Next(parse, illegalPads, Code(s[q.pos]), q);
      if next.Some? { FullEndsInValue(parse, illegalPads, s, next.value); }
    }
  }

  // ... and one with padding, where there is nothing to ignore, with padding.
  ghost predicate PadLast(s: string, q: Quantum) {
    q.pos <= |s| && |q.values| <= 4 && (q.pads > 0 ==> q.pos > 0 && s[q.pos - 1] == PAD)
  }

  lemma {:induction false} PaddedEndsInPad(flags: Flags, s: string, q: Quantum)
    requires PadLast(s, q) && flags.pad != PAD_NO && forall k :: 0 <= k < |s| ==> !Ignored(flags, s[k])
    ensures PadLast(s, Scan(flags.parse, false, s, q))
    decreases |s| - q.pos
  {
    if |q.values| < 4 && q.pos < |s| {
      var next := Next(flags.parse, false, Code(s[q.pos]), q);
      if next.Some? { PaddedEndsInPad(flags, s, next.value); }
    }
  }

  /** The text ends with a character that is ignored, and without that character and its like
      it is used up and does not end with padding. */
  ghost predicate EndsIgnored(flags: Flags, s: string, t: string, used: nat) {
    s != "" && Ignored(flags, s[|s| - 1]) && used == |t| && (t == "" || t[|t| - 1] != PAD)
  }

  // One full quantum in front of the rest.
  lemma FullQuantum(flags: Flags, s: string)
    requires flags.pad == PAD_YES && s != "" && |Scan(flags.parse, false, s, EMPTY).values| == 4
    ensures var q, t := Scan(flags.parse, false, s, EMPTY), Filtered(flags, s);
            var r := Scan(flags.parse, false, t, EMPTY);
            && q.values == r.values && t[r.pos..] == Filtered(flags, s[q.pos..])
            && 0 < r.pos && t[r.pos - 1] != PAD && 0 < q.pos && !Ignored(flags, s[q.pos - 1])
  {
    var t := Filtered(flags, s);
    FilteredScan(flags, s);
    FullEnds(flags, s);
    FullEnds(flags, t);
  }

  lemma FilteredScan(flags: Flags, s: string)
    ensures var illegal, t := flags.pad == PAD_NO, Filtered(flags, s);
            Alike(flags, s, Scan(flags.parse, illegal, s, EMPTY), t, Scan(flags.parse, illegal, t, EMPTY))
  {
    var t := Filtered(flags, s);
    assert s[0..] == s && t[0..] == t;
    ScansStayAlike(flags, s, EMPTY, t, EMPTY);
  }

  lemma FullEnds(flags: Flags, s: string)
    requires |Scan(flags.parse, false, s, EMPTY).values| == 4
    ensures var q := Scan(flags.parse, false, s, EMPTY);
            0 < q.pos && s[q.pos - 1] != PAD && !Ignored(flags, s[q.pos - 1])
  {
    FullEndsInValue(flags.parse, false, s, EMPTY);
    CodeMeans(PAD);
  }

  lemma DecodeFull(flags: Flags, t: string)
    requires flags.pad == PAD_YES && t != "" && |Scan(flags.parse, false, t, EMPTY).values| == 4
    ensures var r := Scan(flags.parse, false, t, EMPTY);
            var e, rest := Decode(flags, t), Decode(flags, t[r.pos..]);
            e.used == r.pos + rest.used && e.success == rest.success
  {
  }

  // What the end of a text is like depends on what follows a full quantum.
  lemma EndsAlike(flags: Flags, s: string, n: nat, t: string, k: nat, used: nat)
    requires 0 < n <= |s| && !Ignored(flags, s[n - 1]) && 0 < k <= |t| && t[k - 1] != PAD
    ensures EndsIgnored(flags, s, t, k + used) <==> EndsIgnored(flags, s[n..], t[k..], used)
  {
  }

  lemma NotFull(flags: Flags, s: string)
    requires flags.pad == PAD_YES && s != "" && |Scan(flags.parse, false, s, EMPTY).values| < 4
    requires Decode(flags, Filtered(flags, s)).success
    ensures Filtered(flags, s) == "" <==> EndsIgnored(flags, s, Filtered(flags, s), Decode(flags, Filtered(flags, s)).used)
  {
    var t := Filtered(flags, s);
    assert s[0..] == s && t[0..] == t;
    ScansStayAlike(flags, s, EMPTY, t, EMPTY);
    NoneIgnored(flags, s);
    if t == "" {
      AllIgnored(flags, s, |s| - 1);
    } else {
      PaddedEndsInPad(flags, t, EMPTY);
    }
  }

  lemma {:induction false} TrailsOffExactly(flags: Flags, s: string)
    requires flags.pad == PAD_YES && Decode(flags, Filtered(flags, s)).success
    ensures TrailsOff(flags, s) <==> EndsIgnored(flags, s, Filtered(flags, s), Decode(flags, Filtered(flags, s)).used)
    decreases |s|
  {
    if s != "" {
      var q := Scan(flags.parse, false, s, EMPTY);
      if |q.values| == 4 {
        var t := Filtered(flags, s);
        FullQuantum(flags, s);
        DecodeFull(flags, t);
        var r := Scan(flags.parse, false, t, EMPTY);
        TrailsOffExactly(flags, s[q.pos..]);
        EndsAlike(flags, s, q.pos, t, r.pos, Decode(flags, t[r.pos..]).used);
      } else {
        NotFull(flags, s);
      }
    }
  }

  /** Characters that are to be ignored do not change what is decoded. But where padding is
      required, ones at the end of the text make the decoding fail, unless they follow padding
      or a place where the decoding has stopped. */
  lemma IgnoredCharacters(flags: Flags, s: string)
    ensures var t := Filtered(flags, s);
            var d, e := Decode(flags, s), Decode(flags, t);
            && d.bytes == e.bytes
            && (d.success <==> e.success && !(flags.pad == PAD_YES && EndsIgnored(flags, s, t, e.used)))
  {
    DecodesAlike(flags, s);
    if flags.pad == PAD_YES && Decode(flags, Filtered(flags, s)).success {
      TrailsOffExactly(flags, s);
    }
  }

  lemma {:induction false} ReadsOn(illegalPads: bool, s: string, q: Quantum)
    requires q.pos <= |s| && |q.values| <= 4
    ensures var r := Scan(ANY, illegalPads, s, q); |r.values| < 4 ==> r.pos == |s|
    decreases |s| - q.pos
  {
    if |q.values| < 4 && q.pos < |s| {
      var next := Next(ANY, illegalPads, Code(s[q.pos]), q);
      if next.Some? { ReadsOn(illegalPads, s, next.value); }
    }
  }

  /** Only with TERM_CHAR and TERM_ANY, and without PARSE_ANY, can the decoding stop anywhere but
      at the end of the text. */
  lemma {:induction false} UsedUp(flags: Flags, s: string)
    requires flags.pad == PAD_YES && (flags.term == TERM_BUFFER || flags.parse == ANY)
    requires Decode(flags, s).success
    ensures Decode(flags, s).used == |s|
    decreases |s|
  {
    if s != "" {
      ReadsOn(false, s, EMPTY);
      var q := Scan(flags.parse, false, s, EMPTY);
      if |q.values| == 4 {
        UsedUp(flags, s[q.pos..]);
      }
    }
  }

  lemma ScanOfAs(s: string)
    requires 4 <= |s| && s[..4] == "AAAA"
    ensures Scan(WHITE, false, s, EMPTY) == Quantum([0, 0, 0, 0], 0, 0, 4)
  {
    assert forall k :: 0 <= k < 4 ==> s[k] == s[..4][k] == 'A';
    var q1 := Next(WHITE, false, Code('A'), EMPTY).value;
    var q2 := Next(WHITE, false, Code('A'), q1).value;
    var q3 := Next(WHITE, false, Code('A'), q2).value;
    ScanStep(WHITE, false, s, EMPTY);
    ScanStep(WHITE, false, s, q1);
    ScanStep(WHITE, false, s, q2);
    ScanStep(WHITE, false, s, q3);
  }

  // One line of text with its newline.
  lemma TrailingNewline()
    ensures var flags := Flags(WHITE, PAD_YES, TERM_BUFFER);
            Decode(flags, "AAAA").success && !Decode(flags, "AAAA\n").success
  {
    var s, end := "AAAA\n", "\n";
    assert s[..4] == "AAAA" && s[4..] == end && "AAAA"[..4] == "AAAA";
    ScanOfAs("AAAA");
    ScanOfAs(s);
    ScanStep(WHITE, false, end, EMPTY);
  }
}
