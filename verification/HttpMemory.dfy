/** What the parser makes of its buffer, with the memory behind a line that it may look at. */
module HttpMemory {
  import opened HttpText
  import opened HttpGrammar

  // The line that ends at pos, with all that lies behind it in memory.
  function LineIn(owner: Owner, c: Conf, memory: string, at: nat, pos: nat): (step: Step)
    requires at <= pos <= |memory| && ReadsLines(c.st)
    ensures !step.Garbled? && step.conf.st != Complete
  {
    var line := TrimRight(memory[at..pos]);
    LineStep(owner, c, line, memory[at + |line|..])
  }

  /** Everything the parser makes of memory[at..len]. */
  function ParseIn(owner: Owner, c: Conf, memory: string, at: nat, len: nat): (o: Outcome)
    requires at <= len <= |memory| && c.st != Complete
    decreases len - at, c.st == Data
  {
    var input := memory[at..len];
    if ReadsLines(c.st) then
      var n := IndexOf(input, '\n');
      if n == |input| then Outcome(c, input, NeedMore)
      else
        var step := LineIn(owner, c, memory, at, at + n);
        if step.Finish? then Outcome(step.conf, memory[at + n + 1..len], Done(step.error))
        else ParseIn(owner, step.conf, memory, at + n + 1, len)
    else if c.size == 0 then
      if c.chunked then ParseIn(owner, c.(st := ChunkTerm), memory, at, len) else Outcome(c, input, Done(NoError))
    else
      var n := DataLength(c, input);
      if n == 0 then Outcome(c, input, NeedMore)
      else ParseIn(owner, Absorb(c, input[..n]), memory, at + n, len)
  }

  lemma SliceOn(memory: string, at: nat, n: nat, len: nat)
    requires at + n <= len <= |memory|
    ensures memory[at..len][n..] == memory[at + n..len] && memory[at..len][..n] == memory[at..at + n]
  {
  }

  // What is trimmed off a line begins with white space, and so does the newline after it.
  lemma TrimmedOff(memory: string, at: nat, pos: nat)
    requires at <= pos < |memory| && memory[pos] == '\n'
    ensures var line := TrimRight(memory[at..pos]);
            Separates(memory[at + |line|..]) && TrimRight(line) == line && memory[at..at + |line|] == line
  {
    var line := TrimRight(memory[at..pos]);
    var after := memory[at + |line|..];
    assert after[0] == memory[at + |line|];
    if at + |line| < pos { assert memory[at..pos][|line|] == after[0]; }
  }

  lemma FirstLineIsRead(owner: Owner, c: Conf, input: string, line: string, after: string)
    requires ReadsLines(c.st) && IndexOf(input, '\n') < |input| && line == TrimRight(input[..IndexOf(input, '\n')])
    requires TrimRight(line) == line && Separates(after)
    ensures var step := FirstLine(owner, c, input); !step.Garbled? ==> step == LineStep(owner, c, line, after)
  {
    if !(c.st == Headers && EmptyContentLength(line)) { LineIgnoresMemory(owner, c, line, after); }
  }

  /** The first line of the input means in memory what it means by itself, but for an empty
      Content-Length. */
  lemma FirstLineIn(owner: Owner, c: Conf, memory: string, at: nat, len: nat)
    requires at <= len <= |memory| && ReadsLines(c.st) && IndexOf(memory[at..len], '\n') < len - at
    ensures var step := FirstLine(owner, c, memory[at..len]);
            !step.Garbled? ==> step == LineIn(owner, c, memory, at, at + IndexOf(memory[at..len], '\n'))
  {
    hide LineStep, FirstLine, TrimRight, IndexOf, Separates;
    var n := IndexOf(memory[at..len], '\n');
    SliceOn(memory, at, n, len);
    TrimmedOff(memory, at, at + n);
    var line := TrimRight(memory[at..at + n]);
    FirstLineIsRead(owner, c, memory[at..len], line, memory[at + |line|..]);
  }

  lemma ParseOfLine(owner: Owner, c: Conf, input: string, first: Step)
    requires ReadsLines(c.st) && IndexOf(input, '\n') < |input| && first == FirstLine(owner, c, input)
    ensures Parse(owner, c, input) ==
            match first
            case Garbled => Outcome(c, input, Unpredictable)
            case Finish(c', error) => Outcome(c', input[IndexOf(input, '\n') + 1..], Done(error))
            case Go(c') => Parse(owner, c', input[IndexOf(input, '\n') + 1..])
  {
    hide FirstLine;
    match first
    case Garbled =>
    case Finish(c', error) =>
    case Go(c') => assert c'.st != Complete;
  }

  lemma ParseOfLineIn(owner: Owner, c: Conf, memory: string, at: nat, len: nat, n: nat, step: Step)
    requires at <= len <= |memory| && ReadsLines(c.st) && n == IndexOf(memory[at..len], '\n') < len - at
    requires step == LineIn(owner, c, memory, at, at + n)
    ensures ParseIn(owner, c, memory, at, len) ==
            if step.Finish? then Outcome(step.conf, memory[at + n + 1..len], Done(step.error))
            else ParseIn(owner, step.conf, memory, at + n + 1, len)
  {
    hide LineIn;
  }

  lemma DataIn(owner: Owner, c: Conf, memory: string, at: nat, len: nat, n: nat)
    requires at <= len <= |memory| && c.st == Data && c.size != 0 && n == DataLength(c, memory[at..len]) > 0
    ensures ParseIn(owner, c, memory, at, len) == ParseIn(owner, Absorb(c, memory[at..at + n]), memory, at + n, len)
  {
    SliceOn(memory, at, n, len);
  }

  /** What the parser makes of its buffer is what the grammar makes of the bytes in it, unless the
      grammar comes to an empty Content-Length. */
  lemma {:induction false} InMemory(owner: Owner, c: Conf, memory: string, at: nat, len: nat)
    requires at <= len <= |memory| && c.st != Complete
    ensures var o := Parse(owner, c, memory[at..len]); o.stop != Unpredictable ==> o == ParseIn(owner, c, memory, at, len)
    decreases len - at, c.st == Data
  {
    hide FirstLine, LineIn;
    var input := memory[at..len];
    if ReadsLines(c.st) {
      var n := IndexOf(input, '\n');
      if n < |input| {
        LineInMemory(owner, c, memory, at, len, n);
      }
    } else if c.size == 0 {
      if c.chunked { InMemory(owner, c.(st := ChunkTerm), memory, at, len); }
    } else {
      if DataLength(c, input) > 0 { DataInMemory(owner, c, memory, at, len, DataLength(c, input)); }
    }
  }

  lemma {:induction false} DataInMemory(owner: Owner, c: Conf, memory: string, at: nat, len: nat, n: nat)
    requires at <= len <= |memory| && c.st == Data && c.size != 0 && n == DataLength(c, memory[at..len]) > 0
    ensures var o := Parse(owner, c, memory[at..len]); o.stop != Unpredictable ==> o == ParseIn(owner, c, memory, at, len)
    decreases len - at, c.st == Data, 0
  {
    hide Parse, ParseIn;
    SliceOn(memory, at, n, len);
    DataInPieces(owner, c, memory[at..len], n);
    DataIn(owner, c, memory, at, len, n);
    InMemory(owner, Absorb(c, memory[at..at + n]), memory, at + n, len);
  }

  lemma {:induction false} LineInMemory(owner: Owner, c: Conf, memory: string, at: nat, len: nat, n: nat)
    requires at <= len <= |memory| && ReadsLines(c.st) && n == IndexOf(memory[at..len], '\n') < len - at
    ensures var o := Parse(owner, c, memory[at..len]); o.stop != Unpredictable ==> o == ParseIn(owner, c, memory, at, len)
    decreases len - at, c.st == Data, 0
  {
    hide FirstLine, LineIn, Parse, ParseIn;
    var first := FirstLine(owner, c, memory[at..len]);
    FirstLineIn(owner, c, memory, at, len);
    ParseOfLine(owner, c, memory[at..len], first);
    ParseOfLineIn(owner, c, memory, at, len, n, LineIn(owner, c, memory, at, at + n));
    SliceOn(memory, at, n + 1, len);
    if first.Go? {
      InMemory(owner, first.conf, memory, at + n + 1, len);
    }
  }

  lemma AbsorbTwice(c: Conf, a: string, b: string)
    requires c.size == SIZE_UNKNOWN || |a| + |b| <= c.size
    ensures c.size == SIZE_UNKNOWN || |b| <= Absorb(c, a).size
    ensures a != "" || c.size != 0 ==> Absorb(Absorb(c, a), b) == Absorb(c, a + b)
  {
    assert (c.body + a) + b == c.body + (a + b);
  }

  // Body data may be handed on in any number of pieces.
  lemma PiecesIn(owner: Owner, c: Conf, memory: string, at: nat, len: nat, k: nat)
    requires at <= len <= |memory| && c.st == Data && c.size != 0 && 0 < k <= DataLength(c, memory[at..len])
    ensures ParseIn(owner, c, memory, at, len) == ParseIn(owner, Absorb(c, memory[at..at + k]), memory, at + k, len)
  {
    hide ParseIn;
    var n, c' := DataLength(c, memory[at..len]), Absorb(c, memory[at..at + k]);
    DataIn(owner, c, memory, at, len, n);
    if k < n {
      assert DataLength(c', memory[at + k..len]) == n - k;
      DataIn(owner, c', memory, at + k, len, n - k);
      assert memory[at..at + k] + memory[at + k..at + n] == memory[at..at + n];
      AbsorbTwice(c, memory[at..at + k], memory[at + k..at + n]);
    }
  }
}
