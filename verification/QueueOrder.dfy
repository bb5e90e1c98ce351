/** The order in which delayed messages are handed out, over runs: by trigger time, and among
    equals in the order in which they were posted. */
module QueueOrder {
  import opened DelayedHeap
  import opened QueueModel
  import opened QueueLaws
  import opened Sequences
  import opened Wrappers

  /** A delayed message goes behind exactly those that trigger no later. */
  lemma {:induction false} GoesBehind(s: seq<Delayed>, d: Delayed)
    requires Ordered(s) && forall k :: 0 <= k < |s| ==> s[k].num < d.num
    ensures var k := DueCount(s, d.msTrigger); Insert(s, d) == s[..k] + [d] + s[k..]
    decreases |s|
  {
    if s == [] {
    } else if s[0].msTrigger > d.msTrigger {
      assert s[..0] + [d] + s[0..] == [d] + s;
    } else {
      var k := DueCount(s[1..], d.msTrigger);
      assert Ordered(s[1..]);
      GoesBehind(s[1..], d);
      OneFurther(s, k, d);
    }
  }

  lemma OneFurther<T>(s: seq<T>, k: nat, d: T)
    requires k < |s|
    ensures s[..k + 1] + [d] + s[k + 1..] == [s[0]] + (s[1..][..k] + [d] + s[1..][k..])
  {
  }

  lemma PostedBehind(q: Queue, trigger: nat, m: Message)
    requires Sound(q)
    ensures var k := DueCount(q.delayed, trigger);
            && EnqueueDelayed(q, trigger, m).delayed
               == q.delayed[..k] + [Delayed(trigger, q.next, m)] + q.delayed[k..]
            && forall i :: 0 <= i < |q.delayed| ==> (q.delayed[i].msTrigger <= trigger <==> i < k)
  {
    GoesBehind(q.delayed, Delayed(trigger, q.next, m));
    DueIsExact(q.delayed, trigger);
  }

  // Every b has an a before it.
  predicate Led(s: seq<Message>, a: Message, b: Message) {
    forall j :: 0 <= j < |s| && s[j] == b ==> a in s[..j]
  }

  lemma LedInTwo(s: seq<Message>, t: seq<Message>, a: Message, b: Message)
    ensures Led(s + t, a, b) <==> Led(s, a, b) && (a in s || Led(t, a, b))
  {
    var u := s + t;
    forall j | 0 <= j < |u| ensures a in u[..j] <==> if j <= |s| then a in s[..j] else a in s || a in t[..j - |s|] {
      if j <= |s| { assert u[..j] == s[..j]; } else { assert u[..j] == s + t[..j - |s|]; }
    }
    if Led(u, a, b) {
      assert forall j :: 0 <= j < |s| ==> u[j] == s[j];
      assert forall j :: 0 <= j < |t| ==> u[|s| + j] == t[j];
    }
  }

  // What b has to wait for in s it has to wait for in s'.
  predicate Holds(s: seq<Message>, s': seq<Message>, a: Message, b: Message) {
    (Led(s, a, b) ==> Led(s', a, b)) && (a in s ==> a in s')
  }

  lemma HoldsInTwo(s: seq<Message>, t: seq<Message>, s': seq<Message>, t': seq<Message>, a: Message, b: Message)
    requires Holds(s, s', a, b) && Holds(t, t', a, b)
    ensures Holds(s + t, s' + t', a, b)
  {
    LedInTwo(s, t, a, b);
    LedInTwo(s', t', a, b);
  }

  lemma OneLed(x: Message, a: Message, b: Message)
    ensures Led([x], a, b) <==> x != b
  {
    assert [x][..0] == [];
    assert [x][0] == x;
  }

  // Anything but b may come in anywhere.
  lemma HoldsWithMore(s: seq<Message>, x: Message, t: seq<Message>, a: Message, b: Message)
    requires x != b
    ensures Holds(s + t, s + [x] + t, a, b)
  {
    LedInTwo(s, t, a, b);
    LedInTwo(s + [x], t, a, b);
    LedInTwo(s, [x], a, b);
    OneLed(x, a, b);
  }

  lemma {:induction false} HoldsLive(s: seq<Message>, a: Message, b: Message)
    requires !IsDisposal(a)
    ensures Holds(s, Live(s), a, b)
    decreases |s|
  {
    if s != [] {
      assert s == [s[0]] + s[1..];
      HoldsLive(s[1..], a, b);
      HoldsInTwo([s[0]], s[1..], if IsDisposal(s[0]) then [] else [s[0]], Live(s[1..]), a, b);
    }
  }

  // Anything but a may be taken out.
  lemma {:induction false} HoldsPick(s: seq<Message>, handler: nat, id: nat, a: Message, b: Message)
    requires !Match(a, handler, id)
    ensures Holds(s, Pick(s, handler, id, false), a, b)
    decreases |s|
  {
    if s != [] {
      assert s == [s[0]] + s[1..];
      HoldsPick(s[1..], handler, id, a, b);
      HoldsInTwo([s[0]], s[1..], if Match(s[0], handler, id) then [] else [s[0]], Pick(s[1..], handler, id, false), a, b);
    }
  }

  // The messages in the line, and those that are delayed, in the order in which they will be.
  function Coming(q: Queue): seq<Message> { q.line + Messages(q.delayed) }

  // Nothing posts b, and nothing clears a.
  predicate Fair(acts: seq<Act>, a: Message, b: Message) {
    forall k :: 0 <= k < |acts| ==>
      match acts[k]
      case DoPost(m) => m != b
      case LatePost(m) => m != b
      case DoPostDelayed(_, m) => m != b
      case LatePostDelayed(_, m) => m != b
      case DoClear(handler, id) => !Match(a, handler, id)
      case DoQuit => true
  }

  predicate FairTurns(turns: seq<Turn>, a: Message, b: Message) {
    forall k :: 0 <= k < |turns| ==> Fair(turns[k].before, a, b) && Fair(turns[k].acts, a, b)
  }

  predicate FairCall(call: Call, a: Message, b: Message) {
    match call
    case CallAct(act) => Fair([act], a, b)
    case CallGet(_, turns) => FairTurns(turns, a, b)
    case CallPeek(_, turns) => FairTurns(turns, a, b)
    case _ => true
  }

  predicate FairCalls(calls: seq<Call>, a: Message, b: Message) {
    forall k :: 0 <= k < |calls| ==> FairCall(calls[k], a, b)
  }

  lemma EnqueueHolds(q: Queue, m: Message, a: Message, b: Message)
    requires m != b
    ensures Holds(Coming(q), Coming(Enqueue(q, m)), a, b)
  {
    assert Live([m]) == if IsDisposal(m) then [] else [m];
    if IsDisposal(m) {
      assert q.line + Live([m]) == q.line;
    } else {
      HoldsWithMore(q.line, m, Messages(q.delayed), a, b);
    }
  }

  lemma MessagesOfOne(a: seq<Delayed>, d: Delayed)
    ensures Messages(a + [d]) == Messages(a) + [d.msg]
  {
    MessagesOfSum(a, [d]);
    assert [d][1..] == [] && Messages([]) == [];
  }

  lemma MessagesAround(a: seq<Delayed>, d: Delayed, b: seq<Delayed>)
    ensures Messages(a + b) == Messages(a) + Messages(b)
    ensures Messages(a + [d] + b) == Messages(a) + [d.msg] + Messages(b)
  {
    MessagesOfSum(a, b);
    MessagesOfOne(a, d);
    MessagesOfSum(a + [d], b);
  }

  lemma EnqueueDelayedHolds(q: Queue, trigger: nat, m: Message, a: Message, b: Message)
    requires Sound(q) && m != b
    ensures Holds(Coming(q), Coming(EnqueueDelayed(q, trigger, m)), a, b)
  {
    var k, d := DueCount(q.delayed, trigger), Delayed(trigger, q.next, m);
    PostedBehind(q, trigger, m);
    MessagesAround(q.delayed[..k], d, q.delayed[k..]);
    assert q.delayed == q.delayed[..k] + q.delayed[k..];
    var before, after := Messages(q.delayed[..k]), Messages(q.delayed[k..]);
    HoldsWithMore(q.line + before, m, after, a, b);
    Associative(q.line, before, after);
    assert q.line + before + [m] + after == q.line + (before + [m] + after);
  }

  lemma ClearHolds(q: Queue, handler: nat, id: nat, a: Message, b: Message)
    requires Sound(q) && !Match(a, handler, id)
    ensures Holds(Coming(q), Coming(Clear(q, handler, id)), a, b)
  {
    var slot, ready := Pick(Peeked(q), handler, id, false), Pick(q.ready, handler, id, false);
    HoldsPick(Peeked(q), handler, id, a, b);
    HoldsPick(Live(q.ready), handler, id, a, b);
    HoldsPick(Messages(q.delayed), handler, id, a, b);
    LiveOfPick(q.ready, handler, id);
    MessagesOfPick(q.delayed, handler, id);
    assert q.line == q.delivered + Peeked(q) + Live(q.ready);
    HoldsInTwo(q.delivered, Peeked(q), q.delivered, slot, a, b);
    HoldsInTwo(q.delivered + Peeked(q), Live(q.ready), q.delivered + slot, Live(ready), a, b);
    HoldsInTwo(q.line, Messages(q.delayed), q.delivered + slot + Live(ready),
               Messages(PickDelayed(q.delayed, handler, id, false)), a, b);
  }

  lemma DrainHolds(q: Queue, a: Message, b: Message)
    requires !IsDisposal(a)
    ensures Holds(Coming(q), Coming(Drain(q)), a, b)
  {
    var due, later := Due(q.delayed, q.clock), Later(q.delayed, q.clock);
    assert q.delayed == due + later;
    MessagesOfSum(due, later);
    HoldsLive(Messages(due), a, b);
    HoldsInTwo(q.line, Messages(due), q.line, Live(Messages(due)), a, b);
    HoldsInTwo(q.line + Messages(due), Messages(later), q.line + Live(Messages(due)), Messages(later), a, b);
    Associative(q.line, Messages(due), Messages(later));
  }

  lemma PerformHolds(q: Queue, act: Act, a: Message, b: Message)
    requires Sound(q) && Fair([act], a, b)
    ensures Holds(Coming(q), Coming(Perform(q, act)), a, b)
  {
    assert [act][0] == act;
    match act
    case DoPost(m) => EnqueueHolds(q, m, a, b);
    case LatePost(m) => EnqueueHolds(q, m, a, b);
    case DoPostDelayed(trigger, m) => EnqueueDelayedHolds(q, trigger, m, a, b);
    case LatePostDelayed(trigger, m) => EnqueueDelayedHolds(q, trigger, m, a, b);
    case DoClear(handler, id) => ClearHolds(q, handler, id, a, b);
    case DoQuit =>
  }

  lemma {:induction false} PerformAllHolds(q: Queue, acts: seq<Act>, a: Message, b: Message)
    requires Sound(q) && Fair(acts, a, b)
    ensures Holds(Coming(q), Coming(PerformAll(q, acts)), a, b)
    decreases |acts|
  {
    if acts != [] {
      assert [acts[0]][0] == acts[0];
      PerformHolds(q, acts[0], a, b);
      PerformBalances(q, acts[0]);
      PerformAllHolds(Perform(q, acts[0]), acts[1..], a, b);
    }
  }

  lemma LookHolds(q: Queue, a: Message, b: Message)
    requires !IsDisposal(a)
    ensures Holds(Coming(q), Coming(Take(Drain(q)).1), a, b)
  {
    DrainHolds(q, a, b);
    TakeKeepsLine(Drain(q));
  }

  lemma SoundLater(q: Queue, ms: nat)
    requires Sound(q)
    ensures Sound(q.(clock := q.clock + ms)) && Coming(q.(clock := q.clock + ms)) == Coming(q)
  {
  }

  lemma AfterLookHolds(m: Option<Message>, q: Queue, wait: Patience, elapsed: nat, turns: seq<Turn>,
      a: Message, b: Message)
    requires (m.None? ==> Sound(q) && q.peek.None?) && FairTurns(turns, a, b)
    ensures Holds(Coming(q), Coming(AfterLook(m, q, wait, elapsed, turns).q), a, b)
  {
    hide PerformAll, Led, Accounted, InLine, WellOrdered;
    if m.None? && turns != [] {
      var q1 := PerformAll(q, turns[0].before);
      PerformAllHolds(q, turns[0].before, a, b);
      PerformAllBalances(q, turns[0].before);
      var q2 := q1.(clock := q1.clock + turns[0].elapsed);
      SoundLater(q1, turns[0].elapsed);
      PerformAllHolds(q2, turns[0].acts, a, b);
    }
  }

  lemma RoundHolds(q: Queue, wait: Patience, elapsed: nat, turns: seq<Turn>, a: Message, b: Message)
    requires Sound(q) && q.peek.None? && !IsDisposal(a) && FairTurns(turns, a, b)
    ensures Holds(Coming(q), Coming(OneRound(q, wait, elapsed, turns).q), a, b)
  {
    var (m, q1) := Take(Drain(q));
    LookHolds(q, a, b);
    DrainBalances(q);
    TakeBalances(Drain(q));
    AfterLookHolds(m, q1, wait, elapsed, turns, a, b);
  }

  lemma {:induction false} FetchHolds(q: Queue, wait: Patience, elapsed: nat, turns: seq<Turn>, a: Message, b: Message)
    requires Sound(q) && q.peek.None? && !IsDisposal(a) && FairTurns(turns, a, b)
    ensures Holds(Coming(q), Coming(Fetch(q, wait, elapsed, turns).1), a, b)
    decreases |turns|
  {
    RoundHolds(q, wait, elapsed, turns, a, b);
    RoundBalances(q, wait, elapsed, turns);
    match OneRound(q, wait, elapsed, turns)
    case Return(_, _) =>
    case Again(q') => FetchHolds(q', wait, elapsed + turns[0].elapsed, turns[1..], a, b);
  }

  lemma StepHolds(q: Queue, call: Call, a: Message, b: Message)
    requires Sound(q) && !IsDisposal(a) && FairCall(call, a, b)
    ensures Holds(Coming(q), Coming(Step(q, call)), a, b)
  {
    match call
    case CallAct(act) => PerformHolds(q, act, a, b);
    case CallGet(wait, turns) =>
      if q.peek.None? { FetchHolds(q, wait, 0, turns, a, b); }
    case CallPeek(wait, turns) =>
      if q.peek.None? { FetchHolds(q, wait, 0, turns, a, b); }
    case CallRestart =>
    case PassTime(_) =>
  }

  lemma {:induction false} RunHolds(q: Queue, calls: seq<Call>, a: Message, b: Message)
    requires Sound(q) && !IsDisposal(a) && FairCalls(calls, a, b)
    ensures Sound(Run(q, calls)) && Holds(Coming(q), Coming(Run(q, calls)), a, b)
    decreases |calls|
  {
    if calls != [] {
      StepHolds(q, calls[0], a, b);
      StepBalances(q, calls[0]);
      RunHolds(Step(q, calls[0]), calls[1..], a, b);
    }
  }

  // What is handed out is the beginning of what is coming.
  lemma DeliveredInOrder(q: Queue, a: Message, b: Message)
    requires Sound(q) && Led(Coming(q), a, b)
    ensures Led(q.delivered, a, b)
  {
    var rest := Peeked(q) + Live(q.ready) + Messages(q.delayed);
    assert Coming(q) == q.delivered + rest;
    LedInTwo(q.delivered, rest, a, b);
  }

  lemma {:induction false} MessageAt(s: seq<Delayed>, i: nat)
    requires i < |s|
    ensures Messages(s)[i] == s[i].msg
    decreases |s|
  {
    if i > 0 { MessageAt(s[1..], i - 1); }
  }

  // Nothing but e has the message b, and d is before e.
  lemma {:induction false} LedByEntry(s: seq<Delayed>, i: nat, j: nat)
    requires i < j < |s| && forall k :: 0 <= k < |s| && s[k].msg == s[j].msg ==> k == j
    ensures Led(Messages(s), s[i].msg, s[j].msg)
  {
    var r := Messages(s);
    forall k | 0 <= k < |r| ensures r[k] == s[k].msg { MessageAt(s, k); }
    assert r[..j][i] == s[i].msg;
  }

  /** Of two delayed messages the one with the earlier trigger time, or with the same and posted
      first, is handed out first, over every run: whenever the other one has been handed out, it
      has been before. It must not be cleared, and the other one not posted once more. */
  lemma EarlierFirst(q: Queue, calls: seq<Call>, d: Delayed, e: Delayed)
    requires Sound(q) && d in q.delayed && e in q.delayed && !IsDisposal(d.msg)
    requires d.msTrigger < e.msTrigger || (d.msTrigger == e.msTrigger && d.num < e.num)
    requires e.msg !in q.line && forall x :: x in q.delayed && x.msg == e.msg ==> x == e
    requires FairCalls(calls, d.msg, e.msg)
    ensures Led(Run(q, calls).delivered, d.msg, e.msg)
  {
    var i :| 0 <= i < |q.delayed| && q.delayed[i] == d;
    var j :| 0 <= j < |q.delayed| && q.delayed[j] == e;
    EarlierInPlace(q.delayed, i, j);
    LedByEntry(q.delayed, i, j);
    LedInTwo(q.line, Messages(q.delayed), d.msg, e.msg);
    RunHolds(q, calls, d.msg, e.msg);
    DeliveredInOrder(Run(q, calls), d.msg, e.msg);
  }

  lemma {:induction false} EarlierInPlace(s: seq<Delayed>, i: nat, j: nat)
    requires Ordered(s) && i < |s| && j < |s|
    requires s[i].msTrigger < s[j].msTrigger || (s[i].msTrigger == s[j].msTrigger && s[i].num < s[j].num)
    ensures i < j && forall k :: 0 <= k < |s| && s[k] == s[j] ==> k == j
  {
  }
}
