/** The laws of the message queue: conservation, order, timing, selective removal and quit. */
module QueueLaws {
  import opened DelayedHeap
  import opened QueueModel
  import opened Wrappers

  lemma {:induction false} LiveOfSum(a: seq<Message>, b: seq<Message>)
    ensures Live(a + b) == Live(a) + Live(b)
  {
    if a == [] {
      assert a + b == b;
    } else {
      assert (a + b)[1..] == a[1..] + b;
      LiveOfSum(a[1..], b);
    }
  }

  lemma {:induction false} MessagesOfSum(a: seq<Delayed>, b: seq<Delayed>)
    ensures Messages(a + b) == Messages(a) + Messages(b)
  {
    if a == [] {
      assert a + b == b;
    } else {
      assert (a + b)[1..] == a[1..] + b;
      MessagesOfSum(a[1..], b);
    }
  }

  lemma {:induction false} CountOfSum(a: seq<Message>, b: seq<Message>, x: Message)
    ensures Count(a + b, x) == Count(a, x) + Count(b, x)
  {
    if a == [] {
      assert a + b == b;
    } else {
      assert (a + b)[1..] == a[1..] + b;
      CountOfSum(a[1..], b, x);
    }
  }

  lemma {:induction false} PickSplits(s: seq<Message>, handler: nat, id: nat, x: Message)
    ensures Count(s, x) == Count(Pick(s, handler, id, true), x) + Count(Pick(s, handler, id, false), x)
  {
    if s != [] {
      PickSplits(s[1..], handler, id, x);
      CountOfSum([s[0]], Pick(s[1..], handler, id, Match(s[0], handler, id)), x);
      assert [] + Pick(s[1..], handler, id, !Match(s[0], handler, id)) == Pick(s[1..], handler, id, !Match(s[0], handler, id));
    }
  }

  lemma {:induction false} PickDelayedSplits(s: seq<Delayed>, handler: nat, id: nat, x: Message)
    ensures Count(Messages(s), x) == Count(Messages(PickDelayed(s, handler, id, true)), x)
                                     + Count(Messages(PickDelayed(s, handler, id, false)), x)
  {
    if s != [] {
      PickDelayedSplits(s[1..], handler, id, x);
      var matching := Match(s[0].msg, handler, id);
      var rest := PickDelayed(s[1..], handler, id, matching);
      assert ([s[0]] + rest)[1..] == rest;
      assert [] + PickDelayed(s[1..], handler, id, !matching) == PickDelayed(s[1..], handler, id, !matching);
    }
  }

  // What is picked comes from the list.
  lemma {:induction false} PickDelayedMembers(s: seq<Delayed>, handler: nat, id: nat, matching: bool, d: Delayed)
    requires d in PickDelayed(s, handler, id, matching)
    ensures d in s && Match(d.msg, handler, id) == matching
  {
    if s != [] && d in PickDelayed(s[1..], handler, id, matching) {
      PickDelayedMembers(s[1..], handler, id, matching, d);
    }
  }

  lemma {:induction false} PickMembers(s: seq<Message>, handler: nat, id: nat, matching: bool, m: Message)
    requires m in Pick(s, handler, id, matching)
    ensures m in s && Match(m, handler, id) == matching
  {
    if s != [] && m in Pick(s[1..], handler, id, matching) { PickMembers(s[1..], handler, id, matching, m); }
  }

  lemma {:induction false} PickDelayedOrdered(s: seq<Delayed>, handler: nat, id: nat, matching: bool)
    requires Ordered(s)
    ensures Ordered(PickDelayed(s, handler, id, matching))
  {
    if s != [] {
      var rest := PickDelayed(s[1..], handler, id, matching);
      PickDelayedOrdered(s[1..], handler, id, matching);
      forall k | 0 <= k < |rest|
        ensures Before(s[0], rest[k])
      {
        PickDelayedMembers(s[1..], handler, id, matching, rest[k]);
        var j :| 0 <= j < |s[1..]| && s[1..][j] == rest[k];
        assert Before(s[0], s[j + 1]);
      }
    }
  }

  lemma {:induction false} InsertOrdered(s: seq<Delayed>, d: Delayed)
    requires Ordered(s) && forall k :: 0 <= k < |s| ==> s[k].num != d.num
    ensures Ordered(Insert(s, d))
    ensures forall k :: 0 <= k < |Insert(s, d)| ==> Insert(s, d)[k] == d || Insert(s, d)[k] in s
  {
    if s != [] && !Before(d, s[0]) {
      var rest := Insert(s[1..], d);
      InsertOrdered(s[1..], d);
      FirstIsBefore(s, d, rest);
      OrderedFrom(s[0], rest);
    }
  }

  lemma FirstIsBefore(s: seq<Delayed>, d: Delayed, rest: seq<Delayed>)
    requires Ordered(s) && s != [] && Before(s[0], d)
    requires forall k :: 0 <= k < |rest| ==> rest[k] == d || rest[k] in s[1..]
    ensures forall k :: 0 <= k < |rest| ==> Before(s[0], rest[k])
  {
    forall k | 0 <= k < |rest| && rest[k] != d
      ensures Before(s[0], rest[k])
    {
      var j :| 0 <= j < |s[1..]| && s[1..][j] == rest[k];
      assert Before(s[0], s[j + 1]);
    }
  }

  lemma OrderedFrom(first: Delayed, rest: seq<Delayed>)
    requires Ordered(rest) && forall k :: 0 <= k < |rest| ==> Before(first, rest[k])
    ensures Ordered([first] + rest)
  {
  }

  lemma {:induction false} MessagesInserted(s: seq<Delayed>, d: Delayed, x: Message)
    ensures Count(Messages(Insert(s, d)), x) == Count(Messages(s), x) + Count([d.msg], x)
  {
    if s == [] || Before(d, s[0]) {
      assert ([d] + s)[1..] == s;
    } else {
      MessagesInserted(s[1..], d, x);
      assert ([s[0]] + Insert(s[1..], d))[1..] == Insert(s[1..], d);
    }
  }

  /** Never early, and nothing that is due is left behind; since the list is in (trigger, num)
      order, so are the messages that become ready. */
  lemma {:induction false} DueIsExact(s: seq<Delayed>, now: nat)
    requires Ordered(s)
    ensures forall k :: 0 <= k < |s| ==> (s[k].msTrigger <= now <==> k < DueCount(s, now))
  {
    if s != [] && s[0].msTrigger <= now {
      assert Ordered(s[1..]);
      DueIsExact(s[1..], now);
      assert forall k :: 0 < k < |s| ==> s[k] == s[1..][k - 1];
    } else {
      assert forall k :: 0 < k < |s| ==> Before(s[0], s[k]);
    }
  }

  // Conservation, operation by operation.

  lemma PostBalances(q: Queue, m: Message)
    requires Sound(q)
    ensures Sound(Enqueue(q, m)) && Sound(Post(q, m))
  {
    LiveOfSum(q.ready, [m]);
    EnqueueAccounts(q, Enqueue(q, m), m);
  }

  lemma EnqueueAccounts(q: Queue, q': Queue, m: Message)
    requires Accounted(q, []) && q' == Enqueue(q, m)
    ensures Accounted(q', [])
  {
    forall x ensures Count(q'.posted, x) == Places(q', x) + Count([], x) {
      assert Count(q.posted, x) == Places(q, x) + Count([], x);
      CountOfSum(q.ready, [m], x);
      CountOfSum(q.posted, [m], x);
    }
  }

  lemma PostDelayedBalances(q: Queue, trigger: nat, m: Message)
    requires Sound(q)
    ensures Sound(EnqueueDelayed(q, trigger, m)) && Sound(PostDelayed(q, trigger, m))
  {
    var d, q' := Delayed(trigger, q.next, m), EnqueueDelayed(q, trigger, m);
    forall x ensures Count(q'.posted, x) == Places(q', x) + Count([], x) {
      CountOfSum(q.posted, [m], x);
      MessagesInserted(q.delayed, d, x);
    }
    InsertOrdered(q.delayed, d);
  }

  lemma ClearBalances(q: Queue, handler: nat, id: nat)
    requires Sound(q)
    ensures Sound(Clear(q, handler, id))
  {
    ClearAccounted(q, handler, id);
    ClearKeepsOrder(q, handler, id);
    assert Peeked(Clear(q, handler, id)) == Pick(Peeked(q), handler, id, false);
  }

  lemma ClearAccounted(q: Queue, handler: nat, id: nat)
    requires Accounted(q, [])
    ensures Accounted(Clear(q, handler, id), [])
  {
    var q' := Clear(q, handler, id);
    forall x ensures Count(q'.posted, x) == Places(q', x) + Count([], x) {
      ClearPlaces(q, handler, id, x);
      assert Count(q.posted, x) == Places(q, x) + Count([], x);
    }
  }

  lemma ClearKeepsOrder(q: Queue, handler: nat, id: nat)
    requires WellOrdered(q)
    ensures WellOrdered(Clear(q, handler, id))
  {
    PickDelayedOrdered(q.delayed, handler, id, false);
    var kept := PickDelayed(q.delayed, handler, id, false);
    forall k | 0 <= k < |kept|
      ensures kept[k].num < q.next
    {
      PickDelayedMembers(q.delayed, handler, id, false, kept[k]);
    }
  }

  lemma ClearPlaces(q: Queue, handler: nat, id: nat, x: Message)
    ensures Places(Clear(q, handler, id), x) == Places(q, x)
  {
    PickSplits(Peeked(q), handler, id, x);
    PickSplits(q.ready, handler, id, x);
    PickDelayedSplits(q.delayed, handler, id, x);
    var slot, ready := Pick(Peeked(q), handler, id, true), Pick(q.ready, handler, id, true);
    var delayed := Messages(PickDelayed(q.delayed, handler, id, true));
    CountOfSum(slot, ready, x);
    CountOfSum(slot + ready, delayed, x);
    CountOfSum(q.cleared, Removed(q, handler, id), x);
    assert Peeked(Clear(q, handler, id)) == Pick(Peeked(q), handler, id, false);
  }

  lemma DrainPlaces(q: Queue, x: Message)
    ensures Places(Drain(q), x) == Places(q, x)
  {
    var due, later := Due(q.delayed, q.clock), Later(q.delayed, q.clock);
    assert q.delayed == due + later;
    MessagesOfSum(due, later);
    CountOfSum(Messages(due), Messages(later), x);
    CountOfSum(q.ready, Messages(due), x);
  }

  lemma DrainBalances(q: Queue)
    requires Sound(q)
    ensures Sound(Drain(q))
  {
    DrainKeepsLine(q, Messages(Due(q.delayed, q.clock)));
    DrainAccounts(q, Drain(q));
  }

  lemma DrainAccounts(q: Queue, q': Queue)
    requires Accounted(q, []) && q' == Drain(q)
    ensures Accounted(q', [])
  {
    forall x ensures Count(q.posted, x) == Places(q', x) + Count([], x) {
      assert Count(q.posted, x) == Places(q, x) + Count([], x);
      DrainPlaces(q, x);
    }
  }

  lemma DrainKeepsLine(q: Queue, due: seq<Message>)
    requires InLine(q, []) && due == Messages(Due(q.delayed, q.clock))
    ensures InLine(Drain(q), [])
  {
    LiveOfSum(q.ready, due);
  }

  lemma DisposalBalances(q: Queue)
    requires Sound(q) && q.ready != [] && IsDisposal(q.ready[0])
    ensures Sound(q.(ready := q.ready[1..], disposed := q.disposed + [q.ready[0]]))
  {
    var m := q.ready[0];
    var q' := q.(ready := q.ready[1..], disposed := q.disposed + [m]);
    forall x ensures Count(q.posted, x) == Places(q', x) + Count([], x) {
      CountOfSum(q.disposed, [m], x);
    }
  }

  lemma {:induction false} TakeBalances(q: Queue)
    requires Sound(q) && q.peek.None?
    ensures var (m, q') := Take(q);
            q'.peek.None? && Balanced(q', if m.Some? then [m.value] else [])
    decreases |q.ready|
  {
    if q.ready != [] {
      if IsDisposal(q.ready[0]) {
        DisposalBalances(q);
        TakeBalances(q.(ready := q.ready[1..], disposed := q.disposed + [q.ready[0]]));
      } else {
        var m, q' := q.ready[0], q.(ready := q.ready[1..]);
        assert q.line == q.delivered + [m] + Peeked(q') + Live(q'.ready);
        assert forall x :: Places(q, x) == Places(q', x) + Count([m], x);
      }
    }
  }

  lemma PerformBalances(q: Queue, act: Act)
    requires Sound(q)
    ensures Sound(Perform(q, act))
  {
    match act
    case DoPost(m) => PostBalances(q, m);
    case DoPostDelayed(trigger, m) => PostDelayedBalances(q, trigger, m);
    case LatePost(m) => PostBalances(q, m);
    case LatePostDelayed(trigger, m) => PostDelayedBalances(q, trigger, m);
    case DoClear(handler, id) => ClearBalances(q, handler, id);
    case DoQuit =>
  }

  lemma {:induction false} PerformAllBalances(q: Queue, acts: seq<Act>)
    requires Sound(q)
    ensures Sound(PerformAll(q, acts))
    ensures q.peek.None? ==> PerformAll(q, acts).peek.None?
    decreases |acts|
  {
    if acts != [] {
      PerformBalances(q, acts[0]);
      PerformAllBalances(Perform(q, acts[0]), acts[1..]);
    }
  }

  lemma RoundBalances(q: Queue, wait: Patience, elapsed: nat, turns: seq<Turn>)
    requires Sound(q) && q.peek.None?
    ensures match OneRound(q, wait, elapsed, turns)
            case Return(m, q') => q'.peek.None? && Balanced(q', if m.Some? then [m.value] else [])
            case Again(q') => q'.peek.None? && Sound(q')
  {
    DrainBalances(q);
    TakeBalances(Drain(q));
    var (m, q1) := Take(Drain(q));
    if m.None? && turns != [] {
      PerformAllBalances(q1, turns[0].before);
      WaitBalances(PerformAll(q1, turns[0].before), wait, elapsed, turns[0]);
    }
  }

  lemma WaitBalances(q: Queue, wait: Patience, elapsed: nat, turn: Turn)
    requires Sound(q) && q.peek.None?
    ensures AfterWait(q, wait, elapsed, turn).q.peek.None? && Sound(AfterWait(q, wait, elapsed, turn).q)
  {
    var q' := q.(clock := q.clock + turn.elapsed);
    assert Sound(q');
    PerformAllBalances(q', turn.acts);
  }

  lemma {:induction false} FetchBalances(q: Queue, wait: Patience, elapsed: nat, turns: seq<Turn>)
    requires Sound(q) && q.peek.None?
    ensures var (m, q') := Fetch(q, wait, elapsed, turns);
            q'.peek.None? && Balanced(q', if m.Some? then [m.value] else [])
    decreases |turns|
  {
    RoundBalances(q, wait, elapsed, turns);
    match OneRound(q, wait, elapsed, turns)
    case Return(_, _) =>
    case Again(q') => FetchBalances(q', wait, elapsed + turns[0].elapsed, turns[1..]);
  }

  lemma StepBalances(q: Queue, call: Call)
    requires Sound(q)
    ensures Sound(Step(q, call))
  {
    match call
    case CallAct(act) => PerformBalances(q, act);
    case CallGet(wait, turns) =>
      if q.peek.None? {
        FetchBalances(q, wait, 0, turns);
        var (m, q') := Fetch(q, wait, 0, turns);
        if m.Some? { HandedOut(q', m.value); }
      } else {
        HandedOut(q.(peek := None), q.peek.value);
      }
    case CallPeek(wait, turns) =>
      if q.peek.None? { FetchBalances(q, wait, 0, turns); }
    case CallRestart =>
    case PassTime(ms) =>
  }

  lemma HandedOut(q: Queue, m: Message)
    requires Balanced(q, [m]) && q.peek.None?
    ensures Sound(q.(delivered := q.delivered + [m]))
  {
    var q' := q.(delivered := q.delivered + [m]);
    forall x ensures Count(q.posted, x) == Places(q', x) + Count([], x) {
      CountOfSum(q.delivered, [m], x);
    }
  }

  /** In every run, every message that has been posted is in exactly one place: delivered,
      cleared, disposed, or pending in the slot or one of the lists; and the delivered
      messages are the first of the line, in the line's order. */
  lemma {:induction false} RunConserves(q: Queue, calls: seq<Call>)
    requires Sound(q)
    ensures var q' := Run(q, calls);
            && Sound(q')
            && (forall x :: Count(q'.posted, x) == Places(q', x))
            && q'.delivered <= q'.line
    decreases |calls|
  {
    if calls != [] {
      StepBalances(q, calls[0]);
      RunConserves(Step(q, calls[0]), calls[1..]);
    }
  }

  // Order of delivery.

  predicate NoClear(calls: seq<Call>) {
    forall k :: 0 <= k < |calls| ==>
      match calls[k]
      case CallAct(act) => !act.DoClear?
      case CallGet(_, turns) => QuietTurns(turns)
      case CallPeek(_, turns) => QuietTurns(turns)
      case _ => true
  }

  predicate QuietActs(acts: seq<Act>) { forall i :: 0 <= i < |acts| ==> !acts[i].DoClear? }

  predicate QuietTurns(turns: seq<Turn>) {
    forall i :: 0 <= i < |turns| ==> QuietActs(turns[i].before) && QuietActs(turns[i].acts)
  }

  lemma {:induction false} TakeKeepsLine(q: Queue)
    ensures Take(q).1.line == q.line && Take(q).1.stopped == q.stopped && Take(q).1.delivered == q.delivered
    ensures Take(q).1.delayed == q.delayed && Take(q).1.clock == q.clock && Take(q).1.peek == q.peek
    decreases |q.ready|
  {
    if q.ready != [] && IsDisposal(q.ready[0]) {
      TakeKeepsLine(q.(ready := q.ready[1..], disposed := q.disposed + [q.ready[0]]));
    }
  }

  lemma {:induction false} PerformAllGrows(q: Queue, acts: seq<Act>)
    requires QuietActs(acts)
    ensures q.line <= PerformAll(q, acts).line && PerformAll(q, acts).delivered == q.delivered
    decreases |acts|
  {
    if acts != [] { PerformAllGrows(Perform(q, acts[0]), acts[1..]); }
  }

  lemma RoundGrows(q: Queue, wait: Patience, elapsed: nat, turns: seq<Turn>)
    requires QuietTurns(turns)
    ensures var q' := OneRound(q, wait, elapsed, turns).q;
            q.line <= q'.line && q'.delivered == q.delivered
  {
    TakeKeepsLine(Drain(q));
    var (m, q1) := Take(Drain(q));
    if m.None? && turns != [] {
      var q2 := PerformAll(q1, turns[0].before);
      PerformAllGrows(q1, turns[0].before);
      PerformAllGrows(q2.(clock := q2.clock + turns[0].elapsed), turns[0].acts);
    }
  }

  lemma {:induction false} FetchGrows(q: Queue, wait: Patience, elapsed: nat, turns: seq<Turn>)
    requires QuietTurns(turns)
    ensures q.line <= Fetch(q, wait, elapsed, turns).1.line
    ensures Fetch(q, wait, elapsed, turns).1.delivered == q.delivered
    decreases |turns|
  {
    RoundGrows(q, wait, elapsed, turns);
    match OneRound(q, wait, elapsed, turns)
    case Return(_, _) =>
    case Again(q') => FetchGrows(q', wait, elapsed + turns[0].elapsed, turns[1..]);
  }

  /** First in, first out, over whole runs: while nothing is cleared, the line only grows at
      its end, so a message that became ready before another is handed out before it. */
  lemma {:induction false} RunIsFifo(q: Queue, calls: seq<Call>)
    requires Sound(q) && NoClear(calls)
    ensures var q' := Run(q, calls);
            q.line <= q'.line && q'.delivered <= q'.line &&
            |q'.delivered| >= |q.delivered|
    decreases |calls|
  {
    if calls != [] {
      var q1 := Step(q, calls[0]);
      StepBalances(q, calls[0]);
      StepGrows(q, calls[0]);
      assert NoClear(calls[1..]) by {
        assert forall k :: 0 <= k < |calls[1..]| ==> calls[1..][k] == calls[k + 1];
      }
      RunIsFifo(q1, calls[1..]);
    }
  }

  lemma StepGrows(q: Queue, call: Call)
    requires NoClear([call])
    ensures q.line <= Step(q, call).line && q.delivered <= Step(q, call).delivered
  {
    assert [call][0] == call;
    match call
    case CallAct(act) =>
    case CallGet(wait, turns) =>
      FetchGrows(q, wait, 0, turns);
    case CallPeek(wait, turns) =>
      FetchGrows(q, wait, 0, turns);
    case CallRestart =>
    case PassTime(ms) =>
  }

  // What Get and Peek return.

  lemma {:induction false} TakeIsFirstLive(q: Queue)
    ensures var (m, q') := Take(q);
            if Live(q.ready) == [] then m.None? && q'.ready == []
            else m == Some(Live(q.ready)[0]) && Live(q'.ready) == Live(q.ready)[1..]
                 && m.value.message_id != 0xFFFF_FFFE
    decreases |q.ready|
  {
    if q.ready != [] && IsDisposal(q.ready[0]) {
      TakeIsFirstLive(q.(ready := q.ready[1..], disposed := q.disposed + [q.ready[0]]));
      assert Live(q.ready) == Live(q.ready[1..]);
    }
  }

  // The live messages that could be handed out right now, in order.
  function Available(q: Queue): seq<Message> {
    Live(q.ready + Messages(Due(q.delayed, q.clock)))
  }

  /** When something is available, Get returns the first of it at once, without waiting; what
      remains available is the rest. */
  lemma GetReturnsFirstAvailable(q: Queue, wait: Patience, turns: seq<Turn>)
    requires q.peek.None? && Available(q) != []
    ensures var (m, q') := Get(q, wait, turns);
            && m == Some(Available(q)[0])
            && Live(q'.ready) == Available(q)[1..]
            && q'.delayed == Later(q.delayed, q.clock) && q'.clock == q.clock
            && q'.delivered == q.delivered + [m.value]
  {
    TakeIsFirstLive(Drain(q));
    TakeKeepsLine(Drain(q));
  }

  // What a Clear leaves in the queue is what a test spares.
  ghost predicate Spares(q: Queue, q': Queue, spared: Message -> bool) {
    && q'.peek == (if q.peek.Some? && spared(q.peek.value) then q.peek else None)
    && (forall m :: m in q'.ready <==> m in q.ready && spared(m))
    && (forall d :: d in q'.delayed <==> d in q.delayed && spared(d.msg))
  }

  lemma {:induction false} PickKeeps(s: seq<Message>, handler: nat, id: nat, m: Message)
    requires m in s && !Match(m, handler, id)
    ensures m in Pick(s, handler, id, false)
  {
    if m != s[0] {
      assert s == [s[0]] + s[1..];
      PickKeeps(s[1..], handler, id, m);
    }
  }

  lemma {:induction false} PickDelayedKeeps(s: seq<Delayed>, handler: nat, id: nat, d: Delayed)
    requires d in s && !Match(d.msg, handler, id)
    ensures d in PickDelayed(s, handler, id, false)
  {
    if d != s[0] {
      assert s == [s[0]] + s[1..];
      PickDelayedKeeps(s[1..], handler, id, d);
    }
  }

  lemma ClearSpares(q: Queue, handler: nat, id: nat, spared: Message -> bool)
    requires forall m :: spared(m) <==> !Match(m, handler, id)
    ensures Spares(q, Clear(q, handler, id), spared)
  {
    var q' := Clear(q, handler, id);
    if q.peek.Some? {
      var slot := Peeked(q);
      assert slot[1..] == [] && Pick(slot[1..], handler, id, false) == [];
      assert Pick(slot, handler, id, false) == if spared(slot[0]) then slot else [];
    }
    forall m | m in q.ready || m in q'.ready
      ensures m in q'.ready <==> m in q.ready && spared(m)
    {
      if m in q'.ready { PickMembers(q.ready, handler, id, false, m); }
      else if spared(m) { PickKeeps(q.ready, handler, id, m); }
    }
    forall d | d in q.delayed || d in q'.delayed
      ensures d in q'.delayed <==> d in q.delayed && spared(d.msg)
    {
      if d in q'.delayed { PickDelayedMembers(q.delayed, handler, id, false, d); }
      else if spared(d.msg) { PickDelayedKeeps(q.delayed, handler, id, d); }
    }
  }

  /** What the two arguments of Clear select: no handler stands for every handler, MQID_ANY for
      every message_id, and both together empty the queue. */
  lemma ClearSelects(q: Queue, handler: nat, id: nat)
    ensures Spares(q, Clear(q, 0, 0xFFFF_FFFF), (m: Message) => false)
    ensures handler != 0 ==> Spares(q, Clear(q, handler, 0xFFFF_FFFF), (m: Message) => m.phandler != handler)
    ensures id != 0xFFFF_FFFF ==> Spares(q, Clear(q, 0, id), (m: Message) => m.message_id != id)
    ensures handler != 0 && id != 0xFFFF_FFFF ==>
              Spares(q, Clear(q, handler, id), (m: Message) => m.phandler != handler || m.message_id != id)
  {
    hide Spares, Clear;
    ClearSpares(q, 0, MQID_ANY, (m: Message) => false);
    if handler != 0 { ClearSpares(q, handler, MQID_ANY, (m: Message) => m.phandler != handler); }
    if id != MQID_ANY { ClearSpares(q, 0, id, (m: Message) => m.message_id != id); }
    if handler != 0 && id != MQID_ANY {
      ClearSpares(q, handler, id, (m: Message) => m.phandler != handler || m.message_id != id);
    }
  }

  /** Selective removal is exact: what is taken out all matches, and nothing that matches
      stays behind; what stays keeps its order (`Pick` and `PickDelayed` are filters). */
  lemma ClearIsExact(q: Queue, handler: nat, id: nat)
    ensures forall m :: m in Removed(q, handler, id) ==> Match(m, handler, id)
    ensures var q' := Clear(q, handler, id);
            && (q'.peek.Some? ==> !Match(q'.peek.value, handler, id))
            && (forall m :: m in q'.ready ==> !Match(m, handler, id))
            && (forall d :: d in q'.delayed ==> !Match(d.msg, handler, id))
            && (forall x :: Count(q'.cleared, x) == Count(q.cleared, x) + Count(Removed(q, handler, id), x))
  {
    var q' := Clear(q, handler, id);
    forall m | m in Removed(q, handler, id)
      ensures Match(m, handler, id)
    {
      if m in Pick(Peeked(q), handler, id, true) {
        PickMembers(Peeked(q), handler, id, true, m);
      } else if m in Pick(q.ready, handler, id, true) {
        PickMembers(q.ready, handler, id, true, m);
      } else {
        MessagesMatch(q.delayed, handler, id, m);
      }
    }
    if q'.peek.Some? {
      assert Peeked(q)[1..] == [] && Pick(Peeked(q), handler, id, false) == [q.peek.value];
      PickMembers(Peeked(q), handler, id, false, q.peek.value);
    }
    forall m | m in q'.ready ensures !Match(m, handler, id) { PickMembers(q.ready, handler, id, false, m); }
    forall d | d in q'.delayed ensures !Match(d.msg, handler, id) { PickDelayedMembers(q.delayed, handler, id, false, d); }
    forall x ensures Count(q'.cleared, x) == Count(q.cleared, x) + Count(Removed(q, handler, id), x) {
      CountOfSum(q.cleared, Removed(q, handler, id), x);
    }
  }

  lemma {:induction false} MessagesMatch(s: seq<Delayed>, handler: nat, id: nat, m: Message)
    requires m in Messages(PickDelayed(s, handler, id, true))
    ensures Match(m, handler, id)
  {
    if s != [] {
      var rest := PickDelayed(s[1..], handler, id, true);
      if Match(s[0].msg, handler, id) {
        assert ([s[0]] + rest)[1..] == rest;
        if m != s[0].msg { MessagesMatch(s[1..], handler, id, m); }
      } else {
        assert [] + rest == rest;
        MessagesMatch(s[1..], handler, id, m);
      }
    }
  }

  lemma {:induction false} PickOfSum(a: seq<Message>, b: seq<Message>, handler: nat, id: nat)
    ensures Pick(a + b, handler, id, false) == Pick(a, handler, id, false) + Pick(b, handler, id, false)
  {
    if a == [] {
      assert a + b == b;
    } else {
      assert (a + b)[1..] == a[1..] + b;
      PickOfSum(a[1..], b, handler, id);
    }
  }

  lemma {:induction false} LiveOfPick(s: seq<Message>, handler: nat, id: nat)
    ensures Live(Pick(s, handler, id, false)) == Pick(Live(s), handler, id, false)
  {
    if s != [] {
      LiveOfPick(s[1..], handler, id);
      var rest := Pick(s[1..], handler, id, false);
      assert ([s[0]] + rest)[1..] == rest && [] + rest == rest;
      assert ([s[0]] + Live(s[1..]))[1..] == Live(s[1..]) && [] + Live(s[1..]) == Live(s[1..]);
    }
  }

  lemma {:induction false} MessagesOfPick(s: seq<Delayed>, handler: nat, id: nat)
    ensures Messages(PickDelayed(s, handler, id, false)) == Pick(Messages(s), handler, id, false)
  {
    if s != [] {
      MessagesOfPick(s[1..], handler, id);
      var rest := PickDelayed(s[1..], handler, id, false);
      assert ([s[0]] + rest)[1..] == rest && [] + rest == rest;
      assert ([s[0].msg] + Messages(s[1..]))[1..] == Messages(s[1..]);
    }
  }

  lemma {:induction false} NoneDue(s: seq<Delayed>, now: nat)
    requires Ordered(s) && s != [] && s[0].msTrigger > now
    ensures forall k :: 0 <= k < |s| ==> s[k].msTrigger > now
  {
    assert forall k :: 0 < k < |s| ==> Before(s[0], s[k]);
  }

  lemma {:induction false} DueOfPick(s: seq<Delayed>, handler: nat, id: nat, now: nat)
    requires Ordered(s)
    ensures Due(PickDelayed(s, handler, id, false), now) == PickDelayed(Due(s, now), handler, id, false)
  {
    if s == [] {
    } else if s[0].msTrigger > now {
      var kept := PickDelayed(s, handler, id, false);
      if kept != [] {
        PickDelayedMembers(s, handler, id, false, kept[0]);
        NoneDue(s, now);
      }
    } else {
      assert Ordered(s[1..]);
      DueOfPick(s[1..], handler, id, now);
      var rest := PickDelayed(s[1..], handler, id, false);
      assert ([s[0]] + rest)[1..] == rest && [] + rest == rest;
      assert Due(s, now) == [s[0]] + Due(s[1..], now);
      assert ([s[0]] + Due(s[1..], now))[1..] == Due(s[1..], now);
      if !Match(s[0].msg, handler, id) {
        assert Due([s[0]] + rest, now) == [s[0]] + Due(rest, now);
      }
    }
  }

  /** After Clear, deliveries are those of the filtered queue: what can be handed out next is
      what could be handed out before, without the matching messages, in the same order. */
  lemma ClearFiltersAvailable(q: Queue, handler: nat, id: nat)
    requires Ordered(q.delayed)
    ensures Available(Clear(q, handler, id)) == Pick(Available(q), handler, id, false)
  {
    var due := Due(q.delayed, q.clock);
    DueOfPick(q.delayed, handler, id, q.clock);
    MessagesOfPick(due, handler, id);
    PickOfSum(q.ready, Messages(due), handler, id);
    LiveOfPick(q.ready + Messages(due), handler, id);
  }
}
