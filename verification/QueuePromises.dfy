/** What Quit promises about messages that are ready, and delays about messages that are not. */
module QueuePromises {
  import opened DelayedHeap
  import opened QueueModel
  import opened QueueLaws
  import opened Wrappers

  // No wait of the call is cut short by the socket server.
  predicate AllOk(turns: seq<Turn>) { forall k :: 0 <= k < |turns| ==> turns[k].ok }

  // No other thread comes between a look at the queues and the test of the stop flag.
  predicate Undisturbed(turns: seq<Turn>) { forall k :: 0 <= k < |turns| ==> turns[k].before == [] }

  // No other thread comes between the test of the stop flag in a post and its critical section.
  predicate NoneLate(turns: seq<Turn>) {
    forall k :: 0 <= k < |turns| ==> InTime(turns[k].before) && InTime(turns[k].acts)
  }

  predicate InTime(acts: seq<Act>) { forall k :: 0 <= k < |acts| ==> !acts[k].LatePost? && !acts[k].LatePostDelayed? }

  /** A call that returns nothing from a stopped queue leaves nothing that it could have
      returned. */
  predicate Kept(m: Option<Message>, q: Queue) { m.None? && q.stopped ==> Available(q) == [] }

  predicate KeptBy(q: Queue, wait: Patience, turns: seq<Turn>) {
    && Kept(Get(q, wait, turns).0, Get(q, wait, turns).1)
    && Kept(Peek(q, wait, turns).0, Peek(q, wait, turns).1)
  }

  lemma LaterIsNotDue(s: seq<Delayed>, now: nat)
    ensures Due(Later(s, now), now) == []
    decreases |s|
  {
    if s != [] && s[0].msTrigger <= now {
      LaterIsNotDue(s[1..], now);
      assert s[1..][DueCount(s[1..], now)..] == s[DueCount(s, now)..];
    } else {
      assert s[0..] == s;
    }
  }

  // A look at the queues that finds nothing leaves nothing.
  lemma LookLeavesNothing(q: Queue)
    ensures Take(Drain(q)).0.None? <==> Available(q) == []
    ensures Take(Drain(q)).0.None? ==> Available(Take(Drain(q)).1) == []
  {
    TakeIsFirstLive(Drain(q));
    TakeKeepsLine(Drain(q));
    LaterIsNotDue(q.delayed, q.clock);
    if Take(Drain(q)).0.None? {
      assert Take(Drain(q)).1.ready + Messages([]) == [];
    }
  }

  // A live message that is pushed is available.
  lemma PostedIsAvailable(q: Queue, m: Message)
    requires !IsDisposal(m)
    ensures Available(Enqueue(q, m).(stopped := true)) != []
  {
    var due := Messages(Due(q.delayed, q.clock));
    LiveOfSum(q.ready + [m], due);
    LiveOfSum(q.ready, [m]);
  }

  lemma PostThenQuit(q: Queue, m: Message, acts: seq<Act>)
    requires !IsDisposal(m) && (acts == [LatePost(m), DoQuit] || (acts == [DoPost(m), DoQuit] && !q.stopped))
    ensures PerformAll(q, acts) == Enqueue(q, m).(stopped := true)
    ensures Available(PerformAll(q, acts)) != []
  {
    var q1 := Enqueue(q, m);
    assert acts[1..] == [DoQuit] && acts[1..][1..] == [];
    assert PerformAll(q1.(stopped := true), []) == q1.(stopped := true);
    assert PerformAll(q1, [DoQuit]) == q1.(stopped := true);
    PostedIsAvailable(q, m);
  }

  // Without a limit a call returns only after a look, unless a wait fails.
  lemma {:induction false} ForeverLooksAgain(q: Queue, elapsed: nat, turns: seq<Turn>)
    requires AllOk(turns) && Undisturbed(turns)
    ensures Fetch(q, Forever, elapsed, turns).0.None? ==> Available(Fetch(q, Forever, elapsed, turns).1) == []
    decreases |turns|
  {
    LookLeavesNothing(q);
    match OneRound(q, Forever, elapsed, turns)
    case Return(m, q') =>
    case Again(q') => ForeverLooksAgain(q', elapsed + turns[0].elapsed, turns[1..]);
  }

  lemma LaterIsOrdered(s: seq<Delayed>, now: nat)
    requires Ordered(s)
    ensures Ordered(Later(s, now))
  {
  }

  // Nothing becomes available in a stopped queue, as long as no post is late.
  lemma {:induction false} StoppedStaysEmpty(q: Queue, acts: seq<Act>)
    requires Ordered(q.delayed) && q.stopped && Available(q) == [] && InTime(acts)
    ensures PerformAll(q, acts).stopped && Available(PerformAll(q, acts)) == []
    decreases |acts|
  {
    if acts != [] {
      if acts[0].DoClear? {
        ClearFiltersAvailable(q, acts[0].handler, acts[0].id);
        PickDelayedOrdered(q.delayed, acts[0].handler, acts[0].id, false);
      }
      StoppedStaysEmpty(Perform(q, acts[0]), acts[1..]);
    }
  }

  lemma AtOnceKeeps(q: Queue, wait: Patience, turns: seq<Turn>)
    requires q.peek.Some? || Available(q) != []
    ensures KeptBy(q, wait, turns)
  {
    LookLeavesNothing(q);
  }

  lemma StopIsSeen(q: Queue, wait: Patience, turns: seq<Turn>)
    requires Undisturbed(turns) && q.stopped && q.peek.None? && Available(q) == []
    ensures KeptBy(q, wait, turns)
  {
    LookLeavesNothing(q);
    TakeKeepsLine(Drain(q));
    if turns != [] { assert turns[0].before == []; }
  }

  lemma ForeverKeeps(q: Queue, turns: seq<Turn>)
    requires AllOk(turns) && Undisturbed(turns) && q.peek.None?
    ensures KeptBy(q, Forever, turns)
  {
    ForeverLooksAgain(q, 0, turns);
  }

  lemma UndisturbedKeeps(q: Queue, wait: Patience, turns: seq<Turn>)
    requires Undisturbed(turns)
    requires q.stopped || q.peek.Some? || Available(q) != [] || (wait.Forever? && AllOk(turns))
    ensures KeptBy(q, wait, turns)
  {
    if q.peek.Some? || Available(q) != [] {
      AtOnceKeeps(q, wait, turns);
    } else if q.stopped {
      StopIsSeen(q, wait, turns);
    } else {
      ForeverKeeps(q, turns);
    }
  }

  lemma StoppedKeeps(q: Queue, wait: Patience, turns: seq<Turn>)
    requires Ordered(q.delayed) && q.stopped && NoneLate(turns)
    ensures KeptBy(q, wait, turns)
  {
    LookLeavesNothing(q);
    TakeKeepsLine(Drain(q));
    if turns != [] && q.peek.None? && Available(q) == [] {
      LaterIsOrdered(q.delayed, q.clock);
      StoppedStaysEmpty(Take(Drain(q)).1, turns[0].before);
    }
  }

  // A message and Quit arrive between a look and the test of the stop flag.
  lemma GapBreaksIt(q: Queue, wait: Patience, turn: Turn, m: Message)
    requires q.peek.None? && Available(q) == [] && !IsDisposal(m)
    requires turn.before == [LatePost(m), DoQuit] || (turn.before == [DoPost(m), DoQuit] && !q.stopped)
    ensures !KeptBy(q, wait, [turn])
  {
    LookLeavesNothing(q);
    TakeKeepsLine(Drain(q));
    PostThenQuit(Take(Drain(q)).1, m, turn.before);
  }

  // A message and Quit arrive in a wait after which the queues are not looked at again.
  lemma LastWaitBreaksIt(q: Queue, wait: Patience, turn: Turn, m: Message)
    requires !q.stopped && q.peek.None? && Available(q) == [] && !IsDisposal(m)
    requires turn.before == [] && turn.acts == [DoPost(m), DoQuit]
    requires !turn.ok || (wait.AtMost? && turn.elapsed >= wait.ms)
    ensures !KeptBy(q, wait, [turn])
  {
    LookLeavesNothing(q);
    TakeKeepsLine(Drain(q));
    var q1 := Take(Drain(q)).1;
    PostThenQuit(q1.(clock := q1.clock + turn.elapsed), m, turn.acts);
  }

  /** Whatever other threads do, a call keeps the promise of Quit - ready messages come out
      before it returns nothing - if and only if it finds something at once. */
  lemma QuitKeepsItsPromise(q: Queue, wait: Patience)
    ensures (forall turns :: KeptBy(q, wait, turns)) <==> q.peek.Some? || Available(q) != []
  {
    if q.peek.Some? || Available(q) != [] {
      forall turns: seq<Turn> ensures KeptBy(q, wait, turns) { AtOnceKeeps(q, wait, turns); }
    } else {
      var m := Message(1, 0, 0);
      GapBreaksIt(q, wait, Turn([LatePost(m), DoQuit], true, 0, []), m);
    }
  }

  /** If a post tested the stop flag in its critical section, then also if the queue was
      stopped before the call. */
  lemma WithoutLatePosts(q: Queue, wait: Patience)
    requires Ordered(q.delayed)
    ensures (forall turns :: NoneLate(turns) ==> KeptBy(q, wait, turns))
            <==> q.stopped || q.peek.Some? || Available(q) != []
  {
    if q.stopped || q.peek.Some? || Available(q) != [] {
      forall turns: seq<Turn> | NoneLate(turns) ensures KeptBy(q, wait, turns) {
        if q.stopped { StoppedKeeps(q, wait, turns); } else { AtOnceKeeps(q, wait, turns); }
      }
    } else {
      var m := Message(1, 0, 0);
      var turn := Turn([DoPost(m), DoQuit], true, 0, []);
      GapBreaksIt(q, wait, turn, m);
      assert NoneLate([turn]);
    }
  }

  /** If Get tested the stop flag in its critical section, then also if it waits without a
      limit, and the waits of the socket server do not fail. */
  lemma WithoutGaps(q: Queue, wait: Patience)
    ensures (forall turns :: AllOk(turns) && Undisturbed(turns) ==> KeptBy(q, wait, turns))
            <==> q.stopped || q.peek.Some? || Available(q) != [] || wait.Forever?
  {
    if q.stopped || q.peek.Some? || Available(q) != [] || wait.Forever? {
      forall turns: seq<Turn> | AllOk(turns) && Undisturbed(turns) ensures KeptBy(q, wait, turns) {
        UndisturbedKeeps(q, wait, turns);
      }
    } else {
      var m := Message(1, 0, 0);
      var turn := Turn([], true, wait.ms, [DoPost(m), DoQuit]);
      LastWaitBreaksIt(q, wait, turn, m);
      assert AllOk([turn]) && Undisturbed([turn]);
    }
  }

  /** A socket server whose wait fails ends the call at once, so that then even a call without
      a limit keeps the promise only if it need not wait at all. */
  lemma FailingWaits(q: Queue, wait: Patience)
    ensures (forall turns :: Undisturbed(turns) ==> KeptBy(q, wait, turns))
            <==> q.stopped || q.peek.Some? || Available(q) != []
  {
    if q.stopped || q.peek.Some? || Available(q) != [] {
      forall turns: seq<Turn> | Undisturbed(turns) ensures KeptBy(q, wait, turns) {
        UndisturbedKeeps(q, wait, turns);
      }
    } else {
      var m := Message(1, 0, 0);
      var turn := Turn([], false, 0, [DoPost(m), DoQuit]);
      LastWaitBreaksIt(q, wait, turn, m);
      assert Undisturbed([turn]);
    }
  }

  // Delays, over runs.

  // None of these acts, waits or calls clears a message.
  predicate Spares(acts: seq<Act>, m: Message) {
    forall k :: 0 <= k < |acts| ==> !(acts[k].DoClear? && Match(m, acts[k].handler, acts[k].id))
  }

  predicate TurnsSpare(turns: seq<Turn>, m: Message) {
    forall k :: 0 <= k < |turns| ==> Spares(turns[k].before, m) && Spares(turns[k].acts, m)
  }

  predicate CallSpares(call: Call, m: Message) {
    match call
    case CallAct(act) => Spares([act], m)
    case CallGet(_, turns) => TurnsSpare(turns, m)
    case CallPeek(_, turns) => TurnsSpare(turns, m)
    case _ => true
  }

  // A delayed message is still waiting, or its time has come.
  predicate OnTime(d: Delayed, q: Queue) { d in q.delayed || d.msTrigger <= q.clock }

  lemma {:induction false} DrainIsOnTime(s: seq<Delayed>, now: nat, d: Delayed)
    requires d in s
    ensures d in Later(s, now) || d.msTrigger <= now
    decreases |s|
  {
    if s[0].msTrigger <= now && d != s[0] {
      assert d in s[1..];
      DrainIsOnTime(s[1..], now, d);
      assert s[1..][DueCount(s[1..], now)..] == s[DueCount(s, now)..];
    } else if s[0].msTrigger > now {
      assert s[0..] == s;
    }
  }

  lemma {:induction false} InsertKeeps(s: seq<Delayed>, e: Delayed, d: Delayed)
    requires d in s
    ensures d in Insert(s, e)
    decreases |s|
  {
    if !Before(e, s[0]) && d != s[0] {
      assert d in s[1..];
      InsertKeeps(s[1..], e, d);
    }
  }

  lemma {:induction false} PickKeeps(s: seq<Delayed>, handler: nat, id: nat, d: Delayed)
    requires d in s && !Match(d.msg, handler, id)
    ensures d in PickDelayed(s, handler, id, false)
    decreases |s|
  {
    if d != s[0] {
      assert d in s[1..];
      PickKeeps(s[1..], handler, id, d);
    }
  }

  lemma PerformIsOnTime(q: Queue, act: Act, d: Delayed)
    requires OnTime(d, q) && Spares([act], d.msg)
    ensures OnTime(d, Perform(q, act))
  {
    assert [act][0] == act;
    if d in q.delayed {
      match act
      case DoPost(_) =>
      case DoPostDelayed(trigger, m) => InsertKeeps(q.delayed, Delayed(trigger, q.next, m), d);
      case LatePost(_) =>
      case LatePostDelayed(trigger, m) => InsertKeeps(q.delayed, Delayed(trigger, q.next, m), d);
      case DoClear(handler, id) => PickKeeps(q.delayed, handler, id, d);
      case DoQuit =>
    }
  }

  lemma {:induction false} PerformAllIsOnTime(q: Queue, acts: seq<Act>, d: Delayed)
    requires OnTime(d, q) && Spares(acts, d.msg)
    ensures OnTime(d, PerformAll(q, acts))
    decreases |acts|
  {
    if acts != [] {
      assert [acts[0]][0] == acts[0];
      PerformIsOnTime(q, acts[0], d);
      PerformAllIsOnTime(Perform(q, acts[0]), acts[1..], d);
    }
  }

  lemma LookIsOnTime(q: Queue, d: Delayed)
    requires OnTime(d, q)
    ensures OnTime(d, Take(Drain(q)).1)
  {
    if d in q.delayed { DrainIsOnTime(q.delayed, q.clock, d); }
    TakeKeepsLine(Drain(q));
  }

  lemma WaitIsOnTime(m: Option<Message>, q: Queue, wait: Patience, elapsed: nat, turns: seq<Turn>, d: Delayed)
    requires OnTime(d, q) && TurnsSpare(turns, d.msg)
    ensures OnTime(d, AfterLook(m, q, wait, elapsed, turns).q)
  {
    if m.None? && turns != [] {
      var q' := PerformAll(q, turns[0].before);
      PerformAllIsOnTime(q, turns[0].before, d);
      PerformAllIsOnTime(q'.(clock := q'.clock + turns[0].elapsed), turns[0].acts, d);
    }
  }

  lemma RoundIsOnTime(q: Queue, wait: Patience, elapsed: nat, turns: seq<Turn>, d: Delayed)
    requires OnTime(d, q) && TurnsSpare(turns, d.msg)
    ensures OnTime(d, OneRound(q, wait, elapsed, turns).q)
  {
    var (m, q1) := Take(Drain(q));
    LookIsOnTime(q, d);
    WaitIsOnTime(m, q1, wait, elapsed, turns, d);
  }

  lemma {:induction false} FetchIsOnTime(q: Queue, wait: Patience, elapsed: nat, turns: seq<Turn>, d: Delayed)
    requires OnTime(d, q) && TurnsSpare(turns, d.msg)
    ensures OnTime(d, Fetch(q, wait, elapsed, turns).1)
    decreases |turns|
  {
    RoundIsOnTime(q, wait, elapsed, turns, d);
    match OneRound(q, wait, elapsed, turns)
    case Return(_, _) =>
    case Again(q') => FetchIsOnTime(q', wait, elapsed + turns[0].elapsed, turns[1..], d);
  }

  lemma StepIsOnTime(q: Queue, call: Call, d: Delayed)
    requires OnTime(d, q) && CallSpares(call, d.msg)
    ensures OnTime(d, Step(q, call))
  {
    match call
    case CallAct(act) => PerformIsOnTime(q, act, d);
    case CallGet(wait, turns) => FetchIsOnTime(q, wait, 0, turns, d);
    case CallPeek(wait, turns) => FetchIsOnTime(q, wait, 0, turns, d);
    case CallRestart =>
    case PassTime(_) =>
  }

  /** No delayed message is early, over every run: unless it is cleared it stays where it waits
      until its time has come. It is in one place only, so it cannot have been delivered. */
  lemma {:induction false} RunIsNeverEarly(q: Queue, calls: seq<Call>, d: Delayed)
    requires OnTime(d, q) && forall k :: 0 <= k < |calls| ==> CallSpares(calls[k], d.msg)
    ensures Run(q, calls).clock < d.msTrigger ==> d in Run(q, calls).delayed
    decreases |calls|
  {
    if calls != [] {
      StepIsOnTime(q, calls[0], d);
      RunIsNeverEarly(Step(q, calls[0]), calls[1..], d);
    }
  }
}
