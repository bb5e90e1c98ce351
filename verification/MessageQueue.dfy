/** messagequeue.cc: the message queue with its list, its heap and its loops. Every method is
    proved to do what QueueModel prescribes, so that the laws of QueueLaws hold of it. */
module MessageQueue {
  import opened DelayedHeap
  import opened QueueModel
  import opened QueueLaws
  import opened Wrappers

  // The top of the heap is the first of the ordered list.
  lemma TopIsHead(h: seq<Delayed>, s: seq<Delayed>)
    requires IsHeap(h) && Ordered(s) && multiset(h) == multiset(s) && h != []
    ensures s != [] && h[0] == s[0] && multiset(h) - multiset{h[0]} == multiset(s[1..])
  {
    assert h[0] in multiset(s);
    var j :| 0 <= j < |s| && s[j] == h[0];
    assert s[0] in multiset(h);
    var k :| 0 <= k < |h| && h[k] == s[0];
    TopIsFirst(h, k);
    assert s == [s[0]] + s[1..];
  }

  lemma {:induction false} PickedOften(s: seq<Delayed>, handler: nat, id: nat, matching: bool, d: Delayed)
    ensures multiset(PickDelayed(s, handler, id, matching))[d] ==
            if Match(d.msg, handler, id) == matching then multiset(s)[d] else 0
  {
    if s != [] {
      PickedOften(s[1..], handler, id, matching, d);
      assert s == [s[0]] + s[1..];
    }
  }

  lemma PickOfPermutation(h: seq<Delayed>, s: seq<Delayed>, handler: nat, id: nat, matching: bool)
    requires multiset(h) == multiset(s)
    ensures multiset(PickDelayed(h, handler, id, matching)) == multiset(PickDelayed(s, handler, id, matching))
  {
    forall d ensures multiset(PickDelayed(h, handler, id, matching))[d] == multiset(PickDelayed(s, handler, id, matching))[d] {
      PickedOften(h, handler, id, matching, d);
      PickedOften(s, handler, id, matching, d);
    }
  }

  lemma {:induction false} CountOfPermutation(a: seq<Delayed>, b: seq<Delayed>, x: Message)
    requires multiset(a) == multiset(b)
    ensures Count(Messages(a), x) == Count(Messages(b), x)
    decreases |a|
  {
    if a == [] {
      assert |multiset(b)| == 0;
    } else {
      var k := WhereFirst(a, b);
      CountOfPermutation(a[1..], b[..k] + b[k + 1..], x);
      CountOneOut(b, k, x);
    }
  }

  // The first entry of one list in another one of the same entries.
  lemma WhereFirst(a: seq<Delayed>, b: seq<Delayed>) returns (k: nat)
    requires a != [] && multiset(a) == multiset(b)
    ensures k < |b| && b[k] == a[0] && multiset(a[1..]) == multiset(b[..k] + b[k + 1..])
  {
    assert a == [a[0]] + a[1..];
    assert a[0] in multiset(b);
    k :| 0 <= k < |b| && b[k] == a[0];
    OneOut(b, k);
  }

  lemma CountOneOut(s: seq<Delayed>, k: nat, x: Message)
    requires k < |s|
    ensures Count(Messages(s), x) == Count(Messages(s[..k] + s[k + 1..]), x) + if s[k].msg == x then 1 else 0
  {
    var before, after := s[..k], s[k + 1..];
    assert s == before + ([s[k]] + after);
    MessagesOfSum(before, [s[k]] + after);
    MessagesOfSum(before, after);
    assert ([s[k]] + after)[1..] == after;
    CountOfSum(Messages(before), Messages([s[k]] + after), x);
    CountOfSum(Messages(before), Messages(after), x);
  }

  lemma OneOut(s: seq<Delayed>, k: nat)
    requires k < |s|
    ensures s == s[..k] + ([s[k]] + s[k + 1..])
    ensures multiset(s[..k] + s[k + 1..]) == multiset(s) - multiset{s[k]}
  {
    assert s == s[..k] + ([s[k]] + s[k + 1..]);
    assert multiset(s) == multiset(s[..k]) + (multiset{s[k]} + multiset(s[k + 1..]));
  }

  lemma PickOfSnoc(s: seq<Message>, k: nat, handler: nat, id: nat, matching: bool)
    requires k < |s|
    ensures Pick(s[k..], handler, id, matching) ==
            (if Match(s[k], handler, id) == matching then [s[k]] else []) + Pick(s[k + 1..], handler, id, matching)
  {
    assert s[k..][1..] == s[k + 1..];
  }

  // Erasing a matching message, or stepping over another one, keeps what is and will be picked.
  lemma ListStep(q: seq<Message>, it: nat, handler: nat, id: nat, removed: seq<Message>)
    requires it < |q|
    ensures var matches, q' := Match(q[it], handler, id), q[..it] + q[it + 1..];
            && q'[..it] == q[..it] && q'[it..] == q[it + 1..]
            && (if matches then q[..it] else q[..it + 1]) + Pick(q[it + 1..], handler, id, false)
               == q[..it] + Pick(q[it..], handler, id, false)
            && (if matches then removed + [q[it]] else removed) + Pick(q[it + 1..], handler, id, true)
               == removed + Pick(q[it..], handler, id, true)
  {
    PickOfSnoc(q, it, handler, id, true);
    PickOfSnoc(q, it, handler, id, false);
    assert q[..it + 1] == q[..it] + [q[it]];
  }

  predicate ReadyAfter(q: Queue, ms: nat) { Drain(q.(clock := q.clock + ms)).ready != [] }

  // One triggered message moves.
  function MoveHead(q: Queue): Queue
    requires q.delayed != []
  {
    var m := q.delayed[0].msg;
    q.(ready := q.ready + [m], delayed := q.delayed[1..], line := q.line + Live([m]))
  }

  lemma MoveHeadDrains(q: Queue)
    requires WellOrdered(q) && q.delayed != [] && q.delayed[0].msTrigger <= q.clock
    ensures Drain(MoveHead(q)) == Drain(q) && WellOrdered(MoveHead(q))
  {
    var m, rest := q.delayed[0].msg, q.delayed[1..];
    var due := Messages(Due(rest, q.clock));
    assert Due(q.delayed, q.clock) == [q.delayed[0]] + Due(rest, q.clock);
    assert ([q.delayed[0]] + Due(rest, q.clock))[1..] == Due(rest, q.clock);
    assert Messages(Due(q.delayed, q.clock)) == [m] + due;
    LiveOfSum([m], due);
    assert q.ready + [m] + due == q.ready + ([m] + due);
    assert q.line + Live([m]) + Live(due) == q.line + (Live([m]) + Live(due));
  }

  // What Clear hands over, in this order: slot, list, and the heap's array.
  function HandedOver(q: Queue, h: seq<Delayed>, handler: nat, id: nat): seq<Message> {
    Pick(Peeked(q), handler, id, true) + Pick(q.ready, handler, id, true) + Messages(PickDelayed(h, handler, id, true))
  }

  // The order of the array makes no difference to what it is.
  lemma HandedOverCounts(q: Queue, h: seq<Delayed>, handler: nat, id: nat)
    requires multiset(h) == multiset(q.delayed)
    ensures forall x :: Count(HandedOver(q, h, handler, id), x) == Count(Removed(q, handler, id), x)
  {
    var first := Pick(Peeked(q), handler, id, true) + Pick(q.ready, handler, id, true);
    var a, b := PickDelayed(h, handler, id, true), PickDelayed(q.delayed, handler, id, true);
    PickOfPermutation(h, q.delayed, handler, id, true);
    forall x ensures Count(HandedOver(q, h, handler, id), x) == Count(Removed(q, handler, id), x) {
      CountOfPermutation(a, b, x);
      CountOfSum(first, Messages(a), x);
      CountOfSum(first, Messages(b), x);
    }
  }

  lemma NothingToDrain(q: Queue)
    requires q.delayed == [] || q.delayed[0].msTrigger > q.clock
    ensures Drain(q) == q
  {
    assert Due(q.delayed, q.clock) == [];
    assert q.ready + [] == q.ready && q.line + [] == q.line;
  }

  lemma PostKeepsOrder(q: Queue, trigger: nat, m: Message)
    requires WellOrdered(q)
    ensures WellOrdered(EnqueueDelayed(q, trigger, m))
  {
    InsertOrdered(q.delayed, Delayed(trigger, q.next, m));
  }

  lemma PickDelayedOfSnoc(s: seq<Delayed>, k: nat, handler: nat, id: nat, matching: bool)
    requires k < |s|
    ensures PickDelayed(s[k..], handler, id, matching) ==
            (if Match(s[k].msg, handler, id) == matching then [s[k]] else []) + PickDelayed(s[k + 1..], handler, id, matching)
  {
    assert s[k..][1..] == s[k + 1..];
  }

  // What one entry of the heap adds to those kept in front and to those that are gone.
  lemma HeapStep(h: seq<Delayed>, it: nat, handler: nat, id: nat, front: seq<Delayed>, gone: seq<Delayed>)
    requires it < |h|
    ensures var matches := Match(h[it].msg, handler, id);
            && (if matches then front else front + [h[it]]) + PickDelayed(h[it + 1..], handler, id, false)
               == front + PickDelayed(h[it..], handler, id, false)
            && (if matches then gone + [h[it]] else gone) + PickDelayed(h[it + 1..], handler, id, true)
               == gone + PickDelayed(h[it..], handler, id, true)
  {
    PickDelayedOfSnoc(h, it, handler, id, true);
    PickDelayedOfSnoc(h, it, handler, id, false);
  }

  lemma FrontGrows<T>(s: seq<T>, n: nat, x: T)
    requires n < |s|
    ensures s[n := x][..n + 1] == s[..n] + [x]
  {
  }

  lemma PickOfSlot(q: Queue, handler: nat, id: nat)
    ensures Pick(Peeked(q), handler, id, true) ==
            if q.peek.Some? && Match(q.peek.value, handler, id) then [q.peek.value] else []
    ensures Pick(Peeked(q), handler, id, false) ==
            if q.peek.Some? && !Match(q.peek.value, handler, id) then [q.peek.value] else []
  {
    if q.peek.Some? { assert Peeked(q)[1..] == []; }
  }

  function SlotAfter(q: Queue, handler: nat, id: nat): Option<Message> {
    if q.peek.Some? && Match(q.peek.value, handler, id) then None else q.peek
  }

  lemma ClearFields(q: Queue, handler: nat, id: nat, q': Queue)
    requires q' == Clear(q, handler, id) && WellOrdered(q)
    ensures q'.stopped == q.stopped && q'.clock == q.clock && q'.next == q.next && WellOrdered(q')
    ensures q'.peek == SlotAfter(q, handler, id) && q'.ready == Pick(q.ready, handler, id, false)
    ensures q'.delayed == PickDelayed(q.delayed, handler, id, false)
  {
    PickOfSlot(q, handler, id);
    ClearKeepsOrder(q, handler, id);
  }

  class MessageQueue {
    var fStop_: bool
    var fPeekKeep_: bool
    var msgPeek_: Message
    var msgq_: seq<Message>
    var dmsgq_: seq<Delayed>
    var dmsgq_next_num_: nat
    var time_: nat
    ghost var model: Queue

    ghost predicate Represents(q: Queue)
      reads this
    {
      && fStop_ == q.stopped && time_ == q.clock && dmsgq_next_num_ == q.next
      && q.peek == (if fPeekKeep_ then Some(msgPeek_) else None)
      && msgq_ == q.ready
      && IsHeap(dmsgq_) && multiset(dmsgq_) == multiset(q.delayed)
    }

    ghost predicate Valid()
      reads this
    {
      Represents(model) && WellOrdered(model)
    }

    constructor ()
      ensures Valid() && model == EMPTY
    {
      fStop_, fPeekKeep_, msgPeek_ := false, false, Message(0, 0, 0);
      msgq_, dmsgq_, dmsgq_next_num_, time_ := [], [], 0, 0;
      model := EMPTY;
    }

    method Quit()
      requires Valid()
      modifies this
      ensures Valid() && model == old(model).(stopped := true)
    {
      fStop_ := true;
      model := model.(stopped := true);
    }

    method Restart()
      requires Valid()
      modifies this
      ensures Valid() && model == old(model).(stopped := false) == Step(old(model), CallRestart)
    {
      fStop_ := false;
      model := model.(stopped := false);
    }

    method Post(m: Message)
      requires Valid()
      modifies this
      ensures Valid() && model == QueueModel.Post(old(model), m)
    {
      if fStop_ {
        return;
      }
      Enqueue(m);
    }

    // The critical section of Post.
    method Enqueue(m: Message)
      requires Valid()
      modifies this
      ensures Valid() && model == QueueModel.Enqueue(old(model), m)
      ensures fPeekKeep_ == old(fPeekKeep_)
    {
      msgq_ := msgq_ + [m];
      model := QueueModel.Enqueue(model, m);
    }

    method DoDelayPost(tstamp: nat, m: Message)
      requires Valid()
      modifies this
      ensures Valid() && model == PostDelayed(old(model), tstamp, m)
    {
      if fStop_ {
        return;
      }
      EnqueueDelayed(tstamp, m);
    }

    method EnqueueDelayed(tstamp: nat, m: Message)
      requires Valid()
      modifies this
      ensures Valid() && model == QueueModel.EnqueueDelayed(old(model), tstamp, m)
      ensures fPeekKeep_ == old(fPeekKeep_)
    {
      PostKeepsOrder(model, tstamp, m);
      model := QueueModel.EnqueueDelayed(model, tstamp, m);
      dmsgq_ := DelayedHeap.Push(dmsgq_, Delayed(tstamp, dmsgq_next_num_, m));
      dmsgq_next_num_ := dmsgq_next_num_ + 1;
    }

    // The message at the top of the heap moves to the end of the list.
    method MoveTop()
      requires Valid() && dmsgq_ != [] && dmsgq_[0].msTrigger <= time_
      modifies this
      ensures Valid() && model.delayed == old(model.delayed)[1..] && |old(model.delayed)| > 0
      ensures Drain(model) == Drain(old(model)) && time_ == old(time_)
    {
      TopIsHead(dmsgq_, model.delayed);
      ghost var moved := MoveHead(model);
      MoveHeadDrains(model);
      PopTop();
      model := moved;
    }

    method PopTop()
      requires Represents(model) && Ordered(model.delayed) && dmsgq_ != []
      modifies this`msgq_, this`dmsgq_
      ensures model.delayed != [] && Represents(MoveHead(model))
    {
      TopIsHead(dmsgq_, model.delayed);
      msgq_ := msgq_ + [dmsgq_[0].msg];
      dmsgq_ := Pop(dmsgq_);
    }

    // The delayed messages that have been triggered move to the end of the list.
    method MoveTriggered(msCurrent: nat)
      requires Valid() && msCurrent == time_
      modifies this
      ensures Valid() && model == Drain(old(model))
    {
      while dmsgq_ != [] && dmsgq_[0].msTrigger <= msCurrent
        invariant Valid() && Drain(model) == Drain(old(model)) && msCurrent == time_
        decreases |model.delayed|
      {
        MoveTop();
      }
      if dmsgq_ != [] {
        TopIsHead(dmsgq_, model.delayed);
      } else {
        assert |multiset(model.delayed)| == 0;
      }
      NothingToDrain(model);
    }

    // The first message of the list that is not a disposal.
    method TakeFront() returns (m: Option<Message>)
      requires Valid() && !fPeekKeep_
      modifies this
      ensures Represents(model) && (m, model) == Take(old(model))
      ensures !fPeekKeep_ && WellOrdered(model)
    {
      ghost var q0 := model;
      while msgq_ != []
        invariant Valid() && !fPeekKeep_
        invariant Take(model) == Take(q0)
        decreases |msgq_|
      {
        var front := msgq_[0];
        msgq_ := msgq_[1..];
        if IsDisposal(front) {
          model := model.(ready := msgq_, disposed := model.disposed + [front]);
        } else {
          model := model.(ready := msgq_);
          return Some(front);
        }
      }
      return None;
    }

    // What other threads and handlers do to the queue while this one waits.
    method Wait(turn: Turn)
      requires Valid()
      modifies this
      ensures Valid() && model == PerformAll(old(model).(clock := old(model).clock + turn.elapsed), turn.acts)
      ensures old(!fPeekKeep_) ==> !fPeekKeep_
    {
      time_ := time_ + turn.elapsed;
      model := model.(clock := time_);
      Others(turn.acts);
    }

    // What other threads do.
    method Others(acts: seq<Act>)
      requires Valid()
      modifies this
      ensures Valid() && model == PerformAll(old(model), acts)
      ensures old(!fPeekKeep_) ==> !fPeekKeep_
    {
      var left := acts;
      while left != []
        invariant Valid() && PerformAll(model, left) == PerformAll(old(model), acts)
        invariant old(!fPeekKeep_) ==> !fPeekKeep_
        decreases |left|
      {
        Perform(left[0]);
        left := left[1..];
      }
    }

    method Perform(act: Act)
      requires Valid()
      modifies this
      ensures Valid() && model == QueueModel.Perform(old(model), act)
      ensures old(!fPeekKeep_) ==> !fPeekKeep_
    {
      match act {
        case DoClear(handler, id) => var removed := Clear(handler, id);
        case DoQuit => Quit();
        case _ => PerformPost(act);
      }
    }

    method PerformPost(act: Act)
      requires Valid() && !act.DoClear? && !act.DoQuit?
      modifies this
      ensures Valid() && model == QueueModel.Perform(old(model), act)
      ensures fPeekKeep_ == old(fPeekKeep_)
    {
      match act {
        case DoPost(m) => Post(m);
        case DoPostDelayed(trigger, m) => DoDelayPost(trigger, m);
        case LatePost(m) => Enqueue(m);
        case LatePostDelayed(trigger, m) => EnqueueDelayed(trigger, m);
      }
    }

    // One look at the queues.
    method Poll() returns (m: Option<Message>)
      requires Valid() && !fPeekKeep_
      modifies this
      ensures Valid() && !fPeekKeep_ && (m, model) == Take(Drain(old(model)))
    {
      MoveTriggered(time_);
      m := TakeFront();
    }

    // Check the queues and, if there is nothing to return, wait once.
    method PollOrWait(cmsWait: Patience, elapsed: nat, turns: seq<Turn>) returns (again: bool, m: Option<Message>)
      requires Valid() && !fPeekKeep_
      modifies this
      ensures Valid() && !fPeekKeep_
      ensures OneRound(old(model), cmsWait, elapsed, turns) == if again then Again(model) else Return(m, model)
    {
      m := Poll();
      again := WaitUnless(m, cmsWait, elapsed, turns);
    }

    method WaitUnless(m: Option<Message>, cmsWait: Patience, elapsed: nat, turns: seq<Turn>) returns (again: bool)
      requires Valid() && !fPeekKeep_
      modifies this
      ensures Valid() && !fPeekKeep_
      ensures AfterLook(m, old(model), cmsWait, elapsed, turns) == if again then Again(model) else Return(m, model)
    {
      if m.Some? || turns == [] {
        return false;
      }
      Others(turns[0].before);
      if fStop_ {
        return false;
      }
      again := WaitOnce(cmsWait, elapsed, turns[0]);
    }

    method WaitOnce(cmsWait: Patience, elapsed: nat, turn: Turn) returns (again: bool)
      requires Valid() && !fPeekKeep_
      modifies this
      ensures Valid() && !fPeekKeep_
      ensures AfterWait(old(model), cmsWait, elapsed, turn) == if again then Again(model) else Return(None, model)
    {
      Wait(turn);
      again := turn.ok && !(cmsWait.AtMost? && elapsed + turn.elapsed >= cmsWait.ms);
    }

    // Get without the peek slot: check the queues, wait, and check again.
    method GetQueued(cmsWait: Patience, turns: seq<Turn>) returns (m: Option<Message>)
      requires Valid() && !fPeekKeep_
      modifies this
      ensures Valid() && !fPeekKeep_
      ensures (m, model) == Fetch(old(model), cmsWait, 0, turns)
    {
      var elapsed: nat, left, again := 0, turns, true;
      ghost var result := Fetch(model, cmsWait, 0, turns);
      m := None;
      while again
        invariant Valid() && !fPeekKeep_
        invariant result == if again then Fetch(model, cmsWait, elapsed, left) else (m, model)
        decreases again, |left|
      {
        again, m := PollOrWait(cmsWait, elapsed, left);
        if again {
          elapsed, left := elapsed + left[0].elapsed, left[1..];
        }
      }
    }

    /** Returns and clears the peeked message, if there is one; otherwise the next message
        the model prescribes, whatever happens during the waits. */
    method Get(cmsWait: Patience, turns: seq<Turn>) returns (m: Option<Message>)
      requires Valid()
      modifies this
      ensures Valid() && (m, model) == QueueModel.Get(old(model), cmsWait, turns)
    {
      if fPeekKeep_ {
        m := Some(msgPeek_);
        fPeekKeep_ := false;
        model := model.(peek := None, delivered := model.delivered + [msgPeek_]);
        return;
      }
      m := GetQueued(cmsWait, turns);
      if m.Some? {
        model := model.(delivered := model.delivered + [m.value]);
      }
    }

    /** Like Get, but the message stays in the slot. */
    method Peek(cmsWait: Patience, turns: seq<Turn>) returns (m: Option<Message>)
      requires Valid()
      modifies this
      ensures Valid() && (m, model) == QueueModel.Peek(old(model), cmsWait, turns)
    {
      if fPeekKeep_ {
        return Some(msgPeek_);
      }
      m := GetQueued(cmsWait, turns);
      if m.Some? {
        msgPeek_, fPeekKeep_ := m.value, true;
        model := model.(peek := m);
      }
    }

    // Erases the matching messages from the list, one by one.
    method ClearList(phandler: nat, id: nat, before: seq<Message>) returns (removed: seq<Message>)
      modifies this`msgq_
      ensures msgq_ == Pick(old(msgq_), phandler, id, false)
      ensures removed == before + Pick(old(msgq_), phandler, id, true)
    {
      removed := before;
      var it := 0;
      assert msgq_[0..] == msgq_ && msgq_[..0] == [];
      while it < |msgq_|
        invariant it <= |msgq_|
        invariant msgq_[..it] + Pick(msgq_[it..], phandler, id, false) == Pick(old(msgq_), phandler, id, false)
        invariant removed + Pick(msgq_[it..], phandler, id, true) == before + Pick(old(msgq_), phandler, id, true)
        decreases |msgq_| - it
      {
        ListStep(msgq_, it, phandler, id, removed);
        if Match(msgq_[it], phandler, id) {
          removed := removed + [msgq_[it]];
          msgq_ := msgq_[..it] + msgq_[it + 1..];
        } else {
          it := it + 1;
        }
      }
    }

    // Moves the surviving messages to the front of the heap's array.
    method Compact(phandler: nat, id: nat) returns (new_end: nat, gone: seq<Delayed>)
      modifies this`dmsgq_
      ensures new_end <= |dmsgq_| && dmsgq_[..new_end] == PickDelayed(old(dmsgq_), phandler, id, false)
      ensures gone == PickDelayed(old(dmsgq_), phandler, id, true)
    {
      ghost var h := dmsgq_;
      var it := 0;
      new_end, gone := 0, [];
      assert h[0..] == h;
      ghost var kept, picked := PickDelayed(h, phandler, id, false), PickDelayed(h, phandler, id, true);
      while it < |dmsgq_|
        invariant new_end <= it <= |dmsgq_| == |h| && forall k :: it <= k < |h| ==> dmsgq_[k] == h[k]
        invariant dmsgq_[..new_end] + PickDelayed(h[it..], phandler, id, false) == kept
        invariant gone + PickDelayed(h[it..], phandler, id, true) == picked
      {
        HeapStep(h, it, phandler, id, dmsgq_[..new_end], gone);
        var d := dmsgq_[it];
        if Match(d.msg, phandler, id) {
          gone := gone + [d];
        } else {
          FrontGrows(dmsgq_, new_end, d);
          dmsgq_ := dmsgq_[new_end := d];
          new_end := new_end + 1;
        }
        it := it + 1;
      }
    }

    // ... and makes it a heap again.
    method ClearHeap(phandler: nat, id: nat, before: seq<Message>) returns (removed: seq<Message>)
      modifies this`dmsgq_
      ensures IsHeap(dmsgq_)
      ensures multiset(dmsgq_) == multiset(PickDelayed(old(dmsgq_), phandler, id, false))
      ensures removed == before + Messages(PickDelayed(old(dmsgq_), phandler, id, true))
    {
      var new_end, gone := Compact(phandler, id);
      removed := before + Messages(gone);
      dmsgq_ := MakeHeap(dmsgq_[..new_end]);
    }

    method ClearSlot(phandler: nat, id: nat) returns (removed: seq<Message>)
      requires Represents(model)
      modifies this`fPeekKeep_
      ensures removed == Pick(Peeked(model), phandler, id, true)
      ensures SlotAfter(model, phandler, id) == (if fPeekKeep_ then Some(msgPeek_) else None)
    {
      PickOfSlot(model, phandler, id);
      removed := [];
      if fPeekKeep_ && Match(msgPeek_, phandler, id) {
        removed := [msgPeek_];
        fPeekKeep_ := false;
      }
    }

    method ClearAll(phandler: nat, id: nat) returns (removed: seq<Message>)
      requires Represents(model)
      modifies this`fPeekKeep_, this`msgq_, this`dmsgq_
      ensures msgq_ == Pick(model.ready, phandler, id, false)
      ensures IsHeap(dmsgq_) && multiset(dmsgq_) == multiset(PickDelayed(model.delayed, phandler, id, false))
      ensures SlotAfter(model, phandler, id) == (if fPeekKeep_ then Some(msgPeek_) else None)
      ensures removed == HandedOver(model, old(dmsgq_), phandler, id)
    {
      ghost var h := dmsgq_;
      removed := ClearSlot(phandler, id);
      removed := ClearList(phandler, id, removed);
      removed := ClearHeap(phandler, id, removed);
      PickOfPermutation(h, model.delayed, phandler, id, false);
    }

    /** Removes exactly the matching messages, hands each of them over once, and leaves a heap
        of the others. */
    method Clear(phandler: nat, id: nat) returns (removed: seq<Message>)
      requires Valid()
      modifies this
      ensures Valid() && model == QueueModel.Clear(old(model), phandler, id)
      ensures removed == HandedOver(old(model), old(dmsgq_), phandler, id)
      ensures forall x :: Count(removed, x) == Count(Removed(old(model), phandler, id), x)
    {
      ghost var q := QueueModel.Clear(model, phandler, id);
      ClearFields(model, phandler, id, q);
      HandedOverCounts(model, dmsgq_, phandler, id);
      removed := ClearAll(phandler, id);
      model := q;
    }

    /** How long until something can be handed out: the exact time to wait for the lists, if
        nothing is posted meanwhile. (A message in the peek slot is not looked at.) */
    method GetDelay() returns (delay: Patience)
      requires Valid()
      ensures delay == Forever <==> model.ready == [] && model.delayed == []
      ensures delay.AtMost? ==>
                forall ms: nat :: ms >= delay.ms <==> ReadyAfter(model, ms)
    {
      if msgq_ != [] {
        delay := AtMost(0);
      } else if dmsgq_ != [] {
        TopIsHead(dmsgq_, model.delayed);
        var trigger := dmsgq_[0].msTrigger;
        delay := AtMost(if trigger > time_ then trigger - time_ else 0);
      } else {
        assert |multiset(model.delayed)| == 0;
        delay := Forever;
      }
    }
  }
}
