/** What a MessageQueue means: two ordered lists and a one-slot peek, with a record of
    everything that has happened to every message. The class in MessageQueue.dfy is proved to
    do exactly this with its list, its heap and its loops. */
module QueueModel {
  import opened DelayedHeap
  import opened Wrappers

  const MQID_ANY: nat := 0xFFFF_FFFF
  const MQID_DISPOSE: nat := 0xFFFF_FFFE

  /** ready and delayed are in the order of delivery. `line` holds the live messages that
      have become ready and have not been cleared since, in the order in which they became
      ready; the other records hold what has been posted, handed out, cleared and disposed. */
  datatype Queue = Queue(
    peek: Option<Message>, ready: seq<Message>, delayed: seq<Delayed>, stopped: bool, next: nat, clock: nat,
    posted: seq<Message>, line: seq<Message>, delivered: seq<Message>, cleared: seq<Message>, disposed: seq<Message>)

  const EMPTY: Queue := Queue(None, [], [], false, 0, 0, [], [], [], [], [])

  predicate IsDisposal(m: Message) { m.message_id == MQID_DISPOSE }

  function Live(s: seq<Message>): seq<Message> {
    if s == [] then [] else (if IsDisposal(s[0]) then [] else [s[0]]) + Live(s[1..])
  }

  function Messages(s: seq<Delayed>): (r: seq<Message>)
    ensures |r| == |s|
  {
    if s == [] then [] else [s[0].msg] + Messages(s[1..])
  }

  function Peeked(q: Queue): seq<Message> { if q.peek.Some? then [q.peek.value] else [] }

  // How many delayed messages have been triggered by now.
  function DueCount(s: seq<Delayed>, now: nat): (n: nat)
    ensures n <= |s|
  {
    if s == [] || s[0].msTrigger > now then 0 else 1 + DueCount(s[1..], now)
  }

  function Due(s: seq<Delayed>, now: nat): seq<Delayed> { s[..DueCount(s, now)] }
  function Later(s: seq<Delayed>, now: nat): seq<Delayed> { s[DueCount(s, now)..] }

  function Insert(s: seq<Delayed>, d: Delayed): (r: seq<Delayed>)
    ensures |r| == |s| + 1 && multiset(r) == multiset(s) + multiset{d}
  {
    if s == [] then [d]
    else if Before(d, s[0]) then [d] + s
    else
      assert s == [s[0]] + s[1..];
      [s[0]] + Insert(s[1..], d)
  }

  predicate Match(m: Message, handler: nat, id: nat) {
    (handler == 0 || handler == m.phandler) && (id == MQID_ANY || id == m.message_id)
  }

  // The messages of a list that match, and those that do not.
  function Pick(s: seq<Message>, handler: nat, id: nat, matching: bool): seq<Message> {
    if s == [] then []
    else (if Match(s[0], handler, id) == matching then [s[0]] else []) + Pick(s[1..], handler, id, matching)
  }

  function PickDelayed(s: seq<Delayed>, handler: nat, id: nat, matching: bool): seq<Delayed> {
    if s == [] then []
    else (if Match(s[0].msg, handler, id) == matching then [s[0]] else []) + PickDelayed(s[1..], handler, id, matching)
  }

  // The operations.

  // The critical section of a post.
  function Enqueue(q: Queue, m: Message): Queue {
    q.(ready := q.ready + [m], posted := q.posted + [m], line := q.line + Live([m]))
  }

  function EnqueueDelayed(q: Queue, trigger: nat, m: Message): Queue {
    q.(delayed := Insert(q.delayed, Delayed(trigger, q.next, m)), next := q.next + 1, posted := q.posted + [m])
  }

  function Post(q: Queue, m: Message): Queue { if q.stopped then q else Enqueue(q, m) }

  function PostDelayed(q: Queue, trigger: nat, m: Message): Queue {
    if q.stopped then q else EnqueueDelayed(q, trigger, m)
  }

  function Clear(q: Queue, handler: nat, id: nat): Queue {
    var slot := Pick(Peeked(q), handler, id, false);
    var ready := Pick(q.ready, handler, id, false);
    q.(peek := if slot == [] then None else q.peek,
       ready := ready,
       delayed := PickDelayed(q.delayed, handler, id, false),
       line := q.delivered + slot + Live(ready),
       cleared := q.cleared + Removed(q, handler, id))
  }

  // What Clear takes out of the queue.
  function Removed(q: Queue, handler: nat, id: nat): seq<Message> {
    Pick(Peeked(q), handler, id, true) + Pick(q.ready, handler, id, true)
    + Messages(PickDelayed(q.delayed, handler, id, true))
  }

  // The messages whose time has come join the end of the ready list.
  function Drain(q: Queue): Queue {
    var due := Messages(Due(q.delayed, q.clock));
    q.(ready := q.ready + due, delayed := Later(q.delayed, q.clock), line := q.line + Live(due))
  }

  // The first live ready message; disposals in front of it are carried out.
  function Take(q: Queue): (Option<Message>, Queue)
    decreases |q.ready|
  {
    if q.ready == [] then (None, q)
    else
      var q' := q.(ready := q.ready[1..]);
      if IsDisposal(q.ready[0]) then Take(q'.(disposed := q.disposed + [q.ready[0]])) else (Some(q.ready[0]), q')
  }

  /** What happens after a look at the queues that found nothing. Other threads may use the
      queue before this one tests the stop flag; then it waits, other threads and I/O handlers
      use the queue, and time passes; ok is false when the socket server gives up. */
  datatype Turn = Turn(before: seq<Act>, ok: bool, elapsed: nat, acts: seq<Act>)

  /** A post tests the stop flag before it enters its critical section, so that a Quit may come
      in between: LatePost and LatePostDelayed are posts that have passed that test earlier. */
  datatype Act =
    | DoPost(m: Message) | DoPostDelayed(trigger: nat, m: Message)
    | LatePost(m: Message) | LatePostDelayed(trigger: nat, m: Message)
    | DoClear(handler: nat, id: nat) | DoQuit

  function Perform(q: Queue, act: Act): Queue {
    match act
    case DoPost(m) => Post(q, m)
    case DoPostDelayed(trigger, m) => PostDelayed(q, trigger, m)
    case LatePost(m) => Enqueue(q, m)
    case LatePostDelayed(trigger, m) => EnqueueDelayed(q, trigger, m)
    case DoClear(handler, id) => Clear(q, handler, id)
    case DoQuit => q.(stopped := true)
  }

  function PerformAll(q: Queue, acts: seq<Act>): Queue
    decreases |acts|
  {
    if acts == [] then q else PerformAll(Perform(q, acts[0]), acts[1..])
  }

  // How long a caller is ready to wait, and the turns that the waits of one call can take.
  datatype Patience = Forever | AtMost(ms: nat)

  datatype Round = Return(m: Option<Message>, q: Queue) | Again(q: Queue)

  // One look at the queues and, if there is nothing to return, one wait.
  function OneRound(q: Queue, wait: Patience, elapsed: nat, turns: seq<Turn>): (r: Round)
    ensures r.Again? ==> turns != []
  {
    var (m, q1) := Take(Drain(q));
    AfterLook(m, q1, wait, elapsed, turns)
  }

  function AfterLook(m: Option<Message>, q: Queue, wait: Patience, elapsed: nat, turns: seq<Turn>): (r: Round)
    ensures r.Again? ==> turns != []
  {
    if m.Some? || turns == [] then Return(m, q)
    else
      var turn := turns[0];
      var q1 := PerformAll(q, turn.before);
      if q1.stopped then Return(None, q1) else AfterWait(q1, wait, elapsed, turn)
  }

  // The stop flag was not set.
  function AfterWait(q: Queue, wait: Patience, elapsed: nat, turn: Turn): (r: Round)
    ensures r.Return? ==> r.m.None?
  {
    var q' := PerformAll(q.(clock := q.clock + turn.elapsed), turn.acts);
    if !turn.ok || (wait.AtMost? && elapsed + turn.elapsed >= wait.ms) then Return(None, q') else Again(q')
  }

  function Fetch(q: Queue, wait: Patience, elapsed: nat, turns: seq<Turn>): (Option<Message>, Queue)
    decreases |turns|
  {
    match OneRound(q, wait, elapsed, turns)
    case Return(m, q') => (m, q')
    case Again(q') => Fetch(q', wait, elapsed + turns[0].elapsed, turns[1..])
  }

  function Get(q: Queue, wait: Patience, turns: seq<Turn>): (Option<Message>, Queue) {
    if q.peek.Some? then (q.peek, q.(peek := None, delivered := q.delivered + [q.peek.value]))
    else
      var (m, q') := Fetch(q, wait, 0, turns);
      (m, if m.Some? then q'.(delivered := q'.delivered + [m.value]) else q')
  }

  function Peek(q: Queue, wait: Patience, turns: seq<Turn>): (Option<Message>, Queue) {
    if q.peek.Some? then (q.peek, q)
    else
      var (m, q') := Fetch(q, wait, 0, turns);
      (m, if m.Some? then q'.(peek := m) else q')
  }

  // Whole runs.

  datatype Call =
    | CallAct(act: Act)
    | CallGet(wait: Patience, turns: seq<Turn>)
    | CallPeek(wait: Patience, turns: seq<Turn>)
    | CallRestart
    | PassTime(ms: nat)

  function Step(q: Queue, call: Call): Queue {
    match call
    case CallAct(act) => Perform(q, act)
    case CallGet(wait, turns) => Get(q, wait, turns).1
    case CallPeek(wait, turns) => Peek(q, wait, turns).1
    case CallRestart => q.(stopped := false)
    case PassTime(ms) => q.(clock := q.clock + ms)
  }

  function Run(q: Queue, calls: seq<Call>): Queue
    decreases |calls|
  {
    if calls == [] then q else Run(Step(q, calls[0]), calls[1..])
  }

  function Count(s: seq<Message>, x: Message): nat {
    if s == [] then 0 else (if s[0] == x then 1 else 0) + Count(s[1..], x)
  }

  // How often a message is delivered, cleared, disposed, or pending in the slot or a list.
  function Places(q: Queue, x: Message): nat {
    Count(q.delivered, x) + Count(q.cleared, x) + Count(q.disposed, x)
    + Count(Peeked(q), x) + Count(q.ready, x) + Count(Messages(q.delayed), x)
  }

  /** Every posted message is in exactly one place: one place for each time it was posted. */
  ghost predicate Accounted(q: Queue, hand: seq<Message>) {
    forall x :: Count(q.posted, x) == Places(q, x) + Count(hand, x)
  }

  /** Messages handed out, in hand, peeked at and still ready make up the line, in order. */
  ghost predicate InLine(q: Queue, hand: seq<Message>) {
    q.line == q.delivered + hand + Peeked(q) + Live(q.ready)
  }

  ghost predicate WellOrdered(q: Queue) {
    Ordered(q.delayed) && forall k :: 0 <= k < |q.delayed| ==> q.delayed[k].num < q.next
  }

  ghost predicate Balanced(q: Queue, hand: seq<Message>) {
    WellOrdered(q) && Accounted(q, hand) && InLine(q, hand)
  }

  ghost predicate Sound(q: Queue) { Balanced(q, []) }
}
