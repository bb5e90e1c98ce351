/** physicalsocketserver.cc: the list of dispatchers, and the passes over it whose cursors are
    repaired when a handler removes entries. */
module Dispatchers {
  import opened Sequences

  type Dispatcher = nat

  // A loop's index variable, registered by its address in iterators_.
  class Cursor {
    var at: nat

    constructor (at: nat)
      ensures this.at == at
    {
      this.at := at;
    }
  }

  ghost function Stop(end: Cursor?): nat
    reads end
  {
    if end == null then 0 else end.at
  }

  /** A loop over the list that is under way. One over the events has an end cursor and does
      not go on to dispatchers added meanwhile; the polling loop has none. `before` is what has
      been visited and not removed since. */
  datatype Pass = Pass(i: Cursor, end: Cursor?, start: seq<Dispatcher>, visited: seq<Dispatcher>,
                       before: seq<Dispatcher>, removed: set<Dispatcher>)

  // The passes under way, innermost on top.
  datatype Stack = Idle | On(below: Stack, top: Pass)

  /** What the handler of a dispatcher does when it is run: it adds and removes dispatchers,
      possibly itself, and it may run passes of its own. The k-th dispatcher that a pass
      visits runs the k-th handler. */
  datatype Handler = Handler(acts: seq<Act>)
  datatype Act = DoAdd(d: Dispatcher) | DoRemove(d: Dispatcher) | DoPass(bounded: bool, handlers: seq<Handler>)

  // The dispatchers that some act, however deeply nested, may remove.
  function Removals(acts: seq<Act>): set<Dispatcher>
    decreases acts
  {
    if acts == [] then {}
    else Removals(acts[..|acts| - 1]) + Removed(acts[|acts| - 1])
  }

  function Removed(act: Act): set<Dispatcher>
    decreases act
  {
    match act
    case DoAdd(_) => {}
    case DoRemove(d) => {d}
    case DoPass(_, handlers) => AllRemovals(handlers)
  }

  function AllRemovals(handlers: seq<Handler>): set<Dispatcher>
    decreases handlers
  {
    if handlers == [] then {}
    else AllRemovals(handlers[..|handlers| - 1]) + Removals(handlers[|handlers| - 1].acts)
  }

  lemma {:induction false} RemovalsOfSome(handlers: seq<Handler>, k: nat)
    requires k <= |handlers|
    ensures AllRemovals(handlers[..k]) <= AllRemovals(handlers)
    decreases |handlers|
  {
    var n := |handlers|;
    if k == n {
      assert handlers[..k] == handlers;
    } else {
      RemovalsOfSome(handlers[..n - 1], k);
      assert handlers[..n - 1][..k] == handlers[..k];
    }
  }

  ghost predicate Distinct<T>(s: seq<T>) { forall i, j :: 0 <= i < j < |s| ==> s[i] != s[j] }

  // What is left of a list when some entries are dropped.
  function Keep(s: seq<Dispatcher>, dropped: set<Dispatcher>): seq<Dispatcher> {
    if s == [] then []
    else Keep(s[..|s| - 1], dropped) + if s[|s| - 1] in dropped then [] else [s[|s| - 1]]
  }

  /** What acts and passes come to, told without cursors: the list afterwards, and what has been
      removed from it. */
  datatype Effect = Effect(list: seq<Dispatcher>, gone: set<Dispatcher>)

  /** A pass after some of its handlers: the list, what it has visited, what of that still
      stands, what it has yet to visit, and what has been removed meanwhile. */
  datatype Tour = Tour(list: seq<Dispatcher>, visited: seq<Dispatcher>, before: seq<Dispatcher>,
                       todo: seq<Dispatcher>, gone: set<Dispatcher>)

  function OfAct(list: seq<Dispatcher>, act: Act): Effect
    decreases act
  {
    match act
    case DoAdd(d) => Effect(if d in list then list else list + [d], {})
    case DoRemove(d) => Effect(Keep(list, {d}), if d in list then {d} else {})
    case DoPass(bounded, handlers) => var t := OfTurns(list, bounded, handlers); Effect(t.list, t.gone)
  }

  function OfActs(list: seq<Dispatcher>, acts: seq<Act>): Effect
    decreases acts
  {
    if acts == [] then Effect(list, {})
    else
      var e := OfActs(list, acts[..|acts| - 1]);
      var f := OfAct(e.list, acts[|acts| - 1]);
      Effect(f.list, e.gone + f.gone)
  }

  /** The k-th dispatcher visited runs the k-th handler; the dispatchers that are still to be
      visited are, over the events, those of the start that have not been removed, and when
      polling all behind those that have been visited. */
  function OfTurns(list: seq<Dispatcher>, bounded: bool, handlers: seq<Handler>): Tour
    decreases handlers
  {
    if handlers == [] then Tour(list, [], [], list, {})
    else
      var t := OfTurns(list, bounded, handlers[..|handlers| - 1]);
      if t.todo == [] then t
      else Handled(Stepped(t), bounded, OfActs(t.list, handlers[|handlers| - 1].acts))
  }

  // The next dispatcher is visited.
  function Stepped(t: Tour): Tour
    requires t.todo != []
  {
    t.(visited := t.visited + [t.todo[0]], before := t.before + [t.todo[0]], todo := t.todo[1..])
  }

  // Its handler has been run.
  function Handled(t: Tour, bounded: bool, e: Effect): Tour {
    var before := Keep(t.before, e.gone);
    t.(list := e.list, before := before, gone := t.gone + e.gone,
       todo := if bounded then Keep(t.todo, e.gone) else e.list[if |before| <= |e.list| then |before| else 0..])
  }

  function Erased<T>(s: seq<T>, index: nat): seq<T>
    requires index < |s|
  {
    s[..index] + s[index + 1..]
  }

  function Repaired(at: nat, index: nat): nat { if index < at then at - 1 else at }

  lemma {:induction false} KeepMore(s: seq<Dispatcher>, dropped: set<Dispatcher>, more: set<Dispatcher>)
    ensures Keep(s, dropped + more) == Keep(Keep(s, dropped), more)
    decreases |s|
  {
    if s != [] {
      var init, last := s[..|s| - 1], s[|s| - 1];
      KeepMore(init, dropped, more);
      if last !in dropped {
        assert Keep(s, dropped)[..|Keep(init, dropped)|] == Keep(init, dropped);
      } else {
        assert Keep(s, dropped) == Keep(init, dropped);
      }
    }
  }

  lemma {:induction false} KeepSum(a: seq<Dispatcher>, b: seq<Dispatcher>, dropped: set<Dispatcher>)
    ensures Keep(a + b, dropped) == Keep(a, dropped) + Keep(b, dropped)
    decreases |b|
  {
    if b == [] {
      assert a + b == a;
    } else {
      assert (a + b)[..|a + b| - 1] == a + b[..|b| - 1];
      KeepSum(a, b[..|b| - 1], dropped);
    }
  }

  lemma {:induction false} KeepMembers(s: seq<Dispatcher>, dropped: set<Dispatcher>, d: Dispatcher)
    ensures d in Keep(s, dropped) <==> d in s && d !in dropped
    decreases |s|
  {
    if s != [] {
      var init, last := s[..|s| - 1], s[|s| - 1];
      assert s == init + [last];
      KeepMembers(init, dropped, d);
    }
  }

  lemma {:induction false} KeepNone(s: seq<Dispatcher>, d: Dispatcher)
    requires d !in s
    ensures Keep(s, {d}) == s
    decreases |s|
  {
    if s != [] {
      assert s == s[..|s| - 1] + [s[|s| - 1]];
      KeepNone(s[..|s| - 1], d);
    }
  }

  // Dropping a value from a list without repetitions is erasing the one place it has.
  lemma {:induction false} KeepErases(s: seq<Dispatcher>, index: nat)
    requires Distinct(s) && index < |s|
    ensures Keep(s, {s[index]}) == Erased(s, index)
    decreases |s|
  {
    var d, init, last := s[index], s[..|s| - 1], s[|s| - 1];
    if index == |s| - 1 {
      assert d !in init;
      KeepNone(init, d);
    } else {
      assert init[index] == d && last != d;
      KeepErases(init, index);
      assert Erased(s, index) == Erased(init, index) + [last];
    }
  }

  // A cursor that marks off the kept part of s marks off what is kept after an erasure.
  lemma CursorRepaired(list: seq<Dispatcher>, index: nat, at: nat, s: seq<Dispatcher>, dropped: set<Dispatcher>)
    requires Distinct(list) && index < |list| && at <= |list| && list[..at] == Keep(s, dropped)
    ensures Repaired(at, index) <= |list| - 1
    ensures Erased(list, index)[..Repaired(at, index)] == Keep(s, dropped + {list[index]})
  {
    KeepMore(s, dropped, {list[index]});
    DroppedBefore(list, index, at);
  }

  lemma DroppedBefore(list: seq<Dispatcher>, index: nat, at: nat)
    requires Distinct(list) && index < |list| && at <= |list|
    ensures Repaired(at, index) <= |list| - 1
    ensures Keep(list[..at], {list[index]}) == Erased(list, index)[..Repaired(at, index)]
  {
    if index < at {
      KeepErases(list[..at], index);
      assert Erased(list, index)[..at - 1] == Erased(list[..at], index);
    } else {
      assert list[index] !in list[..at];
      KeepNone(list[..at], list[index]);
      assert Erased(list, index)[..at] == list[..at];
    }
  }

  // Adding or dropping nothing.
  lemma {:induction false} KeepAll(s: seq<Dispatcher>)
    ensures Keep(s, {}) == s
    decreases |s|
  {
    if s != [] { KeepAll(s[..|s| - 1]); }
  }

  // The cursors that a pass registers.
  function Pair(i: Cursor, end: Cursor?): seq<Cursor> { if end == null then [i] else [i, end] }

  function Own(p: Pass): seq<Cursor> { Pair(p.i, p.end) }

  function Cursors(passes: Stack): seq<Cursor> {
    match passes
    case Idle => []
    case On(below, top) => Cursors(below) + Own(top)
  }

  /** A pass whose cursors stand at i and end fits the list: what lies before i is what has
      been visited and not removed since; what lies before end is what was there at the start
      and has never been removed. */
  ghost predicate Fits(p: Pass, i: nat, end: nat, list: seq<Dispatcher>) {
    && i <= |list| && list[..i] == p.before
    && if p.end == null then forall d :: d in p.before ==> d in p.visited
    else
      && p.i != p.end && i <= end <= |list|
      && p.before == Keep(p.visited, p.removed)
      && list[..end] == Keep(p.start, p.removed)
      && Distinct(p.visited) && (forall d :: d in p.visited ==> d in p.start)
  }

  ghost predicate Tracks(p: Pass, at: map<Cursor, nat>, list: seq<Dispatcher>) {
    p.i in at && (p.end != null ==> p.end in at) && Fits(p, at[p.i], if p.end == null then 0 else at[p.end], list)
  }

  ghost predicate AllTrack(passes: Stack, at: map<Cursor, nat>, list: seq<Dispatcher>) {
    passes.Idle? || (AllTrack(passes.below, at, list) && Tracks(passes.top, at, list))
  }

  ghost function Positions(iterators: seq<Cursor>): map<Cursor, nat>
    reads iterators
  {
    map c | c in iterators :: c.at
  }

  lemma FitsAfterRemoval(p: Pass, i: nat, end: nat, list: seq<Dispatcher>, index: nat)
    requires Fits(p, i, end, list) && Distinct(list) && index < |list|
    ensures Fits(Dropped(p, {list[index]}), Repaired(i, index), Repaired(end, index), Erased(list, index))
  {
    KeepAll(p.before);
    assert {} + {list[index]} == {list[index]};
    CursorRepaired(list, index, i, p.before, {});
    forall d | d in Keep(p.before, {list[index]}) ensures d in p.before { KeepMembers(p.before, {list[index]}, d); }
    if p.end != null {
      KeepMore(p.visited, p.removed, {list[index]});
      CursorRepaired(list, index, end, p.start, p.removed);
    }
  }

  lemma FitsAfterAddition(p: Pass, i: nat, end: nat, list: seq<Dispatcher>, d: Dispatcher)
    requires Fits(p, i, end, list)
    ensures Fits(p, i, end, list + [d])
  {
    assert i <= |list| && (list + [d])[..i] == list[..i];
    if p.end != null { assert (list + [d])[..end] == list[..end]; }
  }

  lemma ErasedList(list: seq<Dispatcher>, index: nat)
    requires Distinct(list) && index < |list|
    ensures Distinct(Erased(list, index))
    ensures forall x :: x in Erased(list, index) <==> x in list && x != list[index]
  {
    forall x | x in list && x != list[index] ensures x in Erased(list, index) {
      var k :| 0 <= k < |list| && list[k] == x;
      assert Erased(list, index)[if k < index then k else k - 1] == x;
    }
  }

  function Dropped(p: Pass, gone: set<Dispatcher>): Pass {
    p.(removed := p.removed + gone, before := Keep(p.before, gone))
  }

  // The passes once these dispatchers have been removed as well.
  function Dropping(passes: Stack, gone: set<Dispatcher>): Stack {
    match passes
    case Idle => Idle
    case On(below, top) => On(Dropping(below, gone), Dropped(top, gone))
  }

  lemma {:induction false} CursorsOfDropping(passes: Stack, gone: set<Dispatcher>)
    ensures Cursors(Dropping(passes, gone)) == Cursors(passes)
  {
    if passes.On? { CursorsOfDropping(passes.below, gone); }
  }

  lemma {:induction false} DroppingMore(passes: Stack, gone: set<Dispatcher>, more: set<Dispatcher>)
    ensures Dropping(Dropping(passes, gone), more) == Dropping(passes, gone + more)
  {
    if passes.On? {
      DroppingMore(passes.below, gone, more);
      KeepMore(passes.top.before, gone, more);
      assert passes.top.removed + gone + more == passes.top.removed + (gone + more);
    }
  }

  lemma {:induction false} DroppingNone(passes: Stack)
    ensures Dropping(passes, {}) == passes
  {
    if passes.On? {
      DroppingNone(passes.below);
      KeepAll(passes.top.before);
      assert passes.top.removed + {} == passes.top.removed;
    }
  }

  // The cursors of the pass on top are no other pass's.
  lemma TopApart(passes: Stack)
    requires passes.On? && Distinct(Cursors(passes))
    ensures Distinct(Cursors(passes.below))
    ensures forall c :: c in Own(passes.top) ==> c !in Cursors(passes.below)
  {
    var a, b := Cursors(passes.below), Own(passes.top);
    assert forall k :: 0 <= k < |a| ==> (a + b)[k] == a[k];
    assert forall k :: 0 <= k < |b| ==> (a + b)[|a| + k] == b[k];
  }

  lemma {:induction false} TrackAfterAddition(passes: Stack, at: map<Cursor, nat>, list: seq<Dispatcher>, d: Dispatcher)
    requires AllTrack(passes, at, list)
    ensures AllTrack(passes, at, list + [d])
  {
    if passes.On? {
      var p := passes.top;
      TrackAfterAddition(passes.below, at, list, d);
      FitsAfterAddition(p, at[p.i], if p.end == null then 0 else at[p.end], list, d);
    }
  }

  // An erasure, with every cursor repaired.
  lemma {:induction false} TrackAfterRemoval(passes: Stack, at: map<Cursor, nat>, at': map<Cursor, nat>,
      list: seq<Dispatcher>, index: nat)
    requires AllTrack(passes, at, list) && Distinct(list) && index < |list|
    requires at'.Keys == at.Keys && forall c :: c in at ==> at'[c] == Repaired(at[c], index)
    ensures AllTrack(Dropping(passes, {list[index]}), at', Erased(list, index))
  {
    if passes.On? {
      var p := passes.top;
      TrackAfterRemoval(passes.below, at, at', list, index);
      FitsAfterRemoval(p, at[p.i], if p.end == null then 0 else at[p.end], list, index);
    }
  }

  // Only the cursors that the passes own matter.
  lemma {:induction false} TrackElsewhere(passes: Stack, at: map<Cursor, nat>, at': map<Cursor, nat>,
      list: seq<Dispatcher>)
    requires AllTrack(passes, at, list)
    requires forall c :: c in Cursors(passes) ==> c in at && c in at' && at'[c] == at[c]
    ensures AllTrack(passes, at', list)
  {
    if passes.On? {
      var p := passes.top;
      var own := Own(p);
      assert p.i == own[0] && (p.end != null ==> p.end == own[1]);
      assert forall c :: c in Cursors(passes) <==> c in Cursors(passes.below) || c in own;
      TrackElsewhere(passes.below, at, at', list);
    }
  }

  // iterators_ holds the cursors of the passes under way, and every pass is on track.
  ghost predicate InOrder(iterators: seq<Cursor>, passes: Stack, at: map<Cursor, nat>, list: seq<Dispatcher>) {
    Distinct(list) && Distinct(iterators) && iterators == Cursors(passes) && AllTrack(passes, at, list)
  }

  ghost predicate Same(cursors: seq<Cursor>, at: map<Cursor, nat>, at': map<Cursor, nat>) {
    forall c :: c in cursors ==> c in at && c in at' && at'[c] == at[c]
  }

  // A pass is put on top.
  lemma Pushed(iterators: seq<Cursor>, passes: Stack, at: map<Cursor, nat>, at': map<Cursor, nat>,
               p: Pass, list: seq<Dispatcher>)
    requires InOrder(iterators, passes, at, list) && Same(iterators, at, at') && Tracks(p, at', list)
    requires p.i !in iterators && (p.end != null ==> p.end !in iterators) && p.i != p.end
    ensures InOrder(iterators + Own(p), On(passes, p), at', list)
  {
    assert forall k :: 0 <= k < |iterators| ==> (iterators + Own(p))[k] == iterators[k] && iterators[k] in iterators;
    TrackElsewhere(passes, at, at', list);
  }

  // The pass on top is taken off; its cursors are no other pass's.
  lemma Popped(iterators: seq<Cursor>, passes: Stack, at: map<Cursor, nat>, at': map<Cursor, nat>,
      list: seq<Dispatcher>)
    requires InOrder(iterators, passes, at, list) && passes.On? && Same(Cursors(passes.below), at, at')
    ensures |Cursors(passes.below)| == |iterators| - if passes.top.end == null then 1 else 2
    ensures iterators[..|Cursors(passes.below)|] == Cursors(passes.below)
    ensures InOrder(Cursors(passes.below), passes.below, at', list)
  {
    TopApart(passes);
    TrackElsewhere(passes.below, at, at', list);
  }

  function Visited(p: Pass, d: Dispatcher): Pass { p.(visited := p.visited + [d], before := p.before + [d]) }

  /** A pass has come to its end. Over the events: every dispatcher that was there at the start
      and was never removed has been visited, none twice and none that was not there. When
      polling: every dispatcher that is there now has been visited. */
  ghost predicate Complete(p: Pass, list: seq<Dispatcher>) {
    if p.end == null then forall d :: d in list ==> d in p.visited
    else
      && Distinct(p.visited) && (forall d :: d in p.visited ==> d in p.start)
      && forall d :: d in p.start && d !in p.removed ==> d in p.visited
  }

  lemma {:induction false} SubsetLength<T>(a: seq<T>, b: seq<T>)
    requires Distinct(a) && forall x :: x in a ==> x in b
    ensures |a| <= |b|
    decreases |a|
  {
    if a != [] {
      var n := |a| - 1;
      assert a[n] in b;
      var k :| 0 <= k < |b| && b[k] == a[n];
      var rest := b[..k] + b[k + 1..];
      forall x | x in a[..n] ensures x in rest {
        assert x in b;
        var j :| 0 <= j < |b| && b[j] == x;
        assert rest[if j < k then j else j - 1] == x;
      }
      SubsetLength(a[..n], rest);
    }
  }

  lemma PassIsComplete(p: Pass, list: seq<Dispatcher>)
    requires if p.end == null then Fits(p, |list|, 0, list) else exists i :: Fits(p, i, i, list)
    ensures Complete(p, list)
  {
    if p.end != null {
      forall d | d in p.start && d !in p.removed ensures d in p.visited {
        KeepMembers(p.start, p.removed, d);
        KeepMembers(p.visited, p.removed, d);
      }
    }
  }

  lemma NewPassFits(p: Pass, list: seq<Dispatcher>)
    requires p.start == list && p.visited == p.before == [] && p.removed == {} && p.i != p.end
    ensures Fits(p, 0, if p.end == null then 0 else |list|, list)
  {
    KeepAll(list);
    assert list[..|list|] == list;
  }

  lemma VisitFits(p: Pass, i: nat, end: nat, list: seq<Dispatcher>)
    requires Fits(p, i, end, list) && Distinct(list) && i < if p.end == null then |list| else end
    ensures Fits(Visited(p, list[i]), i + 1, end, list)
    ensures p.end != null ==> list[i] in p.start && list[i] !in p.visited && list[i] !in p.removed
  {
    var d := list[i];
    assert list[..i + 1] == list[..i] + [d];
    if p.end != null {
      assert d in list[..end];
      KeepMembers(p.start, p.removed, d);
      KeepMembers(p.visited, p.removed, d);
      assert d !in list[..i];
      assert (p.visited + [d])[..|p.visited|] == p.visited;
    }
  }

  lemma VisitInOrder(iterators: seq<Cursor>, passes: Stack, at: map<Cursor, nat>, at': map<Cursor, nat>,
      list: seq<Dispatcher>)
    requires InOrder(iterators, passes, at, list) && passes.On? && at.Keys == at'.Keys && (forall c :: c in iterators ==> c in at)
    requires var p := passes.top; p.i in at && at[p.i] < if p.end != null && p.end in at then at[p.end] else |list|
    requires forall c :: c in at ==> at'[c] == if c == passes.top.i then at[c] + 1 else at[c]
    ensures var p := passes.top;
            && at[p.i] < |list|
            && InOrder(iterators, On(passes.below, Visited(p, list[at[p.i]])), at', list)
            && (p.end != null ==>
                  var d := list[at[p.i]]; d in p.start && d !in p.visited && d !in p.removed)
  {
    var p, below := passes.top, passes.below;
    TopApart(passes);
    VisitFits(p, at[p.i], if p.end == null then 0 else at[p.end], list);
    Popped(iterators, passes, at, at, list);
    assert p.i in Own(p) by { assert Own(p)[0] == p.i; }
    assert p.end != null ==> p.end in Own(p) by { assert p.end != null ==> Own(p)[1] == p.end; }
    Pushed(Cursors(below), below, at, at', Visited(p, list[at[p.i]]), list);
  }

  class PhysicalSocketServer {
    var dispatchers_: seq<Dispatcher>
    var iterators_: seq<Cursor>
    ghost var passes: Stack

    ghost predicate Valid()
      reads this, iterators_
    {
      InOrder(iterators_, passes, Positions(iterators_), dispatchers_)
    }

    constructor ()
      ensures Valid() && dispatchers_ == [] && passes == Idle
    {
      dispatchers_, iterators_, passes := [], [], Idle;
    }

    method Find(d: Dispatcher) returns (pos: nat)
      ensures pos <= |dispatchers_| && (pos < |dispatchers_| ==> dispatchers_[pos] == d)
      ensures d in dispatchers_ <==> pos < |dispatchers_|
    {
      pos := 0;
      while pos < |dispatchers_| && dispatchers_[pos] != d
        invariant pos <= |dispatchers_| && d !in dispatchers_[..pos]
      {
        pos := pos + 1;
      }
    }

    method Add(d: Dispatcher)
      requires Valid()
      modifies this`dispatchers_
      ensures Valid()
      ensures dispatchers_ == old(dispatchers_) + if d in old(dispatchers_) then [] else [d]
    {
      var pos := Find(d);
      if pos != |dispatchers_| {
        return;
      }
      TrackAfterAddition(passes, Positions(iterators_), dispatchers_, d);
      dispatchers_ := dispatchers_ + [d];
    }

    method RepairCursors(index: nat)
      requires Distinct(iterators_)
      modifies iterators_
      ensures forall c :: c in iterators_ ==> c.at == Repaired(old(c.at), index)
    {
      var k := 0;
      while k < |iterators_|
        invariant k <= |iterators_|
        invariant forall j :: 0 <= j < |iterators_| ==>
                    iterators_[j].at == if j < k then Repaired(old(iterators_[j].at), index) else old(iterators_[j].at)
      {
        var it := iterators_[k];
        if index < it.at {
          it.at := it.at - 1;
        }
        k := k + 1;
      }
    }

    method EraseAndRepair(d: Dispatcher) returns (ghost index: nat)
      requires Valid() && d in dispatchers_
      modifies this`dispatchers_, iterators_
      ensures index < |old(dispatchers_)| && old(dispatchers_)[index] == d
      ensures dispatchers_ == Erased(old(dispatchers_), index)
      ensures forall c :: c in iterators_ ==> c.at == Repaired(old(c.at), index)
    {
      var pos := Find(d);
      index := pos;
      dispatchers_ := dispatchers_[..pos] + dispatchers_[pos + 1..];
      RepairCursors(pos);
    }

    /** Every pass that is under way, however deeply nested, stays on track. */
    method Remove(d: Dispatcher)
      requires Valid() && d in dispatchers_
      modifies this`dispatchers_, this`passes, iterators_
      ensures Valid() && passes == Dropping(old(passes), {d})
      ensures d !in dispatchers_ && dispatchers_ == Keep(old(dispatchers_), {d})
      ensures forall x :: x != d ==> (x in dispatchers_ <==> x in old(dispatchers_))
    {
      ghost var list := dispatchers_;
      ghost var index := EraseAndRepair(d);
      TrackAfterRemoval(passes, old(Positions(iterators_)), Positions(iterators_), list, index);
      CursorsOfDropping(passes, {d});
      ErasedList(list, index);
      KeepErases(list, index);
      passes := Dropping(passes, {d});
    }

    // The cursors of a new pass: i = 0 and, over the events, end = dispatchers_.size().
    method BeginPass(bounded: bool) returns (i: Cursor, end: Cursor?)
      requires Valid()
      modifies this`iterators_, this`passes
      ensures Valid() && fresh(i) && (end != null <==> bounded) && (bounded ==> fresh(end))
      ensures passes == On(old(passes), Pass(i, end, dispatchers_, [], [], {}))
      ensures i.at == 0 && Stop(end) == (if bounded then |dispatchers_| else 0)
      ensures iterators_ == old(iterators_) + Pair(i, end)
    {
      i := new Cursor(0);
      end := null;
      if bounded {
        end := new Cursor(|dispatchers_|);
      }
      ghost var p, at := Pass(i, end, dispatchers_, [], [], {}), Positions(iterators_);
      assert i == Own(p)[0] && (bounded ==> end == Own(p)[1]);
      NewPassFits(p, dispatchers_);
      ghost var before, below := iterators_, passes;
      iterators_ := iterators_ + Pair(i, end);
      passes := On(passes, p);
      Pushed(before, below, at, Positions(iterators_), p, dispatchers_);
    }

    /** Disp = dispatchers_[i++]: an event pass visits a dispatcher that was there at the
        start, has not been visited, and has not been removed since. */
    method Visit(i: Cursor, end: Cursor?) returns (disp: Dispatcher)
      requires Valid() && OnTop(i, end)
      requires i.at < (if end == null then |dispatchers_| else end.at)
      modifies this`passes, i
      ensures Valid() && disp in dispatchers_ && i.at == old(i.at) + 1
      ensures old(i.at) < |dispatchers_| && disp == dispatchers_[old(i.at)] && Stop(end) == old(Stop(end))
      ensures passes == On(old(passes).below, Visited(old(passes).top, disp))
      ensures var p := old(passes).top;
              end != null ==> disp in p.start && disp !in p.visited && disp !in p.removed
    {
      ghost var p, at := passes.top, Positions(iterators_);
      assert i == Own(p)[0] && i in iterators_ && (end != null ==> end == Own(p)[1] && end in iterators_);
      disp := dispatchers_[i.at];
      i.at := i.at + 1;
      VisitInOrder(iterators_, passes, at, Positions(iterators_), dispatchers_);
      passes := On(passes.below, Visited(p, disp));
    }

    method EndPass(i: Cursor, end: Cursor?)
      requires Valid() && OnTop(i, end)
      modifies this`passes, this`iterators_
      ensures Valid() && passes == old(passes).below
    {
      ghost var before, was, at := iterators_, passes, Positions(iterators_);
      iterators_ := iterators_[..|iterators_| - if end == null then 1 else 2];
      passes := passes.below;
      Popped(before, was, at, Positions(iterators_), dispatchers_);
    }

    /** The loop is left when everything that was there at the start and has never been removed
        has been visited. */
    lemma LastTurn(i: Cursor, end: Cursor?)
      requires Valid() && OnTop(i, end)
      requires i.at == if end == null then |dispatchers_| else end.at
      ensures Complete(passes.top, dispatchers_)
    {
      assert Tracks(passes.top, Positions(iterators_), dispatchers_);
      PassIsComplete(passes.top, dispatchers_);
    }

    lemma TopFits()
      requires Valid() && passes.On?
      ensures var p := passes.top;
              && Fits(p, p.i.at, Stop(p.end), dispatchers_)
              && p.i.at <= |dispatchers_|
              && (p.end != null ==> p.i.at <= p.end.at <= |dispatchers_| && |p.visited| <= |p.start|)
    {
      assert Tracks(passes.top, Positions(iterators_), dispatchers_);
      if passes.top.end != null { SubsetLength(passes.top.visited, passes.top.start); }
    }

    // A handler removes only dispatchers that are in the list.
    method RunAct(act: Act) returns (ghost gone: set<Dispatcher>)
      requires Valid()
      modifies this, iterators_
      ensures Valid() && iterators_ == old(iterators_)
      ensures passes == Dropping(old(passes), gone) && gone <= Removed(act)
      ensures Effect(dispatchers_, gone) == OfAct(old(dispatchers_), act)
      decreases act, 4
    {
      gone := {};
      DroppingNone(passes);
      match act {
        case DoAdd(d) =>
          Add(d);
        case DoRemove(d) =>
          if d in dispatchers_ {
            Remove(d);
            gone := {d};
          } else {
            KeepNone(dispatchers_, d);
          }
        case DoPass(bounded, handlers) =>
          ghost var p := RunPass(act);
          gone := p.removed;
      }
    }

    method RunHandler(h: Handler) returns (ghost gone: set<Dispatcher>)
      requires Valid()
      modifies this, iterators_
      ensures Valid() && iterators_ == old(iterators_)
      ensures passes == Dropping(old(passes), gone) && gone <= Removals(h.acts)
      ensures Effect(dispatchers_, gone) == OfActs(old(dispatchers_), h.acts)
      decreases h, 1
    {
      var j := 0;
      gone := {};
      DroppingNone(passes);
      while j < |h.acts|
        invariant j <= |h.acts| && Valid() && iterators_ == old(iterators_)
        invariant passes == Dropping(old(passes), gone) && gone <= Removals(h.acts[..j])
        invariant Effect(dispatchers_, gone) == OfActs(old(dispatchers_), h.acts[..j])
      {
        ghost var more := RunAct(h.acts[j]);
        DroppingMore(old(passes), gone, more);
        assert h.acts[..j + 1][..j] == h.acts[..j];
        gone := gone + more;
        j := j + 1;
      }
      assert h.acts[..j] == h.acts;
    }

    // The pass on top of those underneath has handled k events.
    ghost predicate Underway(i: Cursor, end: Cursor?, act: Act, k: nat, below: Stack)
      reads this
    {
      && act.DoPass? && k <= |act.handlers| && OnTop(i, end) && (act.bounded <==> end != null)
      && passes.below == Dropping(below, passes.top.removed)
      && passes.top.removed <= AllRemovals(act.handlers[..k])
    }

    ghost predicate Follows(i: Cursor, end: Cursor?, act: Act, k: nat)
      reads this, i, end
      requires act.DoPass? && k <= |act.handlers|
    {
      passes.On? && FollowsAt(passes.top, dispatchers_, i.at, Stop(end), act, k)
    }

    // One turn of the loop: visit a dispatcher and run its handler.
    method Turn(i: Cursor, end: Cursor?, act: Act, k: nat, ghost below: Stack) returns (next: nat)
      requires Valid() && Underway(i, end, act, k, below) && Follows(i, end, act, k)
      requires i.at < (if end == null then |dispatchers_| else end.at)
      modifies this, iterators_
      ensures Valid() && iterators_ == old(iterators_) && Underway(i, end, act, next, below)
      ensures Follows(i, end, act, next)
      ensures passes.top.start == old(passes.top.start) && |passes.top.visited| == |old(passes.top.visited)| + 1
      ensures if k < |act.handlers| then next == k + 1
              else next == k && dispatchers_ == old(dispatchers_) && i.at == old(i.at) + 1
      decreases act, 1
    {
      assert i == Own(passes.top)[0] && i in iterators_;
      ghost var p, list, a, b := passes.top, dispatchers_, i.at, Stop(end);
      var disp := Visit(i, end);
      if k == |act.handlers| {
        VisitFollows(p, list, a, b, act);
        return k;
      }
      ghost var gone := HandleNext(i, end, act, k, below);
      HandledFollows(p, list, a, b, act, k, gone, dispatchers_, i.at, Stop(end));
      next := k + 1;
    }

    // The handler of the next event.
    method HandleNext(i: Cursor, end: Cursor?, act: Act, k: nat, ghost below: Stack) returns (ghost gone: set<Dispatcher>)
      requires Valid() && Underway(i, end, act, k, below) && k < |act.handlers|
      modifies this, iterators_
      ensures Valid() && iterators_ == old(iterators_) && Underway(i, end, act, k + 1, below)
      ensures passes.top == Dropped(old(passes.top), gone)
      ensures Fits(passes.top, i.at, Stop(end), dispatchers_)
      ensures Effect(dispatchers_, gone) == OfActs(old(dispatchers_), act.handlers[k].acts)
      decreases act, 0
    {
      gone := RunHandler(act.handlers[k]);
      DroppingMore(below, old(passes.top.removed), gone);
      assert act.handlers[..k + 1][..k] == act.handlers[..k];
      TopFits();
    }

    method BeginTour(act: Act) returns (i: Cursor, end: Cursor?)
      requires Valid() && act.DoPass?
      modifies this`iterators_, this`passes
      ensures Valid() && fresh(i) && (end != null ==> fresh(end)) && iterators_ == old(iterators_) + Pair(i, end)
      ensures Underway(i, end, act, 0, old(passes)) && Follows(i, end, act, 0)
      ensures passes.top.start == old(dispatchers_)
    {
      i, end := BeginPass(act.bounded);
      DroppingNone(old(passes));
      assert act.handlers[..0] == [];
      NewPassFollows(passes.top, dispatchers_, act);
    }

    method RunTurns(i: Cursor, end: Cursor?, act: Act, ghost below: Stack)
      requires Valid() && Underway(i, end, act, 0, below) && Follows(i, end, act, 0)
      modifies this, iterators_
      ensures Valid() && iterators_ == old(iterators_) && Underway(i, end, act, |act.handlers|, below)
      ensures passes.top.start == old(passes.top.start)
      ensures i.at == if end == null then |dispatchers_| else end.at
      ensures Ended(passes.top, dispatchers_, OfTurns(passes.top.start, act.bounded, act.handlers))
      decreases act, 2
    {
      var k := 0;
      TopFits();
      while i.at < (if end == null then |dispatchers_| else end.at)
        invariant Valid() && Underway(i, end, act, k, below) && Follows(i, end, act, k)
        invariant iterators_ == old(iterators_) && passes.top.start == old(passes.top.start)
        decreases if end == null then 0 else |old(passes.top.start)| - |passes.top.visited|,
                  |act.handlers| - k, |dispatchers_| - i.at
      {
        TopFits();
        k := Turn(i, end, act, k, below);
      }
      TopFits();
      RemovalsOfSome(act.handlers, k);
      assert act.handlers[..|act.handlers|] == act.handlers;
      TourEnds(passes.top, dispatchers_, i.at, Stop(end), act, k);
    }

    method EndTour(i: Cursor, end: Cursor?, act: Act, ghost below: Stack) returns (ghost p: Pass)
      requires Valid() && act.DoPass? && Underway(i, end, act, |act.handlers|, below)
      requires i.at == if end == null then |dispatchers_| else end.at
      modifies this`passes, this`iterators_
      ensures Valid() && iterators_ == Cursors(below) && p == old(passes.top) && Complete(p, dispatchers_)
      ensures passes == Dropping(below, p.removed) && p.removed <= AllRemovals(act.handlers)
    {
      assert act.handlers[..|act.handlers|] == act.handlers;
      LastTurn(i, end);
      p := passes.top;
      EndPass(i, end);
      CursorsOfDropping(below, p.removed);
    }

    /** A whole pass, whatever its handlers add, remove or run: it comes to an end, it is
        complete, it visits what the pass without cursors visits and leaves the list that this
        one leaves, and the passes underneath are as they were but for what has been removed. */
    method RunPass(act: Act) returns (ghost p: Pass)
      requires Valid() && act.DoPass?
      modifies this, iterators_
      ensures Valid() && iterators_ == old(iterators_)
      ensures p.start == old(dispatchers_) && (p.end != null <==> act.bounded) && Complete(p, dispatchers_)
      ensures passes == Dropping(old(passes), p.removed) && p.removed <= AllRemovals(act.handlers)
      ensures Ended(p, dispatchers_, OfTurns(old(dispatchers_), act.bounded, act.handlers))
      decreases act, 3
    {
      var i, end := BeginTour(act);
      RunTurns(i, end, act, old(passes));
      p := EndTour(i, end, act, old(passes));
    }

    ghost predicate OnTop(i: Cursor, end: Cursor?)
      reads this
    {
      passes.On? && passes.top.i == i && passes.top.end == end
    }
  }

  // A pass that has come to its end has run this tour, and visited all that was left of it.
  ghost predicate Ended(p: Pass, list: seq<Dispatcher>, t: Tour) {
    list == t.list && p.removed == t.gone && p.visited == t.visited + t.todo
  }

  // Handlers that come after the last visit are not run.
  lemma {:induction false} NothingMore(list: seq<Dispatcher>, bounded: bool, handlers: seq<Handler>, k: nat)
    requires k <= |handlers| && OfTurns(list, bounded, handlers[..k]).todo == []
    ensures OfTurns(list, bounded, handlers) == OfTurns(list, bounded, handlers[..k])
    decreases |handlers|
  {
    if k == |handlers| {
      assert handlers[..k] == handlers;
    } else {
      var init := handlers[..|handlers| - 1];
      assert init[..k] == handlers[..k];
      NothingMore(list, bounded, init, k);
    }
  }

  // The cursors of a pass after a handler: they mark off what is left of what they marked off.
  lemma CursorsAfter(p: Pass, list: seq<Dispatcher>, i: nat, end: nat, gone: set<Dispatcher>,
      list': seq<Dispatcher>, i': nat, end': nat)
    requires Fits(p, i, end, list) && Fits(Dropped(p, gone), i', end', list')
    ensures list'[..i'] == Keep(p.before, gone)
    ensures p.end != null ==> list'[i'..end'] == Keep(list[i..end], gone)
  {
    if p.end != null {
      KeepMore(p.start, p.removed, gone);
      assert list[..end] == list[..i] + list[i..end];
      KeepSum(list[..i], list[i..end], gone);
      assert list'[..end'] == list'[..i'] + list'[i'..end'];
    }
  }

  // Where a pass stands.
  ghost function Standing(p: Pass, list: seq<Dispatcher>, i: nat, end: nat): Tour
    requires Fits(p, i, end, list)
  {
    Tour(list, p.visited, p.before, if p.end == null then list[i..] else list[i..end], p.removed)
  }

  /** It stands where the first k handlers take it, and further on when there are no more. */
  ghost predicate FollowsAt(p: Pass, list: seq<Dispatcher>, i: nat, end: nat, act: Act, k: nat)
    requires act.DoPass? && k <= |act.handlers|
  {
    && Fits(p, i, end, list) && (act.bounded <==> p.end != null)
    && var t, u := OfTurns(p.start, act.bounded, act.handlers[..k]), Standing(p, list, i, end);
       if k < |act.handlers| then u == t
       else u.list == t.list && u.gone == t.gone && u.visited + u.todo == t.visited + t.todo
  }

  lemma NewPassFollows(p: Pass, list: seq<Dispatcher>, act: Act)
    requires act.DoPass? && (act.bounded <==> p.end != null)
    requires p.start == list && p.visited == p.before == [] && p.removed == {} && p.i != p.end
    ensures FollowsAt(p, list, 0, if p.end == null then 0 else |list|, act, 0)
  {
    NewPassFits(p, list);
    assert list[0..] == list && list[0..|list|] == list;
    assert act.handlers[..0] == [];
  }

  lemma StandsOneOn(p: Pass, list: seq<Dispatcher>, i: nat, end: nat)
    requires Fits(p, i, end, list) && Distinct(list) && i < if p.end == null then |list| else end
    ensures Fits(Visited(p, list[i]), i + 1, end, list) && Standing(p, list, i, end).todo != []
    ensures Standing(Visited(p, list[i]), list, i + 1, end) == Stepped(Standing(p, list, i, end))
  {
    VisitFits(p, i, end, list);
  }

  lemma VisitFollows(p: Pass, list: seq<Dispatcher>, i: nat, end: nat, act: Act)
    requires act.DoPass? && FollowsAt(p, list, i, end, act, |act.handlers|) && Distinct(list)
    requires i < if p.end == null then |list| else end
    ensures FollowsAt(Visited(p, list[i]), list, i + 1, end, act, |act.handlers|)
  {
    StandsOneOn(p, list, i, end);
    var u := Standing(p, list, i, end);
    assert u.todo == [u.todo[0]] + u.todo[1..];
    Associative(u.visited, [u.todo[0]], u.todo[1..]);
  }

  lemma HandledFollows(p: Pass, list: seq<Dispatcher>, i: nat, end: nat, act: Act, k: nat, gone: set<Dispatcher>,
      list': seq<Dispatcher>, i': nat, end': nat)
    requires act.DoPass? && k < |act.handlers| && FollowsAt(p, list, i, end, act, k) && Distinct(list)
    requires i < if p.end == null then |list| else end
    requires Fits(Dropped(Visited(p, list[i]), gone), i', end', list')
    requires Effect(list', gone) == OfActs(list, act.handlers[k].acts)
    ensures FollowsAt(Dropped(Visited(p, list[i]), gone), list', i', end', act, k + 1)
  {
    var q := Visited(p, list[i]);
    StandsOneOn(p, list, i, end);
    CursorsAfter(q, list, i + 1, end, gone, list', i', end');
    var t := Standing(p, list, i, end);
    OneMoreTurn(p.start, act.bounded, act.handlers, k, t, Effect(list', gone));
    assert list'[..i'] == Keep(q.before, gone) && |list'[..i']| == i';
    assert Standing(Dropped(q, gone), list', i', end') == Handled(Stepped(t), act.bounded, Effect(list', gone));
  }

  lemma TourEnds(p: Pass, list: seq<Dispatcher>, i: nat, end: nat, act: Act, k: nat)
    requires act.DoPass? && k <= |act.handlers| && FollowsAt(p, list, i, end, act, k)
    requires i == if p.end == null then |list| else end
    ensures Ended(p, list, OfTurns(p.start, act.bounded, act.handlers))
  {
    var u := Standing(p, list, i, end);
    assert u.todo == [] && u.visited + [] == u.visited;
    if k < |act.handlers| {
      NothingMore(p.start, act.bounded, act.handlers, k);
    } else {
      assert act.handlers[..k] == act.handlers;
    }
  }

  lemma OneMoreTurn(list: seq<Dispatcher>, bounded: bool, handlers: seq<Handler>, k: nat, t: Tour, e: Effect)
    requires k < |handlers| && t == OfTurns(list, bounded, handlers[..k]) && t.todo != []
    requires e == OfActs(t.list, handlers[k].acts)
    ensures OfTurns(list, bounded, handlers[..k + 1]) == Handled(Stepped(t), bounded, e)
  {
    assert handlers[..k + 1][..k] == handlers[..k];
  }
}
