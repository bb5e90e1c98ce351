/** The delayed messages of a MessageQueue: DelayedMessage's order, and the binary heap that
    std::priority_queue keeps them in. */
module DelayedHeap {

  // phandler, message_id and pdata; a handler of 0 is the null pointer.
  datatype Message = Message(phandler: nat, message_id: nat, pdata: nat)

  datatype Delayed = Delayed(msTrigger: nat, num: nat, msg: Message)

  // a is due before b: operator< with its arguments exchanged.
  predicate Before(a: Delayed, b: Delayed) {
    a.msTrigger < b.msTrigger || (a.msTrigger == b.msTrigger && a.num < b.num)
  }

  predicate Ordered(s: seq<Delayed>) {
    forall i, j :: 0 <= i < j < |s| ==> Before(s[i], s[j])
  }

  function Parent(k: nat): nat
    requires k > 0
  {
    (k - 1) / 2
  }

  predicate InPlace(h: seq<Delayed>, k: nat)
    requires 0 < k < |h|
  {
    !Before(h[k], h[Parent(k)])
  }

  predicate IsHeap(h: seq<Delayed>) {
    forall k :: 0 < k < |h| ==> InPlace(h, k)
  }

  // A heap, but for the entries below the given one.
  predicate HeapBelow(h: seq<Delayed>, from: nat) {
    forall k :: 0 < k < |h| && from <= Parent(k) ==> InPlace(h, k)
  }

  lemma {:induction false} TopIsFirst(h: seq<Delayed>, k: nat)
    requires IsHeap(h) && k < |h|
    ensures !Before(h[k], h[0])
    decreases k
  {
    if k > 0 {
      assert InPlace(h, k);
      TopIsFirst(h, Parent(k));
    }
  }

  function Swapped(h: seq<Delayed>, i: nat, j: nat): (r: seq<Delayed>)
    requires i < |h| && j < |h|
    ensures |r| == |h|
    ensures multiset(r) == multiset(h)
  {
    h[i := h[j]][j := h[i]]
  }

  // A heap, but for entry i, which may be due before its parent.
  predicate UpTo(h: seq<Delayed>, i: nat) {
    && (forall k :: 0 < k < |h| && k != i ==> InPlace(h, k))
    && (forall k :: 0 < k < |h| && 0 < i < |h| && Parent(k) == i ==> !Before(h[k], h[Parent(i)]))
  }

  // From an entry on a heap, but for entry i, which may be due after its children.
  predicate DownTo(h: seq<Delayed>, from: nat, i: nat) {
    && (forall k :: 0 < k < |h| && from <= Parent(k) && Parent(k) != i ==> InPlace(h, k))
    && (forall k :: 0 < k < |h| && 0 < i < |h| && from <= Parent(i) && Parent(k) == i ==> !Before(h[k], h[Parent(i)]))
  }

  lemma UpStep(h: seq<Delayed>, i: nat)
    requires 0 < i < |h| && UpTo(h, i) && Before(h[i], h[Parent(i)])
    ensures UpTo(Swapped(h, i, Parent(i)), Parent(i))
  {
    var p := Parent(i);
    var r := Swapped(h, i, p);
    forall k | 0 < k < |r| && k != p
      ensures InPlace(r, k)
    {
      if k != i { assert InPlace(h, k); }
    }
    forall k | 0 < k < |r| && 0 < p && Parent(k) == p
      ensures !Before(r[k], r[Parent(p)])
    {
      assert InPlace(h, p);
      if k != i { assert InPlace(h, k); }
    }
  }

  lemma DownStep(h: seq<Delayed>, from: nat, i: nat, child: nat)
    requires from <= i && 2 * i + 1 < |h| && DownTo(h, from, i)
    requires child < |h| && (child == 2 * i + 1 || child == 2 * i + 2) && Before(h[child], h[i])
    requires forall k :: 0 < k < |h| && Parent(k) == i ==> !Before(h[k], h[child])
    ensures DownTo(Swapped(h, i, child), from, child)
  {
    var r := Swapped(h, i, child);
    assert Parent(child) == i;
    forall k | 0 < k < |r| && from <= Parent(k) && Parent(k) != child
      ensures InPlace(r, k)
    {
      if k != child && Parent(k) == i { assert !Before(h[k], h[child]); }
      else if k != child && k != i { assert InPlace(h, k); }
    }
    forall k | 0 < k < |r| && Parent(k) == child
      ensures !Before(r[k], r[i])
    {
      assert k != i && k != child;
      assert InPlace(h, k);
    }
  }

  method SiftUp(h: seq<Delayed>) returns (r: seq<Delayed>)
    requires h != [] && UpTo(h, |h| - 1)
    ensures IsHeap(r) && multiset(r) == multiset(h)
  {
    r := h;
    var i: nat := |h| - 1;
    while i > 0 && Before(r[i], r[Parent(i)])
      invariant i < |r| == |h| && multiset(r) == multiset(h)
      invariant UpTo(r, i)
    {
      UpStep(r, i);
      r := Swapped(r, i, Parent(i));
      i := Parent(i);
    }
    assert i > 0 ==> InPlace(r, i);
  }

  method SiftDown(h: seq<Delayed>, from: nat) returns (r: seq<Delayed>)
    requires from < |h| && HeapBelow(h, from + 1)
    ensures HeapBelow(r, from) && multiset(r) == multiset(h) && |r| == |h|
  {
    r := h;
    var i := from;
    while 2 * i + 1 < |r|
      invariant from <= i < |r| == |h| && multiset(r) == multiset(h)
      invariant DownTo(r, from, i)
      decreases |r| - i
    {
      var child := 2 * i + 1;
      if child + 1 < |r| && Before(r[child + 1], r[child]) {
        child := child + 1;
      }
      assert forall k :: 0 < k < |r| && Parent(k) == i ==> k == 2 * i + 1 || k == 2 * i + 2;
      if !Before(r[child], r[i]) {
        assert forall k :: 0 < k < |r| && Parent(k) == i ==> InPlace(r, k);
        return;
      }
      DownStep(r, from, i, child);
      r := Swapped(r, i, child);
      i := child;
    }
    assert forall k :: 0 < k < |r| ==> Parent(k) != i;
  }

  // push_heap, pop_heap and make_heap.

  method Push(h: seq<Delayed>, d: Delayed) returns (r: seq<Delayed>)
    requires IsHeap(h)
    ensures IsHeap(r) && multiset(r) == multiset(h) + multiset{d}
  {
    var longer := h + [d];
    forall k | 0 < k < |longer| && k != |h|
      ensures InPlace(longer, k)
    {
      assert InPlace(h, k);
    }
    r := SiftUp(longer);
  }

  method Pop(h: seq<Delayed>) returns (r: seq<Delayed>)
    requires IsHeap(h) && h != []
    ensures IsHeap(r) && multiset(r) == multiset(h) - multiset{h[0]}
  {
    var n := |h| - 1;
    assert h == h[..n] + [h[n]];
    if n == 0 {
      return [];
    }
    var moved := h[..n][0 := h[n]];
    forall k | 0 < k < n && 1 <= Parent(k)
      ensures InPlace(moved, k)
    {
      assert InPlace(h, k);
    }
    assert multiset(moved) == multiset(h[..n]) - multiset{h[0]} + multiset{h[n]};
    r := SiftDown(moved, 0);
    assert IsHeap(r);
  }

  method MakeHeap(h: seq<Delayed>) returns (r: seq<Delayed>)
    ensures IsHeap(r) && multiset(r) == multiset(h)
  {
    r := h;
    var from: nat := |h|;
    while from > 0
      invariant from <= |r| == |h| && HeapBelow(r, from) && multiset(r) == multiset(h)
    {
      from := from - 1;
      r := SiftDown(r, from);
    }
    assert forall k :: 0 < k < |r| ==> 0 <= Parent(k);
  }
}
