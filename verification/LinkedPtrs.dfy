/** linked_ptr.h: shared ownership by a ring of the owners. */
module LinkedPtrs {

  // A pointee is known by a number; 0 is the null pointer.
  class LinkedPtr {
    var itsPtr: nat
    var itsPrev: LinkedPtr?
    var itsNext: LinkedPtr?

    constructor (p: nat)
      ensures itsPtr == p && itsPrev == itsNext == this
    {
      itsPtr, itsPrev, itsNext := p, this, this;
    }

    predicate Unique()
      reads this
    {
      if itsPrev != null then itsPrev == this else true
    }
  }

  type Ring = seq<LinkedPtr>

  function After(i: nat, n: nat): nat
    requires i < n
  {
    if i + 1 < n then i + 1 else 0
  }

  ghost predicate Distinct(s: seq<LinkedPtr>) {
    forall i, j :: 0 <= i < j < |s| ==> s[i] != s[j]
  }

  /** The members of s form one doubly linked ring, in this order, and share the pointee. */
  ghost predicate IsRing(s: seq<LinkedPtr>, p: nat)
    reads s
  {
    && s != [] && Distinct(s)
    && (forall i :: 0 <= i < |s| ==> s[i].itsPtr == p)
    && (forall i :: 0 <= i < |s| ==> s[i].itsNext == s[After(i, |s|)])
    && (forall i :: 0 <= i < |s| ==> s[After(i, |s|)].itsPrev == s[i])
  }

  /** A linked_ptr is alone in its ring exactly when its previous link leads to itself. */
  lemma UniqueMeansAlone(x: LinkedPtr, s: seq<LinkedPtr>, i: nat)
    requires i < |s| && s[i] == x && IsRing(s, x.itsPtr)
    ensures x.Unique() <==> |s| == 1
    ensures x.itsPrev != null && x.itsPrev in s && x.itsNext == s[After(i, |s|)]
  {
    var before := if i == 0 then |s| - 1 else i - 1;
    assert After(before, |s|) == i;
    assert x.itsPrev == s[before];
  }

  function Inserted<T>(s: seq<T>, i: nat, x: T): seq<T>
    requires i < |s|
  {
    s[..i + 1] + [x] + s[i + 1..]
  }

  function Without<T>(s: seq<T>, i: nat): seq<T>
    requires i < |s|
  {
    s[..i] + s[i + 1..]
  }

  // Where a ring's links lead after x has come in behind position i.
  lemma InsertedLinks(s: seq<LinkedPtr>, i: nat, x: LinkedPtr)
    requires i < |s| && Distinct(s) && x !in s
    ensures var t := Inserted(s, i, x);
            && |t| == |s| + 1 && Distinct(t) && t[i] == s[i] && t[i + 1] == x
            && t[After(i + 1, |t|)] == s[After(i, |s|)]
            && (forall k :: 0 <= k < |t| && k != i && k != i + 1 ==>
                  var j := if k < i then k else k - 1; t[k] == s[j] && t[After(k, |t|)] == s[After(j, |s|)])
            && (forall y :: y in t <==> y in s || y == x)
  {
    var t := Inserted(s, i, x);
    forall y | y in s ensures y in t {
      var k :| 0 <= k < |s| && s[k] == y;
      assert t[if k <= i then k else k + 1] == y;
    }
    assert t[i + 1] == x;
  }

  lemma WithoutLinks(s: seq<LinkedPtr>, i: nat)
    requires i < |s| && Distinct(s) && |s| > 1
    ensures var t, before := Without(s, i), if i == 0 then |s| - 1 else i - 1;
            && |t| == |s| - 1 && Distinct(t)
            && (forall k :: 0 <= k < |t| ==>
                  var j := if k < i then k else k + 1;
                  t[k] == s[j] && t[After(k, |t|)] == s[if j == before then After(i, |s|) else After(j, |s|)])
            && (forall y :: y in t <==> y in s && y != s[i])
  {
    var t := Without(s, i);
    forall y | y in s && y != s[i] ensures y in t {
      var k :| 0 <= k < |s| && s[k] == y;
      assert t[if k < i then k else k - 1] == y;
    }
  }

  // The four assignments of acquire, to a ring in the order s.
  method LinkBehind(x: LinkedPtr, r: LinkedPtr, ghost s: Ring, ghost i: nat)
    requires i < |s| && s[i] == r && IsRing(s, r.itsPtr) && x !in s
    modifies x, s
    ensures HasJoined(x, s, i, old(r.itsPtr))
  {
    assert r.itsNext == s[After(i, |s|)];
    x.itsPtr := r.itsPtr;
    x.itsNext := r.itsNext;
    x.itsNext.itsPrev := x;
    x.itsPrev := r;
    r.itsNext := x;
    assert forall j :: 0 <= j < |s| && j != i ==> After(j, |s|) != After(i, |s|);
  }

  // The links of s, cut open behind position i to take in x.
  ghost predicate HasJoined(x: LinkedPtr, s: Ring, i: nat, p: nat)
    requires i < |s|
    reads x, s
  {
    && (forall j :: 0 <= j < |s| ==> s[j].itsPtr == p)
    && (forall j :: 0 <= j < |s| && j != i ==> s[j].itsNext == s[After(j, |s|)] && s[After(j, |s|)].itsPrev == s[j])
    && s[i].itsNext == x && s[After(i, |s|)].itsPrev == x
    && x.itsPtr == p && x.itsNext == s[After(i, |s|)] && x.itsPrev == s[i]
  }

  lemma JoinedIsRing(x: LinkedPtr, s: Ring, i: nat, p: nat)
    requires i < |s| && Distinct(s) && x !in s && HasJoined(x, s, i, p)
    ensures IsRing(Inserted(s, i, x), p)
  {
    InsertedLinks(s, i, x);
    var t := Inserted(s, i, x);
    forall k | 0 <= k < |t|
      ensures t[k].itsNext == t[After(k, |t|)] && t[After(k, |t|)].itsPrev == t[k] && t[k].itsPtr == p
    {
    }
  }

  // acquire: x joins r's ring, behind r.
  method Join(x: LinkedPtr, r: LinkedPtr, ghost s: Ring, ghost i: nat)
    requires i < |s| && s[i] == r && IsRing(s, r.itsPtr) && x !in s
    modifies x, s
    ensures IsRing(Inserted(s, i, x), old(r.itsPtr))
    ensures x.itsPtr == old(r.itsPtr) && forall y :: y in s ==> y.itsPtr == old(y.itsPtr)
  {
    LinkBehind(x, r, s, i);
    JoinedIsRing(x, s, i, old(r.itsPtr));
  }

  // The assignments of release, for a ring of several.
  method UnlinkFrom(x: LinkedPtr, ghost s: Ring, ghost i: nat)
    requires i < |s| && s[i] == x && IsRing(s, x.itsPtr) && |s| > 1
    modifies s
    ensures HasLeft(s, i, old(x.itsPtr))
    ensures x.itsPrev == null && x.itsNext == null && x.itsPtr == 0
  {
    ghost var n, after := |s|, After(i, |s|);
    ghost var before := if i == 0 then n - 1 else i - 1;
    assert After(before, n) == i;
    assert x.itsNext == s[after] != x && x.itsPrev == s[before] != x;
    x.itsPrev.itsNext := x.itsNext;
    x.itsNext.itsPrev := x.itsPrev;
    x.itsPrev, x.itsNext := null, null;
    x.itsPtr := 0;
    forall j | 0 <= j < n && j != i && j != before
      ensures s[j].itsNext == s[After(j, n)] && s[After(j, n)].itsPrev == s[j]
    {
      assert After(j, n) != after && After(j, n) != i;
      assert s[After(j, n)] != s[after] && s[After(j, n)] != x && s[j] != s[before] && s[j] != x;
    }
  }

  // The links of s, closed behind its member at i.
  ghost predicate HasLeft(s: Ring, i: nat, p: nat)
    requires i < |s|
    reads s
  {
    var before, after := if i == 0 then |s| - 1 else i - 1, After(i, |s|);
    && (forall j :: 0 <= j < |s| && j != i ==> s[j].itsPtr == p)
    && (forall j :: 0 <= j < |s| && j != i && j != before ==> s[j].itsNext == s[After(j, |s|)] && s[After(j, |s|)].itsPrev == s[j])
    && s[before].itsNext == s[after] && s[after].itsPrev == s[before]
  }

  lemma LeftIsRing(s: Ring, i: nat, p: nat)
    requires i < |s| && |s| > 1 && Distinct(s) && HasLeft(s, i, p)
    ensures IsRing(Without(s, i), p)
  {
    WithoutLinks(s, i);
    var t := Without(s, i);
    forall k | 0 <= k < |t|
      ensures t[k].itsNext == t[After(k, |t|)] && t[After(k, |t|)].itsPrev == t[k] && t[k].itsPtr == p
    {
    }
  }

  // release: x leaves its ring, which closes behind it.
  method Leave(x: LinkedPtr, ghost s: Ring, ghost i: nat)
    requires i < |s| && s[i] == x && IsRing(s, x.itsPtr) && |s| > 1
    modifies s
    ensures IsRing(Without(s, i), old(x.itsPtr))
    ensures x.itsPrev == null && x.itsNext == null && x.itsPtr == 0
    ensures forall y :: y in s && y != x ==> y.itsPtr == old(y.itsPtr)
  {
    UnlinkFrom(x, s, i);
    LeftIsRing(s, i, old(x.itsPtr));
  }

  // Which rings there are, and what they point to.
  type Rings = map<Ring, nat>

  ghost function Members(rings: Rings): set<LinkedPtr> {
    set s: Ring, x | s in rings && x in s :: x
  }

  // The linked_ptrs fall into rings.
  ghost predicate Partition(rings: Rings) {
    && (forall s: Ring :: s in rings ==> s != [])
    && (forall s: Ring, t: Ring, x :: s in rings && t in rings && x in s && x in t ==> s == t)
  }

  // Owners of the same object are in the same ring.
  ghost predicate Shared(rings: Rings) {
    forall s: Ring, t: Ring :: s in rings && t in rings && rings[s] == rings[t] != 0 ==> s == t
  }

  ghost predicate Held(rings: Rings, p: nat) { exists s: Ring :: s in rings && rings[s] == p }

  /** Every pointee that was handed over is either held, or has been deleted once. */
  ghost predicate Conserved(rings: Rings, adopted: set<nat>, deleted: multiset<nat>) {
    && 0 !in adopted
    && (forall s: Ring :: s in rings && rings[s] != 0 ==> rings[s] in adopted)
    && (forall p :: p in adopted ==> deleted[p] == if Held(rings, p) then 0 else 1)
    && (forall p :: p !in adopted ==> deleted[p] == 0)
  }

  // The rings, the pointees handed over, and the pointees deleted.
  datatype Book = Book(rings: Rings, adopted: set<nat>, deleted: multiset<nat>)

  ghost predicate Kept(b: Book) {
    Partition(b.rings) && Shared(b.rings) && Conserved(b.rings, b.adopted, b.deleted)
  }

  ghost function Adopt(b: Book, x: LinkedPtr, p: nat): Book {
    Book(b.rings[[x] := p], if p == 0 then b.adopted else b.adopted + {p}, b.deleted)
  }

  ghost function Replace(b: Book, s: Ring, t: Ring): Book
    requires s in b.rings
  {
    b.(rings := (b.rings - {s})[t := b.rings[s]])
  }

  ghost function Delete(b: Book, s: Ring): Book
    requires s in b.rings
  {
    var p := b.rings[s];
    Book(b.rings - {s}, b.adopted, if p == 0 then b.deleted else b.deleted + multiset{p})
  }

  lemma Adopted(b: Book, x: LinkedPtr, p: nat)
    requires Kept(b) && x !in Members(b.rings) && p !in b.adopted
    ensures Kept(Adopt(b, x, p)) && Members(Adopt(b, x, p).rings) == Members(b.rings) + {x}
  {
    var rings, rings' := b.rings, Adopt(b, x, p).rings;
    assert x in [x] && [x] in rings' && rings'[[x]] == p;
    assert forall s: Ring :: s in rings ==> x !in s && s in rings' && rings'[s] == rings[s];
    forall y | y in Members(rings) ensures y in Members(rings') {
      var s: Ring :| s in rings && y in s;
      assert s in rings';
    }
    forall q ensures Held(rings', q) <==> Held(rings, q) || q == p {
    }
  }

  // s becomes t, which has one member more or less.
  lemma Replaced(b: Book, s: Ring, t: Ring)
    requires Kept(b) && s in b.rings && t != []
    requires forall x :: x in t ==> x in s || x !in Members(b.rings)
    ensures Kept(Replace(b, s, t))
    ensures forall x :: x in Members(Replace(b, s, t).rings) <==> (x in Members(b.rings) && x !in s) || x in t
  {
    var rings, rings' := b.rings, Replace(b, s, t).rings;
    assert t in rings' && t[0] in t;
    forall u: Ring, x | u in rings && u != s && x in u
      ensures x in Members(rings) && x !in s && x !in t && u in rings' && rings'[u] == rings[u]
    {
    }
    assert forall u: Ring :: u in rings && u != s ==> u[0] in u;
    forall q ensures Held(rings', q) <==> Held(rings, q) {
      if Held(rings, q) {
        var u: Ring :| u in rings && rings[u] == q;
        if u != s { assert u in rings'; }
      }
    }
  }

  lemma Deleted(b: Book, s: Ring)
    requires Kept(b) && s in b.rings
    ensures Kept(Delete(b, s))
    ensures forall x :: x in Members(Delete(b, s).rings) <==> x in Members(b.rings) && x !in s
  {
    var rings, rings', p := b.rings, Delete(b, s).rings, b.rings[s];
    forall x | x in Members(rings) && x !in s ensures x in Members(rings') {
      var u: Ring :| u in rings && x in u;
      assert u in rings';
    }
    forall q | q != 0 ensures Held(rings', q) <==> Held(rings, q) && q != p {
      if Held(rings, q) && q != p {
        var u: Ring :| u in rings && rings[u] == q;
        assert u in rings';
      }
    }
  }

  ghost predicate Within(rings: Rings, members: set<LinkedPtr>) {
    forall s: Ring, x :: s in rings && x in s ==> x in members
  }

  // All rings are sound; they are made of these members.
  ghost predicate Linked(rings: Rings, members: set<LinkedPtr>)
    requires Within(rings, members)
    reads members
  {
    forall s: Ring :: s in rings ==> IsRing(s, rings[s])
  }

  lemma LinkedMore(rings: Rings, members: set<LinkedPtr>, t: Ring, p: nat, members': set<LinkedPtr>)
    requires Within(rings, members) && Linked(rings, members) && IsRing(t, p) && Within(rings[t := p], members')
    ensures Linked(rings[t := p], members')
  {
  }

  /** All the linked_ptrs of a program. */
  class Owners {
    ghost var book: Book

    ghost function Live(): set<LinkedPtr>
      reads this
      ensures Within(book.rings, Live())
    {
      Members(book.rings)
    }

    ghost predicate Valid()
      reads this, Live()
    {
      Kept(book) && Linked(book.rings, Live())
    }

    constructor ()
      ensures Valid() && book == Book(map[], {}, multiset{})
    {
      book := Book(map[], {}, multiset{});
    }

    // explicit linked_ptr(X* p): a pointee is handed over once.
    method Create(p: nat) returns (x: LinkedPtr)
      requires Valid() && p !in book.adopted
      modifies this
      ensures Valid() && fresh(x) && book == Adopt(old(book), x, p) && Live() == old(Live()) + {x}
    {
      ghost var before := Live();
      x := new LinkedPtr(p);
      Adopted(book, x, p);
      book := Adopt(book, x, p);
    }

    ghost method RingOf(x: LinkedPtr) returns (s: Ring, i: nat)
      requires Valid() && x in Live()
      ensures s in book.rings && i < |s| && s[i] == x && IsRing(s, book.rings[s]) && book.rings[s] == x.itsPtr
    {
      s :| s in book.rings && x in s;
      i :| 0 <= i < |s| && s[i] == x;
    }

    // The members of the other rings, which are linked without this one.
    lemma OtherRings(s: Ring) returns (others: set<LinkedPtr>)
      requires Valid() && s in book.rings
      ensures others == set y | y in Live() && y !in s
      ensures Within(book.rings - {s}, others) && Linked(book.rings - {s}, others)
      ensures IsRing(s, book.rings[s]) && forall y :: y in s ==> book.rings[s] == y.itsPtr
    {
      others := set y | y in Live() && y !in s;
    }

    // Insert x into r's ring, behind r.
    method Acquire(x: LinkedPtr, r: LinkedPtr, ghost s: Ring, ghost i: nat)
      requires Valid() && s in book.rings && i < |s| && s[i] == r && x !in Live()
      modifies this, x, s
      ensures Valid() && book == Replace(old(book), s, Inserted(s, i, x))
      ensures Live() == old(Live()) + {x}
    {
      ghost var others := OtherRings(s);
      ghost var rest, t := book.rings - {s}, Inserted(s, i, x);
      InsertedLinks(s, i, x);
      assert book.rings[s] == r.itsPtr;
      Replaced(book, s, t);
      book := Replace(book, s, t);
      Join(x, r, s, i);
      LinkedMore(rest, others, t, x.itsPtr, Live());
    }

    // Erase x from its ring; the pointee goes with its last owner.
    method Release(x: LinkedPtr, ghost s: Ring, ghost i: nat)
      requires Valid() && s in book.rings && i < |s| && s[i] == x
      modifies this, s
      ensures Valid() && Live() == old(Live()) - {x}
      ensures book == if |s| == 1 then Delete(old(book), s) else Replace(old(book), s, Without(s, i))
      ensures x.itsPtr == 0
      ensures forall y :: y in s && y != x ==> y.itsPtr == old(y.itsPtr)
    {
      ghost var others := OtherRings(s);
      ghost var rest := book.rings - {s};
      UniqueMeansAlone(x, s, i);
      if x.Unique() {
        Deleted(book, s);
        book := Delete(book, s);
        x.itsPtr := 0;
        assert Linked(rest, others);
      } else {
        LeaveRing(x, s, i);
      }
    }

    // The ring goes on without x.
    method LeaveRing(x: LinkedPtr, ghost s: Ring, ghost i: nat)
      requires Valid() && s in book.rings && i < |s| && s[i] == x && |s| > 1
      modifies this, s
      ensures Valid() && Live() == old(Live()) - {x}
      ensures book == Replace(old(book), s, Without(s, i)) && x.itsPtr == 0
      ensures forall y :: y in s && y != x ==> y.itsPtr == old(y.itsPtr)
    {
      ghost var others := OtherRings(s);
      ghost var rest, t := book.rings - {s}, Without(s, i);
      ghost var p := x.itsPtr;
      WithoutLinks(s, i);
      Replaced(book, s, t);
      book := Replace(book, s, t);
      Leave(x, s, i);
      LinkedMore(rest, others, t, p, Live());
    }

    method AcquireFrom(x: LinkedPtr, r: LinkedPtr)
      requires Valid() && r in Live() && x !in Live()
      modifies this, x, Live()
      ensures Valid() && Live() == old(Live()) + {x}
      ensures x.itsPtr == old(r.itsPtr)
      ensures book.adopted == old(book.adopted) && book.deleted == old(book.deleted)
    {
      ghost var s, i := RingOf(r);
      Acquire(x, r, s, i);
      MemberPointsTo(x, Inserted(s, i, x));
    }

    // linked_ptr(const linked_ptr& r)
    method Copy(r: LinkedPtr) returns (x: LinkedPtr)
      requires Valid() && r in Live()
      modifies this, Live()
      ensures Valid() && fresh(x) && Live() == old(Live()) + {x}
      ensures x.itsPtr == old(r.itsPtr)
      ensures book.adopted == old(book.adopted) && book.deleted == old(book.deleted)
    {
      x := new LinkedPtr(0);
      AcquireFrom(x, r);
    }

    lemma MemberPointsTo(x: LinkedPtr, t: Ring)
      requires Valid() && t in book.rings && x in t
      ensures x.itsPtr == book.rings[t]
    {
    }

    /** unique() tells the truth: it holds exactly when no other linked_ptr has the object. */
    lemma UniqueMeansSoleOwner(x: LinkedPtr)
      requires Valid() && x in Live() && x.itsPtr != 0
      ensures x.Unique() <==> forall y :: y in Live() && y.itsPtr == x.itsPtr ==> y == x
    {
      var s: Ring :| s in book.rings && x in s;
      var i :| 0 <= i < |s| && s[i] == x;
      UniqueMeansAlone(x, s, i);
      if |s| == 1 {
        forall y | y in Live() && y.itsPtr == x.itsPtr ensures y == x {
          var u: Ring :| u in book.rings && y in u;
          MemberPointsTo(y, u);
          MemberPointsTo(x, s);
        }
      } else {
        var y := s[if i == 0 then 1 else 0];
        assert y in s && y in Live();
        MemberPointsTo(y, s);
        MemberPointsTo(x, s);
      }
    }

    /** The pointee of the last owner, and no other, is deleted with it. */
    method Destroy(x: LinkedPtr)
      requires Valid() && x in Live()
      modifies this, Live()
      ensures Valid() && Live() == old(Live()) - {x}
      ensures book.adopted == old(book.adopted)
      ensures book.deleted == old(book.deleted) +
                if old(x.Unique()) && old(x.itsPtr) != 0 then multiset{old(x.itsPtr)} else multiset{}
    {
      ghost var s, i := RingOf(x);
      UniqueMeansAlone(x, s, i);
      Release(x, s, i);
    }

    // operator=
    method Assign(l: LinkedPtr, r: LinkedPtr)
      requires Valid() && l in Live() && r in Live()
      modifies this, Live()
      ensures Valid() && Live() == old(Live()) && l.itsPtr == old(r.itsPtr)
      ensures book.adopted == old(book.adopted)
      ensures book.deleted == old(book.deleted) +
                if l != r && old(l.Unique()) && old(l.itsPtr) != 0 then multiset{old(l.itsPtr)} else multiset{}
    {
      if l != r {
        ghost var s, i := RingOf(l);
        UniqueMeansAlone(l, s, i);
        Release(l, s, i);
        AcquireFrom(l, r);
      }
    }
  }

  /** Over any run: as long as every linked_ptr is destroyed in the end, every pointee has been
      deleted, and none of them twice. */
  lemma AllDeletedOnce(b: Book)
    requires Kept(b) && Members(b.rings) == {}
    ensures forall p :: b.deleted[p] == if p in b.adopted then 1 else 0
  {
    forall p ensures !Held(b.rings, p) {
      if Held(b.rings, p) {
        var s: Ring :| s in b.rings && b.rings[s] == p;
        NoMembers(b, s);
      }
    }
  }

  lemma NoMembers(b: Book, s: Ring)
    requires Kept(b) && s in b.rings
    ensures Members(b.rings) != {}
  {
    assert s[0] in s;
    assert s[0] in Members(b.rings);
  }
}
