/** diskcache.cc: what CheckLimit evicts, and what that does to LockResource. Everything here is
    said of the cache as it is before the call. */
module DiskEviction {
  import opened DiskCache

  ghost predicate Parted(rows: seq<Row>, x: Row, y: Row) {
    exists b :: b in rows && !Idle(b) && x.id < b.id < y.id
  }

  // Every idle entry before x that is not older is as old, and parted from it by one in use.
  ghost predicate Leads(rows: seq<Row>, x: Row) {
    forall z :: z in rows && Idle(z) && z.id < x.id && x.entry.lastModified <= z.entry.lastModified ==>
                  z.entry.lastModified == x.entry.lastModified && Parted(rows, z, x)
  }

  // All entries between x and y are idle and not newer than x.
  ghost predicate Adjoins(rows: seq<Row>, x: Row, y: Row) {
    forall z :: z in rows && x.id < z.id < y.id ==> Idle(z) && z.entry.lastModified <= x.entry.lastModified
  }

  /** Of entries modified at the same time, the first one in key order goes first, but for one
      thing: the scan starts out from the entry after the first idle one. So the first idle entry
      gives way to those that follow it. */
  ghost predicate GivesWay(rows: seq<Row>, x: Row, y: Row) {
    Idle(x) && Leads(rows, x) && Adjoins(rows, x, y)
  }

  // The order of eviction: the scan takes x rather than y.
  ghost predicate Sooner(rows: seq<Row>, x: Row, y: Row) {
    if x.entry.lastModified != y.entry.lastModified then x.entry.lastModified < y.entry.lastModified
    else if x.id < y.id then !GivesWay(rows, x, y)
    else y.id < x.id && GivesWay(rows, y, x)
  }

  ghost function KeptSize(rows: seq<Row>, x: Row): Row -> nat {
    (row: Row) => if Idle(row) && Sooner(rows, row, x) then 0 else row.entry.size
  }

  function BusySize(row: Row): nat { if Idle(row) then 0 else row.entry.size }

  // What an entry shares the cache with: itself, those in use and those that do not go sooner.
  ghost function Kept(rows: seq<Row>, x: Row): nat { Total(rows, KeptSize(rows, x)) }

  function BusySizes(rows: seq<Row>): nat { Total(rows, BusySize) }

  /** An entry in use comes sooner than x and lies after an idle one that does not: the scan takes
      it for the oldest when it is the turn of x. */
  ghost predicate Blocked(rows: seq<Row>, x: Row) {
    exists i, b :: i in rows && b in rows && Idle(i) && !Idle(b) && i.id < b.id
                   && Sooner(rows, b, x) && !Sooner(rows, i, x)
  }

  /** The last of the idle entries to go, after all that are in use: when it is the turn of this
      entry, the entry after the first idle one does not exist. */
  ghost predicate Sole(rows: seq<Row>, x: Row) {
    && x in rows && Idle(x)
    && forall row :: row in rows && row != x ==> if Idle(row) then Sooner(rows, row, x) else row.id < x.id
  }

  ghost predicate Goes(rows: seq<Row>, row: Row, removable: Id -> bool) {
    removable(row.id) && !Blocked(rows, row)
  }

  // An entry that has to go can go.
  ghost predicate Yields(rows: seq<Row>, row: Row, max: nat, removable: Id -> bool) {
    Idle(row) && Kept(rows, row) > max ==> Goes(rows, row, removable) && !Sole(rows, row)
  }

  ghost predicate Clears(rows: seq<Row>, max: nat, removable: Id -> bool) {
    BusySizes(rows) <= max && forall row :: row in rows ==> Yields(rows, row, max, removable)
  }

  // All but the last one can go, and that is not enough.
  ghost predicate LeavesOne(rows: seq<Row>, x: Row, max: nat, removable: Id -> bool) {
    && Sole(rows, x) && Kept(rows, x) > max
    && forall row :: row in rows && Idle(row) && row != x ==> Goes(rows, row, removable)
  }

  ghost predicate RunsOut(rows: seq<Row>, max: nat, removable: Id -> bool) {
    exists x :: x in rows && LeavesOne(rows, x, max, removable)
  }

  // The idle entry that goes first.
  ghost predicate Soonest(rows: seq<Row>, v: Row) {
    v in rows && Idle(v) && forall row :: row in rows && Idle(row) && row != v ==> Sooner(rows, v, row)
  }

  lemma {:induction false} TotalsAgree(rows: seq<Row>, f: Row -> nat, g: Row -> nat)
    requires forall row :: row in rows ==> f(row) == g(row)
    ensures Total(rows, f) == Total(rows, g)
    decreases |rows|
  {
    if rows != [] {
      assert rows[|rows| - 1] in rows;
      TotalsAgree(rows[..|rows| - 1], f, g);
    }
  }

  lemma {:induction false} TotalsOrdered(rows: seq<Row>, f: Row -> nat, g: Row -> nat)
    requires forall row :: row in rows ==> f(row) <= g(row)
    ensures Total(rows, f) <= Total(rows, g)
    decreases |rows|
  {
    if rows != [] {
      assert rows[|rows| - 1] in rows;
      TotalsOrdered(rows[..|rows| - 1], f, g);
    }
  }

  lemma TotalWithout(rows: seq<Row>, k: nat, f: Row -> nat)
    requires k < |rows|
    ensures Total(rows, f) == Total(Erased(rows, k), f) + f(rows[k])
  {
    SplitAt(rows, k);
    TotalAround(rows[..k], rows[k], rows[k + 1..], f);
  }

  lemma KeptBounds(rows: seq<Row>, x: Row)
    ensures BusySizes(rows) <= Kept(rows, x) <= Sizes(rows)
  {
    TotalsOrdered(rows, BusySize, KeptSize(rows, x));
    TotalsOrdered(rows, KeptSize(rows, x), SizeOf);
  }

  // Nothing goes sooner than the soonest.
  lemma AllKept(rows: seq<Row>, v: Row)
    requires Soonest(rows, v)
    ensures Kept(rows, v) == Sizes(rows)
  {
    TotalsAgree(rows, KeptSize(rows, v), SizeOf);
  }

  lemma AllBusy(rows: seq<Row>)
    requires forall row :: row in rows ==> !Idle(row)
    ensures BusySizes(rows) == Sizes(rows)
  {
    TotalsAgree(rows, BusySize, SizeOf);
  }

  lemma MembersWithout(rows: seq<Row>, k: nat, row: Row)
    requires Ordered(rows) && k < |rows|
    ensures row in Erased(rows, k) <==> row in rows && row != rows[k]
  {
    ErasedMembers(rows, k);
    if row in Erased(rows, k) {
      var i :| 0 <= i < |rows| - 1 && Erased(rows, k)[i] == row;
      assert row == rows[if i < k then i else i + 1];
    }
  }

  lemma SameRow(rows: seq<Row>, a: Row, b: Row)
    requires Ordered(rows) && a in rows && b in rows && a.id == b.id
    ensures a == b
  {
    var m :| 0 <= m < |rows| && rows[m] == a;
    var n :| 0 <= n < |rows| && rows[n] == b;
    assert !(m < n) && !(n < m);
  }

  // The cache without one of its rows.
  ghost predicate Without(rows: seq<Row>, v: Row, rest: seq<Row>) {
    forall row :: row in rest <==> row in rows && row != v
  }

  lemma OneErased(rows: seq<Row>, k: nat)
    requires Ordered(rows) && k < |rows|
    ensures Ordered(Erased(rows, k)) && Without(rows, rows[k], Erased(rows, k))
  {
    forall row ensures row in Erased(rows, k) <==> row in rows && row != rows[k] { MembersWithout(rows, k, row); }
  }

  lemma PartedWithout(rows: seq<Row>, v: Row, rest: seq<Row>, x: Row, y: Row)
    requires Without(rows, v, rest) && Idle(v)
    ensures Parted(rest, x, y) <==> Parted(rows, x, y)
  {
  }

  lemma OlderThan(rows: seq<Row>, v: Row, x: Row)
    requires Soonest(rows, v) && x in rows && Idle(x)
    ensures v.entry.lastModified <= x.entry.lastModified
  {
  }

  // An entry that led with the soonest behind it would have to let it go first.
  lemma PartedFromSoonest(rows: seq<Row>, v: Row, rest: seq<Row>, x: Row)
    requires Ordered(rows) && Soonest(rows, v) && Without(rows, v, rest)
    requires x in rest && Idle(x) && v.id < x.id && v.entry.lastModified == x.entry.lastModified && Leads(rest, x)
    ensures Parted(rows, v, x)
  {
    if !Leads(rows, v) {
      var z :| z in rows && Idle(z) && z.id < v.id && v.entry.lastModified <= z.entry.lastModified
               && !(z.entry.lastModified == v.entry.lastModified && Parted(rows, z, v));
      assert z in rest && Parted(rest, z, x);
      var b :| b in rest && !Idle(b) && z.id < b.id < x.id;
      assert b in rows && !(b.id < v.id);
      if b.id == v.id { SameRow(rows, b, v); }
    } else {
      assert Sooner(rows, v, x) && !Adjoins(rows, v, x);
      var z :| z in rows && v.id < z.id < x.id && !(Idle(z) && z.entry.lastModified <= v.entry.lastModified);
      assert z in rest;
    }
  }

  lemma LeadsWithout(rows: seq<Row>, v: Row, rest: seq<Row>, x: Row)
    requires Ordered(rows) && Soonest(rows, v) && Without(rows, v, rest) && x in rest && Idle(x)
    ensures Leads(rest, x) <==> Leads(rows, x)
  {
    if Leads(rest, x) {
      forall z | z in rows && Idle(z) && z.id < x.id && x.entry.lastModified <= z.entry.lastModified
        ensures z.entry.lastModified == x.entry.lastModified && Parted(rows, z, x)
      {
        if z == v {
          OlderThan(rows, v, x);
          PartedFromSoonest(rows, v, rest, x);
        } else {
          PartedWithout(rows, v, rest, z, x);
        }
      }
    }
    if Leads(rows, x) {
      forall z | z in rest && Idle(z) && z.id < x.id && x.entry.lastModified <= z.entry.lastModified
        ensures z.entry.lastModified == x.entry.lastModified && Parted(rest, z, x)
      {
        PartedWithout(rows, v, rest, z, x);
      }
    }
  }

  lemma AdjoinsWithout(rows: seq<Row>, v: Row, rest: seq<Row>, x: Row, y: Row)
    requires Soonest(rows, v) && Without(rows, v, rest) && x in rest && Idle(x)
    ensures Adjoins(rest, x, y) <==> Adjoins(rows, x, y)
  {
    OlderThan(rows, v, x);
  }

  /** The order is that of the cache before the call: an eviction does not change it. */
  lemma SoonerWithout(rows: seq<Row>, v: Row, rest: seq<Row>, x: Row, y: Row)
    requires Ordered(rows) && Soonest(rows, v) && Without(rows, v, rest) && x in rest && y in rest
    ensures Sooner(rest, x, y) <==> Sooner(rows, x, y)
  {
    if Idle(x) {
      LeadsWithout(rows, v, rest, x);
      AdjoinsWithout(rows, v, rest, x, y);
    }
    if Idle(y) {
      LeadsWithout(rows, v, rest, y);
      AdjoinsWithout(rows, v, rest, y, x);
    }
  }

  // The soonest goes, and the others are none the wiser.
  lemma SoonestGoes(rows: seq<Row>, k: nat)
    requires Ordered(rows) && k < |rows| && Idle(rows[k])
    ensures Ordered(Erased(rows, k)) && Without(rows, rows[k], Erased(rows, k))
    ensures BusySizes(Erased(rows, k)) == BusySizes(rows)
  {
    OneErased(rows, k);
    TotalWithout(rows, k, BusySize);
  }

  lemma KeptWithout(rows: seq<Row>, k: nat, row: Row)
    requires Ordered(rows) && k < |rows| && Soonest(rows, rows[k])
    requires row in rows && Idle(row) && row != rows[k]
    ensures Kept(Erased(rows, k), row) == Kept(rows, row)
  {
    var rest := Erased(rows, k);
    OneErased(rows, k);
    TotalWithout(rows, k, KeptSize(rows, row));
    forall other | other in rest ensures KeptSize(rest, row)(other) == KeptSize(rows, row)(other) {
      SoonerWithout(rows, rows[k], rest, other, row);
    }
    TotalsAgree(rest, KeptSize(rest, row), KeptSize(rows, row));
  }

  // One row takes part in Blocked, and in Sole, as it did.
  lemma RowUnaffected(rows: seq<Row>, k: nat, row: Row)
    requires Ordered(rows) && k < |rows| && Soonest(rows, rows[k])
    requires row in rows && Idle(row) && row != rows[k]
    ensures Kept(Erased(rows, k), row) == Kept(rows, row)
    ensures Blocked(Erased(rows, k), row) <==> Blocked(rows, row)
    ensures Sole(Erased(rows, k), row) <==> Sole(rows, row)
  {
    var rest := Erased(rows, k);
    OneErased(rows, k);
    KeptWithout(rows, k, row);
    forall other | other in rest ensures Sooner(rest, other, row) <==> Sooner(rows, other, row) {
      SoonerWithout(rows, rows[k], rest, other, row);
    }
  }

  // What the scan of CheckLimit comes to, if there is an entry after the first idle one.
  function VictimAt(rows: seq<Row>): (k: nat)
    requires FirstIdle(rows) + 1 < |rows|
    ensures k < |rows|
  {
    OldestFrom(rows, FirstIdle(rows), FirstIdle(rows) + 1)
  }

  function Victim(rows: seq<Row>): (x: Row)
    requires FirstIdle(rows) + 1 < |rows|
    ensures x in rows
  {
    rows[VictimAt(rows)]
  }

  lemma {:induction false} FirstOfOldest(rows: seq<Row>, it: nat, oldest: nat)
    requires it <= |rows| && oldest < |rows|
    ensures var k := OldestFrom(rows, it, oldest);
            k != oldest ==> && rows[k].entry.lastModified < rows[oldest].entry.lastModified
                            && forall i :: it <= i < k ==> rows[k].entry.lastModified < rows[i].entry.lastModified
    decreases |rows| - it
  {
    if it < |rows| {
      FirstOfOldest(rows, it + 1, if rows[it].entry.lastModified < rows[oldest].entry.lastModified then it else oldest);
    }
  }

  ghost predicate First(rows: seq<Row>, j: nat) {
    j < |rows| && Idle(rows[j]) && forall i :: 0 <= i < j ==> !Idle(rows[i])
  }

  // The scan from j ends with k: with the entry after j, or with the first of the oldest.
  ghost predicate Scanned(rows: seq<Row>, j: nat, k: nat) {
    && j + 1 < |rows| && j <= k < |rows|
    && (forall i :: j <= i < |rows| ==> rows[k].entry.lastModified <= rows[i].entry.lastModified)
    && (k != j + 1 ==> forall i :: j <= i < |rows| && (i < k || i == j + 1) ==>
                         rows[k].entry.lastModified < rows[i].entry.lastModified)
  }

  lemma VictimIsScanned(rows: seq<Row>)
    requires FirstIdle(rows) + 1 < |rows|
    ensures First(rows, FirstIdle(rows)) && Scanned(rows, FirstIdle(rows), VictimAt(rows))
  {
    FirstOfOldest(rows, FirstIdle(rows), FirstIdle(rows) + 1);
  }

  lemma At(rows: seq<Row>, row: Row) returns (i: nat)
    requires row in rows
    ensures i < |rows| && rows[i] == row
  {
    i :| 0 <= i < |rows| && rows[i] == row;
  }

  // No idle entry comes before the first one.
  lemma FirstLeads(rows: seq<Row>, j: nat)
    requires Ordered(rows) && First(rows, j)
    ensures Leads(rows, rows[j])
  {
    forall z | z in rows && Idle(z) ensures rows[j].id <= z.id {
      var i := At(rows, z);
    }
  }

  lemma NextAdjoins(rows: seq<Row>, j: nat)
    requires Ordered(rows) && j + 1 < |rows|
    ensures Adjoins(rows, rows[j], rows[j + 1]) && !Parted(rows, rows[j], rows[j + 1])
  {
    forall z | z in rows ensures !(rows[j].id < z.id < rows[j + 1].id) {
      var i := At(rows, z);
    }
  }

  // An idle entry after the first one does not give way, unless it is newer than the first one.
  lemma LaterStays(rows: seq<Row>, j: nat, k: nat, y: Row)
    requires Ordered(rows) && j < k < |rows| && Idle(rows[j])
    requires rows[k].entry.lastModified < rows[j].entry.lastModified
             || (k == j + 1 && rows[k].entry.lastModified == rows[j].entry.lastModified)
    ensures !GivesWay(rows, rows[k], y)
  {
    if k == j + 1 { NextAdjoins(rows, j); }
    assert rows[j] in rows;
  }

  // The first one does not give way with a newer one beside it.
  lemma FirstStays(rows: seq<Row>, j: nat, y: Row)
    requires Ordered(rows) && j + 1 < |rows| && y in rows && rows[j].id < y.id
    requires rows[j].entry.lastModified < rows[j + 1].entry.lastModified
    requires y.entry.lastModified == rows[j].entry.lastModified
    ensures !GivesWay(rows, rows[j], y)
  {
    var n := At(rows, y);
    assert rows[j + 1] in rows && rows[j].id < rows[j + 1].id < y.id;
  }

  lemma VictimStays(rows: seq<Row>, j: nat, k: nat, y: Row)
    requires Ordered(rows) && First(rows, j) && Scanned(rows, j, k) && y in rows && rows[k].id < y.id
    requires rows[k].entry.lastModified == y.entry.lastModified
    ensures !GivesWay(rows, rows[k], y)
  {
    if k == j {
      FirstStays(rows, j, y);
    } else {
      LaterStays(rows, j, k, y);
    }
  }

  // What comes before the victim and is as old is the first idle entry, beside it.
  lemma BeforeVictim(rows: seq<Row>, j: nat, k: nat, y: Row)
    requires Ordered(rows) && First(rows, j) && Scanned(rows, j, k) && y in rows && y.id < rows[k].id
    requires rows[j].id <= y.id && rows[k].entry.lastModified == y.entry.lastModified
    ensures k == j + 1 && y == rows[j]
  {
    var n := At(rows, y);
    assert n < k && j <= n;
  }

  lemma FirstGivesWay(rows: seq<Row>, j: nat)
    requires Ordered(rows) && First(rows, j) && j + 1 < |rows|
    ensures GivesWay(rows, rows[j], rows[j + 1])
  {
    FirstLeads(rows, j);
    NextAdjoins(rows, j);
  }

  lemma NotBeforeFirst(rows: seq<Row>, j: nat, k: nat, y: Row)
    requires Ordered(rows) && First(rows, j) && Scanned(rows, j, k) && y in rows && Idle(y)
    ensures rows[j].id <= y.id && rows[k].entry.lastModified <= y.entry.lastModified
  {
    var n := At(rows, y);
    assert j <= n;
  }

  lemma VictimIsSooner(rows: seq<Row>, j: nat, k: nat, y: Row)
    requires Ordered(rows) && First(rows, j) && Scanned(rows, j, k) && y in rows && Idle(y) && y != rows[k]
    ensures Sooner(rows, rows[k], y)
  {
    NotBeforeFirst(rows, j, k, y);
    if rows[k].entry.lastModified == y.entry.lastModified {
      if rows[k].id < y.id {
        VictimStays(rows, j, k, y);
      } else {
        if y.id == rows[k].id { SameRow(rows, y, rows[k]); }
        BeforeVictim(rows, j, k, y);
        FirstGivesWay(rows, j);
      }
    }
  }

  /** An entry that CheckLimit erases is the one that the order of eviction puts first. */
  lemma VictimIsSoonest(rows: seq<Row>)
    requires Ordered(rows) && FirstIdle(rows) + 1 < |rows| && Idle(Victim(rows))
    ensures Soonest(rows, Victim(rows))
  {
    var j, k := FirstIdle(rows), VictimAt(rows);
    VictimIsScanned(rows);
    forall row | row in rows && Idle(row) && row != rows[k] ensures Sooner(rows, rows[k], row) {
      VictimIsSooner(rows, j, k, row);
    }
  }

  lemma VictimIsNotSole(rows: seq<Row>)
    requires Ordered(rows) && FirstIdle(rows) + 1 < |rows| && Idle(Victim(rows))
    ensures !Sole(rows, Victim(rows))
  {
    var j := FirstIdle(rows);
    VictimIsSoonest(rows);
    var other := if Victim(rows) == rows[j] then rows[j + 1] else rows[j];
    assert other in rows && other != Victim(rows);
    if Idle(other) {
      assert Sooner(rows, Victim(rows), other) && !Sooner(rows, other, Victim(rows));
    } else {
      assert Victim(rows).id < other.id;
    }
  }

  // The scan has met all entries in use that lie after an idle one.
  lemma BusyIsNotSooner(rows: seq<Row>, j: nat, k: nat, i: Row, b: Row)
    requires Ordered(rows) && First(rows, j) && Scanned(rows, j, k) && Idle(rows[k])
    requires i in rows && Idle(i) && b in rows && !Idle(b) && i.id < b.id
    ensures !Sooner(rows, b, rows[k])
  {
    NotBeforeFirst(rows, j, k, i);
    var n := At(rows, b);
    assert j < n;
    if rows[k].entry.lastModified == b.entry.lastModified {
      if b.id < rows[k].id {
        BeforeVictim(rows, j, k, b);
      } else if rows[k].id < b.id {
        VictimStays(rows, j, k, b);
      }
    }
  }

  lemma VictimIsNotBlocked(rows: seq<Row>)
    requires Ordered(rows) && FirstIdle(rows) + 1 < |rows| && Idle(Victim(rows))
    ensures !Blocked(rows, Victim(rows))
  {
    VictimIsScanned(rows);
    forall i, b | i in rows && b in rows && Idle(i) && !Idle(b) && i.id < b.id
      ensures !Sooner(rows, b, Victim(rows))
    {
      BusyIsNotSooner(rows, FirstIdle(rows), VictimAt(rows), i, b);
    }
  }

  // A scan that ends with an entry in use has met it before it would meet any idle one.
  lemma BusyIsSooner(rows: seq<Row>, j: nat, k: nat, x: Row)
    requires Ordered(rows) && First(rows, j) && Scanned(rows, j, k) && !Idle(rows[k]) && x in rows && Idle(x)
    ensures Sooner(rows, rows[k], x)
  {
    NotBeforeFirst(rows, j, k, x);
    if rows[k].entry.lastModified == x.entry.lastModified {
      if x.id < rows[k].id {
        BeforeVictim(rows, j, k, x);
        FirstGivesWay(rows, j);
      } else if x.id == rows[k].id {
        SameRow(rows, x, rows[k]);
      }
    }
  }

  lemma ScanBlocked(rows: seq<Row>, x: Row)
    requires Ordered(rows) && FirstIdle(rows) + 1 < |rows| && !Idle(Victim(rows)) && Soonest(rows, x)
    ensures Blocked(rows, x) && !Sole(rows, x)
  {
    var j, k := FirstIdle(rows), VictimAt(rows);
    VictimIsScanned(rows);
    BusyIsSooner(rows, j, k, x);
    assert rows[j] in rows && !Sooner(rows, rows[j], x) && rows[j].id < rows[k].id;
    if x.id < rows[k].id {
      assert rows[k] in rows;
    } else {
      assert rows[j] != x;
    }
  }

  // The first of the oldest idle entries.
  ghost predicate FirstOldest(rows: seq<Row>, f: nat) {
    && f < |rows| && Idle(rows[f])
    && forall i :: 0 <= i < |rows| && Idle(rows[i]) ==>
         && rows[f].entry.lastModified <= rows[i].entry.lastModified
         && (i < f ==> rows[f].entry.lastModified < rows[i].entry.lastModified)
  }

  lemma FindOldest(rows: seq<Row>, j: nat) returns (f: nat)
    requires First(rows, j)
    ensures FirstOldest(rows, f) && j <= f
  {
    f := j;
    for i := j to |rows|
      invariant j <= f <= i && f < |rows| && Idle(rows[f])
      invariant forall m :: 0 <= m < i && Idle(rows[m]) ==>
                  && rows[f].entry.lastModified <= rows[m].entry.lastModified
                  && (m < f ==> rows[f].entry.lastModified < rows[m].entry.lastModified)
    {
      if Idle(rows[i]) && rows[i].entry.lastModified < rows[f].entry.lastModified {
        f := i;
      }
    }
  }

  // The entry after j is idle and as old as that at j.
  predicate Doubled(rows: seq<Row>, j: nat)
    requires j < |rows|
  {
    j + 1 < |rows| && Idle(rows[j + 1]) && rows[j + 1].entry.lastModified == rows[j].entry.lastModified
  }

  lemma OldestStays(rows: seq<Row>, j: nat, f: nat, y: Row)
    requires Ordered(rows) && First(rows, j) && FirstOldest(rows, f) && j <= f && (f == j ==> !Doubled(rows, j))
    requires y in rows && Idle(y) && rows[f].id < y.id && rows[f].entry.lastModified == y.entry.lastModified
    ensures !GivesWay(rows, rows[f], y)
  {
    if f == j {
      var n := At(rows, y);
      assert j + 1 <= n && (j + 1 < n ==> rows[j + 1].id < y.id) && rows[j + 1] in rows;
    } else {
      LaterStays(rows, j, f, y);
    }
  }

  lemma OldestIsSoonest(rows: seq<Row>, j: nat, f: nat)
    requires Ordered(rows) && First(rows, j) && FirstOldest(rows, f) && j <= f && (f == j ==> !Doubled(rows, j))
    ensures Soonest(rows, rows[f])
  {
    forall row | row in rows && Idle(row) && row != rows[f] ensures Sooner(rows, rows[f], row) {
      var n := At(rows, row);
      if rows[f].entry.lastModified == row.entry.lastModified {
        assert f < n;
        OldestStays(rows, j, f, row);
      }
    }
  }

  lemma NextIsSoonest(rows: seq<Row>, j: nat)
    requires Ordered(rows) && First(rows, j) && FirstOldest(rows, j) && Doubled(rows, j)
    ensures Soonest(rows, rows[j + 1])
  {
    forall row | row in rows && Idle(row) && row != rows[j + 1] ensures Sooner(rows, rows[j + 1], row) {
      var n := At(rows, row);
      if n <= j {
        FirstGivesWay(rows, j);
      } else {
        LaterStays(rows, j, j + 1, row);
      }
    }
  }

  lemma FindSoonest(rows: seq<Row>) returns (x: Row)
    requires Ordered(rows) && FirstIdle(rows) < |rows|
    ensures Soonest(rows, x)
  {
    var j := FirstIdle(rows);
    var f := FindOldest(rows, j);
    if f == j && Doubled(rows, j) {
      x := rows[j + 1];
      NextIsSoonest(rows, j);
    } else {
      x := rows[f];
      OldestIsSoonest(rows, j, f);
    }
  }

  lemma InUseBefore(rows: seq<Row>, row: Row)
    requires Ordered(rows) && FirstIdle(rows) + 1 == |rows| && row in rows && row != rows[|rows| - 1]
    ensures !Idle(row) && row.id < rows[|rows| - 1].id
  {
    var i :| 0 <= i < |rows| && rows[i] == row;
    BeforeFirstIdle(rows, i);
  }

  lemma BeforeFirstIdle(rows: seq<Row>, i: nat)
    requires i < FirstIdle(rows)
    ensures !Idle(rows[i])
  {
  }

  // The last entry in key order is the only idle one.
  lemma OnlyIdle(rows: seq<Row>)
    requires Ordered(rows) && FirstIdle(rows) + 1 == |rows|
    ensures Sole(rows, rows[|rows| - 1])
    ensures forall row :: row in rows && Idle(row) ==> row == rows[|rows| - 1]
  {
    var x := rows[|rows| - 1];
    forall row | row in rows && row != x ensures !Idle(row) && row.id < x.id { InUseBefore(rows, row); }
  }

  lemma ClearsWithout(rows: seq<Row>, k: nat, max: nat, removable: Id -> bool)
    requires Ordered(rows) && k < |rows| && Soonest(rows, rows[k])
    requires Goes(rows, rows[k], removable) && !Sole(rows, rows[k])
    ensures Clears(rows, max, removable) <==> Clears(Erased(rows, k), max, removable)
  {
    SoonestGoes(rows, k);
    forall row | row in rows && row != rows[k]
      ensures Yields(Erased(rows, k), row, max, removable) <==> Yields(rows, row, max, removable)
    {
      if Idle(row) { RowUnaffected(rows, k, row); }
    }
    assert Yields(rows, rows[k], max, removable);
  }

  lemma LeavesOneWithout(rows: seq<Row>, k: nat, x: Row, max: nat, removable: Id -> bool)
    requires Ordered(rows) && k < |rows| && Soonest(rows, rows[k])
    requires Goes(rows, rows[k], removable) && x in rows && x != rows[k] && Idle(x)
    ensures LeavesOne(rows, x, max, removable) <==> LeavesOne(Erased(rows, k), x, max, removable)
  {
    SoonestGoes(rows, k);
    forall row | row in rows && Idle(row) && row != rows[k]
      ensures Kept(Erased(rows, k), row) == Kept(rows, row)
      ensures Goes(Erased(rows, k), row, removable) <==> Goes(rows, row, removable)
      ensures Sole(Erased(rows, k), row) <==> Sole(rows, row)
    {
      RowUnaffected(rows, k, row);
    }
  }

  lemma RunsOutWithout(rows: seq<Row>, k: nat, max: nat, removable: Id -> bool)
    requires Ordered(rows) && k < |rows| && Soonest(rows, rows[k])
    requires Goes(rows, rows[k], removable) && !Sole(rows, rows[k])
    ensures RunsOut(rows, max, removable) <==> RunsOut(Erased(rows, k), max, removable)
  {
    SoonestGoes(rows, k);
    forall x | x in rows && x != rows[k] && Idle(x)
      ensures LeavesOne(rows, x, max, removable) <==> LeavesOne(Erased(rows, k), x, max, removable)
    {
      LeavesOneWithout(rows, k, x, max, removable);
    }
  }

  // A cache that is within its limit is not run out of, and clears.
  lemma NothingToDo(rows: seq<Row>, max: nat, removable: Id -> bool)
    requires Sizes(rows) <= max
    ensures Limit(rows, max, removable) == Outcome(Within, rows)
    ensures Clears(rows, max, removable) && !RunsOut(rows, max, removable)
  {
    TotalsOrdered(rows, BusySize, SizeOf);
    forall row | row in rows ensures Kept(rows, row) <= max {
      KeptBounds(rows, row);
    }
  }

  // The soonest entry of an overfull cache has to go, so that nothing may be in its way.
  lemma SoonestMustGo(rows: seq<Row>, x: Row, max: nat, removable: Id -> bool)
    requires Sizes(rows) > max && Soonest(rows, x)
    ensures Clears(rows, max, removable) ==> Goes(rows, x, removable) && !Sole(rows, x)
    ensures RunsOut(rows, max, removable) ==> Sole(rows, x) || Goes(rows, x, removable)
  {
    AllKept(rows, x);
  }

  // One eviction of an overfull cache.
  lemma OneGoes(rows: seq<Row>, max: nat, removable: Id -> bool)
    requires Ordered(rows) && Sizes(rows) > max && FirstIdle(rows) + 1 < |rows|
    requires Idle(Victim(rows)) && removable(Victim(rows).id)
    ensures var rest := Erased(rows, VictimAt(rows));
            && Limit(rows, max, removable) == Limit(rest, max, removable)
            && Ordered(rest)
            && (Clears(rows, max, removable) <==> Clears(rest, max, removable))
            && (RunsOut(rows, max, removable) <==> RunsOut(rest, max, removable))
  {
    var k := VictimAt(rows);
    VictimIsSoonest(rows);
    VictimIsNotSole(rows);
    VictimIsNotBlocked(rows);
    SoonestGoes(rows, k);
    ClearsWithout(rows, k, max, removable);
    RunsOutWithout(rows, k, max, removable);
    LimitStep(rows, max, removable);
  }

  // An eviction that fails.
  lemma OneStays(rows: seq<Row>, max: nat, removable: Id -> bool)
    requires Ordered(rows) && Sizes(rows) > max && FirstIdle(rows) + 1 < |rows|
    requires Idle(Victim(rows)) ==> !removable(Victim(rows).id)
    ensures Limit(rows, max, removable).verdict == Overfull
    ensures !Clears(rows, max, removable) && !RunsOut(rows, max, removable)
  {
    var x := FindSoonest(rows);
    if Idle(Victim(rows)) {
      VictimIsSoonest(rows);
      VictimIsNotSole(rows);
      SoonestMustGo(rows, Victim(rows), max, removable);
    } else {
      ScanBlocked(rows, x);
      SoonestMustGo(rows, x, max, removable);
    }
  }

  lemma NoneIsIdle(rows: seq<Row>, max: nat, removable: Id -> bool)
    requires Sizes(rows) > max && FirstIdle(rows) == |rows|
    ensures Limit(rows, max, removable).verdict == Overfull
    ensures !Clears(rows, max, removable) && !RunsOut(rows, max, removable)
  {
    forall row | row in rows ensures !Idle(row) {
      var i :| 0 <= i < |rows| && rows[i] == row;
    }
    AllBusy(rows);
  }

  lemma OneIsLeft(rows: seq<Row>, max: nat, removable: Id -> bool)
    requires Ordered(rows) && Sizes(rows) > max && FirstIdle(rows) + 1 == |rows|
    ensures Limit(rows, max, removable).verdict == PastTheEnd
    ensures !Clears(rows, max, removable) && RunsOut(rows, max, removable)
  {
    var x := rows[|rows| - 1];
    OnlyIdle(rows);
    SoonestMustGo(rows, x, max, removable);
    AllKept(rows, x);
    assert LeavesOne(rows, x, max, removable);
  }

  /** CheckLimit meets the limit exactly when the entries in use do not exceed it and every idle
      entry that is too large with what it shares the cache with can be removed, has nothing in
      its way and is not the last one left at the end of the keys. It reads past the end exactly
      when the last idle entry to go comes after all that are in use and is too large with them,
      and every other idle entry can be removed and has nothing in its way. */
  lemma {:induction false} LimitExactly(rows: seq<Row>, max: nat, removable: Id -> bool)
    requires Ordered(rows)
    ensures Limit(rows, max, removable).verdict == Within <==> Clears(rows, max, removable)
    ensures Limit(rows, max, removable).verdict == PastTheEnd <==> RunsOut(rows, max, removable)
    decreases |rows|
  {
    if Sizes(rows) <= max {
      NothingToDo(rows, max, removable);
    } else if FirstIdle(rows) == |rows| {
      NoneIsIdle(rows, max, removable);
    } else if FirstIdle(rows) + 1 == |rows| {
      OneIsLeft(rows, max, removable);
    } else if Idle(Victim(rows)) && removable(Victim(rows).id) {
      OneGoes(rows, max, removable);
      LimitExactly(Erased(rows, VictimAt(rows)), max, removable);
    } else {
      OneStays(rows, max, removable);
    }
  }

  lemma KeptAfter(rows: seq<Row>, k: nat, row: Row)
    requires Ordered(rows) && k < |rows| && Soonest(rows, rows[k]) && row in rows
    ensures row == rows[k] ==> Kept(rows, row) == Sizes(rows)
    ensures row != rows[k] && Idle(row) ==> Kept(Erased(rows, k), row) == Kept(rows, row)
  {
    if row == rows[k] {
      AllKept(rows, row);
    } else if Idle(row) {
      RowUnaffected(rows, k, row);
    }
  }

  /** When the limit is met, an entry is left exactly when it is in use or fits together with
      what it shares the cache with. */
  lemma {:induction false} Survives(rows: seq<Row>, max: nat, removable: Id -> bool, row: Row)
    requires Ordered(rows) && row in rows
    requires Limit(rows, max, removable).verdict == Within
    ensures row in Limit(rows, max, removable).rows <==> !Idle(row) || Kept(rows, row) <= max
    decreases |rows|
  {
    if Sizes(rows) <= max {
      KeptBounds(rows, row);
    } else {
      LimitStep(rows, max, removable);
      OneGoes(rows, max, removable);
      var k := VictimAt(rows);
      VictimIsSoonest(rows);
      KeptAfter(rows, k, row);
      MembersWithout(rows, k, row);
      if row == rows[k] {
        LimitLeaves(Erased(rows, k), max, removable, row);
      } else {
        Survives(Erased(rows, k), max, removable, row);
      }
    }
  }

  // What CheckLimit leaves, one entry at a time.
  lemma LimitLeaves(rows: seq<Row>, max: nat, removable: Id -> bool, row: Row)
    ensures row in Limit(rows, max, removable).rows ==> row in rows
    ensures row in rows && !Idle(row) ==> row in Limit(rows, max, removable).rows
  {
    LimitErasesIdle(rows, max, removable);
  }

  lemma FoundAgain(rows: seq<Row>, max: nat, removable: Id -> bool, row: Row)
    requires Ordered(rows) && row in rows
    ensures var left := Limit(rows, max, removable).rows;
            row in left <==> IndexIn(left, row.id) < |left|
  {
    var left := Limit(rows, max, removable).rows;
    var i := IndexIn(left, row.id);
    if row in left {
      IndexOfMember(left, row);
    } else if i < |left| {
      LimitLeaves(rows, max, removable, left[i]);
      SameRow(rows, left[i], row);
    }
  }

  lemma LockOutcomes(rows: seq<Row>, at: nat, max: nat, removable: Id -> bool)
    requires at < |rows|
    requires var left := Limit(rows, max, removable).rows;
             && (rows[at] in left <==> IndexIn(left, rows[at].id) < |left|)
             && (!Idle(rows[at]) ==> rows[at] in left)
    ensures Lock(rows, at, max, removable).result == Dangling
            <==> && Sizes(rows) > max && Limit(rows, max, removable).verdict == Within
                 && rows[at] !in Limit(rows, max, removable).rows
  {
    DanglesAfter(Limit(rows, max, removable), rows[at].id);
  }

  lemma DanglesAfter(out: Outcome, id: Id)
    ensures LockAfter(out, id).result == Dangling <==> out.verdict == Within && IndexIn(out.rows, id) == |out.rows|
  {
  }

  lemma LockByLimit(rows: seq<Row>, at: nat, max: nat, removable: Id -> bool)
    requires Ordered(rows) && at < |rows|
    ensures Lock(rows, at, max, removable).result == Dangling
            <==> && Sizes(rows) > max && Limit(rows, max, removable).verdict == Within
                 && rows[at] !in Limit(rows, max, removable).rows
  {
    LimitLeaves(rows, max, removable, rows[at]);
    FoundAgain(rows, max, removable, rows[at]);
    LockOutcomes(rows, at, max, removable);
  }

  /** LockResource locks an entry that CheckLimit has erased exactly when the entry is idle, is
      too large together with what it shares the cache with, and CheckLimit meets the limit. */
  lemma LockDanglesExactly(rows: seq<Row>, at: nat, max: nat, removable: Id -> bool)
    requires Ordered(rows) && at < |rows|
    ensures Lock(rows, at, max, removable).result == Dangling
            <==> && Idle(rows[at]) && Kept(rows, rows[at]) > max
                 && Clears(rows, max, removable)
  {
    LockByLimit(rows, at, max, removable);
    LimitExactly(rows, max, removable);
    KeptBounds(rows, rows[at]);
    if Clears(rows, max, removable) {
      Survives(rows, max, removable, rows[at]);
    }
  }

  // A resource that is unlocked, and one that is locked and closed again but not yet unlocked.
  function Finished(size: nat, t: nat): Row { Row(1, Entry(LS_UNLOCKED, 0, size, 1, t)) }

  function Unfinished(size: nat, t: nat): Row { Row(2, Entry(LS_LOCKED, 0, size, 1, t)) }

  lemma TwoTotals(a: Row, b: Row, f: Row -> nat)
    ensures Total([a, b], f) == f(a) + f(b)
  {
    TotalLast([], a, f);
    assert [] + [a] == [a];
    TotalLast([a], b, f);
  }

  lemma BothBooked(size: nat, other: nat, t: nat, u: nat)
    ensures Books([Finished(size, t), Unfinished(other, u)], [], size + other, 0)
  {
    TwoTotals(Finished(size, t), Unfinished(other, u), SizeOf);
    TwoTotals(Finished(size, t), Unfinished(other, u), AccessorsOf);
  }

  lemma BothKept(size: nat, other: nat, t: nat, u: nat)
    requires t < u
    ensures var rows := [Finished(size, t), Unfinished(other, u)];
            BusySizes(rows) == other && Kept(rows, rows[0]) == size + other
            && !Sole(rows, rows[0]) && !Blocked(rows, rows[0])
  {
    var rows := [Finished(size, t), Unfinished(other, u)];
    TwoTotals(rows[0], rows[1], BusySize);
    TwoTotals(rows[0], rows[1], KeptSize(rows, rows[0]));
    assert rows[1] in rows;
  }

  /** Nothing unusual has to happen before: one resource has been written and unlocked, another
      one has been written and closed, and each of them fits in the cache. */
  lemma LockBetweenWriters(size: nat, other: nat, t: nat, u: nat, max: nat, removable: Id -> bool)
    requires other <= max < size + other && t < u && removable(1)
    ensures var rows := [Finished(size, t), Unfinished(other, u)];
            Books(rows, [], size + other, 0) && Lock(rows, 0, max, removable).result == Dangling
  {
    BothBooked(size, other, t, u);
    BothKept(size, other, t, u);
    LockDanglesExactly([Finished(size, t), Unfinished(other, u)], 0, max, removable);
  }

  lemma LeftUnfinished(size: nat, other: nat, t: nat, u: nat, max: nat, removable: Id -> bool)
    requires other <= max < size + other && t < u && removable(1)
    ensures Limit([Finished(size, t), Unfinished(other, u)], max, removable) == Outcome(Within, [Unfinished(other, u)])
  {
    var rows := [Finished(size, t), Unfinished(other, u)];
    TwoTotals(rows[0], rows[1], SizeOf);
    OneTotal(rows[1], SizeOf);
    LimitStep(rows, max, removable);
    assert VictimAt(rows) == 0 && Erased(rows, 0) == [rows[1]];
  }

  lemma OneTotal(a: Row, f: Row -> nat)
    ensures Total([a], f) == f(a)
  {
    TotalLast([], a, f);
    assert [] + [a] == [a];
  }

  // A resource that has just been made and locked.
  function Locked(id: Id, t: nat): Row { Row(id, Entry(LS_LOCKED, 0, 0, 0, t)) }

  method LockFirst(cache: DiskCache, t: nat, removable: Id -> bool)
    requires cache.Valid() && cache.map_ == [] && cache.open == []
    modifies cache
    ensures cache.Valid() && cache.map_ == [Locked(1, t)] && cache.open == []
    ensures cache.max_cache_ == old(cache.max_cache_)
  {
    ghost var row := Row(1, Entry(LS_UNLOCKED, 0, 0, 0, t));
    var locked, created, at := cache.LockResource(1, t, removable);
    assert created == Inserted([], 0, row) == [row];
    OneTotal(row, SizeOf);
  }

  method WriteAndClose(cache: DiskCache, ghost before: seq<Row>, id: Id, t: nat, size: nat, now: nat,
      removable: Id -> bool)
    requires cache.Valid() && cache.map_ == before + [Locked(id, t)] && cache.open == []
    modifies cache
    ensures cache.Valid() && cache.map_ == before + [Row(id, Entry(LS_LOCKED, 0, size, 1, t))] && cache.open == []
    ensures cache.max_cache_ == old(cache.max_cache_)
  {
    ghost var n := |before|;
    assert cache.map_[n] == Locked(id, t);
    var stream, k := cache.WriteResource(id, 0, 0, true);
    SameId(before + [Locked(id, t)], k, n);
    assert cache.map_ == before + [Row(id, Entry(LS_LOCKED, 1, 0, 1, t))];
    var i := cache.ReleaseResource(stream[0], size, now, removable, 0);
    SameId(before + [Row(id, Entry(LS_LOCKED, 1, 0, 1, t))], i, n);
  }

  lemma SameId(rows: seq<Row>, k: nat, n: nat)
    requires Ordered(rows) && k < |rows| && n < |rows| && rows[k].id == rows[n].id
    ensures k == n
  {
    assert !(k < n) && !(n < k);
  }

  // The first resource is locked, written, closed and unlocked.
  method WriteFirst(cache: DiskCache, size: nat, t: nat, removable: Id -> bool)
    requires cache.Valid() && cache.map_ == [] && cache.open == [] && size <= cache.max_cache_
    modifies cache
    ensures cache.Valid() && cache.map_ == [Finished(size, t)] && cache.open == []
    ensures cache.max_cache_ == old(cache.max_cache_)
  {
    LockFirst(cache, t, removable);
    assert [] + [Locked(1, t)] == [Locked(1, t)];
    WriteAndClose(cache, [], 1, t, size, t, removable);
    OneTotal(Finished(size, t), SizeOf);
    var unlocked, j := cache.UnlockResource(1, t, removable);
  }

  lemma InsertedLast(a: Row, at: nat, row: Row, lock: LockState, t: nat)
    requires at <= 1 && a.id < row.id && Ordered(Relocked(Inserted([a], at, row), at, lock, t))
    ensures Inserted([a], at, row) == [a, row]
  {
    var rows := Relocked(Inserted([a], at, row), at, lock, t);
    assert rows[0].id < rows[1].id;
  }

  method LockSecond(cache: DiskCache, size: nat, t: nat, u: nat, removable: Id -> bool)
    requires cache.Valid() && cache.map_ == [Finished(size, t)] && cache.open == [] && size <= cache.max_cache_
    modifies cache
    ensures cache.Valid() && cache.map_ == [Finished(size, t), Locked(2, u)] && cache.open == []
    ensures cache.max_cache_ == old(cache.max_cache_)
  {
    ghost var first, second := Finished(size, t), Row(2, Entry(LS_UNLOCKED, 0, 0, 0, u));
    var locked, created, at := cache.LockResource(2, u, removable);
    assert created == Inserted([first], at, second);
    OneTotal(first, SizeOf);
    SumsInserted([first], at, second);
    InsertedLast(first, at, second, LS_LOCKED, u);
  }

  // The second one is locked, written and closed.
  method WriteSecond(cache: DiskCache, size: nat, t: nat, other: nat, u: nat, removable: Id -> bool)
    requires cache.Valid() && cache.map_ == [Finished(size, t)] && cache.open == [] && size <= cache.max_cache_
    modifies cache
    ensures cache.Valid() && cache.map_ == [Finished(size, t), Unfinished(other, u)] && cache.open == []
    ensures cache.max_cache_ == old(cache.max_cache_)
  {
    LockSecond(cache, size, t, u, removable);
    assert [Finished(size, t)] + [Locked(2, u)] == [Finished(size, t), Locked(2, u)];
    WriteAndClose(cache, [Finished(size, t)], 2, u, other, u, removable);
  }

  /** The run through the operations: the lock on the first resource is the one that dangles. */
  method LockTwice(cache: DiskCache, size: nat, other: nat, t: nat, u: nat, removable: Id -> bool)
    returns (result: LockResult)
    requires cache.Valid() && cache.map_ == [] && cache.open == []
    requires var max := cache.max_cache_; size <= max && other <= max < size + other && t < u && removable(1)
    modifies cache
    ensures result == Dangling && cache.map_ == [Unfinished(other, u)]
  {
    WriteFirst(cache, size, t, removable);
    WriteSecond(cache, size, t, other, u, removable);
    LockBetweenWriters(size, other, t, u, cache.max_cache_, removable);
    LeftUnfinished(size, other, t, u, cache.max_cache_, removable);
    var last, created, at := cache.LockResource(1, u, removable);
    assert created == [Finished(size, t), Unfinished(other, u)] && at == 0;
    result := last;
  }

  lemma LaterGoes(a: Row, b: Row, max: nat, removable: Id -> bool)
    requires Idle(a) && Idle(b) && a.id < b.id && a.entry.lastModified == b.entry.lastModified && removable(b.id)
    requires a.entry.size <= max < a.entry.size + b.entry.size
    ensures Limit([a, b], max, removable) == Outcome(Within, [a])
  {
    var rows := [a, b];
    TwoTotals(a, b, SizeOf);
    OneTotal(a, SizeOf);
    LimitStep(rows, max, removable);
    assert VictimAt(rows) == 1 && Erased(rows, 1) == [a];
  }

  /** Of two entries that were modified in the same second, it is the later one in key order that
      goes: a lock on it dangles, and a lock on the other one does not. */
  lemma TiedLocks(a: Row, b: Row, max: nat, removable: Id -> bool)
    requires Idle(a) && Idle(b) && a.id < b.id && a.entry.lastModified == b.entry.lastModified && removable(b.id)
    requires a.entry.size <= max < a.entry.size + b.entry.size
    ensures Lock([a, b], 1, max, removable).result == Dangling
    ensures Lock([a, b], 0, max, removable)
            == LockOutcome(LockResult.Locked, Relocked([a], 0, LS_LOCKED, a.entry.lastModified))
  {
    LaterGoes(a, b, max, removable);
    TwoTotals(a, b, SizeOf);
    assert IndexIn([a], a.id) == 0 && IndexIn([a], b.id) == 1;
  }

  /** The last entry in key order need not be the last one left: here it is evicted first. */
  lemma LastKeyMayGoFirst(a: Row, b: Row, max: nat, removable: Id -> bool)
    requires Idle(a) && Idle(b) && a.id < b.id && b.entry.lastModified < a.entry.lastModified
    requires a.entry.size > max && removable(b.id)
    ensures Limit([a, b], max, removable).verdict == PastTheEnd
  {
    var rows := [a, b];
    TwoTotals(a, b, KeptSize(rows, a));
    assert LeavesOne(rows, a, max, removable);
    assert a in rows;
    LimitExactly(rows, max, removable);
  }
}
