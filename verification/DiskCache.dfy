/** diskcache.cc: locking, accounting and eviction. */
module DiskCache {
  // A resource id, standing for its place in the order of the keys.
  type Id = nat

  datatype LockState = LS_UNLOCKED | LS_LOCKED | LS_UNLOCKING
  datatype Entry = Entry(lock: LockState, accessors: nat, size: nat, streams: nat, lastModified: nat)
  datatype Row = Row(id: Id, entry: Entry)

  // An open stream on a resource: from WriteResource, or from ReadResource.
  datatype Adapter = Adapter(id: Id, index: nat, writes: bool)

  function Erased<T>(s: seq<T>, k: nat): (r: seq<T>)
    requires k < |s|
    ensures |r| == |s| - 1
  {
    s[..k] + s[k + 1..]
  }

  function Total(rows: seq<Row>, f: Row -> nat): nat {
    if rows == [] then 0 else Total(rows[..|rows| - 1], f) + f(rows[|rows| - 1])
  }

  function SizeOf(row: Row): nat { row.entry.size }

  function AccessorsOf(row: Row): nat { row.entry.accessors }

  function Sizes(rows: seq<Row>): nat { Total(rows, SizeOf) }

  function Accessors(rows: seq<Row>): nat { Total(rows, AccessorsOf) }

  // How many of the open streams are on a resource, writing or reading.
  function Opened(open: seq<Adapter>, id: Id, writes: bool): nat {
    if open == [] then 0
    else
      var last := open[|open| - 1];
      Opened(open[..|open| - 1], id, writes) + if last.id == id && last.writes == writes then 1 else 0
  }

  lemma {:induction false} TotalSplit(a: seq<Row>, b: seq<Row>, f: Row -> nat)
    ensures Total(a + b, f) == Total(a, f) + Total(b, f)
    decreases |b|
  {
    if b == [] {
      assert a + b == a;
    } else {
      assert (a + b)[..|a + b| - 1] == a + b[..|b| - 1];
      TotalSplit(a, b[..|b| - 1], f);
    }
  }

  lemma TotalLast(rows: seq<Row>, row: Row, f: Row -> nat)
    ensures Total(rows + [row], f) == Total(rows, f) + f(row)
  {
    assert (rows + [row])[..|rows|] == rows;
  }

  lemma SplitAt<T>(s: seq<T>, k: nat)
    requires k < |s|
    ensures s == s[..k] + [s[k]] + s[k + 1..]
  {
  }

  lemma TotalAround(a: seq<Row>, row: Row, b: seq<Row>, f: Row -> nat)
    ensures Total(a + [row] + b, f) == Total(a + b, f) + f(row)
  {
    TotalLast(a, row, f);
    TotalSplit(a + [row], b, f);
    TotalSplit(a, b, f);
  }

  lemma SumsAround(rows: seq<Row>, k: nat)
    requires k < |rows|
    ensures Sizes(rows) == Sizes(Erased(rows, k)) + rows[k].entry.size
    ensures Accessors(rows) == Accessors(Erased(rows, k)) + rows[k].entry.accessors
  {
    SplitAt(rows, k);
    TotalAround(rows[..k], rows[k], rows[k + 1..], SizeOf);
    TotalAround(rows[..k], rows[k], rows[k + 1..], AccessorsOf);
  }

  lemma SumsUpdated(rows: seq<Row>, k: nat, row: Row)
    requires k < |rows|
    ensures Sizes(rows[k := row]) + rows[k].entry.size == Sizes(rows) + row.entry.size
    ensures Accessors(rows[k := row]) + rows[k].entry.accessors == Accessors(rows) + row.entry.accessors
  {
    SumsAround(rows, k);
    SumsAround(rows[k := row], k);
    assert Erased(rows[k := row], k) == Erased(rows, k);
  }

  lemma {:induction false} OpenedAt(open: seq<Adapter>, k: nat, id: Id, writes: bool)
    requires k < |open|
    ensures Opened(open, id, writes)
            == Opened(Erased(open, k), id, writes) + if open[k].id == id && open[k].writes == writes then 1 else 0
    decreases |open|
  {
    var n := |open| - 1;
    if k == n {
      assert Erased(open, k) == open[..n];
    } else {
      OpenedAt(open[..n], k, id, writes);
      assert Erased(open, k)[..n - 1] == Erased(open[..n], k);
    }
  }

  ghost predicate Ordered(rows: seq<Row>) { forall i, j :: 0 <= i < j < |rows| ==> rows[i].id < rows[j].id }

  /** A resource and the streams open on it: an unlocked one is only read, a locked one is only
      written, and one that is being unlocked waits for its writers. */
  ghost predicate InStep(row: Row, open: seq<Adapter>) {
    var w, r := Opened(open, row.id, true), Opened(open, row.id, false);
    && row.entry.accessors == w + r
    && (if row.entry.lock == LS_UNLOCKED then w == 0 else r == 0)
    && (row.entry.lock == LS_UNLOCKING ==> row.entry.accessors > 0)
  }

  ghost predicate Listed(id: Id, rows: seq<Row>) { exists k :: 0 <= k < |rows| && rows[k].id == id }

  ghost predicate Consistent(rows: seq<Row>, open: seq<Adapter>) {
    && Ordered(rows)
    && (forall k :: 0 <= k < |rows| ==> InStep(rows[k], open))
    && (forall k :: 0 <= k < |open| ==> Listed(open[k].id, rows))
  }

  /** No resource is read and written at once, and none with an open stream is missing. */
  lemma ReadersExcludeWriters(rows: seq<Row>, open: seq<Adapter>, i: nat, j: nat)
    requires Consistent(rows, open) && i < |open| && j < |open| && open[i].id == open[j].id
    ensures open[i].writes == open[j].writes
  {
    var k :| 0 <= k < |rows| && rows[k].id == open[i].id;
    assert InStep(rows[k], open);
    OpenedAt(open, i, open[i].id, open[i].writes);
    OpenedAt(open, j, open[j].id, open[j].writes);
  }

  lemma StreamIsCounted(rows: seq<Row>, open: seq<Adapter>, i: nat, k: nat)
    requires Consistent(rows, open) && i < |open| && k < |rows| && rows[k].id == open[i].id
    ensures rows[k].entry.accessors > 0 && (open[i].writes <==> rows[k].entry.lock != LS_UNLOCKED)
  {
    assert InStep(rows[k], open);
    OpenedAt(open, i, open[i].id, true);
    OpenedAt(open, i, open[i].id, false);
  }

  // An entry may be rewritten when its resource stays in step.
  lemma RowRewritten(rows: seq<Row>, open: seq<Adapter>, k: nat, entry: Entry)
    requires Consistent(rows, open) && k < |rows| && InStep(Row(rows[k].id, entry), open)
    ensures Consistent(rows[k := Row(rows[k].id, entry)], open)
  {
    var rows' := rows[k := Row(rows[k].id, entry)];
    forall j | 0 <= j < |open| ensures Listed(open[j].id, rows') {
      var i :| 0 <= i < |rows| && rows[i].id == open[j].id;
      assert rows'[i].id == open[j].id;
    }
  }

  // A stream is opened on a resource that admits it.
  lemma StreamOpened(rows: seq<Row>, open: seq<Adapter>, k: nat, entry: Entry, a: Adapter)
    requires Consistent(rows, open) && k < |rows| && a.id == rows[k].id
    requires entry.lock == rows[k].entry.lock && entry.accessors == rows[k].entry.accessors + 1
    requires a.writes <==> entry.lock == LS_LOCKED
    requires entry.lock != LS_UNLOCKING
    ensures Consistent(rows[k := Row(a.id, entry)], open + [a])
  {
    var rows', open' := rows[k := Row(a.id, entry)], open + [a];
    assert open'[..|open|] == open;
    forall j | 0 <= j < |rows'| ensures InStep(rows'[j], open') {
      assert InStep(rows[j], open);
    }
    forall j | 0 <= j < |open'| ensures Listed(open'[j].id, rows') {
      if j < |open| {
        var i :| 0 <= i < |rows| && rows[i].id == open[j].id;
        assert rows'[i].id == open'[j].id;
      } else {
        assert rows'[k].id == open'[j].id;
      }
    }
  }

  // A stream is closed; the state of its resource is settled by its last writer.
  lemma StreamClosed(rows: seq<Row>, open: seq<Adapter>, k: nat, entry: Entry, i: nat)
    requires Consistent(rows, open) && k < |rows| && i < |open| && open[i].id == rows[k].id
    requires entry.accessors + 1 == rows[k].entry.accessors
    requires entry.lock == if rows[k].entry.lock == LS_UNLOCKING && entry.accessors == 0 then LS_UNLOCKED else rows[k].entry.lock
    ensures Consistent(rows[k := Row(rows[k].id, entry)], Erased(open, i))
  {
    var rows', open' := rows[k := Row(rows[k].id, entry)], Erased(open, i);
    forall j | 0 <= j < |rows'| ensures InStep(rows'[j], open') {
      assert InStep(rows[j], open);
      OpenedAt(open, i, rows[j].id, true);
      OpenedAt(open, i, rows[j].id, false);
    }
    forall j | 0 <= j < |open'| ensures Listed(open'[j].id, rows') {
      var a := open[if j < i then j else j + 1];
      assert Listed(a.id, rows);
      var m :| 0 <= m < |rows| && rows[m].id == a.id;
      assert rows'[m].id == open'[j].id;
    }
  }

  // A resource without streams is erased.
  lemma RowErased(rows: seq<Row>, open: seq<Adapter>, k: nat)
    requires Consistent(rows, open) && k < |rows| && rows[k].entry.accessors == 0
    ensures Consistent(Erased(rows, k), open)
  {
    var rows' := Erased(rows, k);
    assert InStep(rows[k], open);
    forall j | 0 <= j < |open| ensures Listed(open[j].id, rows') {
      OpenedAt(open, j, open[j].id, open[j].writes);
      var i :| 0 <= i < |rows| && rows[i].id == open[j].id;
      assert i != k;
      assert rows'[if i < k then i else i - 1].id == open[j].id;
    }
    forall j | 0 <= j < |rows'| ensures InStep(rows'[j], open) {
      assert rows'[j] == rows[if j < k then j else j + 1];
    }
  }

  function Inserted<T>(s: seq<T>, k: nat, x: T): (r: seq<T>)
    requires k <= |s|
    ensures |r| == |s| + 1 && r[k] == x
  {
    s[..k] + [x] + s[k..]
  }

  // A fresh entry at its place.
  lemma RowInserted(rows: seq<Row>, open: seq<Adapter>, k: nat, row: Row)
    requires Consistent(rows, open) && k <= |rows|
    requires (forall j :: 0 <= j < k ==> rows[j].id < row.id) && (forall j :: k <= j < |rows| ==> row.id < rows[j].id)
    requires row.entry.lock == LS_UNLOCKED && row.entry.accessors == 0
    ensures Consistent(Inserted(rows, k, row), open)
  {
    var rows' := Inserted(rows, k, row);
    assert !Listed(row.id, rows);
    NoneOpened(open, row.id, rows);
    forall j | 0 <= j < |open| ensures Listed(open[j].id, rows') { ListedInserted(rows, k, row, open[j].id); }
    forall j | 0 <= j < |rows'| ensures InStep(rows'[j], open) {
      if j != k { assert rows'[j] == rows[if j < k then j else j - 1]; }
    }
    OrderedInserted(rows, k, row);
  }

  lemma ListedInserted(rows: seq<Row>, k: nat, row: Row, id: Id)
    requires k <= |rows| && Listed(id, rows)
    ensures Listed(id, Inserted(rows, k, row))
  {
    var i :| 0 <= i < |rows| && rows[i].id == id;
    assert Inserted(rows, k, row)[if i < k then i else i + 1] == rows[i];
  }

  lemma OrderedInserted(rows: seq<Row>, k: nat, row: Row)
    requires Ordered(rows) && k <= |rows|
    requires (forall j :: 0 <= j < k ==> rows[j].id < row.id) && (forall j :: k <= j < |rows| ==> row.id < rows[j].id)
    ensures Ordered(Inserted(rows, k, row))
  {
  }

  lemma SumsInserted(rows: seq<Row>, k: nat, row: Row)
    requires k <= |rows|
    ensures Sizes(Inserted(rows, k, row)) == Sizes(rows) + row.entry.size
    ensures Accessors(Inserted(rows, k, row)) == Accessors(rows) + row.entry.accessors
  {
    assert rows[..k] + rows[k..] == rows;
    TotalAround(rows[..k], row, rows[k..], SizeOf);
    TotalAround(rows[..k], row, rows[k..], AccessorsOf);
  }

  lemma {:induction false} NoneOpened(open: seq<Adapter>, id: Id, rows: seq<Row>)
    requires !Listed(id, rows) && forall j :: 0 <= j < |open| ==> Listed(open[j].id, rows)
    ensures Opened(open, id, true) == 0 && Opened(open, id, false) == 0
    decreases |open|
  {
    if open != [] {
      var n := |open| - 1;
      assert forall j :: 0 <= j < n ==> open[..n][j] == open[j];
      NoneOpened(open[..n], id, rows);
      assert Listed(open[n].id, rows);
    }
  }

  /** The invariant of the cache: its entries, the open streams and the totals. */
  ghost predicate Books(rows: seq<Row>, open: seq<Adapter>, total: nat, accessors: nat) {
    Consistent(rows, open) && total == Sizes(rows) && accessors == Accessors(rows) == |open|
  }

  lemma SizeIsIncluded(rows: seq<Row>, k: nat)
    requires k < |rows|
    ensures rows[k].entry.size <= Sizes(rows)
  {
    SumsAround(rows, k);
  }

  lemma AccessorIsIncluded(rows: seq<Row>, k: nat)
    requires k < |rows|
    ensures rows[k].entry.accessors <= Accessors(rows)
  {
    SumsAround(rows, k);
  }

  lemma BooksRewritten(rows: seq<Row>, open: seq<Adapter>, total: nat, accessors: nat, k: nat, entry: Entry)
    requires Books(rows, open, total, accessors) && k < |rows| && InStep(Row(rows[k].id, entry), open)
    requires entry.accessors == rows[k].entry.accessors && entry.size == rows[k].entry.size
    ensures Books(rows[k := Row(rows[k].id, entry)], open, total, accessors)
  {
    RowRewritten(rows, open, k, entry);
    SumsUpdated(rows, k, Row(rows[k].id, entry));
  }

  lemma BooksOpened(rows: seq<Row>, open: seq<Adapter>, total: nat, accessors: nat, k: nat, entry: Entry, a: Adapter,
      total': nat)
    requires Books(rows, open, total, accessors) && k < |rows| && a.id == rows[k].id
    requires entry.lock == rows[k].entry.lock && entry.accessors == rows[k].entry.accessors + 1
    requires (a.writes <==> entry.lock == LS_LOCKED) && entry.lock != LS_UNLOCKING
    requires total' + rows[k].entry.size == total + entry.size
    ensures Books(rows[k := Row(a.id, entry)], open + [a], total', accessors + 1)
  {
    StreamOpened(rows, open, k, entry, a);
    SumsUpdated(rows, k, Row(a.id, entry));
  }

  lemma BooksClosed(rows: seq<Row>, open: seq<Adapter>, total: nat, accessors: nat, k: nat, entry: Entry, i: nat,
      total': nat)
    requires Books(rows, open, total, accessors) && k < |rows| && i < |open| && open[i].id == rows[k].id
    requires entry.accessors + 1 == rows[k].entry.accessors
    requires entry.lock == if rows[k].entry.lock == LS_UNLOCKING && entry.accessors == 0 then LS_UNLOCKED else rows[k].entry.lock
    requires total' + rows[k].entry.size == total + entry.size
    ensures accessors > 0 && Books(rows[k := Row(rows[k].id, entry)], Erased(open, i), total', accessors - 1)
  {
    StreamClosed(rows, open, k, entry, i);
    SumsUpdated(rows, k, Row(rows[k].id, entry));
  }

  lemma BooksErased(rows: seq<Row>, open: seq<Adapter>, total: nat, accessors: nat, k: nat)
    requires Books(rows, open, total, accessors) && k < |rows| && rows[k].entry.accessors == 0
    ensures rows[k].entry.size <= total && Books(Erased(rows, k), open, total - rows[k].entry.size, accessors)
  {
    RowErased(rows, open, k);
    SumsAround(rows, k);
  }

  predicate Idle(row: Row) { row.entry.lock == LS_UNLOCKED && row.entry.accessors == 0 }

  function FirstIdle(rows: seq<Row>): (j: nat)
    ensures j <= |rows| && (j < |rows| ==> Idle(rows[j])) && forall i :: 0 <= i < j ==> !Idle(rows[i])
  {
    if rows == [] || Idle(rows[0]) then 0
    else
      var j := 1 + FirstIdle(rows[1..]);
      assert forall i :: 1 <= i < |rows| ==> rows[i] == rows[1..][i - 1];
      j
  }

  // The scan from the first idle entry, which starts out from the entry after that one.
  function OldestFrom(rows: seq<Row>, it: nat, oldest: nat): (k: nat)
    requires it <= |rows| && oldest < |rows|
    ensures k < |rows| && (k == oldest || it <= k)
    ensures rows[k].entry.lastModified <= rows[oldest].entry.lastModified
    ensures forall i :: it <= i < |rows| ==> rows[k].entry.lastModified <= rows[i].entry.lastModified
    decreases |rows| - it
  {
    if it == |rows| then oldest
    else OldestFrom(rows, it + 1, if rows[it].entry.lastModified < rows[oldest].entry.lastModified then it else oldest)
  }

  datatype Verdict = Within | Overfull | PastTheEnd
  datatype Outcome = Outcome(verdict: Verdict, rows: seq<Row>)

  /** CheckLimit, for files of which some can be removed. It is past the end when the entry
      after the first idle one, which it reads, does not exist. */
  function Limit(rows: seq<Row>, max: nat, removable: Id -> bool): Outcome
    decreases |rows|
  {
    var j := FirstIdle(rows);
    if Sizes(rows) <= max then Outcome(Within, rows)
    else if j == |rows| then Outcome(Overfull, rows)
    else if j + 1 == |rows| then Outcome(PastTheEnd, rows)
    else
      var k := OldestFrom(rows, j, j + 1);
      if !Idle(rows[k]) then Outcome(Overfull, rows)
      else if !removable(rows[k].id) then Outcome(Overfull, Erased(rows, k))
      else Limit(Erased(rows, k), max, removable)
  }

  lemma LimitStep(rows: seq<Row>, max: nat, removable: Id -> bool)
    requires Sizes(rows) > max
    ensures var j := FirstIdle(rows);
            Limit(rows, max, removable) ==
            if j == |rows| then Outcome(Overfull, rows)
            else if j + 1 == |rows| then Outcome(PastTheEnd, rows)
            else
              var k := OldestFrom(rows, j, j + 1);
              if !Idle(rows[k]) then Outcome(Overfull, rows)
              else if !removable(rows[k].id) then Outcome(Overfull, Erased(rows, k))
              else Limit(Erased(rows, k), max, removable)
  {
  }

  // One turn of the loop: whether it goes on, and what it says when it does not.
  ghost predicate Turned(rows: seq<Row>, removable: Id -> bool, again: bool, verdict: Verdict, rows': seq<Row>) {
    var j := FirstIdle(rows);
    if j + 1 >= |rows| then
      !again && rows' == rows && verdict == if j == |rows| then Overfull else PastTheEnd
    else
      var k := OldestFrom(rows, j, j + 1);
      && verdict == Overfull && again == (Idle(rows[k]) && removable(rows[k].id))
      && rows' == if Idle(rows[k]) then Erased(rows, k) else rows
  }

  // What an attempt to evict the entry at k does.
  ghost predicate Evicted(rows: seq<Row>, k: nat, removable: Id -> bool, success: bool, rows': seq<Row>)
    requires k < |rows|
  {
    if Idle(rows[k]) then success == removable(rows[k].id) && rows' == Erased(rows, k) else !success && rows' == rows
  }

  lemma TurnedBy(rows: seq<Row>, j: nat, k: nat, removable: Id -> bool, again: bool, rows': seq<Row>)
    requires j == FirstIdle(rows) && j + 1 < |rows| && k == OldestFrom(rows, j, j + 1)
    requires Evicted(rows, k, removable, again, rows')
    ensures Turned(rows, removable, again, Overfull, rows')
  {
  }

  lemma AfterTurn(rows: seq<Row>, max: nat, removable: Id -> bool, again: bool, verdict: Verdict, rows': seq<Row>)
    requires Sizes(rows) > max && Turned(rows, removable, again, verdict, rows')
    ensures Limit(rows, max, removable) == if again then Limit(rows', max, removable) else Outcome(verdict, rows')
    ensures again ==> |rows'| < |rows|
  {
    LimitStep(rows, max, removable);
  }

  /** An entry that CheckLimit erases is idle, and as old as any idle entry. */
  lemma VictimIsOldestIdle(rows: seq<Row>)
    requires FirstIdle(rows) + 1 < |rows|
    ensures var k := OldestFrom(rows, FirstIdle(rows), FirstIdle(rows) + 1);
            forall i :: 0 <= i < |rows| && Idle(rows[i]) ==> rows[k].entry.lastModified <= rows[i].entry.lastModified
  {
  }

  /** CheckLimit erases idle entries only, leaves the others as they are, and says that the
      limit is met only when it is. */
  lemma {:induction false} LimitErasesIdle(rows: seq<Row>, max: nat, removable: Id -> bool)
    ensures var out := Limit(rows, max, removable);
            (out.verdict == Within ==> Sizes(out.rows) <= max) && ErasesIdle(rows, out.rows)
    decreases |rows|
  {
    var j := FirstIdle(rows);
    if Sizes(rows) > max && j + 1 < |rows| {
      LimitStep(rows, max, removable);
      var k := OldestFrom(rows, j, j + 1);
      if Idle(rows[k]) {
        LimitErasesIdle(Erased(rows, k), max, removable);
        ErasesOneMore(rows, k, Limit(rows, max, removable).rows);
      }
    }
  }

  ghost predicate ErasesIdle(rows: seq<Row>, left: seq<Row>) {
    && (forall row :: row in left ==> row in rows)
    && (forall row :: row in rows ==> row in left || Idle(row))
    && |left| <= |rows|
  }

  lemma ErasesOneMore(rows: seq<Row>, k: nat, left: seq<Row>)
    requires k < |rows| && Idle(rows[k]) && ErasesIdle(Erased(rows, k), left)
    ensures ErasesIdle(rows, left)
  {
    ErasedMembers(rows, k);
  }

  lemma ErasedMembers<T>(s: seq<T>, k: nat)
    requires k < |s|
    ensures forall x :: x in Erased(s, k) ==> x in s
    ensures forall x :: x in s ==> x in Erased(s, k) || x == s[k]
  {
    forall x | x in s && x != s[k] ensures x in Erased(s, k) {
      var i :| 0 <= i < |s| && s[i] == x;
      assert Erased(s, k)[if i < k then i else i - 1] == x;
    }
  }

  lemma LastStays(rows: seq<Row>, again: bool, verdict: Verdict, rows': seq<Row>, removable: Id -> bool)
    requires rows != [] && !Idle(rows[|rows| - 1]) && Turned(rows, removable, again, verdict, rows')
    ensures verdict != PastTheEnd && (again ==> rows' != [] && rows'[|rows'| - 1] == rows[|rows| - 1])
  {
  }

  lemma Turn(rows: seq<Row>, removable: Id -> bool) returns (again: bool, verdict: Verdict, rows': seq<Row>)
    ensures Turned(rows, removable, again, verdict, rows')
  {
    var j := FirstIdle(rows);
    if j + 1 >= |rows| {
      again, rows', verdict := false, rows, if j == |rows| then Overfull else PastTheEnd;
    } else {
      var k := OldestFrom(rows, j, j + 1);
      again, verdict := Idle(rows[k]) && removable(rows[k].id), Overfull;
      rows' := if Idle(rows[k]) then Erased(rows, k) else rows;
    }
  }

  /** As long as the last entry in key order is in use, CheckLimit does not run past the end. */
  lemma {:induction false} BusyLastEntry(rows: seq<Row>, max: nat, removable: Id -> bool)
    requires rows != [] && !Idle(rows[|rows| - 1])
    ensures Limit(rows, max, removable).verdict != PastTheEnd
    decreases |rows|
  {
    if Sizes(rows) > max {
      var again, verdict, rows' := Turn(rows, removable);
      AfterTurn(rows, max, removable, again, verdict, rows');
      LastStays(rows, again, verdict, rows', removable);
      if again { BusyLastEntry(rows', max, removable); }
    }
  }

  lemma SizeOfOne(rows: seq<Row>)
    requires |rows| == 1
    ensures Sizes(rows) == rows[0].entry.size
  {
    assert rows[..0] == [] && Sizes([]) == 0;
    assert Sizes(rows) == Sizes(rows[..0]) + SizeOf(rows[0]);
  }

  // The entry that is left when all others have been evicted.
  function LastStanding(rows: seq<Row>): Row
    requires rows != []
    decreases |rows|
  {
    if |rows| == 1 then rows[0] else LastStanding(Erased(rows, OldestFrom(rows, 0, 1)))
  }

  lemma {:induction false} LastStandingIsNewest(rows: seq<Row>, i: nat)
    requires i < |rows|
    ensures LastStanding(rows) in rows && rows[i].entry.lastModified <= LastStanding(rows).entry.lastModified
    decreases |rows|
  {
    if |rows| > 1 {
      var k := OldestFrom(rows, 0, 1);
      var rest := Erased(rows, k);
      ErasedMembers(rows, k);
      var m := if i < k then i else if i > k then i - 1 else 0;
      LastStandingIsNewest(rest, m);
      assert rest[m] in rest;
    }
  }

  lemma {:induction false} StandingSize(rows: seq<Row>)
    requires rows != []
    ensures LastStanding(rows).entry.size <= Sizes(rows)
    decreases |rows|
  {
    if |rows| == 1 {
      SizeOfOne(rows);
    } else {
      var k := OldestFrom(rows, 0, 1);
      SumsAround(rows, k);
      StandingSize(Erased(rows, k));
    }
  }

  // What one turn does to an idle cache of more than one entry.
  lemma IdleTurn(rows: seq<Row>, max: nat, removable: Id -> bool)
    requires |rows| > 1 && Sizes(rows) > max && forall k :: 0 <= k < |rows| ==> Idle(rows[k])
    ensures var k := OldestFrom(rows, 0, 1);
            Limit(rows, max, removable)
            == if removable(rows[k].id) then Limit(Erased(rows, k), max, removable) else Outcome(Overfull, Erased(rows, k))
  {
    LimitStep(rows, max, removable);
    assert FirstIdle(rows) == 0;
  }

  ghost predicate OthersGo(rows: seq<Row>, x: Row, removable: Id -> bool) {
    forall row :: row in rows && row != x ==> removable(row.id)
  }

  lemma OthersGoWithout(rows: seq<Row>, k: nat, x: Row, removable: Id -> bool)
    requires Ordered(rows) && k < |rows| && x in Erased(rows, k)
    ensures OthersGo(rows, x, removable) <==> removable(rows[k].id) && OthersGo(Erased(rows, k), x, removable)
  {
    ErasedMembers(rows, k);
    var m :| 0 <= m < |rows| - 1 && Erased(rows, k)[m] == x;
    assert rows[k] != x;
  }

  lemma ErasedInOrder(rows: seq<Row>, k: nat)
    requires Ordered(rows) && k < |rows|
    ensures Ordered(Erased(rows, k))
  {
  }

  ghost predicate Ends(verdict: Verdict, rows: seq<Row>, max: nat, removable: Id -> bool, x: Row) {
    && (verdict == PastTheEnd <==> x.entry.size > max && OthersGo(rows, x, removable))
    && (x.entry.size <= max && OthersGo(rows, x, removable) ==> verdict == Within)
  }

  lemma EndsWithout(verdict: Verdict, rows: seq<Row>, max: nat, removable: Id -> bool, k: nat, x: Row)
    requires Ordered(rows) && k < |rows| && x in Erased(rows, k)
    requires removable(rows[k].id) ==> Ends(verdict, Erased(rows, k), max, removable, x)
    requires !removable(rows[k].id) ==> verdict == Overfull
    ensures Ends(verdict, rows, max, removable, x)
  {
    OthersGoWithout(rows, k, x, removable);
  }

  lemma EndsAtOnce(rows: seq<Row>, max: nat, removable: Id -> bool)
    requires |rows| == 1 || (rows != [] && Sizes(rows) <= max)
    requires forall k :: 0 <= k < |rows| ==> Idle(rows[k])
    ensures Ends(Limit(rows, max, removable).verdict, rows, max, removable, LastStanding(rows))
  {
    StandingSize(rows);
    if |rows| == 1 {
      SizeOfOne(rows);
      assert FirstIdle(rows) == 0;
    }
  }

  /** When nothing is in use, CheckLimit runs past the end exactly when the entry that would be
      left last, one as new as any, is larger than the whole cache, and all others can be removed.
      When they can be, and it is not, the limit is met. */
  lemma {:induction false} IdleCacheRunsPastTheEnd(rows: seq<Row>, max: nat, removable: Id -> bool)
    requires rows != [] && Ordered(rows) && forall k :: 0 <= k < |rows| ==> Idle(rows[k])
    ensures var x, verdict := LastStanding(rows), Limit(rows, max, removable).verdict;
            && (verdict == PastTheEnd <==> x.entry.size > max && OthersGo(rows, x, removable))
            && (x.entry.size <= max && OthersGo(rows, x, removable) ==> verdict == Within)
    decreases |rows|
  {
    if |rows| == 1 || Sizes(rows) <= max {
      EndsAtOnce(rows, max, removable);
    } else {
      var k := OldestFrom(rows, 0, 1);
      ErasedInOrder(rows, k);
      IdleTurn(rows, max, removable);
      LastStandingIsNewest(Erased(rows, k), 0);
      IdleCacheRunsPastTheEnd(Erased(rows, k), max, removable);
      EndsWithout(Limit(rows, max, removable).verdict, rows, max, removable, k, LastStanding(rows));
    }
  }

  datatype LockResult = Locked | Refused | Dangling | RanPastTheEnd

  class DiskCache {
    var max_cache_: nat
    var total_size_: nat
    var total_accessors_: nat
    var map_: seq<Row>
    ghost var open: seq<Adapter>

    ghost predicate Valid()
      reads this
    {
      Books(map_, open, total_size_, total_accessors_)
    }

    // What a new cache finds on disk, as InitializeEntries leaves it.
    constructor (max: nat, found: seq<Row>)
      requires Ordered(found) && forall k :: 0 <= k < |found| ==> Idle(found[k])
      ensures Valid() && map_ == found && open == [] && max_cache_ == max
    {
      max_cache_, total_size_, total_accessors_, map_ := max, Sizes(found), 0, found;
      open := [];
      new;
      NothingOpen(found);
    }

    method Find(id: Id) returns (k: nat)
      ensures k <= |map_| && (k < |map_| ==> map_[k].id == id)
      ensures k < |map_| <==> Listed(id, map_)
    {
      k := 0;
      while k < |map_| && map_[k].id != id
        invariant k <= |map_| && forall j :: 0 <= j < k ==> map_[j].id != id
      {
        k := k + 1;
      }
    }

    method Insert(row: Row) returns (k: nat)
      requires Valid() && !Listed(row.id, map_)
      requires row.entry.lock == LS_UNLOCKED && row.entry.accessors == 0 && row.entry.size == 0
      modifies this`map_
      ensures Valid() && k <= |old(map_)| && map_ == Inserted(old(map_), k, row)
    {
      k := 0;
      while k < |map_| && map_[k].id < row.id
        invariant k <= |map_| && forall j :: 0 <= j < k ==> map_[j].id < row.id
      {
        k := k + 1;
      }
      assert k < |map_| ==> map_[k].id != row.id;
      RowInserted(map_, open, k, row);
      SumsInserted(map_, k, row);
      map_ := Inserted(map_, k, row);
    }

    method GetOrCreateEntry(id: Id, now: nat) returns (k: nat)
      requires Valid()
      modifies this`map_
      ensures Valid() && k < |map_| && map_[k].id == id
      ensures if Listed(id, old(map_)) then map_ == old(map_)
              else k <= |old(map_)| && map_ == Inserted(old(map_), k, Row(id, Entry(LS_UNLOCKED, 0, 0, 0, now)))
    {
      k := Find(id);
      if k == |map_| {
        k := Insert(Row(id, Entry(LS_UNLOCKED, 0, 0, 0, now)));
      }
    }

    /** Erases an idle resource, whether or not its files can be removed. */
    method DeleteResource(id: Id, removable: Id -> bool) returns (success: bool)
      requires Valid()
      modifies this`map_, this`total_size_
      ensures Valid()
      ensures !Listed(id, old(map_)) ==> success && map_ == old(map_)
      ensures forall k :: 0 <= k < |old(map_)| && old(map_)[k].id == id ==>
                if Idle(old(map_)[k]) then success == removable(id) && map_ == Erased(old(map_), k)
                else !success && map_ == old(map_)
    {
      var k := Find(id);
      if k == |map_| {
        return true;
      }
      if map_[k].entry.lock != LS_UNLOCKED || map_[k].entry.accessors > 0 {
        return false;
      }
      success := removable(id);
      BooksErased(map_, open, total_size_, total_accessors_, k);
      total_size_ := total_size_ - map_[k].entry.size;
      map_ := map_[..k] + map_[k + 1..];
    }

    // DeleteResource for an entry that exists.
    method Evict(k: nat, removable: Id -> bool) returns (success: bool)
      requires Valid() && k < |map_|
      modifies this`map_, this`total_size_
      ensures Valid()
      ensures Evicted(old(map_), k, removable, success, map_)
    {
      var id := map_[k].id;
      assert Listed(id, map_);
      success := DeleteResource(id, removable);
    }

    // One turn of CheckLimit, for a cache that is over its limit.
    method EvictOldest(removable: Id -> bool) returns (again: bool, verdict: Verdict)
      requires Valid()
      modifies this`map_, this`total_size_
      ensures Valid() && Turned(old(map_), removable, again, verdict, map_)
    {
      var first := FindIdle();
      if first == |map_| {
        return false, Overfull;
      }
      if first + 1 == |map_| {
        return false, PastTheEnd;
      }
      var oldest := Scan(first);
      again := Evict(oldest, removable);
      verdict := Overfull;
      TurnedBy(old(map_), first, oldest, removable, again, map_);
    }

    method CheckLimit(removable: Id -> bool) returns (verdict: Verdict)
      requires Valid()
      modifies this`map_, this`total_size_
      ensures Valid() && Outcome(verdict, map_) == Limit(old(map_), max_cache_, removable)
    {
      ghost var outcome := Limit(map_, max_cache_, removable);
      while total_size_ > max_cache_
        invariant Valid() && Limit(map_, max_cache_, removable) == outcome
        decreases |map_|
      {
        ghost var rows := map_;
        var again;
        again, verdict := EvictOldest(removable);
        AfterTurn(rows, max_cache_, removable, again, verdict, map_);
        if !again {
          return;
        }
      }
      verdict := Within;
    }

    method FindIdle() returns (first: nat)
      ensures first == FirstIdle(map_)
    {
      first := 0;
      while first < |map_| && (map_[first].entry.lock != LS_UNLOCKED || map_[first].entry.accessors > 0)
        invariant first <= |map_| && forall i :: 0 <= i < first ==> !Idle(map_[i])
      {
        first := first + 1;
      }
    }

    method Scan(first: nat) returns (oldest: nat)
      requires first + 1 < |map_|
      ensures oldest == OldestFrom(map_, first, first + 1)
    {
      var it := first;
      oldest := first + 1;
      while it < |map_|
        invariant it <= |map_| && oldest < |map_|
        invariant OldestFrom(map_, first, first + 1) == OldestFrom(map_, it, oldest)
      {
        if map_[it].entry.lastModified < map_[oldest].entry.lastModified {
          oldest := it;
        }
        it := it + 1;
      }
    }

    method SetLock(k: nat, lock: LockState, now: nat)
      requires Valid() && k < |map_|
      requires var e := map_[k].entry;
               InStep(Row(map_[k].id, e.(lock := lock)), open)
      modifies this`map_
      ensures Valid() && map_ == Relocked(old(map_), k, lock, now)
    {
      BooksRewritten(map_, open, total_size_, total_accessors_, k, map_[k].entry.(lock := lock, lastModified := now));
      map_ := Relocked(map_, k, lock, now);
    }

    /** LockResource keeps a pointer to the entry over CheckLimit. Dangling is the outcome in
        which CheckLimit has erased that entry. */
    method LockResource(id: Id, now: nat, removable: Id -> bool) returns (result: LockResult,
        ghost created: seq<Row>, ghost at: nat)
      requires Valid()
      modifies this`map_, this`total_size_
      ensures Valid() && at < |created| && created[at].id == id
      ensures if Listed(id, old(map_)) then created == old(map_)
              else at <= |old(map_)| && created == Inserted(old(map_), at, Row(id, Entry(LS_UNLOCKED, 0, 0, 0, now)))
      ensures LockOutcome(result, map_) == Lock(created, at, max_cache_, removable)
    {
      var k := GetOrCreateEntry(id, now);
      created, at := map_, k;
      result := LockEntry(k, removable);
    }

    method LockEntry(at: nat, removable: Id -> bool) returns (result: LockResult)
      requires Valid() && at < |map_|
      modifies this`map_, this`total_size_
      ensures Valid() && LockOutcome(result, map_) == Lock(old(map_), at, max_cache_, removable)
    {
      ghost var created := map_;
      var id, k := map_[at].id, at;
      if map_[k].entry.lock == LS_LOCKED {
        return Refused;
      }
      if map_[k].entry.lock == LS_UNLOCKED && map_[k].entry.accessors > 0 {
        return Refused;
      }
      if total_size_ > max_cache_ {
        var verdict := CheckLimit(removable);
        if verdict == PastTheEnd {
          return RanPastTheEnd;
        }
        if verdict == Overfull {
          return Refused;
        }
        k := Find(id);
        if k == |map_| {
          assert !Listed(id, map_);
          return Dangling;
        }
        IndexOfListed(map_, k, id);
        LimitKeepsRows(created, max_cache_, removable, at, k);
      }
      assert map_[k] == created[at];
      assert InStep(map_[k], open);
      SetLock(k, LS_LOCKED, map_[k].entry.lastModified);
      result := Locked;
    }

    /** A locked resource is opened for writing; what the stream held does not count any more. */
    method WriteResource(id: Id, index: nat, onDisk: nat, opens: bool) returns (stream: seq<Adapter>, ghost k: nat)
      requires Valid() && Listed(id, map_)
      modifies this`map_, this`total_size_, this`total_accessors_, this`open
      ensures Valid() && k < |old(map_)| && old(map_)[k].id == id
      ensures var e := old(map_)[k].entry;
              if e.lock == LS_LOCKED && opens then
                && stream == [Adapter(id, index, true)]
                && map_ == old(map_)[k := Row(id, e.(accessors := e.accessors + 1, size := Less(e.size, onDisk),
                                                     streams := Larger(e.streams, index + 1)))]
              else stream == [] && map_ == old(map_)
      // The stream can be read from now on, and so can those that could be read before.
      ensures stream != [] ==> old(map_)[k].entry.streams <= map_[k].entry.streams && index < map_[k].entry.streams
      ensures map_[k].entry.streams in {old(map_)[k].entry.streams, index + 1}
      ensures open == old(open) + stream
    {
      var at := Find(id);
      k := at;
      stream := [];
      var e := map_[at].entry;
      if e.lock != LS_LOCKED {
        return;
      }
      var previous := onDisk;
      if previous > e.size {
        previous := e.size;
      }
      if !opens {
        return;
      }
      var e' := e.(accessors := e.accessors + 1, size := e.size - previous, streams := Larger(e.streams, index + 1));
      stream := [Adapter(id, index, true)];
      SizeIsIncluded(map_, at);
      BooksOpened(map_, open, total_size_, total_accessors_, at, e', stream[0], total_size_ - previous);
      total_size_ := total_size_ - previous;
      total_accessors_ := total_accessors_ + 1;
      map_ := map_[at := Row(id, e')];
      open := open + stream;
    }

    method ReadResource(id: Id, index: nat, opens: bool) returns (stream: seq<Adapter>, ghost k: nat)
      requires Valid() && Listed(id, map_)
      modifies this`map_, this`total_accessors_, this`open
      ensures Valid() && k < |old(map_)| && old(map_)[k].id == id
      ensures var e := old(map_)[k].entry;
              if e.lock == LS_UNLOCKED && index < e.streams && opens then
                && stream == [Adapter(id, index, false)]
                && map_ == old(map_)[k := Row(id, e.(accessors := e.accessors + 1))]
              else stream == [] && map_ == old(map_)
      ensures open == old(open) + stream
    {
      var at := Find(id);
      k := at;
      stream := [];
      var e := map_[at].entry;
      if e.lock != LS_UNLOCKED || index >= e.streams || !opens {
        return;
      }
      var e' := e.(accessors := e.accessors + 1);
      stream := [Adapter(id, index, false)];
      BooksOpened(map_, open, total_size_, total_accessors_, at, e', stream[0], total_size_);
      total_accessors_ := total_accessors_ + 1;
      map_ := map_[at := Row(id, e')];
      open := open + stream;
    }

    method UnlockResource(id: Id, now: nat, removable: Id -> bool) returns (success: bool, ghost k: nat)
      requires Valid() && Listed(id, map_)
      modifies this`map_, this`total_size_
      ensures Valid() && k < |old(map_)| && old(map_)[k].id == id
      ensures var e := old(map_)[k].entry;
              && success == (e.lock == LS_LOCKED)
              && map_ == if e.lock != LS_LOCKED then old(map_)
                         else if e.accessors > 0 then Relocked(old(map_), k, LS_UNLOCKING, e.lastModified)
                         else Limit(Relocked(old(map_), k, LS_UNLOCKED, now), max_cache_, removable).rows
    {
      var at := Find(id);
      k := at;
      assert InStep(map_[at], open);
      if map_[at].entry.lock != LS_LOCKED {
        return false, k;
      }
      if map_[at].entry.accessors > 0 {
        SetLock(at, LS_UNLOCKING, map_[at].entry.lastModified);
      } else {
        SetLock(at, LS_UNLOCKED, now);
        var _ := CheckLimit(removable);
      }
      success := true;
    }

    method CloseStream(at: nat, onDisk: nat, now: nat, ghost i: nat) returns (last: bool)
      requires Valid() && i < |open| && at < |map_| && open[i].id == map_[at].id && map_[at].entry.accessors > 0
      modifies this`map_, this`total_size_, this`total_accessors_, this`open
      ensures Valid() && open == Erased(old(open), i)
      ensures map_ == old(map_)[at := Row(old(map_)[at].id, Closed(old(map_)[at].entry, onDisk, now))]
      ensures last <==> old(map_)[at].entry.lock == LS_UNLOCKING && old(map_)[at].entry.accessors == 1
    {
      var id, e := map_[at].id, map_[at].entry;
      AccessorIsIncluded(map_, at);
      var e';
      e', last := CloseEntry(e, onDisk, now);
      BooksClosed(map_, open, total_size_, total_accessors_, at, e', i, total_size_ + (e'.size - e.size));
      total_accessors_ := total_accessors_ - 1;
      total_size_ := total_size_ + (e'.size - e.size);
      map_ := map_[at := Row(id, e')];
      open := Erased(open, i);
    }

    static method CloseEntry(e: Entry, onDisk: nat, now: nat) returns (e': Entry, last: bool)
      requires e.accessors > 0
      ensures e' == Closed(e, onDisk, now) && e'.size >= e.size
      ensures last <==> e.lock == LS_UNLOCKING && e.accessors == 1
    {
      e', last := e.(accessors := e.accessors - 1), false;
      if e.lock != LS_UNLOCKED {
        e' := e'.(size := e.size + onDisk);
        if e.lock == LS_UNLOCKING && e'.accessors == 0 {
          e' := e'.(lastModified := now, lock := LS_UNLOCKED);
          last := true;
        }
      }
    }

    /** A stream is closed. What it has written counts from now on, and the last writer of a
        resource that is being unlocked unlocks it. */
    method ReleaseResource(stream: Adapter, onDisk: nat, now: nat, removable: Id -> bool,
        ghost i: nat) returns (ghost k: nat)
      requires Valid() && i < |open| && open[i] == stream
      modifies this`map_, this`total_size_, this`total_accessors_, this`open
      ensures Valid() && open == Erased(old(open), i)
      ensures k < |old(map_)| && old(map_)[k].id == stream.id
      ensures var e := old(map_)[k].entry;
              && e.accessors > 0 && (stream.writes <==> e.lock != LS_UNLOCKED)
              && var rows := old(map_)[k := Row(stream.id, Closed(e, onDisk, now))];
                 map_ == if e.lock == LS_UNLOCKING && e.accessors == 1 then Limit(rows, max_cache_, removable).rows else rows
    {
      var at := Find(stream.id);
      k := at;
      assert Listed(stream.id, map_);
      StreamIsCounted(map_, open, i, at);
      var last := CloseStream(at, onDisk, now, i);
      if last {
        var _ := CheckLimit(removable);
      }
    }

    /** Purge forgets the entries but not their sizes: the accounts balance afterwards exactly
        when there was nothing to forget. */
    method Purge(removed: bool) returns (success: bool)
      requires Valid()
      modifies this`map_
      ensures success == (old(open) == [] && removed)
      ensures success ==> map_ == [] && (Valid() <==> old(Sizes(map_)) == 0)
      ensures !success ==> Valid() && map_ == old(map_)
    {
      if total_accessors_ > 0 {
        return false;
      }
      if !removed {
        return false;
      }
      map_ := [];
      success := true;
    }
  }

  // An entry with one stream less: a writer's size counts, and the last one unlocks.
  function Closed(e: Entry, onDisk: nat, now: nat): Entry
    requires e.accessors > 0
  {
    var e' := e.(accessors := e.accessors - 1);
    if e.lock == LS_UNLOCKED then e'
    else if e.lock == LS_UNLOCKING && e.accessors == 1 then e'.(size := e.size + onDisk, lastModified := now, lock := LS_UNLOCKED)
    else e'.(size := e.size + onDisk)
  }

  function Relocked(rows: seq<Row>, k: nat, lock: LockState, now: nat): seq<Row>
    requires k < |rows|
  {
    rows[k := Row(rows[k].id, rows[k].entry.(lock := lock, lastModified := now))]
  }

  function Less(size: nat, previous: nat): nat { if previous > size then 0 else size - previous }

  function Larger(a: nat, b: nat): nat { if a < b then b else a }

  function IndexIn(rows: seq<Row>, id: Id): (k: nat)
    ensures k <= |rows| && (k < |rows| ==> rows[k].id == id)
    ensures forall i :: 0 <= i < k ==> rows[i].id != id
  {
    if rows == [] || rows[0].id == id then 0
    else
      var k := 1 + IndexIn(rows[1..], id);
      assert forall i :: 1 <= i < |rows| ==> rows[i] == rows[1..][i - 1];
      k
  }

  lemma IndexOfListed(rows: seq<Row>, k: nat, id: Id)
    requires Ordered(rows) && k < |rows| && rows[k].id == id
    ensures IndexIn(rows, id) == k
  {
    var i := IndexIn(rows, id);
    assert !(i < k) && !(k < i);
  }

  datatype LockOutcome = LockOutcome(result: LockResult, rows: seq<Row>)

  /** What becomes of a lock on the entry at k. */
  function Lock(rows: seq<Row>, k: nat, max: nat, removable: Id -> bool): LockOutcome
    requires k < |rows|
  {
    var e := rows[k].entry;
    if e.lock == LS_LOCKED || (e.lock == LS_UNLOCKED && e.accessors > 0) then LockOutcome(Refused, rows)
    else if Sizes(rows) <= max then LockOutcome(Locked, Relocked(rows, k, LS_LOCKED, e.lastModified))
    else LockAfter(Limit(rows, max, removable), rows[k].id)
  }

  // The rest of it, after CheckLimit.
  function LockAfter(out: Outcome, id: Id): LockOutcome {
    var i := IndexIn(out.rows, id);
    if out.verdict == PastTheEnd then LockOutcome(RanPastTheEnd, out.rows)
    else if out.verdict == Overfull then LockOutcome(Refused, out.rows)
    else if i == |out.rows| then LockOutcome(Dangling, out.rows)
    else LockOutcome(Locked, Relocked(out.rows, i, LS_LOCKED, out.rows[i].entry.lastModified))
  }

  lemma LimitKeepsRows(rows: seq<Row>, max: nat, removable: Id -> bool, at: nat, k: nat)
    requires Ordered(rows) && at < |rows|
    requires k < |Limit(rows, max, removable).rows| && Limit(rows, max, removable).rows[k].id == rows[at].id
    ensures Limit(rows, max, removable).rows[k] == rows[at]
  {
    LimitErasesIdle(rows, max, removable);
    var row := Limit(rows, max, removable).rows[k];
    assert row in Limit(rows, max, removable).rows;
    var i :| 0 <= i < |rows| && rows[i] == row;
    assert !(i < at) && !(at < i);
  }

  lemma NothingOpen(found: seq<Row>)
    requires forall k :: 0 <= k < |found| ==> Idle(found[k])
    ensures Accessors(found) == 0
  {
    if found != [] {
      NothingOpen(found[..|found| - 1]);
    }
  }

  /** LockResource can only lock an erased entry when the entry is idle and the cache over its
      limit. */
  lemma LockKeepsEntry(rows: seq<Row>, k: nat, max: nat, removable: Id -> bool)
    requires k < |rows| && (!Idle(rows[k]) || Sizes(rows) <= max)
    ensures Lock(rows, k, max, removable).result != Dangling
  {
    if !Idle(rows[k]) && Sizes(rows) > max {
      LimitErasesIdle(rows, max, removable);
      assert rows[k] in rows;
      IndexOfMember(Limit(rows, max, removable).rows, rows[k]);
    }
  }

  lemma IndexOfMember(rows: seq<Row>, row: Row)
    requires row in rows
    ensures IndexIn(rows, row.id) < |rows|
  {
    var i :| 0 <= i < |rows| && rows[i] == row;
    assert rows[i].id == row.id;
  }
}
