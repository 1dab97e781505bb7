/**
 Sources of a walk trimmed to the query window, and the shortcuts around the heap:
 one source, sources with disjoint key ranges, and granules walked from the end.
 */
module Walk {
  import opened Bytes
  import opened Endian
  import opened Wrappers
  import opened Versions
  import opened MpartModel
  import opened MergeSpec
  import opened Merge
  import opened Sources

  // ----- Trimming a source -----

  /** `sort.Search` for the first row whose key is not before `k`. */
  method SearchKey(rows: seq<Row>, k: Key) returns (i: nat)
    requires KeysIncreasing(rows)
    ensures i <= |rows|
    ensures forall x :: 0 <= x < i ==> Less(rows[x].pk, k)
    ensures forall x :: i <= x < |rows| ==> !Less(rows[x].pk, k)
  {
    Order();
    i := 0;
    var j := |rows|;
    while i < j
      invariant 0 <= i <= j <= |rows|
      invariant forall x :: 0 <= x < i ==> Less(rows[x].pk, k)
      invariant forall x :: j <= x < |rows| ==> !Less(rows[x].pk, k)
    {
      var m := (i + j) / 2;
      if Less(rows[m].pk, k) {
        i := m + 1;
      } else {
        j := m;
      }
    }
  }

  /** `sliceRange`: the rows of the window are exactly those between the two positions. */
  method SliceRange(rows: seq<Row>, lo: Option<Key>, hi: Option<Key>) returns (start: int, end: int)
    requires KeysIncreasing(rows)
    ensures 0 <= start <= end <= |rows|
    ensures forall i :: 0 <= i < |rows| ==> (start <= i < end <==> InWindow(rows[i].pk, lo, hi))
  {
    start, end := 0, |rows|;
    if lo.Some? {
      start := SearchKey(rows, lo.value);
    }
    if hi.Some? {
      end := SearchKey(rows, hi.value);
    }
    if start > end {
      start, end := 0, 0;
    }
  }

  ghost function Windowed(vs: seq<Version>, k: Key, lo: Option<Key>, hi: Option<Key>): seq<Version> {
    if InWindow(k, lo, hi) then vs else []
  }

  lemma {:induction false} FindSlice(rows: seq<Row>, start: nat, end: nat, k: Key, inside: bool)
    requires start <= end <= |rows|
    requires forall i :: 0 <= i < |rows| && rows[i].pk == k ==> (start <= i < end <==> inside)
    ensures Find(rows[start..end], k) == if inside then Find(rows, k) else []
    decreases |rows|
  {
    if start == end {
      if inside && Find(rows, k) != [] {
        var i := FindIndex(rows, k);
      }
    } else {
      var tail := rows[1..];
      assert forall i :: 0 <= i < |tail| ==> tail[i] == rows[i + 1];
      if start > 0 {
        assert rows[start..end] == tail[start - 1..end - 1];
        FindSlice(tail, start - 1, end - 1, k, inside);
      } else {
        assert rows[start..end][1..] == tail[0..end - 1];
        FindSlice(tail, 0, end - 1, k, inside);
      }
    }
  }

  lemma {:induction false} FindReversed(run: Rows, k: Key)
    requires KeysIncreasing(run)
    ensures Find(Reverse(run), k) == Find(run, k)
  {
    if run != [] {
      var n := |run| - 1;
      var init := run[..n];
      FindReversed(init, k);
      assert Reverse(run) == [run[n]] + Reverse(init);
      assert run == init + [run[n]];
      FindConcat(init, [run[n]], k);
      if run[n].pk == k && Find(init, k) != [] {
        var i := FindIndex(init, k);
        LessIrreflexive(k);
      }
    }
  }

  lemma CursorFind(c: Cursor, rev: bool, start: nat, end: nat, lo: Option<Key>, hi: Option<Key>, k: Key)
    requires InBounds(c, rev) && start <= end <= |c.rows|
    requires if rev then c.i == end - 1 && c.last == start - 1 else c.i == start && c.last == end
    requires forall i :: 0 <= i < |c.rows| ==> (start <= i < end <==> InWindow(c.rows[i].pk, lo, hi))
    ensures Find(Rest(c, rev), k) == Windowed(Find(c.rows, k), k, lo, hi)
  {
    hide Find;
    hide InWindow;
    hide Less;
    FindSlice(c.rows, start, end, k, InWindow(k, lo, hi));
    if rev {
      FindReversed(c.rows[start..end], k);
    }
  }

  // ----- Collecting the sources -----

  /** Every source still has a row to yield; priorities stay at or below `p`. */
  ghost predicate Gathered(h: seq<Cursor>, rev: bool, p: int) {
    Heap(h, rev) && forall j :: 0 <= j < |h| ==> !Done(h[j]) && h[j].prio <= p
  }

  /** Adds a source newer than those already there, unless its window is empty. */
  method AddSource(h0: seq<Cursor>, rows: seq<Row>, prio: int, rev: bool, lo: Option<Key>, hi: Option<Key>, ghost below: int)
    returns (h: seq<Cursor>)
    requires KeysIncreasing(rows) && Gathered(h0, rev, below) && below < prio
    ensures Gathered(h, rev, prio)
    ensures forall k :: Older(h, rev, k) == Windowed(Find(rows, k), k, lo, hi) + Older(h0, rev, k)
    ensures forall c :: c in h ==> c in h0 || c.rows == rows
  {
    var start, end := SliceRange(rows, lo, hi);
    if start >= end {
      NoneInside(rows, lo, hi);
      return h0;
    }
    var c := Cursor(rows, prio, start, 1, end);
    if rev {
      c := Cursor(rows, prio, end - 1, -1, start - 1);
    }
    h := h0 + [c];
    SourceAdded(h0, c, rev);
    forall k ensures Older(h, rev, k) == Windowed(Find(rows, k), k, lo, hi) + Older(h0, rev, k) {
      CursorFind(c, rev, start, end, lo, hi, k);
      SourceOnTop(h0, c, rev, k);
    }
  }

  lemma NoneInside(rows: seq<Row>, lo: Option<Key>, hi: Option<Key>)
    requires forall i :: 0 <= i < |rows| ==> !InWindow(rows[i].pk, lo, hi)
    ensures forall k :: Windowed(Find(rows, k), k, lo, hi) == []
  {
    forall k ensures Windowed(Find(rows, k), k, lo, hi) == [] {
      if Find(rows, k) != [] {
        var i := FindIndex(rows, k);
      }
    }
  }

  lemma SourceAdded(h: seq<Cursor>, c: Cursor, rev: bool)
    requires Heap(h, rev) && InBounds(c, rev) && forall j :: 0 <= j < |h| ==> h[j].prio < c.prio
    ensures Heap(h + [c], rev)
    ensures Prios(h + [c]) == Prios(h) + [c.prio]
    ensures Runs(h + [c], rev) == Runs(h, rev) + [Rest(c, rev)]
  {
    assert Prios(h + [c]) == Prios(h) + [c.prio];
  }

  lemma SourceOnTop(h: seq<Cursor>, c: Cursor, rev: bool, k: Key)
    requires Heap(h, rev) && InBounds(c, rev) && forall j :: 0 <= j < |h| ==> h[j].prio < c.prio
    ensures Heap(h + [c], rev)
    ensures Older(h + [c], rev, k) == Find(Rest(c, rev), k) + Older(h, rev, k)
  {
    SourceAdded(h, c, rev);
    StackAppend(Runs(h, rev), Prios(h), Rest(c, rev), c.prio, k);
  }

  // ----- Sources with disjoint key ranges -----

  ghost predicate Live(h: seq<Cursor>, rev: bool) {
    Heap(h, rev) && forall j :: 0 <= j < |h| ==> !Done(h[j])
  }

  /** The first and the last key a source yields. */
  function HeadKey(c: Cursor): Key
    requires 0 <= c.i < |c.rows|
  {
    c.rows[c.i].pk
  }

  function TailKey(c: Cursor): Key
    requires 0 <= c.last - c.step < |c.rows|
  {
    c.rows[c.last - c.step].pk
  }

  /** The same cursors in another order: every key keeps its stack. */
  ghost predicate Reordered(h: seq<Cursor>, h': seq<Cursor>, rev: bool) {
    && Live(h, rev) && Live(h', rev) && |h'| == |h|
    && Among(h', h)
    && SameStacks(Runs(h', rev), Prios(h'), Runs(h, rev), Prios(h))
  }

  ghost predicate Among(a: seq<Cursor>, b: seq<Cursor>) {
    forall i :: 0 <= i < |a| ==> a[i] in b
  }

  lemma SwapReorders(h: seq<Cursor>, rev: bool, i: nat, j: nat)
    requires Live(h, rev) && i < |h| && j < |h|
    ensures Reordered(h, Swap(h, i, j), rev)
  {
    var h' := Swap(h, i, j);
    assert Prios(h') == Swap(Prios(h), i, j);
    assert Runs(h', rev) == Swap(Runs(h, rev), i, j);
    forall k ensures StackOf(Runs(h', rev), Prios(h'), k) == StackOf(Runs(h, rev), Prios(h), k) {
      StackSwap(Runs(h, rev), Prios(h), i, j, k);
    }
  }

  /** What sources are sorted by: their first or their last key, ascending or descending. */
  datatype SortBy = SortBy(tail: bool, desc: bool)

  predicate Misplaced(a: Cursor, b: Cursor, ord: SortBy)
    requires 0 <= a.i < |a.rows| && 0 <= a.last - a.step < |a.rows|
    requires 0 <= b.i < |b.rows| && 0 <= b.last - b.step < |b.rows|
  {
    if ord.tail then Before(TailKey(b), TailKey(a), ord.desc) else Before(HeadKey(b), HeadKey(a), ord.desc)
  }

  /** Sorted up to `n`, except that the cursor at `hole` may be too far right. */
  ghost predicate Sorted(h: seq<Cursor>, rev: bool, ord: SortBy, n: int, hole: int)
    requires Live(h, rev) && n <= |h|
  {
    forall x, y :: 0 <= x < y < n && y != hole ==> !Misplaced(h[x], h[y], ord)
  }

  method SortSources(h0: seq<Cursor>, rev: bool, ord: SortBy) returns (h: seq<Cursor>)
    requires Live(h0, rev)
    ensures Reordered(h0, h, rev) && Sorted(h, rev, ord, |h|, -1)
  {
    h := h0;
    for i := 0 to |h0|
      invariant Reordered(h0, h, rev) && Sorted(h, rev, ord, i, -1)
    {
      ghost var before := h;
      h := MoveDown(h, rev, ord, i);
      ReorderedTwice(h0, before, h, rev);
    }
  }

  /** Moves the cursor at `i` down to its place among the sorted ones before it. */
  method MoveDown(h0: seq<Cursor>, rev: bool, ord: SortBy, i: nat) returns (h: seq<Cursor>)
    requires Live(h0, rev) && i < |h0| && Sorted(h0, rev, ord, i, -1)
    ensures Reordered(h0, h, rev) && Sorted(h, rev, ord, i + 1, -1)
  {
    h := h0;
    var j: int := i;
    while j > 0 && Misplaced(h[j - 1], h[j], ord)
      invariant 0 <= j <= i && Reordered(h0, h, rev) && Sorted(h, rev, ord, i + 1, j)
      decreases j
    {
      MoveStep(h0, h, rev, ord, i + 1, j);
      h := Swap(h, j, j - 1);
      j := j - 1;
    }
    SortedWhenSettled(h, rev, ord, i + 1, j);
  }

  lemma MoveStep(h0: seq<Cursor>, h: seq<Cursor>, rev: bool, ord: SortBy, n: int, j: int)
    requires Reordered(h0, h, rev) && 0 < j < n <= |h| && Sorted(h, rev, ord, n, j)
    requires Misplaced(h[j - 1], h[j], ord)
    ensures Reordered(h0, Swap(h, j, j - 1), rev) && Sorted(Swap(h, j, j - 1), rev, ord, n, j - 1)
  {
    hide Misplaced;
    hide SameStacks;
    hide Among;
    SwapReorders(h, rev, j, j - 1);
    SortedAfterSwap(h, rev, ord, n, j);
    ReorderedTwice(h0, h, Swap(h, j, j - 1), rev);
  }

  lemma ReorderedTwice(h: seq<Cursor>, h': seq<Cursor>, h'': seq<Cursor>, rev: bool)
    requires Reordered(h, h', rev) && Reordered(h', h'', rev)
    ensures Reordered(h, h'', rev)
  {
  }

  lemma SortedAfterSwap(h: seq<Cursor>, rev: bool, ord: SortBy, n: int, j: int)
    requires Live(h, rev) && 0 < j < n <= |h| && Sorted(h, rev, ord, n, j)
    requires Misplaced(h[j - 1], h[j], ord)
    requires Live(Swap(h, j, j - 1), rev)
    ensures Sorted(Swap(h, j, j - 1), rev, ord, n, j - 1)
  {
    Order();
  }

  lemma SortedWhenSettled(h: seq<Cursor>, rev: bool, ord: SortBy, n: int, j: int)
    requires Live(h, rev) && 0 <= j < n <= |h| && Sorted(h, rev, ord, n, j)
    requires j > 0 ==> !Misplaced(h[j - 1], h[j], ord)
    ensures Sorted(h, rev, ord, n, -1)
  {
    Order();
  }

  /** `a` ends before `b` begins. */
  predicate Follows(a: Cursor, b: Cursor, rev: bool)
    requires 0 <= a.last - a.step < |a.rows| && 0 <= b.i < |b.rows|
  {
    Before(TailKey(a), HeadKey(b), rev)
  }

  ghost predicate Apart(h: seq<Cursor>, rev: bool) {
    Live(h, rev) && forall x :: 1 <= x < |h| ==> Follows(h[x - 1], h[x], rev)
  }

  /** `sortDisjointSources`. */
  method SortDisjointSources(h0: seq<Cursor>, rev: bool) returns (h: seq<Cursor>, disjoint: bool)
    requires Live(h0, rev)
    ensures Reordered(h0, h, rev) && Sorted(h, rev, SortBy(false, rev), |h|, -1)
    ensures disjoint <==> Apart(h, rev)
  {
    h := SortSources(h0, rev, SortBy(false, rev));
    disjoint := CheckApart(h, rev);
  }

  method CheckApart(h: seq<Cursor>, rev: bool) returns (disjoint: bool)
    requires Live(h, rev)
    ensures disjoint <==> Apart(h, rev)
  {
    disjoint := true;
    var k := 1;
    while k < |h|
      invariant 1 <= k && forall x :: 1 <= x < k && x < |h| ==> Follows(h[x - 1], h[x], rev)
    {
      if !Follows(h[k - 1], h[k], rev) {
        return false;
      }
      k := k + 1;
    }
  }

  /** Every row left in a source from `n` on comes before every row left in a later one. */
  ghost predicate Queued(h: seq<Cursor>, rev: bool, n: nat) {
    && Heap(h, rev)
    && (forall x :: 0 <= x < n && x < |h| ==> Done(h[x]))
    && forall x, y :: n <= x < y < |h| ==> Precedes(h[x], h[y], rev)
  }

  ghost predicate Precedes(a: Cursor, b: Cursor, rev: bool)
    requires InBounds(a, rev) && InBounds(b, rev)
  {
    forall i, j :: 0 <= i < |Rest(a, rev)| && 0 <= j < |Rest(b, rev)| ==> Before(Rest(a, rev)[i].pk, Rest(b, rev)[j].pk, rev)
  }

  lemma Ends(c: Cursor, rev: bool, i: nat)
    requires InBounds(c, rev) && i < |Rest(c, rev)|
    ensures 0 <= c.i < |c.rows| && 0 <= c.last - c.step < |c.rows|
    ensures HeadKey(c) == Rest(c, rev)[i].pk || Before(HeadKey(c), Rest(c, rev)[i].pk, rev)
    ensures TailKey(c) == Rest(c, rev)[i].pk || Before(Rest(c, rev)[i].pk, TailKey(c), rev)
  {
    var run := Rest(c, rev);
    RestHead(c, rev);
    RestTail(c, rev);
    RestOrdered(c, rev);
    assert i == 0 || Before(run[0].pk, run[i].pk, rev);
    assert i == |run| - 1 || Before(run[i].pk, run[|run| - 1].pk, rev);
  }

  lemma RestTail(c: Cursor, rev: bool)
    requires InBounds(c, rev) && !Done(c)
    ensures 0 <= c.last - c.step < |c.rows| && Rest(c, rev) != []
    ensures Rest(c, rev)[|Rest(c, rev)| - 1] == c.rows[c.last - c.step]
  {
  }

  lemma FollowsPrecedes(a: Cursor, b: Cursor, rev: bool)
    requires InBounds(a, rev) && InBounds(b, rev) && !Done(a) && !Done(b) && Follows(a, b, rev)
    ensures Precedes(a, b, rev)
  {
    Order();
    forall i, j | 0 <= i < |Rest(a, rev)| && 0 <= j < |Rest(b, rev)|
      ensures Before(Rest(a, rev)[i].pk, Rest(b, rev)[j].pk, rev)
    {
      Ends(a, rev, i);
      Ends(b, rev, j);
    }
  }

  lemma PrecedesTransitive(a: Cursor, b: Cursor, c: Cursor, rev: bool)
    requires InBounds(a, rev) && InBounds(b, rev) && InBounds(c, rev) && !Done(b)
    requires Precedes(a, b, rev) && Precedes(b, c, rev)
    ensures Precedes(a, c, rev)
  {
    Order();
    RestHead(b, rev);
    forall i, j | 0 <= i < |Rest(a, rev)| && 0 <= j < |Rest(c, rev)|
      ensures Before(Rest(a, rev)[i].pk, Rest(c, rev)[j].pk, rev)
    {
      assert Before(Rest(a, rev)[i].pk, Rest(b, rev)[0].pk, rev) && Before(Rest(b, rev)[0].pk, Rest(c, rev)[j].pk, rev);
    }
  }

  lemma {:induction false} ApartPrecedes(h: seq<Cursor>, rev: bool, x: nat, y: nat)
    requires Apart(h, rev) && x < y < |h|
    ensures Precedes(h[x], h[y], rev)
  {
    assert Follows(h[y - 1], h[y], rev);
    FollowsPrecedes(h[y - 1], h[y], rev);
    if x < y - 1 {
      ApartPrecedes(h, rev, x, y - 1);
      PrecedesTransitive(h[x], h[y - 1], h[y], rev);
    }
  }

  /** The head of the queue is the only source that holds its key. */
  lemma QueueStep(h: seq<Cursor>, v: View, rev: bool, n: nat)
    requires Queued(h, rev, n) && n < |h| && !Done(h[n])
    ensures var h1 := h[n := Advance(h[n])];
            && 0 <= h[n].i < |h[n].rows| && Queued(h1, rev, n)
            && ToCome(h, v, rev) == [Alone(v, h[n].rows[h[n].i])] + ToCome(h1, v, rev)
  {
    QueueTop(h, rev, n);
    QueueAdvanced(h, rev, n);
    AdvanceOne(h, rev, n);
    OnlyVersion(h, rev, n);
    AloneStep(h, v, rev, n);
  }

  lemma AloneStep(h: seq<Cursor>, v: View, rev: bool, n: nat)
    requires Heap(h, rev) && IsTop(h, rev, n)
    requires var h1 := h[n := Advance(h[n])];
             && Heap(h1, rev) && Prios(h1) == Prios(h)
             && Older(h1, rev, h[n].rows[h[n].i].pk) == []
             && AllWithout(Runs(h1, rev), h[n].rows[h[n].i].pk) == Runs(h1, rev)
    ensures ToCome(h, v, rev) == [Alone(v, h[n].rows[h[n].i])] + ToCome(h[n := Advance(h[n])], v, rev)
  {
    GroupStep(h, v, rev, n);
    AloneMerged(v, h[n].rows[h[n].i]);
  }

  lemma AloneMerged(v: View, row: Row)
    ensures Merged(v, row.pk, [row.ver] + []) == Alone(v, row)
  {
    assert [row.ver][1..] == [];
  }

  /** What a walk over one source emits for a row. */
  function Alone(v: View, row: Row): Entry {
    Entry(row.pk, Shown(v, row.ver), row.ver.del)
  }

  lemma OnlyVersion(h: seq<Cursor>, rev: bool, n: nat)
    requires Queued(h, rev, n) && n < |h| && !Done(h[n])
    requires Heap(h[n := Advance(h[n])], rev)
    ensures 0 <= h[n].i < |h[n].rows|
    ensures var h1, k := h[n := Advance(h[n])], h[n].rows[h[n].i].pk;
            Older(h1, rev, k) == [] && AllWithout(Runs(h1, rev), k) == Runs(h1, rev)
  {
    NotHeld(h, rev, n);
    var h1, k := h[n := Advance(h[n])], h[n].rows[h[n].i].pk;
    assert Holders(Runs(h1, rev), k) == {};
  }

  lemma QueueTop(h: seq<Cursor>, rev: bool, n: nat)
    requires Queued(h, rev, n) && n < |h| && !Done(h[n])
    ensures IsTop(h, rev, n)
  {
    Order();
    RestHead(h[n], rev);
    var k := h[n].rows[h[n].i].pk;
    forall j | 0 <= j < |h| && j != n
      ensures Runs(h, rev)[j] != [] ==> Before(k, Runs(h, rev)[j][0].pk, rev)
      ensures !Done(h[j]) ==> Runs(h, rev)[j] != [] && Runs(h, rev)[j][0] == h[j].rows[h[j].i]
    {
      RestHead(h[j], rev);
      if Runs(h, rev)[j] != [] {
        assert Precedes(h[n], h[j], rev);
        assert Before(Rest(h[n], rev)[0].pk, Rest(h[j], rev)[0].pk, rev);
      }
    }
  }

  lemma QueueAdvanced(h: seq<Cursor>, rev: bool, n: nat)
    requires Queued(h, rev, n) && n < |h| && !Done(h[n])
    ensures Queued(h[n := Advance(h[n])], rev, n)
  {
    AdvanceOne(h, rev, n);
    RestHead(h[n], rev);
    var h1 := h[n := Advance(h[n])];
    forall x, y | n <= x < y < |h| ensures Precedes(h1[x], h1[y], rev) {
      assert Precedes(h[x], h[y], rev);
    }
  }

  lemma NotHeld(h: seq<Cursor>, rev: bool, n: nat)
    requires Queued(h, rev, n) && n < |h| && !Done(h[n])
    ensures InBounds(Advance(h[n]), rev) && 0 <= h[n].i < |h[n].rows|
    ensures forall j :: 0 <= j < |h| ==>
              var run, k := Rest(if j == n then Advance(h[n]) else h[j], rev), h[n].rows[h[n].i].pk;
              Find(run, k) == [] && Without(run, k) == run
  {
    RestHead(h[n], rev);
    var k := h[n].rows[h[n].i].pk;
    forall j | 0 <= j < |h|
      ensures var run := Rest(if j == n then Advance(h[n]) else h[j], rev);
              Find(run, k) == [] && Without(run, k) == run
    {
      var run := Rest(if j == n then Advance(h[n]) else h[j], rev);
      LaterRows(h, rev, n, j);
      Order();
      if Find(run, k) != [] {
        var i := FindIndex(run, k);
      }
    }
  }

  lemma LaterRows(h: seq<Cursor>, rev: bool, n: nat, j: nat)
    requires Queued(h, rev, n) && n < |h| && !Done(h[n]) && j < |h|
    ensures InBounds(Advance(h[n]), rev) && 0 <= h[n].i < |h[n].rows|
    ensures var run := Rest(if j == n then Advance(h[n]) else h[j], rev);
            forall i :: 0 <= i < |run| ==> Before(h[n].rows[h[n].i].pk, run[i].pk, rev)
  {
    RestHead(h[n], rev);
    RestHead(h[j], rev);
    RestOrdered(h[n], rev);
    if j > n {
      assert Precedes(h[n], h[j], rev);
    }
  }

  ghost function ToCome(h: seq<Cursor>, v: View, rev: bool): seq<Entry>
    requires Heap(h, rev)
  {
    Scan(Runs(h, rev), Prios(h), v, rev)
  }

  method EmitHead(h0: seq<Cursor>, n: nat, v: View, rev: bool) returns (h: seq<Cursor>, e: Entry)
    requires Queued(h0, rev, n) && n < |h0| && !Done(h0[n])
    ensures h == h0[n := Advance(h0[n])] && Queued(h, rev, n) && Left(h[n]) < Left(h0[n])
    ensures 0 <= h0[n].i < |h0[n].rows| && e == Alone(v, h0[n].rows[h0[n].i])
    ensures ToCome(h0, v, rev) == [e] + ToCome(h, v, rev)
  {
    QueueStep(h0, v, rev, n);
    e := Alone(v, h0[n].rows[h0[n].i]);
    h := h0[n := Advance(h0[n])];
  }

  /** Where a walk stands: source `n` is next, `out` went to the callback, and nothing is lost. */
  ghost predicate Walking(h: seq<Cursor>, rev: bool, n: nat, len: nat, v: View, stop: seq<Entry> -> bool, out: seq<Entry>, all: seq<Entry>) {
    && |h| == len
    && Queued(h, rev, n)
    && Taken(out, ToCome(h, v, rev), stop) == all
  }

  /** `walkSource` for the head of the queue, after `out0` was passed to the callback. */
  method WalkSource(h0: seq<Cursor>, n: nat, v: View, rev: bool, stop: seq<Entry> -> bool, out0: seq<Entry>, ghost all: seq<Entry>)
    returns (h: seq<Cursor>, out: seq<Entry>, stopped: bool)
    requires n < |h0| && Walking(h0, rev, n, |h0|, v, stop, out0, all)
    ensures stopped ==> out == all
    ensures !stopped ==> Walking(h, rev, n + 1, |h0|, v, stop, out, all)
  {
    h, out, stopped := h0, out0, false;
    while !Done(h[n])
      invariant Walking(h, rev, n, |h0|, v, stop, out, all)
      decreases Left(h[n])
    {
      var e;
      h, e := EmitHead(h, n, v, rev);
      TakenStep(out, e, ToCome(h, v, rev), stop);
      out := out + [e];
      if stop(out) {
        stopped := true;
        return;
      }
    }
  }

  lemma StartWalking(h: seq<Cursor>, v: View, rev: bool, stop: seq<Entry> -> bool)
    requires Apart(h, rev)
    ensures Walking(h, rev, 0, |h|, v, stop, [], Taken([], ToCome(h, v, rev), stop))
  {
    forall x, y | 0 <= x < y < |h| ensures Precedes(h[x], h[y], rev) {
      ApartPrecedes(h, rev, x, y);
    }
  }

  lemma WalkedThrough(h: seq<Cursor>, rev: bool, n: nat, len: nat, v: View, stop: seq<Entry> -> bool, out: seq<Entry>, all: seq<Entry>)
    requires Walking(h, rev, n, len, v, stop, out, all) && n < len && Done(h[n])
    ensures Walking(h, rev, n + 1, len, v, stop, out, all)
  {
  }

  function Left(c: Cursor): nat {
    if c.step < 0 then Abs(c.i - c.last) else Abs(c.last - c.i)
  }

  function Abs(x: int): nat {
    if x < 0 then -x else x
  }

  /** The sources one after the other, without a heap. */
  method WalkInTurn(h0: seq<Cursor>, v: View, rev: bool, stop: seq<Entry> -> bool) returns (out: seq<Entry>)
    requires Apart(h0, rev)
    ensures out == Taken([], ToCome(h0, v, rev), stop)
  {
    out := [];
    var h := h0;
    StartWalking(h0, v, rev, stop);
    for n := 0 to |h0|
      invariant Walking(h, rev, n, |h0|, v, stop, out, Taken([], ToCome(h0, v, rev), stop))
    {
      var stopped;
      h, out, stopped := WalkSource(h, n, v, rev, stop, out, Taken([], ToCome(h0, v, rev), stop));
      if stopped {
        return;
      }
    }
    AllDone(h, v, rev);
  }

  lemma AllDone(h: seq<Cursor>, v: View, rev: bool)
    requires Queued(h, rev, |h|)
    ensures ToCome(h, v, rev) == []
  {
    forall j | 0 <= j < |h| ensures Runs(h, rev)[j] == [] {
      RestHead(h[j], rev);
    }
    assert AllKeys(Runs(h, rev)) == {};
  }

  // ----- The newest source alone -----

  const PRIO_OVERLAY: int := 0x4000_0000_0000_0000
  const PRIO_MEM: int := PRIO_OVERLAY - 1

  /**
   Under bounds of ten bytes, and only if the first key has ten bytes too, the last key of
   a source is looked at. It does not end the way a covering key would have to: the upper
   bound closes with 0xff, and the last key has no 0xfe in its place. A last key of fewer
   than ten bytes would be read past its end.
   */
  predicate NeverCovered(rows: seq<Row>, lo: Option<Key>, hi: Option<Key>) {
    lo.Some? && hi.Some? && |lo.value| == |hi.value| == 10 ==>
      && hi.value[9] == 0xff
      && (rows != [] && |rows[0].pk| == 10 ==> |rows[|rows| - 1].pk| >= 10 && rows[|rows| - 1].pk[9] != 0xfe)
  }

  function Tail64(k: Key): nat
    requires |k| >= 10
  {
    Decode(k[2..10])
  }

  lemma LastByte(k: Key)
    requires |k| >= 10
    ensures Tail64(k) % 256 == k[9]
  {
    assert k[2..10][7] == k[9];
  }

  /** `coveringNewestSource`, which finds none. */
  method CoveringNewest(h: seq<Cursor>, v: View, lo: Option<Key>, hi: Option<Key>) returns (m: int)
    requires Live(h, false) && forall c :: c in h ==> NeverCovered(c.rows, lo, hi)
    ensures m == -1
  {
    if |h| < 2 || lo.None? || hi.None? || |lo.value| != 10 || |hi.value| != 10 {
      return -1;
    }
    var best := 0;
    for i := 0 to |h|
      invariant 0 <= best < |h|
    {
      if h[i].prio > h[best].prio {
        best := i;
      }
    }
    var s := h[best];
    if s.prio >= PRIO_MEM {
      if !v.Column? {
        return -1;
      }
      for k := s.i to s.last {
        if CellAt(s.rows[k].ver, v.c) == [] {
          return -1;
        }
      }
    }
    var first, last := s.rows[0].pk, s.rows[|s.rows| - 1].pk;
    if |first| != 10 {
      return -1;
    }
    LastByte(last);
    LastByte(hi.value);
    var lower, upper := Tail64(lo.value), Tail64(hi.value);
    if Tail64(first) != lower || Tail64(last) != (upper - 1) % TWO_64 || |s.rows| != (upper - lower) % TWO_64 {
      return -1;
    }
    assert false by {
      NotOneLess(Tail64(last), upper);
    }
  }

  lemma NotOneLess(last: nat, upper: nat)
    requires last % 256 != 0xfe && upper % 256 == 0xff
    ensures last != (upper - 1) % TWO_64
  {
    var n := 0x100_0000_0000_0000;
    var q := (upper - 1) / TWO_64;
    assert (upper - 1) % TWO_64 == upper - 1 - 256 * (n * q);
  }

  // ----- The walk over the collected sources -----

  method WalkGathered(h0: seq<Cursor>, v: View, rev: bool, lo: Option<Key>, hi: Option<Key>, stop: seq<Entry> -> bool)
    returns (out: seq<Entry>)
    requires Live(h0, rev) && forall c :: c in h0 ==> NeverCovered(c.rows, lo, hi)
    ensures out == Taken([], ToCome(h0, v, rev), stop)
  {
    if |h0| <= 1 {
      out := WalkInTurn(h0, v, rev, stop);
      return;
    }
    if !rev {
      var covering := CoveringNewest(h0, v, lo, hi);
      assert covering == -1;
    }
    var h, disjoint := SortDisjointSources(h0, rev);
    SameStacksSameScan(Runs(h, rev), Prios(h), Runs(h0, rev), Prios(h0), v, rev);
    if disjoint {
      out := WalkInTurn(h, v, rev, stop);
    } else {
      out := WalkHeap(h, v, rev, stop);
    }
  }
}
