/**
 `walkMergedLocked`: the sources of one table are collected, trimmed to the window
 and walked by whichever path applies.
 */
module TableWalk {
  import opened Bytes
  import opened Wrappers
  import opened Versions
  import opened MpartModel
  import opened MpartSteps
  import opened MergeSpec
  import opened Merge
  import opened Walk
  import opened Disk
  import opened PointReads
  import opened MemParts

  /** The versions of `k` in all sources, newest first. */
  ghost function SourceStack(parts: seq<DiskPart>, mem: seq<Row>, overlay: map<Key, MemRow>, k: Key): seq<Version> {
    VersIn(overlay, k) + (Find(mem, k) + PartStack(Parts(parts), k))
  }

  /** `mpart.inRange`; a part that fails it has nothing in the window. */
  predicate InRange(d: DiskPart, lo: Option<Key>, hi: Option<Key>) {
    !(lo.Some? && Less(d.pkMax, lo.value)) && !(hi.Some? && !Less(d.pkMin, hi.value))
  }

  lemma OutOfRange(d: DiskPart, lo: Option<Key>, hi: Option<Key>)
    requires Written(d) && !InRange(d, lo, hi)
    ensures forall i :: 0 <= i < |d.part.rows| ==> !InWindow(d.part.rows[i].pk, lo, hi)
  {
    hide Less;
    hide InWindow;
    hide InRange;
    hide ContainsFirst;
    hide IndexMatches;
    var rows := d.part.rows;
    forall i | 0 <= i < |rows| ensures !InWindow(rows[i].pk, lo, hi) {
      KeyOrder(rows, 0, i);
      KeyOrder(rows, i, |rows| - 1);
      OutsideKey(d, rows[i].pk, lo, hi);
    }
  }

  lemma OutsideKey(d: DiskPart, k: Key, lo: Option<Key>, hi: Option<Key>)
    requires !InRange(d, lo, hi) && Leq(d.pkMin, k) && Leq(k, d.pkMax)
    ensures !InWindow(k, lo, hi)
  {
    Order();
    hide Less;
  }

  /** Ten-byte bounds only meet keys that cannot be one less than the upper bound. */
  ghost predicate PartsNeverCovered(parts: seq<DiskPart>, lo: Option<Key>, hi: Option<Key>) {
    forall i :: 0 <= i < |parts| ==> NeverCovered(parts[i].part.rows, lo, hi)
  }

  ghost predicate Uncovered(h: seq<Cursor>, lo: Option<Key>, hi: Option<Key>) {
    forall c :: c in h ==> NeverCovered(c.rows, lo, hi)
  }

  function LastID(parts: seq<DiskPart>, n: nat): int
    requires n <= |parts|
  {
    if n == 0 then -1 else parts[n - 1].part.id
  }

  /** The sources of the first `n` parts. */
  ghost predicate Collected(h: seq<Cursor>, parts: seq<DiskPart>, n: nat, rev: bool, lo: Option<Key>, hi: Option<Key>) {
    && n <= |parts|
    && Gathered(h, rev, LastID(parts, n))
    && Uncovered(h, lo, hi)
    && forall k :: Older(h, rev, k) == Windowed(StackUpTo(parts, n, k), k, lo, hi)
  }

  method CollectPart(h0: seq<Cursor>, parts: seq<DiskPart>, n: nat, rev: bool, lo: Option<Key>, hi: Option<Key>)
    returns (h: seq<Cursor>)
    requires Collected(h0, parts, n, rev, lo, hi) && n < |parts|
    requires Written(parts[n]) && NeverCovered(parts[n].part.rows, lo, hi) && LastID(parts, n) < LastID(parts, n + 1)
    ensures Collected(h, parts, n + 1, rev, lo, hi)
  {
    var d := parts[n];
    h := h0;
    if InRange(d, lo, hi) {
      h := AddSource(h0, d.part.rows, d.part.id, rev, lo, hi, LastID(parts, n));
    } else {
      OutOfRange(d, lo, hi);
      NoneInside(d.part.rows, lo, hi);
    }
    forall k ensures Older(h, rev, k) == Windowed(StackUpTo(parts, n + 1, k), k, lo, hi) {
      assert Older(h, rev, k) == Windowed(Find(d.part.rows, k), k, lo, hi) + Older(h0, rev, k);
      PartOnTop(parts, n, k, lo, hi);
    }
  }

  lemma PartOnTop(parts: seq<DiskPart>, n: nat, k: Key, lo: Option<Key>, hi: Option<Key>)
    requires n < |parts|
    ensures Windowed(StackUpTo(parts, n + 1, k), k, lo, hi)
            == Windowed(Find(parts[n].part.rows, k), k, lo, hi) + Windowed(StackUpTo(parts, n, k), k, lo, hi)
  {
    StackStep(parts, n, k);
  }

  method CollectParts(parts: seq<DiskPart>, rev: bool, lo: Option<Key>, hi: Option<Key>) returns (h: seq<Cursor>)
    requires AllWritten(parts) && IdsIncreasing(Parts(parts)) && PartsNeverCovered(parts, lo, hi)
    ensures Gathered(h, rev, LastID(parts, |parts|)) && Uncovered(h, lo, hi)
    ensures forall k :: Older(h, rev, k) == Windowed(PartStack(Parts(parts), k), k, lo, hi)
  {
    h := [];
    EmptyHeap(rev);
    forall k ensures StackUpTo(parts, 0, k) == [] {
      assert Parts(parts[..0]) == [];
    }
    for i := 0 to |parts|
      invariant Collected(h, parts, i, rev, lo, hi)
    {
      assert i > 0 ==> Parts(parts)[i - 1].id < Parts(parts)[i].id;
      h := CollectPart(h, parts, i, rev, lo, hi);
    }
    forall k ensures StackUpTo(parts, |parts|, k) == PartStack(Parts(parts), k) {
      StackFull(parts, k);
    }
  }

  lemma EmptyHeap(rev: bool)
    ensures Gathered([], rev, -1) && forall k :: Older([], rev, k) == []
  {
  }

  method Collect(parts: seq<DiskPart>, mem: seq<Row>, overlay: map<Key, MemRow>, rev: bool, lo: Option<Key>, hi: Option<Key>)
    returns (h: seq<Cursor>)
    requires AllWritten(parts) && IdsIncreasing(Parts(parts)) && LastID(parts, |parts|) < PRIO_MEM
    requires KeysIncreasing(mem) && Keyed(overlay)
    requires PartsNeverCovered(parts, lo, hi) && NeverCovered(mem, lo, hi) && NeverCovered(RowsOf(overlay), lo, hi)
    ensures Live(h, rev) && Uncovered(h, lo, hi)
    ensures forall k :: Older(h, rev, k) == Windowed(SourceStack(parts, mem, overlay, k), k, lo, hi)
  {
    var h0 := CollectParts(parts, rev, lo, hi);
    var h1 := AddSource(h0, mem, PRIO_MEM, rev, lo, hi, LastID(parts, |parts|));
    var sorted := SortMemRows(overlay);
    ListsRowsOf(sorted, overlay);
    RowsOfIncreasing(overlay);
    var rows := PlainRows(sorted);
    h := AddSource(h1, rows, PRIO_OVERLAY, rev, lo, hi, PRIO_MEM);
    forall k ensures Older(h, rev, k) == Windowed(SourceStack(parts, mem, overlay, k), k, lo, hi) {
      FindRowsOf(overlay, k);
      assert Older(h0, rev, k) == Windowed(PartStack(Parts(parts), k), k, lo, hi);
      assert Older(h1, rev, k) == Windowed(Find(mem, k), k, lo, hi) + Older(h0, rev, k);
      assert Older(h, rev, k) == Windowed(Find(rows, k), k, lo, hi) + Older(h1, rev, k);
    }
  }

  /** `mapRows(mem) == 0` and the other conditions of the descending granule walk. */
  predicate TailWalk(v: View, rev: bool, lo: Option<Key>, hi: Option<Key>, overlay: map<Key, MemRow>, cleared: bool, memEmpty: bool) {
    v.KeysOnly? && rev && lo.None? && hi.None? && !cleared && overlay == map[] && memEmpty
  }

  /**
   The whole walk over `parts`, memory rows and an overlay. What it passes to the
   callback is a scan of sources that hold, key by key, the versions of the window;
   the memory source may be left out when the memory part has no rows.
   */
  method WalkTable(parts: seq<DiskPart>, mem: seq<Row>, memEmpty: bool, overlay: map<Key, MemRow>, cleared: bool,
                   v: View, rev: bool, lo: Option<Key>, hi: Option<Key>, stop: seq<Entry> -> bool)
    returns (out: seq<Entry>, ghost runs: seq<Rows>, ghost prios: seq<int>, ghost withMem: bool)
    requires AllWritten(parts) && IdsIncreasing(Parts(parts)) && LastID(parts, |parts|) < PRIO_MEM
    requires KeysIncreasing(mem) && Keyed(overlay)
    requires PartsNeverCovered(parts, lo, hi) && NeverCovered(mem, lo, hi) && NeverCovered(RowsOf(overlay), lo, hi)
    ensures |runs| == |prios| && out == Taken([], Scan(runs, prios, v, rev), stop)
    ensures !withMem ==> memEmpty
    ensures forall k :: StackOf(runs, prios, k) ==
                        Windowed(SourceStack(if cleared then [] else parts, if cleared || !withMem then [] else mem, overlay, k), k, lo, hi)
  {
    withMem := true;
    if lo.Some? && hi.Some? && |lo.value| > 0 && |hi.value| > 0 && !Less(lo.value, hi.value) {
      runs, prios := [], [];
      EmptyWindow(v, rev, lo.value, hi.value);
      return [], runs, prios, withMem;
    }
    if TailWalk(v, rev, lo, hi, overlay, cleared, memEmpty) {
      var handled;
      DistinctParts(parts);
      handled, out := WalkPksDescGranules(parts, stop);
      if handled {
        withMem := false;
        runs, prios := Runs(AllBackward(parts), true), Prios(AllBackward(parts));
        forall k ensures StackOf(runs, prios, k) == SourceStack(parts, [], overlay, k) {
          BackwardStack(parts, k);
        }
        return;
      }
    }
    var h := Collect(if cleared then [] else parts, if cleared then [] else mem, overlay, rev, lo, hi);
    runs, prios := Runs(h, rev), Prios(h);
    out := WalkGathered(h, v, rev, lo, hi, stop);
  }

  lemma EmptyWindow(v: View, rev: bool, lo: Key, hi: Key)
    requires !Less(lo, hi)
    ensures Scan([], [], v, rev) == []
    ensures forall k :: StackOf([], [], k) == []
    ensures forall k :: !InWindow(k, Some(lo), Some(hi))
  {
    Order();
    assert AllKeys([]) == {};
  }

  lemma DistinctParts(parts: seq<DiskPart>)
    requires IdsIncreasing(Parts(parts))
    ensures Distinct(Prios(AllBackward(parts)))
  {
    forall i, j | 0 <= i < j < |parts| ensures Prios(AllBackward(parts))[i] != Prios(AllBackward(parts))[j] {
      assert Parts(parts)[i].id < Parts(parts)[j].id;
    }
  }

  /** The stack of a key over parts walked backward is its stack over the parts. */
  lemma {:induction false} BackwardStack(parts: seq<DiskPart>, k: Key)
    requires AllWritten(parts) && IdsIncreasing(Parts(parts)) && Heap(AllBackward(parts), true)
    ensures Older(AllBackward(parts), true, k) == PartStack(Parts(parts), k)
  {
    if parts != [] {
      var n := |parts| - 1;
      var init, d := parts[..n], parts[n];
      BackwardInit(parts);
      BackwardStack(init, k);
      SourceOnTop(AllBackward(init), Backward(d), true, k);
      BackwardRows(d, k);
      PartStackAppend(Parts(init), d.part, k);
    }
  }

  lemma BackwardInit(parts: seq<DiskPart>)
    requires parts != [] && AllWritten(parts) && IdsIncreasing(Parts(parts)) && Heap(AllBackward(parts), true)
    ensures var n := |parts| - 1;
            var init, d := parts[..n], parts[n];
            && AllBackward(parts) == AllBackward(init) + [Backward(d)]
            && Parts(parts) == Parts(init) + [d.part]
            && AllWritten(init) && IdsIncreasing(Parts(init)) && Heap(AllBackward(init), true)
            && Written(d) && InBounds(Backward(d), true)
            && forall j :: 0 <= j < n ==> AllBackward(init)[j].prio < d.part.id
  {
    var init, d := parts[..|parts| - 1], parts[|parts| - 1];
    InitParts(parts);
    ShorterHeap(AllBackward(parts), AllBackward(init), true);
    assert AllBackward(parts)[|parts| - 1] == Backward(d);
    InitOlder(Parts(init), d.part);
  }

  lemma InitParts(parts: seq<DiskPart>)
    requires parts != []
    ensures AllBackward(parts) == AllBackward(parts[..|parts| - 1]) + [Backward(parts[|parts| - 1])]
    ensures Parts(parts) == Parts(parts[..|parts| - 1]) + [parts[|parts| - 1].part]
  {
  }

  lemma InitOlder(init: seq<Part>, p: Part)
    requires IdsIncreasing(init + [p])
    ensures IdsIncreasing(init)
    ensures forall j :: 0 <= j < |init| ==> init[j].id < p.id
  {
    var all := init + [p];
    assert all[|init|] == p && forall j :: 0 <= j < |init| ==> all[j] == init[j];
    forall i, j | 0 <= i < j < |init| ensures init[i].id < init[j].id {
      assert all[i].id < all[j].id;
    }
    forall j | 0 <= j < |init| ensures init[j].id < p.id {
      assert all[j].id < all[|init|].id;
    }
  }

  lemma ShorterHeap(h: seq<Cursor>, h': seq<Cursor>, rev: bool)
    requires Heap(h, rev) && |h'| <= |h| && forall j :: 0 <= j < |h'| ==> h'[j] == h[j]
    ensures Heap(h', rev)
  {
    forall i, j | 0 <= i < j < |h'| ensures Prios(h')[i] != Prios(h')[j] {
      assert Prios(h)[i] != Prios(h)[j];
    }
  }

  lemma BackwardRows(d: DiskPart, k: Key)
    requires Written(d) && InBounds(Backward(d), true)
    ensures Find(Rest(Backward(d), true), k) == Find(d.part.rows, k)
  {
    assert d.part.rows[0..|d.part.rows|] == d.part.rows;
    FindReversed(d.part.rows, k);
  }
}
