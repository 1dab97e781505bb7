/**
 The part of a compaction that runs without the lock: reading the snapshot through
 the merge and writing what is live.
 */
module MpartCompact {
  import opened Bytes
  import opened Wrappers
  import opened Versions
  import opened MpartModel
  import opened MpartSteps
  import opened MergeSpec
  import opened TableScan
  import opened Sources
  import opened Walk
  import opened Disk
  import opened PointReads
  import opened MemParts
  import opened TableWalk
  import opened MpartStore
  import opened MpartTxns

  /** The store a snapshot shows: its parts and a copy of its memory rows. */
  ghost function SnapStore(snap: Snap): Store {
    Store(Some(FreshMem(0).(rows := snap.rows)), Parts(snap.olds), snap.oldCount, 0, 0)
  }

  ghost predicate SnapReadable(snap: Snap, w: nat) {
    && AllWritten(snap.olds) && IdsIncreasing(Parts(snap.olds)) && LastID(snap.olds, |snap.olds|) < PRIO_MEM
    && Keyed(snap.rows)
    && AllSound(SnapStore(snap), w)
  }

  /**
   Phase 2: the rows a compaction writes are the visible table of the snapshot, one
   full row per live key.
   */
  method CompactRead(snap: Snap, ghost w: nat) returns (rows: seq<Row>)
    requires SnapReadable(snap, w) && w > 0
    ensures rows == TableRows(MpartModel.View(SnapStore(snap), w))
  {
    hide Taken;
    hide StackOf;
    hide Scan;
    hide Listing;
    var sorted := SortMemRows(snap.rows);
    ListsRowsOf(sorted, snap.rows);
    RowsOfIncreasing(snap.rows);
    var mem := PlainRows(sorted);
    var all, runs, prios, withMem :=
      WalkTable(snap.olds, mem, |snap.rows| == 0, map[], false, FullRows, false, None, None, Halting(Never));
    SnapshotLists(snap, runs, prios, withMem, w);
    TakenLive([], Scan(runs, prios, FullRows, false), Never);
    NeverStopped([], Listing(MpartModel.View(SnapStore(snap), w), FullRows, false, None, None));
    ViewWidth(SnapStore(snap), w);
    rows := LiveRows(LiveEntries(all), MpartModel.View(SnapStore(snap), w), w);
  }

  lemma ViewWidth(s: Store, w: nat)
    ensures forall k :: k in MpartModel.View(s, w) ==> |MpartModel.View(s, w)[k]| == w
  {
    forall k | k in MpartModel.View(s, w) ensures |MpartModel.View(s, w)[k]| == w {
      ViewAt(s, w, k);
    }
  }

  lemma SnapshotLists(snap: Snap, runs: seq<Rows>, prios: seq<int>, withMem: bool, w: nat)
    requires SnapReadable(snap, w) && |runs| == |prios|
    requires !withMem ==> |snap.rows| == 0
    requires forall k :: StackOf(runs, prios, k) ==
                         Windowed(SourceStack(snap.olds, if withMem then RowsOf(snap.rows) else [], map[], k), k, None, None)
    ensures LiveEntries(Scan(runs, prios, FullRows, false)) == Listing(MpartModel.View(SnapStore(snap), w), FullRows, false, None, None)
  {
    hide Scan;
    hide Listing;
    hide Less;
    var s := SnapStore(snap);
    forall k ensures Holds(runs, prios, MpartModel.View(s, w), None, None, w, k) {
      assert Sound(Stack(s, k), w);
      FindRowsOf(snap.rows, k);
      ViewAt(s, w, k);
      assert StackOf(runs, prios, k) == Stack(s, k);
    }
    forall k ensures k in AllKeys(runs) <==> StackOf(runs, prios, k) != [] {
      KeysHaveStacks(runs, prios, k);
    }
    ScanLists(runs, prios, MpartModel.View(s, w), FullRows, false, None, None, w);
  }

  /** Keeps the live entries that carry cells; with at least one column that is all of them. */
  method LiveRows(es: seq<Entry>, ghost t: Table, ghost w: nat) returns (rows: seq<Row>)
    requires w > 0 && es == Listing(t, FullRows, false, None, None) && forall k :: k in t ==> |t[k]| == w
    ensures rows == TableRows(t)
  {
    hide Ascending;
    hide Less;
    ghost var ks := Ascending(t.Keys);
    assert KeysWithin(t, None, None) == t.Keys;
    rows := [];
    for i := 0 to |es|
      invariant |rows| == i
      invariant forall x :: 0 <= x < i ==> rows[x] == TableRows(t)[x]
    {
      assert ks[i] in ks;
      if !es[i].del && |es[i].cells| > 0 {
        rows := rows + [Row(es[i].pk, Version(es[i].cells, false))];
      }
    }
  }
}
