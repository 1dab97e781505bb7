/**
 Transactions on one CSTORE2 table as objects: point reads, scans, buffered writes
 and the commit that folds them into the store.
 */
module MpartTxns {
  import opened Bytes
  import opened Wrappers
  import opened Versions
  import opened MpartModel
  import opened MpartSteps
  import opened MpartProofs
  import opened MpartTx
  import opened MergeSpec
  import opened TableScan
  import opened Sources
  import opened Walk
  import opened Disk
  import opened PointReads
  import opened MemParts
  import opened TableWalk
  import opened MpartStore

  // ----- What a scan of a transaction reads -----

  /** The versions a scan of the transaction finds for `k`, through the cached view. */
  ghost function TxScanStack(s: Store, tx: Tx, k: Key): seq<Version> {
    VersIn(tx.overlay, k) + (if tx.cleared then [] else ScanStack(s, k))
  }

  lemma TxScanReads(s: Store, tx: Tx, w: nat, k: Key)
    requires StoreInv(s, w) && TxInv(s, tx, w)
    ensures Sound(TxScanStack(s, tx, k), w)
    ensures Resolve(TxScanStack(s, tx, k), w) == if k in TxView(s, tx, w) then Some(TxView(s, tx, w)[k]) else None
  {
    hide MpartModel.View;
    hide TxView;
    hide Sound;
    hide Find;
    TxStackSound(s, tx, w, k);
    TxViewAt(s, tx, w, k);
    if !tx.cleared && s.mem.Some? && CacheValid(s.mem.value) && k !in s.mem.value.rows {
      assert StaleUnseen(s, k, w);
      assert Stack(s, k) == PartStack(s.parts, k);
      AlikeBelow(VersIn(tx.overlay, k), Stack(s, k), ScanStack(s, k), w);
      AlikeResolve(TxStack(s, tx, k), TxScanStack(s, tx, k), w);
    }
  }

  /** Sources that hold these versions list what the transaction sees. */
  lemma TxScanHolds(s: Store, tx: Tx, runs: seq<Rows>, prios: seq<int>, withMem: bool, lo: Option<Key>, hi: Option<Key>, w: nat, k: Key)
    requires StoreInv(s, w) && TxInv(s, tx, w) && |runs| == |prios|
    requires !withMem ==> MemRows(s) == map[]
    requires StackOf(runs, prios, k) == Windowed(if withMem then TxScanStack(s, tx, k) else TxStack(s, tx, k), k, lo, hi)
    ensures Holds(runs, prios, TxView(s, tx, w), lo, hi, w, k)
  {
    TxScanReads(s, tx, w, k);
    TxStackSound(s, tx, w, k);
    TxViewAt(s, tx, w, k);
  }

  /** No bound of ten bytes meets a key it could be one more than. */
  ghost predicate NoCover(s: Store, overlay: map<Key, MemRow>, lo: Option<Key>, hi: Option<Key>) {
    && NeverCovered(RowsOf(overlay), lo, hi)
    && (forall p :: p in s.parts ==> NeverCovered(p.rows, lo, hi))
    && (s.mem.Some? ==> NeverCovered(Plain(Cached(s.mem.value).cache.value), lo, hi))
  }

  /** The rows a scan takes from memory: the sorted view, cached or built. */
  ghost function MemSourceRows(s: Store, tx: Tx): seq<Row> {
    if tx.cleared || s.mem.None? then [] else Plain(Cached(s.mem.value).cache.value)
  }

  lemma MemSourceFinds(s: Store, tx: Tx, w: nat, k: Key)
    requires StoreInv(s, w)
    ensures !tx.cleared ==> Find(MemSourceRows(s, tx), k) == ScanVers(s.mem, k)
  {
    if s.mem.Some? && !CacheValid(s.mem.value) {
      SortedRowsList(s.mem.value);
      ListsFind(SortedRows(s.mem.value), s.mem.value.rows, k);
    }
  }

  /** The sources of a scan are sorted, in order and out of reach of the covering shortcut. */
  lemma SourcesReadable(s: Store, tx: Tx, parts: seq<DiskPart>, lo: Option<Key>, hi: Option<Key>, w: nat)
    requires StoreInv(s, w) && TxInv(s, tx, w) && s.parts == Parts(parts)
    requires s.nextID < PRIO_MEM && NoCover(s, tx.overlay, lo, hi)
    ensures IdsIncreasing(Parts(parts)) && LastID(parts, |parts|) < PRIO_MEM
    ensures KeysIncreasing(MemSourceRows(s, tx)) && Keyed(tx.overlay)
    ensures PartsNeverCovered(parts, lo, hi) && NeverCovered(MemSourceRows(s, tx), lo, hi)
  {
    TxKeyed(s, tx, w);
    MemSourceSorted(s, tx, w);
    PartsReadable(parts, s.nextID, lo, hi);
  }

  lemma MemSourceSorted(s: Store, tx: Tx, w: nat)
    requires StoreInv(s, w)
    ensures KeysIncreasing(MemSourceRows(s, tx))
  {
    if s.mem.Some? && !CacheValid(s.mem.value) {
      SortedRowsList(s.mem.value);
    }
  }

  lemma PartsReadable(parts: seq<DiskPart>, nextID: nat, lo: Option<Key>, hi: Option<Key>)
    requires IdsUpTo(Parts(parts), nextID) && nextID < PRIO_MEM
    requires forall p :: p in Parts(parts) ==> NeverCovered(p.rows, lo, hi)
    ensures LastID(parts, |parts|) < PRIO_MEM && PartsNeverCovered(parts, lo, hi)
  {
    forall i | 0 <= i < |parts| ensures NeverCovered(parts[i].part.rows, lo, hi) && parts[i].part.id <= nextID {
      assert Parts(parts)[i] in Parts(parts);
    }
  }

  /** The walk over these sources, deleted keys passed over, lists what the transaction sees. */
  lemma SourcesList(s: Store, tx: Tx, runs: seq<Rows>, prios: seq<int>, withMem: bool, v: View, rev: bool,
                    lo: Option<Key>, hi: Option<Key>, w: nat)
    requires StoreInv(s, w) && TxInv(s, tx, w) && |runs| == |prios| && (v.Column? ==> v.c < w)
    requires !withMem ==> MemRows(s) == map[]
    requires forall k :: StackOf(runs, prios, k) == Windowed(SourcesOf(s, tx, withMem, k), k, lo, hi)
    ensures Wide(TxView(s, tx, w), v)
    ensures LiveEntries(Scan(runs, prios, v, rev)) == Listing(TxView(s, tx, w), v, rev, lo, hi)
  {
    var t := TxView(s, tx, w);
    forall k ensures Holds(runs, prios, t, lo, hi, w, k) {
      assert StackOf(runs, prios, k) == Windowed(SourcesOf(s, tx, withMem, k), k, lo, hi);
      MemSourceFinds(s, tx, w, k);
      TxScanHolds(s, tx, runs, prios, withMem, lo, hi, w, k);
    }
    forall k ensures k in AllKeys(runs) <==> StackOf(runs, prios, k) != [] {
      KeysHaveStacks(runs, prios, k);
    }
    forall k | k in t ensures |t[k]| == w {
      TxViewAt(s, tx, w, k);
    }
    ScanLists(runs, prios, t, v, rev, lo, hi, w);
  }

  ghost function SourcesOf(s: Store, tx: Tx, withMem: bool, k: Key): seq<Version> {
    var mem := if tx.cleared || !withMem then [] else MemSourceRows(s, tx);
    VersIn(tx.overlay, k) + (Find(mem, k) + PartStack(if tx.cleared then [] else s.parts, k))
  }

  /** A column by layers: the overlay, memory, the parts. */
  lemma ColLayers(s: Store, tx: Tx, k: Key, c: nat)
    ensures Col(TxStack(s, tx, k), c) ==
            if k in tx.overlay then ColOver(tx.overlay[k].row.ver, Col(BaseStack(s, tx, k), c), c) else Col(BaseStack(s, tx, k), c)
    ensures Col(Stack(s, k), c) ==
            if k in MemRows(s) then ColOver(MemRows(s)[k].row.ver, Col(PartStack(s.parts, k), c), c) else Col(PartStack(s.parts, k), c)
  {
    ColPushed(tx.overlay, BaseStack(s, tx, k), k, c);
    ColPushed(MemRows(s), PartStack(s.parts, k), k, c);
  }

  function ColOver(v: Version, below: Cell, c: nat): Cell {
    if v.del then [] else if CellAt(v, c) != [] then CellAt(v, c) else below
  }

  lemma ColPushed(m: map<Key, MemRow>, below: seq<Version>, k: Key, c: nat)
    ensures Col(VersIn(m, k) + below, c) == if k in m then ColOver(m[k].row.ver, Col(below, c), c) else Col(below, c)
  {
    if k in m {
      assert ([m[k].row.ver] + below)[1..] == below;
    } else {
      assert [] + below == below;
    }
  }

  /** The layers a lookup goes through. */
  lemma SeekLayers(s: Store, tx: Tx, k: Key)
    ensures TxStack(s, tx, k) == if k in tx.overlay then [tx.overlay[k].row.ver] + BaseStack(s, tx, k) else BaseStack(s, tx, k)
    ensures Stack(s, k) == if k in MemRows(s) then [MemRows(s)[k].row.ver] + PartStack(s.parts, k) else PartStack(s.parts, k)
  {
  }

  /** The store after a scan of the transaction: the sorted view is built. */
  ghost function Viewed(s: Store, tx: Tx): Store {
    if tx.cleared || s.mem.None? then s else s.(mem := Some(Cached(s.mem.value)))
  }

  lemma PutIgnoresRows(s: Store, t: Store, tx: Tx, k: Key, cells: seq<Cell>)
    requires s.nextAddr == t.nextAddr
    ensures Put(s, tx, k, cells, false) == Put(t, tx, k, cells, false)
  {
  }

  predicate Never(es: seq<Entry>) {
    false
  }

  lemma {:induction false} NeverStopped(seen: seq<Entry>, rest: seq<Entry>)
    ensures Taken(seen, rest, Never) == seen + rest
    decreases rest
  {
    if rest != [] {
      NeverStopped(seen + [rest[0]], rest[1..]);
    }
  }

  /** A keys-only listing names the keys of the window in order. */
  lemma ListedKeys(t: Table, lo: Option<Key>, hi: Option<Key>, rows: seq<Entry>)
    requires rows == Taken([], Listing(t, KeysOnly, false, lo, hi), Never)
    ensures |rows| == |WindowKeys(t, lo, hi)|
    ensures forall i :: 0 <= i < |rows| ==> rows[i].pk == WindowKeys(t, lo, hi)[i]
  {
    NeverStopped([], Listing(t, KeysOnly, false, lo, hi));
  }

  /** The middle of a commit: fold, then flush over the threshold. */
  ghost function FoldedAndFlushed(s: Store, tx: Tx): Store {
    if tx.overlay == map[] then s
    else if |MemRows(Fold(s, tx))| >= FLUSH_THRESHOLD then Flushed(Fold(s, tx))
    else Fold(s, tx)
  }

  lemma CommittedInSteps(s: Store, tx: Tx)
    ensures var t := FoldedAndFlushed(if tx.cleared then Dropped(s) else s, tx);
            Committed(s, tx) == t.(count := t.count + tx.delta)
    ensures tx.overlay == map[] && !tx.cleared && tx.delta == 0 ==> Committed(s, tx) == s
  {
  }

  /** Overlay rows replace those of memory; a partial one inherits from the live row it replaces. */
  method FoldRows(cur: map<Key, MemRow>, overlay: map<Key, MemRow>) returns (rows: map<Key, MemRow>)
    requires Keyed(cur) && Keyed(overlay)
    ensures rows == FoldedRows(cur, overlay) && Keyed(rows)
  {
    rows := cur;
    var rest := overlay.Keys;
    while rest != {}
      invariant rest <= overlay.Keys
      invariant forall k :: FoldedUpTo(rows, cur, overlay, rest, k)
    {
      var k :| k in rest;
      var r := overlay[k];
      assert FoldedUpTo(rows, cur, overlay, rest, k);
      if k in rows && rows[k].addr != r.addr && !rows[k].row.ver.del {
        var merged := Fill(r.row.ver.cells, rows[k].row.ver.cells);
        r := MemRow(r.addr, Row(r.row.pk, Version(merged, r.row.ver.del)));
      }
      ghost var before := rows;
      rows := rows[k := r];
      forall x ensures FoldedUpTo(rows, cur, overlay, rest - {k}, x) {
        assert FoldedUpTo(before, cur, overlay, rest, x);
      }
      rest := rest - {k};
    }
    forall k ensures k in rows <==> k in FoldedRows(cur, overlay)
             ensures k in rows ==> rows[k] == FoldedRows(cur, overlay)[k] {
      assert FoldedUpTo(rows, cur, overlay, {}, k);
    }
  }

  ghost predicate FoldedUpTo(rows: map<Key, MemRow>, cur: map<Key, MemRow>, overlay: map<Key, MemRow>, rest: set<Key>, k: Key) {
    if k in overlay && k !in rest then k in rows && rows[k] == Folded(overlay[k], cur)
    else (k in rows <==> k in cur) && (k in cur ==> rows[k] == cur[k])
  }

  class TableTx {
    const store: TableStore
    var overlay: map<Key, MemRow>
    var hint: seq<MemRow>
    var cleared: bool
    var delta: int

    ghost function Abs(): Tx
      reads this
    {
      Tx(overlay, hint, cleared, delta)
    }

    constructor (s: TableStore)
      ensures store == s && Abs() == EMPTY_TX
    {
      store := s;
      overlay, hint, cleared, delta := map[], [], false, 0;
    }

    // ----- Point reads -----

    /** `rowExists`. */
    method RowExists(key: Key) returns (live: bool)
      requires store.Readable()
      ensures live == Alive(TxStack(store.Abs(), Abs(), key))
    {
      if key in overlay {
        return !overlay[key].row.ver.del;
      }
      if cleared {
        return false;
      }
      if store.mem != null && key in store.mem.rows {
        return !store.mem.rows[key].row.ver.del;
      }
      live := ExistsInParts(store.parts, key);
    }

    /** `lookupCol`: the value of one column, empty if the row is absent or deleted. */
    method LookupCol(key: Key, c: nat) returns (cell: Cell)
      requires store.Readable()
      ensures cell == Col(TxStack(store.Abs(), Abs(), key), c)
    {
      ColLayers(store.Abs(), Abs(), key, c);
      if key in overlay {
        cell := CellAt(overlay[key].row.ver, c);
        if overlay[key].row.ver.del {
          return [];
        } else if cell != [] {
          return;
        }
      }
      if cleared {
        return [];
      }
      if store.mem != null && key in store.mem.rows {
        cell := CellAt(store.mem.rows[key].row.ver, c);
        if store.mem.rows[key].row.ver.del {
          return [];
        } else if cell != [] {
          return;
        }
      }
      cell := ColInParts(store.parts, key, c);
    }

    /**
     `lookup`. Under a partial overlay row a tombstone in memory would end the search,
     but the stack invariant never puts one there.
     */
    method Lookup(key: Key, ghost w: nat) returns (r: PointReads.Lookup)
      requires store.Readable() && Sound(TxStack(store.Abs(), Abs(), key), w)
      ensures Reported(r) == Resolve(TxStack(store.Abs(), Abs(), key), w)
    {
      hide Resolve;
      hide Sound;
      SeekIsResolve(TxStack(store.Abs(), Abs(), key), w);
      SeekLayers(store.Abs(), Abs(), key);
      r := Missing;
      var settled;
      if key in overlay {
        r, settled := Absorb(r, overlay[key].row.ver);
        if settled {
          return;
        }
      }
      if cleared {
        return;
      }
      ghost var base := r;
      if store.mem != null && key in store.mem.rows {
        r, settled := Absorb(r, store.mem.rows[key].row.ver);
        if settled {
          return;
        }
      }
      r := LookupInParts(store.parts, key, r);
    }

    /** `countFor`. */
    method CountFor() returns (n: int)
      ensures n == (if cleared then 0 else store.count) + delta
    {
      n := if cleared then delta else store.count + delta;
    }

    // ----- Writes -----

    /** `rowPutCellsCheckCount`. */
    method RowPutCells(key: Key, cells: seq<Cell>, check: bool)
      requires store.Readable()
      modifies this, store`nextAddr
      ensures Abs() == Put(old(store.Abs()), old(Abs()), key, cells, check)
      ensures store.Abs() == Allocated(old(store.Abs()), 1)
    {
      if check {
        var live := RowExists(key);
        if !live {
          delta := delta + 1;
        }
      }
      var r := MemRow(store.nextAddr, Row(key, Version(cells, false)));
      store.nextAddr := store.nextAddr + 1;
      hint := if key in overlay then [] else hint + [r];
      overlay := overlay[key := r];
    }

    /** `rowDelete`. */
    method RowDelete(key: Key)
      requires store.Readable()
      modifies this, store`nextAddr
      ensures Abs() == Delete(old(store.Abs()), old(Abs()), key)
      ensures store.Abs() == Allocated(old(store.Abs()), 1)
    {
      var live := RowExists(key);
      if live {
        delta := delta - 1;
      }
      overlay := overlay[key := MemRow(store.nextAddr, Row(key, Version([], true)))];
      store.nextAddr := store.nextAddr + 1;
    }

    /** `rowDeleteAll`. */
    method RowDeleteAll()
      modifies this
      ensures Abs() == Clear(old(Abs()))
    {
      cleared := true;
      overlay, hint, delta := map[], [], 0;
    }

    // ----- Commit -----

    /** Folds the overlay into a memory part. */
    method FoldInto(mem: MemPart)
      requires Keyed(mem.rows) && Keyed(overlay)
      modifies mem
      ensures mem.Abs() == FoldedMem(old(mem.Abs()), Abs()) && Keyed(mem.rows)
    {
      var carried := false;
      if |mem.rows| == 0 && |hint| == |overlay| {
        carried := MemRowsSorted(hint);
      }
      mem.rows := FoldRows(mem.rows, overlay);
      mem.hint := if carried then hint else [];
      mem.gen := mem.gen + 1;
    }

    method FoldAndFlush()
      requires store.Readable() && Keyed(overlay)
      modifies store, store.mem
      ensures store.Readable() && store.Abs() == FoldedAndFlushed(old(store.Abs()), Abs())
    {
      if overlay == map[] {
        return;
      }
      FoldIntoStore();
      if |store.mem.rows| >= FLUSH_THRESHOLD {
        store.FlushLocked();
      }
    }

    method FoldIntoStore()
      requires store.Readable() && Keyed(overlay) && overlay != map[]
      modifies store, store.mem
      ensures store.Readable() && store.Abs() == Fold(old(store.Abs()), Abs())
      ensures store.mem != null && (store.mem == old(store.mem) || fresh(store.mem))
    {
      if store.mem == null {
        store.mem := new MemPart(store.nextAddr);
        store.nextAddr := store.nextAddr + 1;
      }
      FoldInto(store.mem);
    }

    /** `commit`. */
    method Commit()
      requires store.Readable() && Keyed(overlay)
      modifies store, store.mem
      ensures store.Readable() && store.Abs() == Committed(old(store.Abs()), Abs())
    {
      CommittedInSteps(store.Abs(), Abs());
      if overlay == map[] && !cleared && delta == 0 {
        return;
      }
      if cleared {
        store.Drop();
      }
      FoldAndFlush();
      store.Recount(delta);
    }

    // ----- Scans -----

    /**
     Every scan: whatever sources there are and whichever path is taken, the callback
     sees the live rows of the window as the transaction sees them, in order, until it
     stops. Only the cached view of the memory part may change.
     */
    method WalkMerged(v: View, rev: bool, lo: Option<Key>, hi: Option<Key>, halt: seq<Entry> -> bool, ghost w: nat)
      returns (out: seq<Entry>)
      requires store.Readable() && StoreInv(store.Abs(), w) && TxInv(store.Abs(), Abs(), w)
      requires store.nextID < PRIO_MEM && NoCover(store.Abs(), overlay, lo, hi)
      requires v.Column? ==> v.c < w
      modifies store.mem
      ensures store.Readable() && Abs() == old(Abs())
      ensures store.Abs() == Viewed(old(store.Abs()), old(Abs()))
      ensures Wide(TxView(old(store.Abs()), old(Abs()), w), v)
      ensures out == Taken([], Listing(TxView(old(store.Abs()), old(Abs()), w), v, rev, lo, hi), halt)
    {
      hide Scan;
      hide TxInv;
      hide StoreInv;
      hide TxView;
      ghost var s, tx := store.Abs(), Abs();
      var mem, memEmpty := MemSource();
      SourcesReadable(s, tx, store.parts, lo, hi, w);
      var all, runs, prios, withMem := WalkTable(store.parts, mem, memEmpty, overlay, cleared, v, rev, lo, hi, Halting(halt));
      forall k ensures StackOf(runs, prios, k) == Windowed(SourcesOf(s, tx, withMem, k), k, lo, hi) {
        assert Parts([]) == [];
      }
      SourcesList(s, tx, runs, prios, withMem, v, rev, lo, hi, w);
      TakenLive([], Scan(runs, prios, v, rev), halt);
      out := LiveEntries(all);
    }

    /** `updateConstRange`: every live key of the window gets the same partial row. */
    method UpdateConstRange(cells: seq<Cell>, lo: Option<Key>, hi: Option<Key>, ghost w: nat) returns (affected: nat)
      requires store.Readable() && StoreInv(store.Abs(), w) && TxInv(store.Abs(), Abs(), w)
      requires store.nextID < PRIO_MEM && NoCover(store.Abs(), overlay, lo, hi)
      modifies this, store`nextAddr, store.mem
      ensures store.Readable()
      ensures var ks := WindowKeys(TxView(old(store.Abs()), old(Abs()), w), lo, hi);
              && affected == |ks|
              && Abs() == PutAll(old(store.Abs()), old(Abs()), ks, cells)
              && store.Abs() == Allocated(Viewed(old(store.Abs()), old(Abs())), |ks|)
    {
      hide TxView;
      hide PutAll;
      hide StoreInv;
      hide TxInv;
      hide Listing;
      var rows := WalkMerged(KeysOnly, false, lo, hi, Never, w);
      affected := |rows|;
      ListedKeys(TxView(old(store.Abs()), old(Abs()), w), lo, hi, rows);
      PutEach(rows, cells, WindowKeys(TxView(old(store.Abs()), old(Abs()), w), lo, hi), old(store.Abs()));
    }

    /** The writes of the range update; `s` is the store before the scan. */
    method PutEach(rows: seq<Entry>, cells: seq<Cell>, ghost ks: seq<Key>, ghost s: Store)
      requires store.Readable() && store.nextAddr == s.nextAddr
      requires |rows| == |ks| && forall i :: 0 <= i < |ks| ==> rows[i].pk == ks[i]
      modifies this, store`nextAddr
      ensures store.Readable() && store.Abs() == Allocated(old(store.Abs()), |ks|)
      ensures Abs() == PutAll(s, old(Abs()), ks, cells)
    {
      var i := 0;
      while i < |rows|
        invariant i <= |rows| && store.Readable() && store.Abs() == Allocated(old(store.Abs()), i)
        invariant PutAll(Allocated(s, i), Abs(), ks[i..], cells) == PutAll(s, old(Abs()), ks, cells)
      {
        PutIgnoresRows(store.Abs(), Allocated(s, i), Abs(), rows[i].pk, cells);
        RowPutCells(rows[i].pk, cells, false);
        assert ks[i..][1..] == ks[i + 1..];
        i := i + 1;
      }
    }

    /** The memory rows a scan walks, from the cached view. */
    method MemSource() returns (mem: seq<Row>, memEmpty: bool)
      requires store.Readable()
      modifies store.mem
      ensures store.Readable() && Abs() == old(Abs())
      ensures store.Abs() == Viewed(old(store.Abs()), old(Abs()))
      ensures mem == MemSourceRows(old(store.Abs()), Abs())
      ensures memEmpty <==> MemRows(old(store.Abs())) == map[]
    {
      mem, memEmpty := [], true;
      if store.mem != null {
        memEmpty := |store.mem.rows| == 0;
        if !cleared {
          store.mem.EnsureCached();
          mem := PlainRows(store.mem.cache.value);
        }
      }
    }
  }
}
