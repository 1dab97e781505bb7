/**
 Transactions on a CSTORE2 table as updates of the visible table: put, delete,
 clear and constant-range update, and where the code departs from that.
 */
module MpartTx {
  import opened Bytes
  import opened Wrappers
  import opened Versions
  import opened MpartModel
  import opened MpartSteps
  import opened MpartProofs

  /** What a put makes of the row at `k`: untouched columns keep their value. */
  ghost function Overlaid(t: Table, k: Key, cells: seq<Cell>): Table
    requires [] in cells ==> k in t
  {
    t[k := if [] in cells then Filled(cells, t[k]) else cells]
  }

  ghost function Assign(cells: seq<Cell>, row: seq<Cell>): seq<Cell> {
    if [] in cells then Filled(cells, row) else cells
  }

  /** The committed table is `base` and the transaction sees `t`. */
  ghost predicate Sees(s: Store, tx: Tx, base: Table, t: Table, w: nat) {
    StoreInv(s, w) && TxInv(s, tx, w) && View(s, w) == base && TxView(s, tx, w) == t
  }

  /**
   When a put is an update of the table `t` the transaction sees: a full row always;
   a partial row only over a live row this transaction has not written; without the
   existence probe only over a live row.
   */
  ghost predicate PutAllowed(t: Table, tx: Tx, k: Key, cells: seq<Cell>, check: bool, w: nat) {
    && |cells| == w
    && (!check ==> k in t)
    && ([] in cells ==> k !in tx.overlay && k in t)
  }

  lemma AllocStack(s: Store, tx: Tx, n: nat, k: Key)
    ensures Stack(Allocated(s, n), k) == Stack(s, k)
    ensures TxStack(Allocated(s, n), tx, k) == TxStack(s, tx, k)
  {
  }

  lemma AllocView(s: Store, tx: Tx, n: nat, w: nat)
    requires AllSound(s, w)
    ensures View(Allocated(s, n), w) == View(s, w)
    ensures TxView(Allocated(s, n), tx, w) == TxView(s, tx, w)
    ensures BaseView(Allocated(s, n), tx, w) == BaseView(s, tx, w)
  {
    SameRows(s, Allocated(s, n), w);
    forall k ensures Alike(TxStack(Allocated(s, n), tx, k), TxStack(s, tx, k), w) {
      AllocStack(s, tx, n, k);
    }
    SameTxView(Allocated(s, n), tx, s, tx, w);
  }

  lemma AllocInv(s: Store, n: nat, w: nat)
    requires StoreInv(s, w)
    ensures StoreInv(Allocated(s, n), w) && View(Allocated(s, n), w) == View(s, w)
  {
    SameRows(s, Allocated(s, n), w);
    SameCacheSound(s, Allocated(s, n), w);
  }

  /** A put over a stack denotes the row overlaid on what the stack denoted. */
  lemma PutResolves(cells: seq<Cell>, below: seq<Version>, w: nat)
    requires |cells| == w && Sound(below, w) && ([] in cells ==> Alive(below))
    ensures Sound([Version(cells, false)] + below, w)
    ensures Resolve([Version(cells, false)] + below, w) ==
            Some(if [] in cells then Filled(cells, Resolve(below, w).value) else cells)
  {
    var vs := [Version(cells, false)] + below;
    assert vs[1..] == below;
    var row := if [] in cells then Filled(cells, Resolve(below, w).value) else cells;
    forall c | 0 <= c < w ensures Resolve(vs, w).value[c] == row[c] {
      assert Col(vs, c) == if cells[c] != [] then cells[c] else Col(below, c);
      assert cells[c] == [] ==> [] in cells;
    }
    assert Resolve(vs, w).value == row;
  }

  lemma SameStackSameRow(s: Store, tx: Tx, tx': Tx, w: nat, x: Key)
    requires TxStack(s, tx', x) == TxStack(s, tx, x)
    ensures x in TxView(s, tx', w) <==> x in TxView(s, tx, w)
    ensures x in TxView(s, tx, w) ==> TxView(s, tx', w)[x] == TxView(s, tx, w)[x]
  {
    TxViewAt(s, tx, w, x);
    TxViewAt(s, tx', w, x);
  }

  /** A transaction step that touches one key changes the table at that key. */
  lemma OneKeyView(s: Store, tx: Tx, tx': Tx, k: Key, w: nat)
    requires forall x :: x != k ==> TxStack(s, tx', x) == TxStack(s, tx, x)
    ensures TxView(s, tx', w) == Changed(TxView(s, tx, w), k, Resolve(TxStack(s, tx', k), w))
  {
    var t := Changed(TxView(s, tx, w), k, Resolve(TxStack(s, tx', k), w));
    forall x
      ensures x in TxView(s, tx', w) <==> x in t
      ensures x in t ==> TxView(s, tx', w)[x] == t[x]
    {
      if x == k {
        TxViewAt(s, tx', w, k);
      } else {
        SameStackSameRow(s, tx, tx', w, x);
      }
    }
  }

  ghost function Changed(t: Table, k: Key, r: Option<seq<Cell>>): Table {
    if r.Some? then t[k := r.value] else t - {k}
  }

  lemma PutStacks(s: Store, tx: Tx, k: Key, cells: seq<Cell>, check: bool, x: Key)
    ensures TxStack(s, Put(s, tx, k, cells, check), x) ==
            if x == k then [Version(cells, false)] + BaseStack(s, tx, k) else TxStack(s, tx, x)
  {
  }

  lemma PutView(s: Store, tx: Tx, k: Key, cells: seq<Cell>, check: bool, w: nat)
    requires StoreInv(s, w) && TxInv(s, tx, w) && PutAllowed(TxView(s, tx, w), tx, k, cells, check, w)
    ensures TxView(s, Put(s, tx, k, cells, check), w) == Overlaid(TxView(s, tx, w), k, cells)
  {
    var tx' := Put(s, tx, k, cells, check);
    TxViewAt(s, tx, w, k);
    TxStackSound(s, tx, w, k);
    assert k !in tx.overlay ==> TxStack(s, tx, k) == BaseStack(s, tx, k);
    PutResolves(cells, BaseStack(s, tx, k), w);
    forall x ensures x == k ==> TxStack(s, tx', x) == [Version(cells, false)] + BaseStack(s, tx, k)
             ensures x != k ==> TxStack(s, tx', x) == TxStack(s, tx, x)
    {
      PutStacks(s, tx, k, cells, check, x);
    }
    OneKeyView(s, tx, tx', k, w);
  }

  lemma PutOverlay(s: Store, tx: Tx, k: Key, cells: seq<Cell>, check: bool, w: nat, x: Key)
    requires MemInv(s) && |cells| == w && ([] in cells ==> Alive(BaseStack(s, tx, k)))
    requires x in tx.overlay ==> OverlaySound(s, tx, x, w)
    requires x in Put(s, tx, k, cells, check).overlay
    ensures OverlaySound(Allocated(s, 1), Put(s, tx, k, cells, check), x, w)
  {
    AllocStack(s, tx, 1, x);
    assert BaseStack(Allocated(s, 1), Put(s, tx, k, cells, check), x) == BaseStack(s, tx, x);
  }

  lemma PutHint(s: Store, tx: Tx, k: Key, cells: seq<Cell>, check: bool)
    requires TxHintSound(tx)
    ensures TxHintSound(Put(s, tx, k, cells, check))
  {
  }

  lemma PutKeeps(s: Store, tx: Tx, k: Key, cells: seq<Cell>, check: bool, w: nat)
    requires StoreInv(s, w) && TxInv(s, tx, w) && PutAllowed(TxView(s, tx, w), tx, k, cells, check, w)
    ensures forall x :: x in Put(s, tx, k, cells, check).overlay ==>
      OverlaySound(Allocated(s, 1), Put(s, tx, k, cells, check), x, w)
    ensures k in TxView(s, tx, w) <==> Alive(TxStack(s, tx, k))
  {
    TxViewAt(s, tx, w, k);
    assert k !in tx.overlay ==> TxStack(s, tx, k) == BaseStack(s, tx, k);
    forall x | x in Put(s, tx, k, cells, check).overlay
      ensures OverlaySound(Allocated(s, 1), Put(s, tx, k, cells, check), x, w)
    {
      PutOverlay(s, tx, k, cells, check, w, x);
    }
  }

  /** A put is an update of the table the transaction sees, and keeps its live count exact. */
  lemma PutUpdates(s: Store, tx: Tx, k: Key, cells: seq<Cell>, check: bool, base: Table, t: Table, w: nat)
    requires Sees(s, tx, base, t, w) && PutAllowed(t, tx, k, cells, check, w)
    ensures Sees(Allocated(s, 1), Put(s, tx, k, cells, check), base, Overlaid(t, k, cells), w)
  {
    hide View;
    hide TxView;
    hide OverlaySound;
    var s', tx' := Allocated(s, 1), Put(s, tx, k, cells, check);
    AllocInv(s, 1, w);
    AllocView(s, tx', 1, w);
    PutView(s, tx, k, cells, check, w);
    PutHint(s, tx, k, cells, check);
    PutKeeps(s, tx, k, cells, check, w);
    OverlaidSize(t, k, cells);
    assert BaseView(s', tx', w) == BaseView(s, tx', w) == BaseView(s, tx, w);
    assert tx'.delta == tx.delta + if k in t then 0 else 1;
    assert TxInv(s', tx', w);
  }

  /**
   Without the existence probe a put is the same update, but the live count misses a key
   that was not live.
   */
  lemma PutDrifts(s: Store, tx: Tx, k: Key, cells: seq<Cell>, check: bool, base: Table, t: Table, w: nat)
    requires Sees(s, tx, base, t, w) && |cells| == w && ([] in cells ==> k !in tx.overlay && k in t)
    ensures var tx' := Put(s, tx, k, cells, check);
            && TxView(s, tx', w) == Overlaid(t, k, cells)
            && |TxView(s, tx', w)| - |BaseView(s, tx', w)| - tx'.delta == if check || k in t then 0 else 1
  {
    hide View;
    hide TxView;
    hide StoreInv;
    var tx', probed := Put(s, tx, k, cells, check), Put(s, tx, k, cells, true);
    PutView(s, tx, k, cells, true, w);
    PutKeeps(s, tx, k, cells, true, w);
    OverlaidSize(t, k, cells);
    SameOverlayView(s, tx', probed, w);
  }

  lemma SameOverlayView(s: Store, tx: Tx, tx': Tx, w: nat)
    requires tx.overlay == tx'.overlay && tx.cleared == tx'.cleared
    ensures TxView(s, tx, w) == TxView(s, tx', w) && BaseView(s, tx, w) == BaseView(s, tx', w)
  {
    forall k ensures Alike(TxStack(s, tx, k), TxStack(s, tx', k), w) {
      assert TxStack(s, tx, k) == TxStack(s, tx', k);
    }
    SameTxView(s, tx, s, tx', w);
  }

  lemma OverlaidSize(t: Table, k: Key, cells: seq<Cell>)
    requires [] in cells ==> k in t
    ensures |Overlaid(t, k, cells)| == |t| + if k in t then 0 else 1
  {
  }

  // ----- Delete and clear -----

  /** A delete is safe for the insertion-order hint unless the hint is live and lists the key. */
  ghost predicate DeleteAllowed(tx: Tx, k: Key) {
    k !in tx.overlay || |tx.hint| != |tx.overlay|
  }

  lemma DeleteView(s: Store, tx: Tx, k: Key, w: nat)
    requires TxInv(s, tx, w)
    ensures k in TxView(s, tx, w) <==> Alive(TxStack(s, tx, k))
    ensures TxView(s, Delete(s, tx, k), w) == TxView(s, tx, w) - {k}
  {
    var tx' := Delete(s, tx, k);
    TxViewAt(s, tx, w, k);
    forall x ensures x != k ==> TxStack(s, tx', x) == TxStack(s, tx, x) {
    }
    OneKeyView(s, tx, tx', k, w);
  }

  lemma DeleteOverlay(s: Store, tx: Tx, k: Key, w: nat, x: Key)
    requires MemInv(s) && x in Delete(s, tx, k).overlay
    requires x in tx.overlay ==> OverlaySound(s, tx, x, w)
    ensures OverlaySound(Allocated(s, 1), Delete(s, tx, k), x, w)
  {
    AllocStack(s, tx, 1, x);
    assert BaseStack(Allocated(s, 1), Delete(s, tx, k), x) == BaseStack(s, tx, x);
  }

  /** Deleting keeps the hint sound exactly when the delete is allowed. */
  lemma DeleteHint(s: Store, tx: Tx, k: Key)
    requires TxHintSound(tx) && forall r :: r in tx.hint ==> r.addr < s.nextAddr
    ensures TxHintSound(Delete(s, tx, k)) <==> DeleteAllowed(tx, k)
  {
    var tx' := Delete(s, tx, k);
    if !DeleteAllowed(tx, k) {
      assert tx'.overlay.Keys == tx.overlay.Keys;
      assert |tx'.overlay| == |tx.overlay|;
      assert tx'.overlay[k] !in tx.hint;
    }
  }

  lemma DeleteKeeps(s: Store, tx: Tx, k: Key, w: nat)
    requires StoreInv(s, w) && TxInv(s, tx, w)
    ensures forall x :: x in Delete(s, tx, k).overlay ==> OverlaySound(Allocated(s, 1), Delete(s, tx, k), x, w)
  {
    forall x | x in Delete(s, tx, k).overlay ensures OverlaySound(Allocated(s, 1), Delete(s, tx, k), x, w) {
      DeleteOverlay(s, tx, k, w, x);
    }
  }

  lemma DeleteUpdates(s: Store, tx: Tx, k: Key, base: Table, t: Table, w: nat)
    requires Sees(s, tx, base, t, w) && DeleteAllowed(tx, k)
    ensures Sees(Allocated(s, 1), Delete(s, tx, k), base, t - {k}, w)
  {
    hide View;
    hide TxView;
    hide OverlaySound;
    var s', tx' := Allocated(s, 1), Delete(s, tx, k);
    AllocInv(s, 1, w);
    AllocView(s, tx', 1, w);
    DeleteView(s, tx, k, w);
    DeleteKeeps(s, tx, k, w);
    RemovedSize(t, k);
    assert TxHintSound(tx');
    assert BaseView(s', tx', w) == BaseView(s, tx', w) == BaseView(s, tx, w);
    assert tx'.delta == tx.delta - if k in t then 1 else 0;
    assert TxInv(s', tx', w);
  }

  lemma RemovedSize(t: Table, k: Key)
    ensures |t - {k}| == |t| - if k in t then 1 else 0
  {
    if k in t {
      assert (t - {k})[k := t[k]] == t;
    } else {
      assert t - {k} == t;
    }
  }

  lemma ClearUpdates(s: Store, tx: Tx, base: Table, t: Table, w: nat)
    requires Sees(s, tx, base, t, w)
    ensures Sees(s, Clear(tx), base, map[], w)
  {
    ClearedView(s, tx, w);
  }

  lemma ClearedView(s: Store, tx: Tx, w: nat)
    ensures TxView(s, Clear(tx), w) == map[] && TxInv(s, Clear(tx), w)
  {
    forall k ensures k !in TxView(s, Clear(tx), w) {
      TxViewAt(s, Clear(tx), w, k);
      assert TxStack(s, Clear(tx), k) == [];
    }
    assert TxView(s, Clear(tx), w) == map[];
  }

  // ----- Constant-range update -----

  /** The keys a keys-only walk of the window yields: the live ones, ascending. */
  ghost function WindowKeys(t: Table, lo: Option<Key>, hi: Option<Key>): seq<Key> {
    Ascending(set k | k in t && InWindow(k, lo, hi))
  }

  ghost function OverlaidAll(t: Table, ks: seq<Key>, cells: seq<Cell>): Table
    requires forall k :: k in ks ==> k in t
    decreases ks
  {
    if ks == [] then t else OverlaidAll(Overlaid(t, ks[0], cells), ks[1..], cells)
  }

  /** A batch of rows over live keys this transaction has not written. */
  lemma {:induction false} PutAllUpdates(s: Store, tx: Tx, ks: seq<Key>, cells: seq<Cell>, base: Table, t: Table, w: nat)
    requires Sees(s, tx, base, t, w) && |cells| == w
    requires Increasing(ks) && forall k :: k in ks ==> k in t && k !in tx.overlay
    ensures Sees(Allocated(s, |ks|), PutAll(s, tx, ks, cells), base, OverlaidAll(t, ks, cells), w)
    decreases ks
  {
    if ks == [] {
      assert Allocated(s, 0) == s;
    } else {
      var k := ks[0];
      var s1, tx1 := Allocated(s, 1), Put(s, tx, k, cells, false);
      PutAllStep(s, tx, ks, cells, t);
      PutUpdates(s, tx, k, cells, false, base, t, w);
      RestUntouched(ks, tx, tx1, k);
      PutAllUpdates(s1, tx1, ks[1..], cells, base, Overlaid(t, k, cells), w);
    }
  }

  lemma PutAllStep(s: Store, tx: Tx, ks: seq<Key>, cells: seq<Cell>, t: Table)
    requires ks != [] && forall k :: k in ks ==> k in t
    ensures Allocated(Allocated(s, 1), |ks[1..]|) == Allocated(s, |ks|)
    ensures PutAll(s, tx, ks, cells) == PutAll(Allocated(s, 1), Put(s, tx, ks[0], cells, false), ks[1..], cells)
    ensures ks[0] in ks && forall k :: k in ks[1..] ==> k in Overlaid(t, ks[0], cells)
    ensures OverlaidAll(t, ks, cells) == OverlaidAll(Overlaid(t, ks[0], cells), ks[1..], cells)
  {
    assert ks[0] in ks && forall x :: x in ks[1..] ==> x in ks;
  }

  lemma RestUntouched(ks: seq<Key>, tx: Tx, tx1: Tx, k: Key)
    requires ks != [] && k == ks[0] && Increasing(ks)
    requires forall x :: x in ks ==> x !in tx.overlay
    requires forall x :: x in tx1.overlay ==> x == k || x in tx.overlay
    ensures Increasing(ks[1..]) && forall x :: x in ks[1..] ==> x !in tx1.overlay
  {
    forall x | x in ks[1..] ensures x !in tx1.overlay {
      var i :| 0 <= i < |ks[1..]| && ks[1..][i] == x;
      assert Less(ks[0], ks[i + 1]);
      LessIrreflexive(k);
    }
  }

  /** What a constant-range update means: every row of the window gets the assigned columns. */
  ghost function Assigned(t: Table, cells: seq<Cell>, lo: Option<Key>, hi: Option<Key>): Table {
    map k | k in t :: if InWindow(k, lo, hi) then Assign(cells, t[k]) else t[k]
  }

  lemma {:induction false} OverlaidAllAt(t: Table, ks: seq<Key>, cells: seq<Cell>, x: Key)
    requires Increasing(ks) && forall k :: k in ks ==> k in t
    ensures x in OverlaidAll(t, ks, cells) <==> x in t
    ensures x in t ==> OverlaidAll(t, ks, cells)[x] == if x in ks then Assign(cells, t[x]) else t[x]
    decreases ks
  {
    if ks != [] {
      var k := ks[0];
      assert k in ks && forall y :: y in ks[1..] ==> y in ks;
      assert x in ks <==> x == k || x in ks[1..];
      forall i | 0 <= i < |ks[1..]| ensures ks[1..][i] != k {
        assert Less(ks[0], ks[i + 1]);
        LessIrreflexive(k);
      }
      OverlaidAllAt(Overlaid(t, k, cells), ks[1..], cells, x);
    }
  }

  /**
   A constant-range update assigns the given columns in exactly the rows of the
   window, provided the transaction has not written any of them before.
   */
  lemma UpdateRangeUpdates(s: Store, tx: Tx, cells: seq<Cell>, lo: Option<Key>, hi: Option<Key>, base: Table, t: Table, w: nat)
    requires Sees(s, tx, base, t, w) && |cells| == w
    requires forall k :: k in t && InWindow(k, lo, hi) ==> k !in tx.overlay
    ensures var ks := WindowKeys(t, lo, hi);
            Sees(Allocated(s, |ks|), PutAll(s, tx, ks, cells), base, Assigned(t, cells, lo, hi), w)
  {
    var ks := WindowKeys(t, lo, hi);
    assert forall k :: k in ks <==> k in t && InWindow(k, lo, hi);
    PutAllUpdates(s, tx, ks, cells, base, t, w);
    AssignedIs(t, cells, lo, hi);
  }

  lemma AssignedIs(t: Table, cells: seq<Cell>, lo: Option<Key>, hi: Option<Key>)
    ensures forall k :: k in WindowKeys(t, lo, hi) <==> k in t && InWindow(k, lo, hi)
    ensures OverlaidAll(t, WindowKeys(t, lo, hi), cells) == Assigned(t, cells, lo, hi)
  {
    hide InWindow;
    hide OverlaidAll;
    var ks := WindowKeys(t, lo, hi);
    var a, b := OverlaidAll(t, ks, cells), Assigned(t, cells, lo, hi);
    forall x ensures x in a <==> x in b ensures x in a ==> a[x] == b[x] {
      OverlaidAllAt(t, ks, cells, x);
    }
  }
}
