/**
 Where the code of a CSTORE2 table departs from a plain map, with the exact extent
 of each departure: a clear while a flush is in flight, a delete after a put, and a
 partial row over an uncommitted one.
 */
module MpartLimits {
  import opened Bytes
  import opened Wrappers
  import opened Versions
  import opened MpartModel
  import opened MpartSteps
  import opened MpartProofs
  import opened MpartTx

  // ----- A table cleared while an idle flush was in flight -----

  lemma {:induction false} AppendBelow(v: seq<Version>, r: Version, w: nat)
    requires Sound(v, w) && v != []
    ensures Alike(v, v + [r], w)
  {
    assert (v + [r])[1..] == v[1..] + [r];
    if v[1..] != [] {
      AppendBelow(v[1..], r, w);
    }
  }

  /** Every part now on disk was published after the job reserved `id`. */
  lemma OldestParts(ps: seq<Part>, p: Part)
    requires PartsInOrder(ps) && forall q :: q in ps ==> p.id < q.id
    ensures SortParts(ps + [p]) == [p] + ps
  {
    assert ps == [] + ps && ps + [p] == [] + ps + [p] && [p] + ps == [] + [p] + ps;
    SortPublished([], p, ps);
  }

  lemma OldestPart(t: Store, rows: map<Key, MemRow>, memAddr: nat, id: nat, k: Key)
    requires PartsInv(t) && Keyed(rows) && (forall p :: p in t.parts ==> id < p.id)
    requires !(k in rows && StillThere(t, rows[k]))
    ensures Stack(Published(t, memAddr, rows, id, true), k) == Stack(t, k) + VersIn(rows, k)
  {
    hide PartStack;
    hide Published;
    hide RowsOf;
    hide Find;
    hide PartsInv;
    hide VersIn;
    hide MemRows;
    hide StillThere;
    var p := Part(id, RowsOf(rows));
    PublishedOldest(t, rows, memAddr, id);
    PartStackConcat([p], t.parts, k);
    SinglePart(p, k);
    FindRowsOf(rows, k);
    KeptRow(t, rows, memAddr, id, k);
  }

  lemma SinglePart(p: Part, k: Key)
    ensures PartStack([p], k) == Find(p.rows, k)
  {
    assert PartStack([p], k) == PartStack([], k) + Find(p.rows, k);
  }

  lemma PublishedOldest(t: Store, rows: map<Key, MemRow>, memAddr: nat, id: nat)
    requires PartsInv(t) && Keyed(rows) && (forall p :: p in t.parts ==> id < p.id)
    ensures Published(t, memAddr, rows, id, true).parts == [Part(id, RowsOf(rows))] + t.parts
  {
    hide RowsOf;
    hide Minus;
    OldestParts(t.parts, Part(id, RowsOf(rows)));
  }

  lemma KeptRow(t: Store, rows: map<Key, MemRow>, memAddr: nat, id: nat, k: Key)
    requires Keyed(rows) && !(k in rows && StillThere(t, rows[k]))
    ensures VersIn(MemRows(Published(t, memAddr, rows, id, true)), k) == VersIn(MemRows(t), k)
  {
  }

  lemma RevivedAt(t: Store, rows: map<Key, MemRow>, memAddr: nat, id: nat, w: nat, k: Key)
    requires StoreInv(t, w) && Keyed(rows) && (forall p :: p in t.parts ==> id < p.id)
    requires !(k in rows && StillThere(t, rows[k]))
    ensures var u := Published(t, memAddr, rows, id, true);
            && (Stack(t, k) != [] || k !in rows ==> Alike(Stack(t, k), Stack(u, k), w))
            && (k in rows && Stack(t, k) == [] ==> Alive(Stack(u, k)) == !rows[k].row.ver.del)
  {
    hide Stack;
    hide Published;
    hide Sound;
    OldestPart(t, rows, memAddr, id, k);
    assert Sound(Stack(t, k), w);
    if k in rows && Stack(t, k) != [] {
      AppendBelow(Stack(t, k), rows[k].row.ver, w);
    } else {
      assert k !in rows ==> Stack(t, k) + VersIn(rows, k) == Stack(t, k);
    }
  }

  /**
   Publishing the part of an idle flush over a table that was cleared since its rows
   were taken brings back exactly the live rows that nothing newer hides: the table
   is unchanged if and only if there are none.
   */
  lemma PublishAfterClear(t: Store, rows: map<Key, MemRow>, memAddr: nat, id: nat, w: nat)
    requires StoreInv(t, w) && Keyed(rows) && (forall p :: p in t.parts ==> id < p.id)
    requires forall k :: k in rows ==> !StillThere(t, rows[k])
    ensures View(Published(t, memAddr, rows, id, true), w) == View(t, w) <==>
            forall k :: k in rows && !rows[k].row.ver.del ==> Stack(t, k) != []
  {
    var u := Published(t, memAddr, rows, id, true);
    if forall k :: k in rows && !rows[k].row.ver.del ==> Stack(t, k) != [] {
      forall k ensures Alike(Stack(t, k), Stack(u, k), w) {
        RevivedAt(t, rows, memAddr, id, w, k);
      }
      SameView(t, u, w);
    } else {
      var k :| k in rows && !rows[k].row.ver.del && Stack(t, k) == [];
      RevivedAt(t, rows, memAddr, id, w, k);
      ViewAt(t, w, k);
      ViewAt(u, w, k);
    }
  }

  // ----- A delete after a put in one transaction -----

  /** A hinted row is live, and still the row of the overlay unless that was deleted since. */
  ghost predicate HintRow(tx: Tx, r: MemRow) {
    var k := r.row.pk;
    !r.row.ver.del && k in tx.overlay && (tx.overlay[k] == r || tx.overlay[k].row.ver.del)
  }

  /** What every transaction knows of its hint, whatever it puts and deletes. */
  ghost predicate HintKnown(tx: Tx) {
    && |tx.hint| <= |tx.overlay|
    && (|tx.hint| == |tx.overlay| ==> forall r :: r in tx.hint ==> HintRow(tx, r))
  }

  lemma HintStaysKnown(s: Store, tx: Tx, k: Key, cells: seq<Cell>, check: bool)
    requires HintKnown(tx)
    ensures HintKnown(Put(s, tx, k, cells, check)) && HintKnown(Delete(s, tx, k)) && HintKnown(Clear(tx)) && HintKnown(EMPTY_TX)
  {
    PutKnown(s, tx, k, cells, check);
    DeleteKnown(s, tx, k);
  }

  lemma PutKnown(s: Store, tx: Tx, k: Key, cells: seq<Cell>, check: bool)
    requires HintKnown(tx)
    ensures HintKnown(Put(s, tx, k, cells, check))
  {
    var tx' := Put(s, tx, k, cells, check);
    if |tx'.hint| == |tx'.overlay| {
      assert k !in tx.overlay;
      forall r | r in tx'.hint ensures HintRow(tx', r) {
        assert r in tx.hint ==> HintRow(tx, r);
      }
    }
  }

  lemma DeleteKnown(s: Store, tx: Tx, k: Key)
    requires HintKnown(tx)
    ensures HintKnown(Delete(s, tx, k))
  {
    var tx' := Delete(s, tx, k);
    if |tx'.hint| == |tx'.overlay| {
      assert k in tx.overlay && |tx'.overlay| == |tx.overlay| by {
        assert k in tx.overlay ==> tx'.overlay.Keys == tx.overlay.Keys;
        assert k !in tx.overlay ==> |tx'.overlay| == |tx.overlay| + 1;
      }
      forall r | r in tx'.hint ensures HintRow(tx', r) {
        assert HintRow(tx, r);
      }
    }
  }

  /** What a transaction needs to be read, hint aside. */
  ghost predicate TxReadable(s: Store, tx: Tx, w: nat) {
    forall k :: k in tx.overlay ==> OverlaySound(s, tx, k, w)
  }

  /** The commit hands the hint on, and the next flush takes it at its word. */
  ghost predicate HintTaken(s: Store, tx: Tx) {
    && (tx.cleared || MemRows(s) == map[])
    && tx.overlay != map[] && |tx.hint| == |tx.overlay| && KeysIncreasing(Plain(tx.hint))
  }

  ghost predicate HasTombstone(tx: Tx) {
    exists k :: k in tx.overlay && tx.overlay[k].row.ver.del
  }

  /** A hint taken at its word lists the keys of the overlay. */
  lemma HintKeys(tx: Tx)
    requires HintKnown(tx) && |tx.hint| == |tx.overlay| && KeysIncreasing(Plain(tx.hint))
    ensures forall k :: k in tx.overlay ==> exists i :: 0 <= i < |tx.hint| && tx.hint[i].row.pk == k
  {
    var ks := set i | 0 <= i < |tx.hint| :: tx.hint[i].row.pk;
    ListKeyCount(tx.hint);
    forall k | k in ks ensures k in tx.overlay.Keys {
      var i :| 0 <= i < |tx.hint| && tx.hint[i].row.pk == k;
      assert HintRow(tx, tx.hint[i]);
    }
    SubsetFull(ks, tx.overlay.Keys);
  }

  /** What the flush writes of a key in place of what the transaction saw. */
  lemma HintedVersion(tx: Tx, k: Key)
    requires HintKnown(tx) && |tx.hint| == |tx.overlay| && KeysIncreasing(Plain(tx.hint)) && Keyed(tx.overlay)
    ensures var h := Find(Plain(tx.hint), k);
            if k in tx.overlay then |h| == 1 && !h[0].del && (h == VersIn(tx.overlay, k) || tx.overlay[k].row.ver.del) else h == []
  {
    HintKeys(tx);
    if k in tx.overlay {
      var i :| 0 <= i < |tx.hint| && tx.hint[i].row.pk == k;
      FindAt(Plain(tx.hint), i);
    }
    if Find(Plain(tx.hint), k) != [] {
      var i := FindIndex(Plain(tx.hint), k);
      assert HintRow(tx, tx.hint[i]);
    }
  }

  lemma FlushTwice(s: Store)
    ensures Flushed(Flushed(s)) == Flushed(s)
  {
  }

  lemma CountUnseen(s: Store, n: int, w: nat)
    ensures View(s.(count := n), w) == View(s, w)
  {
    var t := s.(count := n);
    forall k ensures Alike(Stack(s, k), Stack(t, k), w) {
      assert Stack(s, k) == Stack(t, k);
    }
    SameView(s, t, w);
  }

  /** After a commit and the next flush the table is the flushed fold, whichever of the two flushed. */
  lemma CommittedFlushed(s: Store, tx: Tx, w: nat)
    requires !tx.cleared
    ensures View(Flushed(Committed(s, tx)), w) == View(Flushed(Fold(s, tx)), w)
  {
    hide Flushed;
    hide Fold;
    hide View;
    var f, n := Fold(s, tx), Fold(s, tx).count + tx.delta;
    CommittedIs(s, tx);
    FlushTwice(f.(count := n));
    FlushIgnoresCount(f, n);
    CountUnseen(Flushed(f), n, w);
  }

  lemma HintNotTaken(s: Store, tx: Tx, w: nat)
    requires StoreInv(s, w) && TxReadable(s, tx, w) && !tx.cleared && !HintTaken(s, tx)
    ensures View(Flushed(Fold(s, tx)), w) == TxView(s, tx, w)
  {
    hide Stack;
    hide View;
    hide TxView;
    hide Flushed;
    hide Sound;
    var f := Fold(s, tx);
    forall k | k in tx.overlay ensures tx.overlay[k].row.pk == k && tx.overlay[k].addr < s.nextAddr {
      assert OverlaySound(s, tx, k, w);
    }
    FoldView(s, tx, w);
    if tx.overlay != map[] {
      FoldedKeyed(MemRows(s), tx.overlay, s.nextAddr);
      assert f.mem.value.hint == [];
    }
    FlushStacks(f, w);
    SameView(f, Flushed(f), w);
  }

  /** The fold and the stacks of a table whose hint is taken at its word. */
  lemma HintTakenStack(s: Store, tx: Tx, w: nat, k: Key)
    requires StoreInv(s, w) && Keyed(tx.overlay) && !tx.cleared && HintTaken(s, tx)
    ensures Stack(Flushed(Fold(s, tx)), k) == Find(Plain(tx.hint), k) + PartStack(s.parts, k)
    ensures TxStack(s, tx, k) == VersIn(tx.overlay, k) + PartStack(s.parts, k)
  {
    hide Flushed;
    hide Fold;
    hide PartStack;
    hide Find;
    hide KeysIncreasing;
    var f := Fold(s, tx);
    TakenFlush(s, tx);
    PartStackAppend(s.parts, FlushPart(f), k);
  }

  lemma TakenFlush(s: Store, tx: Tx)
    requires PartsInv(s) && HintTaken(s, tx) && !tx.cleared
    ensures var f := Fold(s, tx);
            && f.mem.Some? && FlushPart(f).rows == Plain(tx.hint)
            && Flushed(f).parts == s.parts + [FlushPart(f)] && MemRows(Flushed(f)) == map[]
  {
    var f := Fold(s, tx);
    FoldTaken(s, tx);
    hide Fold;
    AppendInOrder(s.parts, FlushPart(f));
  }

  lemma FoldTaken(s: Store, tx: Tx)
    requires HintTaken(s, tx) && !tx.cleared
    ensures var f := Fold(s, tx);
            && f.mem.Some? && f.mem.value.rows == tx.overlay && SortedRows(f.mem.value) == tx.hint
            && f.parts == s.parts && f.nextID == s.nextID
  {
    hide KeysIncreasing;
    FoldedOverNothing(tx.overlay);
  }

  lemma FoldedOverNothing(overlay: map<Key, MemRow>)
    ensures FoldedRows(map[], overlay) == overlay
  {
    assert forall k :: k in overlay ==> Folded(overlay[k], map[]) == overlay[k];
  }

  lemma HintTakenAt(s: Store, tx: Tx, w: nat, k: Key)
    requires StoreInv(s, w) && Keyed(tx.overlay) && HintKnown(tx) && !tx.cleared && HintTaken(s, tx)
    ensures k in tx.overlay && tx.overlay[k].row.ver.del ==> !Alive(TxStack(s, tx, k)) && Alive(Stack(Flushed(Fold(s, tx)), k))
    ensures !(k in tx.overlay && tx.overlay[k].row.ver.del) ==> TxStack(s, tx, k) == Stack(Flushed(Fold(s, tx)), k)
  {
    HintTakenStack(s, tx, w, k);
    HintedVersion(tx, k);
  }

  lemma HintFlushed(s: Store, tx: Tx, w: nat)
    requires StoreInv(s, w) && Keyed(tx.overlay) && HintKnown(tx) && !tx.cleared && HintTaken(s, tx)
    ensures View(Flushed(Fold(s, tx)), w) == TxView(s, tx, w) <==> !HasTombstone(tx)
  {
    hide Flushed;
    hide Fold;
    hide HintTaken;
    hide StoreInv;
    hide TxView;
    hide View;
    hide TxStack;
    hide Stack;
    var u := Flushed(Fold(s, tx));
    if HasTombstone(tx) {
      var k :| k in tx.overlay && tx.overlay[k].row.ver.del;
      HintTakenAt(s, tx, w, k);
      ViewAt(u, w, k);
      TxViewAt(s, tx, w, k);
    } else {
      forall k
        ensures k in View(u, w) <==> k in TxView(s, tx, w)
        ensures k in View(u, w) ==> View(u, w)[k] == TxView(s, tx, w)[k]
      {
        HintSameAt(s, tx, w, k);
      }
    }
  }

  lemma HintSameAt(s: Store, tx: Tx, w: nat, k: Key)
    requires StoreInv(s, w) && Keyed(tx.overlay) && HintKnown(tx) && !tx.cleared && HintTaken(s, tx)
    requires !(k in tx.overlay && tx.overlay[k].row.ver.del)
    ensures var u := Flushed(Fold(s, tx));
            (k in View(u, w) <==> k in TxView(s, tx, w)) && (k in View(u, w) ==> View(u, w)[k] == TxView(s, tx, w)[k])
  {
    hide Flushed;
    hide Fold;
    hide HintTaken;
    hide StoreInv;
    hide TxView;
    hide View;
    hide TxStack;
    hide Stack;
    HintTakenAt(s, tx, w, k);
    ViewAt(Flushed(Fold(s, tx)), w, k);
    TxViewAt(s, tx, w, k);
  }

  lemma ClearedReadable(s: Store, tx: Tx, w: nat)
    requires StoreInv(s, w) && TxReadable(s, tx, w) && tx.cleared
    ensures var b, tx' := Dropped(s), tx.(cleared := false);
            && StoreInv(b, w) && TxReadable(b, tx', w) && TxView(b, tx', w) == TxView(s, tx, w)
            && Committed(s, tx) == Committed(b, tx')
  {
    var b, tx' := Dropped(s), tx.(cleared := false);
    DroppedInv(s, w);
    CommittedCleared(s, tx);
    forall k ensures Alike(TxStack(b, tx', k), TxStack(s, tx, k), w) {
      ClearedStack(s, tx, k);
    }
    SameTxView(b, tx', s, tx, w);
    forall k | k in tx.overlay ensures OverlaySound(b, tx', k, w) {
      assert OverlaySound(s, tx, k, w);
      ClearedStack(s, tx, k);
    }
  }

  /**
   A commit and the next flush leave the table its transaction saw, whatever it put and
   deleted, unless the memory part was empty, every key of the overlay came from one put
   in ascending order, and one of these was deleted afterwards.
   */
  lemma DeletedRowsReturn(s: Store, tx: Tx, w: nat)
    requires StoreInv(s, w) && TxReadable(s, tx, w) && HintKnown(tx)
    ensures View(Flushed(Committed(s, tx)), w) == TxView(s, tx, w) <==> !(HintTaken(s, tx) && HasTombstone(tx))
  {
    hide StoreInv;
    hide View;
    hide TxView;
    hide Committed;
    hide Flushed;
    hide OverlaySound;
    hide KeysIncreasing;
    if tx.cleared {
      ClearedReadable(s, tx, w);
      DeletedRowsOpen(Dropped(s), tx.(cleared := false), w);
    } else {
      DeletedRowsOpen(s, tx, w);
    }
  }

  lemma DeletedRowsOpen(s: Store, tx: Tx, w: nat)
    requires StoreInv(s, w) && TxReadable(s, tx, w) && HintKnown(tx) && !tx.cleared
    ensures View(Flushed(Committed(s, tx)), w) == TxView(s, tx, w) <==> !(HintTaken(s, tx) && HasTombstone(tx))
  {
    hide StoreInv;
    hide View;
    hide TxView;
    hide Committed;
    hide Flushed;
    hide HintTaken;
    hide HasTombstone;
    CommittedFlushed(s, tx, w);
    if HintTaken(s, tx) {
      forall k | k in tx.overlay ensures tx.overlay[k].row.pk == k {
        assert OverlaySound(s, tx, k, w);
      }
      HintFlushed(s, tx, w);
    } else {
      HintNotTaken(s, tx, w);
    }
  }

  /** The shortest such transaction: a key put into an empty table and deleted again. */
  lemma DeletedRowReturns(k: Key, c: Cell)
    requires c != []
    ensures var s0 := Store(None, [], 0, 0, 0);
            var put := Put(s0, EMPTY_TX, k, [c], true);
            var tx := Delete(Allocated(s0, 1), put, k);
            && !DeleteAllowed(put, k) && HintTaken(Allocated(s0, 2), tx) && HasTombstone(tx)
            && k !in TxView(Allocated(s0, 2), tx, 1)
  {
    var s0 := Store(None, [], 0, 0, 0);
    var r := MemRow(0, Row(k, Version([c], false)));
    var d := MemRow(1, Row(k, Version([], true)));
    var tx1 := Put(s0, EMPTY_TX, k, [c], true);
    assert tx1.overlay == map[k := r] && tx1.hint == [] + [r] == [r];
    var tx := Delete(Allocated(s0, 1), tx1, k);
    assert tx.overlay == map[k := d] && tx.hint == [r];
    TxViewAt(Allocated(s0, 2), tx, 1, k);
    assert TxStack(Allocated(s0, 2), tx, k)[0] == d.row.ver;
  }

  // ----- A partial row over an uncommitted one -----

  /**
   A partial row written over a row the same transaction put inherits from the
   committed row instead: the result is right if and only if the committed row has
   the uncommitted values in every untouched column.
   */
  lemma PartialOverUncommitted(s: Store, tx: Tx, k: Key, cells: seq<Cell>, w: nat)
    requires StoreInv(s, w) && TxInv(s, tx, w) && !tx.cleared
    requires k in tx.overlay && Full(tx.overlay[k].row.ver)
    requires |cells| == w && [] in cells && Alive(Stack(s, k))
    ensures k in View(s, w) && k in TxView(s, tx, w) && |View(s, w)[k]| == w
    ensures TxView(s, Put(s, tx, k, cells, false), w) == Overlaid(TxView(s, tx, w), k, cells) <==>
            forall c :: 0 <= c < w && cells[c] == [] ==> tx.overlay[k].row.ver.cells[c] == View(s, w)[k][c]
  {
    var own, tx' := tx.overlay[k].row.ver, Put(s, tx, k, cells, false);
    UncommittedRow(s, tx, k, w);
    var t, base := TxView(s, tx, w), View(s, w)[k];
    PutResolves(cells, Stack(s, k), w);
    forall x ensures x == k ==> TxStack(s, tx', x) == [Version(cells, false)] + Stack(s, k)
             ensures x != k ==> TxStack(s, tx', x) == TxStack(s, tx, x)
    {
      PutStacks(s, tx, k, cells, false, x);
    }
    OneKeyView(s, tx, tx', k, w);
    assert TxView(s, tx', w) == t[k := Filled(cells, base)];
    FilledSame(cells, base, own.cells, w);
    assert t[k := Filled(cells, base)][k] == Filled(cells, base);
    assert Overlaid(t, k, cells)[k] == Filled(cells, own.cells);
  }

  lemma UncommittedRow(s: Store, tx: Tx, k: Key, w: nat)
    requires StoreInv(s, w) && TxInv(s, tx, w) && !tx.cleared
    requires k in tx.overlay && Full(tx.overlay[k].row.ver) && Alive(Stack(s, k))
    ensures Sound(Stack(s, k), w)
    ensures k in View(s, w) && Some(View(s, w)[k]) == Resolve(Stack(s, k), w) && |View(s, w)[k]| == w
    ensures k in TxView(s, tx, w) && TxView(s, tx, w)[k] == tx.overlay[k].row.ver.cells
    ensures |tx.overlay[k].row.ver.cells| == w
  {
    var own := tx.overlay[k].row.ver;
    assert OverlaySound(s, tx, k, w) && Sound(Stack(s, k), w);
    ViewAt(s, w, k);
    TxViewAt(s, tx, w, k);
    PutResolves(own.cells, Stack(s, k), w);
    assert own == Version(own.cells, false);
  }

  lemma FilledSame(cells: seq<Cell>, a: seq<Cell>, b: seq<Cell>, w: nat)
    requires |cells| == |a| == |b| == w
    ensures Filled(cells, a) == Filled(cells, b) <==> forall c :: 0 <= c < w && cells[c] == [] ==> b[c] == a[c]
  {
    if Filled(cells, a) == Filled(cells, b) {
      forall c | 0 <= c < w && cells[c] == [] ensures b[c] == a[c] {
        assert Filled(cells, a)[c] == Filled(cells, b)[c];
      }
    }
  }
}
