/**
 Transactions on the column store: row writes and deletes as updates of the rows the
 transaction sees, and the live-row counter that follows them.
 */
module CStoreTxns {
  import opened Bytes
  import opened Endian
  import opened Wrappers
  import opened Versions
  import opened KvStore
  import opened CStore

  /** A committed counter: absent is zero. */
  function CountOf(m: Contents, t: Key): int {
    Decode(At(m, CountKey(t)))
  }

  /** Every marker counts few enough columns for their four-byte numbers. */
  ghost predicate Sized(m: Contents) {
    forall t, pk :: TableName(t) && Live(m, t, pk) ==> Decode(At(m, RowKey(t, pk))) < Pow256(4)
  }

  // ----- What writing and deleting a row changes -----

  /** A marker and the first `n` cells written over `m0`. */
  ghost predicate RowWritten(m0: Contents, m: Contents, t: Key, pk: Key, marker: Key, cells: seq<Cell>, n: nat)
    requires n <= |cells|
  {
    && At(m, RowKey(t, pk)) == marker
    && (forall j :: 0 <= j < n ==> At(m, ColKey(t, j, pk)) == cells[j])
    && (forall k :: k != RowKey(t, pk) && (forall j :: 0 <= j < n ==> k != ColKey(t, j, pk)) ==> At(m, k) == At(m0, k))
  }

  /** A marker and the first `n` cells deleted from `m0`. */
  ghost predicate RowDropped(m0: Contents, m: Contents, t: Key, pk: Key, n: nat) {
    && RowKey(t, pk) !in m
    && (forall j :: 0 <= j < n ==> ColKey(t, j, pk) !in m)
    && (forall k :: k != RowKey(t, pk) && (forall j :: 0 <= j < n ==> k != ColKey(t, j, pk)) ==> SameAt(m0, m, k))
  }

  ghost predicate SameAt(m0: Contents, m: Contents, k: Key) {
    (k in m <==> k in m0) && At(m, k) == At(m0, k)
  }

  /** `k` is the marker of a row or one of the cells the marker counts. */
  ghost predicate OfRow(m0: Contents, t: Key, pk: Key, k: Key) {
    || k == RowKey(t, pk)
    || (Live(m0, t, pk) && exists i :: 0 <= i < Decode(At(m0, RowKey(t, pk))) && k == ColKey(t, i, pk))
  }

  /** The marker of a row and the cells it counted are gone, and nothing else is changed. */
  ghost predicate RowErased(m0: Contents, m: Contents, t: Key, pk: Key) {
    forall k :: if OfRow(m0, t, pk, k) then k !in m else SameAt(m0, m, k)
  }

  lemma DroppedErases(m0: Contents, m: Contents, t: Key, pk: Key, n: nat)
    requires n == (if Live(m0, t, pk) then Decode(At(m0, RowKey(t, pk))) else 0) && RowDropped(m0, m, t, pk, n)
    ensures RowErased(m0, m, t, pk)
  {
    hide RowKey;
    hide ColKey;
    hide Decode;
    hide At;
    hide Live;
  }

  /** Outside the markers and cells of a table nothing is changed. */
  ghost predicate OnlyTable(m0: Contents, m: Contents, t: Key) {
    forall k :: !Prefixed(RowPrefix(t), k) && !Prefixed(ColAllPrefix(t), k) ==> SameAt(m0, m, k)
  }

  lemma ErasedInTable(m0: Contents, m: Contents, m': Contents, t: Key, pk: Key)
    requires OnlyTable(m0, m, t) && RowErased(m, m', t, pk)
    ensures OnlyTable(m0, m', t)
  {
    hide Decode;
    hide At;
    forall k | OfRow(m, t, pk, k) ensures Prefixed(RowPrefix(t), k) || Prefixed(ColAllPrefix(t), k) {
      RowKeysPrefixed(t, pk);
    }
  }

  lemma RowKeysPrefixed(t: Key, pk: Key)
    ensures Prefixed(RowPrefix(t), RowKey(t, pk))
    ensures forall i: nat :: Prefixed(ColAllPrefix(t), ColKey(t, i, pk))
  {
    assert RowKey(t, pk)[..|RowPrefix(t)|] == RowPrefix(t);
    forall i: nat ensures Prefixed(ColAllPrefix(t), ColKey(t, i, pk)) {
      assert ColKey(t, i, pk)[..|ColAllPrefix(t)|] == ColAllPrefix(t);
    }
  }

  /** What stands under the keys of one row. */
  ghost predicate SameRow(m0: Contents, m: Contents, u: Key, q: Key) {
    && At(m, RowKey(u, q)) == At(m0, RowKey(u, q))
    && forall i :: 0 <= i < Decode(At(m, RowKey(u, q))) ==> At(m, ColKey(u, i, q)) == At(m0, ColKey(u, i, q))
  }

  lemma SameRowReads(m0: Contents, m: Contents, u: Key, q: Key)
    requires SameRow(m0, m, u, q)
    ensures Row(m, u, q) == Row(m0, u, q) && Live(m, u, q) == Live(m0, u, q)
  {
    hide ColKey;
    hide RowKey;
    hide Decode;
    var n := Decode(At(m, RowKey(u, q)));
    assert seq(n, i requires 0 <= i < n => At(m, ColKey(u, i, q))) == seq(n, i requires 0 <= i < n => At(m0, ColKey(u, i, q)));
  }

  /** The keys of another row are not touched. */
  lemma OtherRow(m0: Contents, m: Contents, t: Key, pk: Key, n: nat, u: Key, q: Key)
    requires TableName(t) && TableName(u) && (u, q) != (t, pk) && n <= Pow256(4) && Sized(m0)
    requires forall k :: k != RowKey(t, pk) && (forall j :: 0 <= j < n ==> k != ColKey(t, j, pk)) ==> At(m, k) == At(m0, k)
    ensures SameRow(m0, m, u, q)
  {
    forall j | 0 <= j < n ensures RowKey(u, q) != ColKey(t, j, pk) {
      Tags(u, t, t, q, j, pk);
    }
    if RowKey(u, q) == RowKey(t, pk) {
      RowKeyApart(u, t, q, pk);
    }
    assert At(m, RowKey(u, q)) == At(m0, RowKey(u, q));
    var c := Decode(At(m, RowKey(u, q)));
    assert c > 0 ==> Live(m0, u, q);
    forall i | 0 <= i < c ensures At(m, ColKey(u, i, q)) == At(m0, ColKey(u, i, q)) {
      Tags(t, u, t, pk, i, q);
      forall j | 0 <= j < n ensures ColKey(u, i, q) != ColKey(t, j, pk) {
        if ColKey(u, i, q) == ColKey(t, j, pk) {
          ColKeyApart(u, i, q, t, j, pk);
        }
      }
    }
  }

  /** A marker counts the columns of its row. */
  lemma Marker(n: nat)
    requires n < Pow256(4)
    ensures Decode(BigEndian(n, 8)) == n
  {
    Pow256Of8();
    assert Pow256(4) == 0x1_0000_0000 by {
      assert Pow256(1) == 256;
      assert Pow256(2) == 0x1_0000;
      assert Pow256(3) == 0x100_0000;
    }
    DecodeBigEndian(n, 8);
  }

  lemma RowIs(m: Contents, t: Key, pk: Key, cells: seq<Cell>)
    requires At(m, RowKey(t, pk)) != [] && Decode(At(m, RowKey(t, pk))) == |cells| && [] !in cells
    requires forall j :: 0 <= j < |cells| ==> At(m, ColKey(t, j, pk)) == cells[j]
    ensures Row(m, t, pk) == Some(cells) && Live(m, t, pk)
  {
    hide ColKey;
    hide RowKey;
    hide Decode;
    forall i | 0 <= i < |cells| ensures At(m, ColKey(t, i, pk)) != [] {
      assert cells[i] in cells;
    }
    var n := |cells|;
    assert seq(n, i requires 0 <= i < n => At(m, ColKey(t, i, pk))) == cells;
  }

  /** Sizes hold after one row changed. */
  lemma StillSized(m0: Contents, m: Contents, t: Key, pk: Key)
    requires Sized(m0) && (Live(m, t, pk) ==> Decode(At(m, RowKey(t, pk))) < Pow256(4))
    requires forall u, q :: TableName(u) && (u, q) != (t, pk) ==> SameRow(m0, m, u, q)
    ensures Sized(m)
  {
    hide ColKey;
    hide RowKey;
    hide Decode;
    forall u, q | TableName(u) && Live(m, u, q) ensures Decode(At(m, RowKey(u, q))) < Pow256(4) {
      if (u, q) != (t, pk) {
        assert SameRow(m0, m, u, q);
        assert Live(m0, u, q);
      }
    }
  }

  lemma WrittenRow(m0: Contents, m: Contents, t: Key, pk: Key, cells: seq<Cell>)
    requires TableName(t) && |cells| < Pow256(4) && [] !in cells && Sized(m0)
    requires RowWritten(m0, m, t, pk, BigEndian(|cells|, 8), cells, |cells|)
    ensures Row(m, t, pk) == Some(cells) && Live(m, t, pk) && Sized(m)
    ensures forall u, q :: TableName(u) && (u, q) != (t, pk) ==> SameRow(m0, m, u, q)
  {
    hide Sized;
    hide Row;
    hide SameRow;
    Marker(|cells|);
    RowIs(m, t, pk, cells);
    forall u, q | TableName(u) && (u, q) != (t, pk) ensures SameRow(m0, m, u, q) {
      OtherRow(m0, m, t, pk, |cells|, u, q);
    }
    StillSized(m0, m, t, pk);
  }

  lemma DroppedRow(m0: Contents, m: Contents, t: Key, pk: Key, n: nat)
    requires TableName(t) && n <= Pow256(4) && Sized(m0) && RowDropped(m0, m, t, pk, n)
    ensures !Live(m, t, pk) && Sized(m)
    ensures forall u, q :: TableName(u) && (u, q) != (t, pk) ==> SameRow(m0, m, u, q)
  {
    hide Sized;
    hide SameRow;
    forall k | k != RowKey(t, pk) && (forall j :: 0 <= j < n ==> k != ColKey(t, j, pk)) ensures At(m, k) == At(m0, k) {
      assert SameAt(m0, m, k);
    }
    forall u, q | TableName(u) && (u, q) != (t, pk) ensures SameRow(m0, m, u, q) {
      OtherRow(m0, m, t, pk, n, u, q);
    }
    StillSized(m0, m, t, pk);
  }

  lemma DropCell(m0: Contents, m: Contents, t: Key, pk: Key, i: nat)
    requires RowDropped(m0, m, t, pk, i)
    ensures RowDropped(m0, m - {ColKey(t, i, pk)}, t, pk, i + 1)
  {
    hide ColKey;
    hide RowKey;
    var m' := m - {ColKey(t, i, pk)};
    forall k | k != RowKey(t, pk) && (forall j :: 0 <= j < i + 1 ==> k != ColKey(t, j, pk)) ensures SameAt(m0, m', k) {
      assert k != ColKey(t, i, pk);
      assert SameAt(m0, m, k);
    }
  }

  /** How many keys a table has when one of them may have changed. */
  lemma CountedOnce(m0: Contents, m: Contents, t: Key, pk: Key)
    requires forall q :: q != pk ==> Live(m, t, q) == Live(m0, t, q)
    ensures |LiveKeys(m, t)| - |LiveKeys(m0, t)| == (if Live(m, t, pk) then 1 else 0) - (if Live(m0, t, pk) then 1 else 0)
  {
    hide LiveKeys;
    hide Live;
    var a, b := LiveKeys(m0, t), LiveKeys(m, t);
    forall q ensures (q in b <==> Live(m, t, q)) && (q in a <==> Live(m0, t, q)) {
      LiveKey(m, t, q);
      LiveKey(m0, t, q);
    }
    assert a - {pk} == b - {pk};
    SizeWithout(a, pk);
    SizeWithout(b, pk);
  }

  lemma SizeWithout(s: set<Key>, x: Key)
    ensures |s| == |s - {x}| + if x in s then 1 else 0
  {
    if x in s {
      assert s == (s - {x}) + {x};
    } else {
      assert s == s - {x};
    }
  }

  lemma SameCount(m0: Contents, m: Contents, u: Key)
    requires forall q :: Live(m, u, q) == Live(m0, u, q)
    ensures LiveKeys(m, u) == LiveKeys(m0, u)
  {
    forall q ensures q in LiveKeys(m, u) <==> q in LiveKeys(m0, u) {
      LiveKey(m, u, q);
      LiveKey(m0, u, q);
    }
  }

  // ----- The transaction -----

  class CStoreTx {
    /** The store's contents at its newest revision. */
    var base: Contents
    var overlay: map<Key, Option<Key>>
    var ops: seq<Op>
    var counts: map<Key, int>

    constructor (m: Contents)
      ensures Valid() && base == m && ops == [] && counts == map[]
    {
      base, overlay, ops, counts := m, map[], [], map[];
    }

    /** What the transaction sees: the store with its operations applied. */
    ghost function View(): Contents
      reads this
    {
      Applied(base, ops)
    }

    ghost predicate Valid()
      reads this
    {
      && (forall k :: k in overlay ==> k != [] && k[0] != COUNT_TAG)
      && (forall k :: if k in overlay then (if k in View() then Some(View()[k]) else None) == overlay[k]
                      else (k in View() <==> k in base) && At(View(), k) == At(base, k))
    }

    function Delta(t: Key): int
      reads this
    {
      if t in counts then counts[t] else 0
    }

    /** How far counter and delta are from the number of rows the transaction sees. */
    ghost function Drift(t: Key): int
      reads this
    {
      CountOf(base, t) + Delta(t) - |LiveKeys(View(), t)|
    }

    method Put(k: Key, v: Key)
      requires Valid() && k != [] && k[0] != COUNT_TAG
      modifies this`overlay, this`ops
      ensures Valid() && View() == old(View())[k := v]
    {
      hide Applied;
      AppliedOne(base, ops, Op(k, v, false));
      overlay := overlay[k := Some(v)];
      ops := ops + [Op(k, v, false)];
    }

    method Del(k: Key)
      requires Valid() && k != [] && k[0] != COUNT_TAG
      modifies this`overlay, this`ops
      ensures Valid() && View() == old(View()) - {k}
    {
      hide Applied;
      AppliedOne(base, ops, Op(k, [], true));
      overlay := overlay[k := None];
      ops := ops + [Op(k, [], true)];
    }

    method Get(k: Key) returns (v: Key)
      requires Valid()
      ensures v == At(View(), k)
    {
      if k in overlay {
        return if overlay[k].None? then [] else overlay[k].value;
      }
      v := if k in base then base[k] else [];
    }

    method Count(t: Key, delta: int)
      modifies this`counts
      ensures counts == old(counts)[t := old(Delta(t)) + delta]
    {
      counts := counts[t := (if t in counts then counts[t] else 0) + delta];
    }

    /** `rowPutCellsCheckCount`: an update of one row; without the check the counter is off unless the row was there. */
    method RowPutCells(t: Key, pk: Key, cells: seq<Cell>, check: bool)
      requires Valid() && Sized(View()) && TableName(t) && |cells| < Pow256(4) && [] !in cells
      modifies this`overlay, this`ops, this`counts
      ensures Valid() && Sized(View()) && Row(View(), t, pk) == Some(cells)
      ensures RowWritten(old(View()), View(), t, pk, BigEndian(|cells|, 8), cells, |cells|)
      ensures forall u, q :: TableName(u) && (u, q) != (t, pk) ==> Row(View(), u, q) == old(Row(View(), u, q))
      ensures forall u :: TableName(u) ==> Drift(u) == old(Drift(u)) - (if u == t && !check && !old(Live(View(), t, pk)) then 1 else 0)
    {
      ghost var m0 := View();
      if check {
        var was := Get(RowKey(t, pk));
        if was == [] {
          Count(t, 1);
        }
      }
      PutRowKeys(t, pk, cells);
      ghost var m := View();
      WrittenRow(m0, m, t, pk, cells);
      RowsElsewhere(m0, m, t, pk);
      CountsElsewhere(m0, m, t, pk);
    }

    method PutRowKeys(t: Key, pk: Key, cells: seq<Cell>)
      requires Valid() && TableName(t) && |cells| < Pow256(4)
      modifies this`overlay, this`ops
      ensures Valid() && RowWritten(old(View()), View(), t, pk, BigEndian(|cells|, 8), cells, |cells|)
    {
      ghost var m0 := View();
      Tags(t, t, t, pk, 0, pk);
      Put(RowKey(t, pk), BigEndian(|cells|, 8));
      var i := 0;
      while i < |cells|
        invariant 0 <= i <= |cells| && Valid()
        invariant RowWritten(m0, View(), t, pk, BigEndian(|cells|, 8), cells, i)
      {
        Tags(t, t, t, pk, i, pk);
        ghost var m := View();
        Put(ColKey(t, i, pk), cells[i]);
        NextCell(m0, m, t, pk, BigEndian(|cells|, 8), cells, i);
        i := i + 1;
      }
    }

    /** `rowGet` */
    method RowGet(t: Key, pk: Key) returns (r: Option<seq<Cell>>)
      requires Valid()
      ensures r == Row(View(), t, pk)
    {
      var marker := Get(RowKey(t, pk));
      if marker == [] {
        return None;
      }
      var n := Decode(marker);
      var cells: seq<Cell> := [];
      var i := 0;
      while i < n
        invariant 0 <= i <= n && |cells| == i
        invariant forall j :: 0 <= j < i ==> cells[j] == At(View(), ColKey(t, j, pk)) && cells[j] != []
      {
        var c := Get(ColKey(t, i, pk));
        if c == [] {
          return None;
        }
        cells := cells + [c];
        i := i + 1;
      }
      assert [] !in cells;
      RowIs(View(), t, pk, cells);
      r := Some(cells);
    }

    /** `rowDelete`: the marker goes, and every cell it counted. */
    method RowDelete(t: Key, pk: Key)
      requires Valid() && Sized(View()) && TableName(t)
      modifies this`overlay, this`ops, this`counts
      ensures Valid() && Sized(View()) && !Live(View(), t, pk)
      ensures RowErased(old(View()), View(), t, pk)
      ensures forall u, q :: TableName(u) && (u, q) != (t, pk) ==> Row(View(), u, q) == old(Row(View(), u, q))
      ensures forall u, q :: TableName(u) && (u, q) != (t, pk) ==> Live(View(), u, q) == old(Live(View(), u, q))
      ensures forall u :: TableName(u) ==> Drift(u) == old(Drift(u))
    {
      ghost var m0 := View();
      var n := DropRowKeys(t, pk);
      ghost var m := View();
      DroppedRow(m0, m, t, pk, n);
      DroppedErases(m0, m, t, pk, n);
      RowsElsewhere(m0, m, t, pk);
      CountsElsewhere(m0, m, t, pk);
    }

    method DropRowKeys(t: Key, pk: Key) returns (n: nat)
      requires Valid() && Sized(View()) && TableName(t)
      modifies this`overlay, this`ops, this`counts
      ensures Valid() && n <= Pow256(4) && RowDropped(old(View()), View(), t, pk, n)
      ensures n == if old(Live(View(), t, pk)) then Decode(old(At(View(), RowKey(t, pk)))) else 0
      ensures counts == if old(Live(View(), t, pk)) then old(counts)[t := old(Delta(t)) - 1] else old(counts)
    {
      hide Applied;
      hide CountOf;
      hide RowDropped;
      hide Sized;
      hide Decode;
      hide RowKey;
      hide ColKey;
      hide At;
      hide Live;
      ghost var m0 := View();
      var marker := Get(RowKey(t, pk));
      LiveMarker(m0, t, pk);
      Tags(t, t, t, pk, 0, pk);
      Del(RowKey(t, pk));
      MarkerDropped(m0, t, pk);
      if marker == [] {
        return 0;
      }
      counts := counts[t := (if t in counts then counts[t] else 0) - 1];
      n := Decode(marker);
      DropCellsOf(t, pk, n, m0);
    }

    method DropCellsOf(t: Key, pk: Key, n: nat, ghost m0: Contents)
      requires Valid() && RowDropped(m0, View(), t, pk, 0)
      modifies this`overlay, this`ops
      ensures Valid() && RowDropped(m0, View(), t, pk, n)
    {
      hide Applied;
      hide RowDropped;
      hide RowKey;
      hide ColKey;
      for i := 0 to n
        invariant Valid() && RowDropped(m0, View(), t, pk, i)
      {
        Tags(t, t, t, pk, i, pk);
        DropCell(m0, View(), t, pk, i);
        Del(ColKey(t, i, pk));
      }
    }

    /** Keys the store or the transaction ever put below a prefix, the ones it deleted again included. */
    ghost predicate Mentioned(k: Key, q: Key)
      reads this
    {
      Prefixed(q + [0], k) && (k in base || exists j :: 0 <= j < |ops| && ops[j].key == k && !ops[j].delete_)
    }

    /** `each` below the prefix `q`, zero: `eachOverlay` lists a deleted key as well. The order is not modelled. */
    method EachKey(q: Key) returns (ks: seq<Key>)
      requires Valid()
      ensures forall k :: k in ks <==> Mentioned(k, q)
    {
      var lower, upper := q + [0], q + [1];
      ks := [];
      var todo := base.Keys;
      while todo != {}
        invariant todo <= base.Keys
        invariant forall k :: k in ks <==> k in base.Keys - todo && Prefixed(q + [0], k)
        decreases |todo|
      {
        var k :| k in todo;
        todo := todo - {k};
        BoundsArePrefix(q, k);
        if InBounds(k, lower, upper) {
          ks := ks + [k];
        }
      }
      var vals := set k | k in ks;
      var i := 0;
      while i < |ops|
        invariant 0 <= i <= |ops| && forall k :: k in vals ==> k in ks
        invariant forall k :: k in ks <==>
          Prefixed(q + [0], k) && (k in base || exists j :: 0 <= j < i && ops[j].key == k && !ops[j].delete_)
      {
        var op := ops[i];
        BoundsArePrefix(q, op.key);
        if InBounds(op.key, lower, upper) {
          if op.delete_ {
            vals := vals - {op.key};
          } else {
            if op.key !in vals {
              ks := ks + [op.key];
            }
            vals := vals + {op.key};
          }
        }
        i := i + 1;
      }
    }

    /** A key the transaction sees was put by someone. */
    lemma SeenIsMentioned(k: Key, q: Key)
      requires k in View() && Prefixed(q + [0], k)
      ensures Mentioned(k, q)
    {
      PutOrStored(base, ops, k);
    }

    /** `rowDeleteAll`: the rows of a table go, whatever its listing repeats or still shows. */
    method RowDeleteAll(t: Key)
      requires Valid() && Sized(View()) && TableName(t)
      modifies this`overlay, this`ops, this`counts
      ensures Valid() && Sized(View())
      ensures forall pk :: !Live(View(), t, pk)
      ensures forall k :: Prefixed(ColAllPrefix(t), k) ==> k !in View()
      ensures OnlyTable(old(View()), View(), t)
      ensures forall u, q :: TableName(u) && u != t ==> Row(View(), u, q) == old(Row(View(), u, q))
      ensures forall u :: TableName(u) ==> Drift(u) == old(Drift(u))
    {
      ghost var m0 := View();
      DeleteRows(t);
      ghost var m := View();
      DropCells(t);
      CellsInTable(m0, m, View(), t);
    }

    method DeleteRows(t: Key)
      requires Valid() && Sized(View()) && TableName(t)
      modifies this`overlay, this`ops, this`counts
      ensures Valid() && Sized(View())
      ensures forall pk :: !Live(View(), t, pk)
      ensures OnlyTable(old(View()), View(), t)
      ensures forall u, q :: TableName(u) && u != t ==> Row(View(), u, q) == old(Row(View(), u, q))
      ensures forall u :: TableName(u) ==> Drift(u) == old(Drift(u))
    {
      hide Sized;
      hide OnlyTable;
      hide RowErased;
      hide Live;
      hide TableName;
      hide Mentioned;
      hide Row;
      hide LiveKeys;
      hide Drift;
      var p := RowPrefix(t);
      var ks := EachKey([ROW_TAG, 0] + t);
      ghost var m0 := View();
      AllListed(t, ks);
      NothingChanged(m0, t);
      var i := 0;
      while i < |ks|
        invariant 0 <= i <= |ks| && Valid() && Sized(View())
        invariant forall pk :: Live(View(), t, pk) ==> RowKey(t, pk) in ks[i..]
        invariant forall u, q :: TableName(u) && u != t ==> Row(View(), u, q) == old(Row(View(), u, q))
        invariant forall u :: TableName(u) ==> Drift(u) == old(Drift(u))
        invariant OnlyTable(m0, View(), t)
      {
        assert ks[i] in ks;
        ghost var m := View();
        assert ks[i] == RowKey(t, ks[i][|p|..]);
        RowDelete(t, ks[i][|p|..]);
        ErasedInTable(m0, m, View(), t, ks[i][|p|..]);
        assert ks[i..] == [ks[i]] + ks[i + 1..];
        i := i + 1;
      }
    }

    lemma AllListed(t: Key, ks: seq<Key>)
      requires forall k :: k in ks <==> Mentioned(k, [ROW_TAG, 0] + t)
      ensures forall pk :: Live(View(), t, pk) ==> RowKey(t, pk) in ks
      ensures forall k :: k in ks ==> Prefixed(RowPrefix(t), k)
    {
      forall pk | Live(View(), t, pk) ensures RowKey(t, pk) in ks {
        assert RowKey(t, pk)[..|RowPrefix(t)|] == RowPrefix(t);
        SeenIsMentioned(RowKey(t, pk), [ROW_TAG, 0] + t);
      }
    }

    /** The cells that are left, with a marker or without. */
    method DropCells(t: Key)
      requires Valid() && Sized(View()) && TableName(t) && forall pk :: !Live(View(), t, pk)
      modifies this`overlay, this`ops
      ensures Valid() && Sized(View()) && OnlyCells(old(View()), View(), t)
      ensures forall pk :: !Live(View(), t, pk)
      ensures forall k :: Prefixed(ColAllPrefix(t), k) ==> k !in View()
      ensures forall u, q :: TableName(u) && u != t ==> Row(View(), u, q) == old(Row(View(), u, q))
      ensures forall u :: TableName(u) ==> Drift(u) == old(Drift(u))
    {
      ghost var m0 := View();
      DropCellKeys(t);
      CellsGone(m0, View(), t);
    }

    lemma CellsListed(t: Key, ks: seq<Key>)
      requires forall k :: k in ks <==> Mentioned(k, [COL_TAG, 0] + t)
      ensures forall k :: k in View() && Prefixed(ColAllPrefix(t), k) ==> k in ks
      ensures forall k :: k in ks ==> Prefixed(ColAllPrefix(t), k) && k != [] && k[0] == COL_TAG
    {
      forall k | k in View() && Prefixed(ColAllPrefix(t), k) ensures k in ks {
        SeenIsMentioned(k, [COL_TAG, 0] + t);
      }
      forall k | k in ks ensures Prefixed(ColAllPrefix(t), k) && k != [] && k[0] == COL_TAG {
        PrefixedFirst(ColAllPrefix(t), k);
      }
    }

    method DropCellKeys(t: Key)
      requires Valid() && TableName(t)
      modifies this`overlay, this`ops
      ensures Valid() && OnlyCells(old(View()), View(), t)
      ensures forall k :: Prefixed(ColAllPrefix(t), k) ==> k !in View()
    {
      hide Mentioned;
      hide ColAllPrefix;
      hide Prefixed;
      hide OnlyCells;
      var ks := EachKey([COL_TAG, 0] + t);
      ghost var m0 := View();
      CellsListed(t, ks);
      SameCells(m0, t);
      var i := 0;
      while i < |ks|
        invariant 0 <= i <= |ks| && Valid() && OnlyCells(m0, View(), t)
        invariant forall k :: k in View() && Prefixed(ColAllPrefix(t), k) ==> k in ks[i..]
      {
        assert ks[i] in ks;
        CellDropped(m0, View(), t, ks[i]);
        Del(ks[i]);
        assert ks[i..] == [ks[i]] + ks[i + 1..];
        i := i + 1;
      }
    }

    /** `committedCount`: the overlay never holds a counter. */
    method CommittedCount(t: Key) returns (n: int)
      requires Valid()
      ensures n == CountOf(base, t)
    {
      var raw := Get(CountKey(t));
      assert CountKey(t)[0] == COUNT_TAG;
      if raw == [] {
        return 0;
      }
      n := Decode(raw);
    }

    /** `countFor`: the number of rows the transaction sees, as long as nothing has drifted. */
    method CountFor(t: Key) returns (n: int)
      requires Valid()
      ensures n == |LiveKeys(View(), t)| + Drift(t)
    {
      var c := CommittedCount(t);
      n := c + if t in counts then counts[t] else 0;
    }

    /** `commit`: the store becomes what the transaction saw, and each counter its value plus the delta. */
    method Commit()
      requires Valid() && forall t :: t in counts ==> 0 <= CountOf(base, t) + counts[t] < TWO_64
      modifies this
      ensures Valid() && ops == [] && View() == base
      ensures forall t :: Delta(t) == 0 && CountOf(base, t) == old(CountOf(base, t) + Delta(t))
      ensures forall k :: k == [] || k[0] != COUNT_TAG ==> At(base, k) == old(At(View(), k))
    {
      if ops == [] && counts == map[] {
        return;
      }
      var all := WithCounters();
      if all == [] {
        counts := map[];
        return;
      }
      base := Applied(base, all);
      ops, overlay, counts := [], map[], map[];
    }

    /** The operations with one write for every counter that moves. */
    method WithCounters() returns (all: seq<Op>)
      requires Valid() && forall t :: t in counts ==> 0 <= CountOf(base, t) + counts[t] < TWO_64
      ensures |all| >= |ops|
      ensures Counted(Applied(base, all), {})
    {
      hide BigEndian;
      hide CountOf;
      hide Counted;
      all := ops;
      var todo := counts.Keys;
      CountersUntouched();
      while todo != {}
        invariant todo <= counts.Keys && |all| >= |ops| && Counted(Applied(base, all), todo)
        decreases |todo|
      {
        var t :| t in todo;
        ghost var before := todo;
        todo := todo - {t};
        var delta := counts[t];
        if delta != 0 {
          var n := CommittedCount(t);
          var op := Op(CountKey(t), BigEndian(n + delta, 8), false);
          AppliedOne(base, all, op);
          CountMore(Applied(base, all), before, t);
          all := all + [op];
        } else {
          CountNone(Applied(base, all), before, t);
        }
      }
    }

    /** Counters brought up to date except those of some tables, everything else as the transaction sees it. */
    ghost predicate Counted(m: Contents, todo: set<Key>)
      reads this
    {
      && (forall t :: CountOf(m, t) == CountOf(base, t) + if t in todo then 0 else Delta(t))
      && forall k :: k == [] || k[0] != COUNT_TAG ==> At(m, k) == At(View(), k)
    }

    lemma CountMore(m: Contents, todo: set<Key>, t: Key)
      requires Counted(m, todo) && t in todo && 0 <= CountOf(base, t) + Delta(t) < TWO_64
      ensures Counted(m[CountKey(t) := BigEndian(CountOf(base, t) + Delta(t), 8)], todo - {t})
    {
      hide BigEndian;
      hide CountOf;
      CounterWritten(m, t, CountOf(base, t) + Delta(t));
      assert CountKey(t)[0] == COUNT_TAG;
    }

    lemma CountNone(m: Contents, todo: set<Key>, t: Key)
      requires Counted(m, todo) && Delta(t) == 0
      ensures Counted(m, todo - {t})
    {
    }

    lemma CountersUntouched()
      requires Valid()
      ensures Counted(View(), counts.Keys)
    {
      forall t ensures CountOf(View(), t) == CountOf(base, t) {
        assert CountKey(t)[0] == COUNT_TAG;
        assert CountKey(t) !in overlay;
      }
    }

    method Rollback()
      modifies this
      ensures Valid() && base == old(base) && View() == base && counts == map[]
    {
      ops, overlay, counts := [], map[], map[];
    }
  }

  lemma CounterWritten(m: Contents, t: Key, n: nat)
    requires n < TWO_64
    ensures var m' := m[CountKey(t) := BigEndian(n, 8)];
            forall u :: CountOf(m', u) == if u == t then n else CountOf(m, u)
  {
    Pow256Of8();
    DecodeBigEndian(n, 8);
    forall u | u != t ensures CountKey(u) != CountKey(t) {
      assert CountKey(u)[2..] == u && CountKey(t)[2..] == t;
    }
  }

  /** Nothing but cells of one table differs. */
  ghost predicate OnlyCells(m0: Contents, m: Contents, t: Key) {
    forall k :: !Prefixed(ColAllPrefix(t), k) ==> (k in m <==> k in m0) && At(m, k) == At(m0, k)
  }

  lemma NothingChanged(m: Contents, t: Key)
    ensures OnlyTable(m, m, t)
  {
  }

  lemma CellsInTable(m0: Contents, m: Contents, m': Contents, t: Key)
    requires OnlyTable(m0, m, t) && OnlyCells(m, m', t)
    ensures OnlyTable(m0, m', t)
  {
    hide Prefixed;
    hide At;
  }

  lemma SameCells(m: Contents, t: Key)
    ensures OnlyCells(m, m, t)
  {
  }

  lemma CellDropped(m0: Contents, m: Contents, t: Key, k: Key)
    requires OnlyCells(m0, m, t) && Prefixed(ColAllPrefix(t), k)
    ensures OnlyCells(m0, m - {k}, t)
  {
    hide Prefixed;
  }

  /** Another table's keys do not begin with a table's cell prefix. */
  lemma CellsApart(t: Key, u: Key, i: nat, q: Key)
    requires TableName(t) && TableName(u)
    ensures !Prefixed(ColAllPrefix(t), RowKey(u, q))
    ensures u != t ==> !Prefixed(ColAllPrefix(t), ColKey(u, i, q))
  {
    Tags(u, u, u, q, i, q);
    var p, k := ColAllPrefix(t), ColKey(u, i, q);
    PrefixedFirst(p, RowKey(u, q));
    if u != t && Prefixed(p, k) {
      var x, y := k[|p|..], BigEndian(i, 4) + [0] + q;
      assert k == p + x;
      assert k[2..] == t + [0] + x && k[2..] == u + [0] + y;
      NameApart(t, u, x, y);
    }
  }

  lemma CellsGone(m0: Contents, m: Contents, t: Key)
    requires TableName(t) && OnlyCells(m0, m, t) && Sized(m0) && forall pk :: !Live(m0, t, pk)
    ensures Sized(m) && forall u, q :: TableName(u) ==> Live(m, u, q) == Live(m0, u, q)
    ensures forall u, q :: TableName(u) && u != t ==> Row(m, u, q) == Row(m0, u, q)
    ensures forall u :: TableName(u) ==> LiveKeys(m, u) == LiveKeys(m0, u)
  {
    hide Row;
    hide LiveKeys;
    forall u, q | TableName(u) ensures At(m, RowKey(u, q)) == At(m0, RowKey(u, q)) {
      CellsApart(t, u, 0, q);
    }
    forall u, q | TableName(u) && u != t ensures Row(m, u, q) == Row(m0, u, q) {
      forall i: nat ensures At(m, ColKey(u, i, q)) == At(m0, ColKey(u, i, q)) {
        CellsApart(t, u, i, q);
      }
      SameRowReads(m0, m, u, q);
    }
    forall u | TableName(u) ensures LiveKeys(m, u) == LiveKeys(m0, u) {
      SameCount(m0, m, u);
    }
  }

  lemma {:induction false} PutOrStored(m: Contents, ops: seq<Op>, k: Key)
    requires k in Applied(m, ops)
    ensures k in m || exists j :: 0 <= j < |ops| && ops[j].key == k && !ops[j].delete_
    decreases |ops|
  {
    if ops != [] {
      var op := ops[|ops| - 1];
      if op.delete_ || op.key != k {
        PutOrStored(m, ops[..|ops| - 1], k);
      }
    }
  }

  lemma LiveMarker(m: Contents, t: Key, pk: Key)
    ensures Live(m, t, pk) <==> At(m, RowKey(t, pk)) != []
  {
  }

  lemma MarkerDropped(m0: Contents, t: Key, pk: Key)
    ensures RowDropped(m0, m0 - {RowKey(t, pk)}, t, pk, 0)
    ensures TableName(t) && Sized(m0) && Live(m0, t, pk) ==> Decode(At(m0, RowKey(t, pk))) < Pow256(4)
  {
  }

  lemma NextCell(m0: Contents, m: Contents, t: Key, pk: Key, marker: Key, cells: seq<Cell>, i: nat)
    requires i < |cells| && |cells| < Pow256(4) && TableName(t) && RowWritten(m0, m, t, pk, marker, cells, i)
    ensures RowWritten(m0, m[ColKey(t, i, pk) := cells[i]], t, pk, marker, cells, i + 1)
  {
    Tags(t, t, t, pk, i, pk);
    forall j | 0 <= j < i ensures ColKey(t, j, pk) != ColKey(t, i, pk) {
      if ColKey(t, j, pk) == ColKey(t, i, pk) {
        ColKeyApart(t, j, pk, t, i, pk);
      }
    }
  }

  lemma RowsElsewhere(m0: Contents, m: Contents, t: Key, pk: Key)
    requires forall u, q :: TableName(u) && (u, q) != (t, pk) ==> SameRow(m0, m, u, q)
    ensures forall u, q :: TableName(u) && (u, q) != (t, pk) ==> Row(m, u, q) == Row(m0, u, q) && Live(m, u, q) == Live(m0, u, q)
  {
    forall u, q | TableName(u) && (u, q) != (t, pk) ensures Row(m, u, q) == Row(m0, u, q) && Live(m, u, q) == Live(m0, u, q) {
      SameRowReads(m0, m, u, q);
    }
  }

  lemma CountsElsewhere(m0: Contents, m: Contents, t: Key, pk: Key)
    requires TableName(t)
    requires forall u, q :: TableName(u) && (u, q) != (t, pk) ==> Live(m, u, q) == Live(m0, u, q)
    ensures forall u :: TableName(u) && u != t ==> |LiveKeys(m, u)| == |LiveKeys(m0, u)|
    ensures |LiveKeys(m, t)| - |LiveKeys(m0, t)| == (if Live(m, t, pk) then 1 else 0) - (if Live(m0, t, pk) then 1 else 0)
  {
    CountedOnce(m0, m, t, pk);
    forall u | TableName(u) && u != t ensures LiveKeys(m, u) == LiveKeys(m0, u) {
      SameCount(m0, m, u);
    }
  }
}
