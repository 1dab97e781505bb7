/**
 The steps of a CSTORE2 table as functions on its state, and what each of them
 does to the stacks: transaction writes, commit, threshold flush, the two halves
 of an idle flush and the three phases of a compaction.
 */
module MpartSteps {
  import opened Bytes
  import opened Wrappers
  import opened Versions
  import opened MpartModel

  const FLUSH_THRESHOLD: nat := 65536
  const IDLE_MIN_ROWS: nat := 4096
  const MERGE_CHUNK: nat := 0x10_0000

  datatype Tx = Tx(overlay: map<Key, MemRow>, hint: seq<MemRow>, cleared: bool, delta: int)

  const EMPTY_TX := Tx(map[], [], false, 0)

  // ----- Parts stay ordered by sequence number -----

  /** `sortPartsBySeq`. */
  function SortParts(ps: seq<Part>): seq<Part> {
    if ps == [] then [] else InsertPart(SortParts(ps[..|ps| - 1]), ps[|ps| - 1])
  }

  function InsertPart(ps: seq<Part>, p: Part): seq<Part> {
    if ps == [] || ps[|ps| - 1].id < p.id then ps + [p]
    else InsertPart(ps[..|ps| - 1], p) + [ps[|ps| - 1]]
  }

  lemma {:induction false} InsertBetween(a: seq<Part>, p: Part, b: seq<Part>)
    requires a != [] ==> a[|a| - 1].id < p.id
    requires forall i :: 0 <= i < |b| ==> p.id < b[i].id
    ensures InsertPart(a + b, p) == a + [p] + b
  {
    if b == [] {
      assert a + b == a && a + [p] + b == a + [p];
    } else {
      var n := |b| - 1;
      assert (a + b)[..|a + b| - 1] == a + b[..n];
      InsertBetween(a, p, b[..n]);
      assert a + [p] + b == (a + [p] + b[..n]) + [b[n]];
    }
  }

  lemma {:induction false} SortParts_InOrder(ps: seq<Part>)
    requires IdsIncreasing(ps)
    ensures SortParts(ps) == ps
  {
    if ps != [] {
      var n := |ps| - 1;
      SortParts_InOrder(ps[..n]);
      InsertBetween(ps[..n], ps[n], []);
      assert ps[..n] + [] == ps[..n];
      assert ps == ps[..n] + [ps[n]] + [];
    }
  }

  /** Publishing `p` between older parts `a` and newer parts `b`. */
  lemma SortPublished(a: seq<Part>, p: Part, b: seq<Part>)
    requires IdsIncreasing(a + b)
    requires forall i :: 0 <= i < |a| ==> a[i].id < p.id
    requires forall i :: 0 <= i < |b| ==> p.id < b[i].id
    ensures SortParts(a + b + [p]) == a + [p] + b
  {
    assert (a + b + [p])[..|a + b|] == a + b;
    SortParts_InOrder(a + b);
    InsertBetween(a, p, b);
  }

  /** Merged parts sort below the parts published after their ids were reserved. */
  lemma {:induction false} SortMerged(kept: seq<Part>, news: seq<Part>)
    requires IdsIncreasing(kept) && IdsIncreasing(news)
    requires forall i, j :: 0 <= i < |news| && 0 <= j < |kept| ==> news[i].id < kept[j].id
    ensures SortParts(kept + news) == news + kept
  {
    if news == [] {
      assert kept + news == kept && news + kept == kept;
      SortParts_InOrder(kept);
    } else {
      var n := |news| - 1;
      assert (kept + news)[..|kept + news| - 1] == kept + news[..n];
      SortMerged(kept, news[..n]);
      InsertBetween(news[..n], news[n], kept);
      assert news[..n] + [news[n]] == news;
    }
  }

  // ----- Memory part -----

  function FreshMem(addr: nat): Mem {
    Mem(addr, map[], [], 0, 0, None, false)
  }

  /** The hint is taken at its word when it is as long as the row map and sorted. */
  ghost predicate HintUsed(m: Mem) {
    |m.hint| == |m.rows| && KeysIncreasing(Plain(m.hint))
  }

  ghost function SortedRows(m: Mem): seq<MemRow> {
    if HintUsed(m) then m.hint else MemRowsOf(m.rows)
  }

  /** `ensureCachedLocked`: a new sorted view unless the one at hand is of this generation. */
  ghost function Cached(m: Mem): Mem {
    if CacheValid(m) then m
    else m.(cache := Some(SortedRows(m)), cacheGen := m.gen)
  }

  lemma SortedRowsList(m: Mem)
    requires Keyed(m.rows) && HintSound(m.rows, m.hint)
    ensures Lists(SortedRows(m), m.rows) && Plain(SortedRows(m)) == RowsOf(m.rows)
  {
    if HintUsed(m) && m.hint != [] {
      HintLists(m.rows, m.hint);
    }
    ListsRowsOf(SortedRows(m), m.rows);
  }

  ghost function MemRowsOf(m: map<Key, MemRow>): (rs: seq<MemRow>)
    ensures Keyed(m) ==> Lists(rs, m)
  {
    var ks := Ascending(m.Keys);
    var rs := seq(|ks|, i requires 0 <= i < |ks| => assert ks[i] in ks; m[ks[i]]);
    assert forall i :: 0 <= i < |ks| ==> ks[i] in ks;
    rs
  }

  // ----- Flush -----

  /** The part a flush writes. */
  ghost function FlushPart(s: Store): Part
    requires s.mem.Some?
  {
    Part(s.nextID + 1, Plain(SortedRows(s.mem.value)))
  }

  /** `flushLocked`: the memory rows become the newest part. */
  ghost function Flushed(s: Store): Store {
    if MemRows(s) == map[] then s
    else Store(Some(FreshMem(s.nextAddr)), SortParts(s.parts + [FlushPart(s)]), s.count, s.nextID + 1, s.nextAddr + 1)
  }

  // ----- Transactions -----

  ghost function TxStack(s: Store, tx: Tx, k: Key): seq<Version> {
    VersIn(tx.overlay, k) + BaseStack(s, tx, k)
  }

  /** What the transaction reads through: nothing after it cleared the table. */
  ghost function BaseStack(s: Store, tx: Tx, k: Key): seq<Version> {
    if tx.cleared then [] else Stack(s, k)
  }

  ghost function BaseView(s: Store, tx: Tx, w: nat): Table {
    if tx.cleared then map[] else View(s, w)
  }

  ghost function TxView(s: Store, tx: Tx, w: nat): Table {
    map k | k in tx.overlay.Keys + BaseView(s, tx, w).Keys && Alive(TxStack(s, tx, k)) ::
      Resolve(TxStack(s, tx, k), w).value
  }

  lemma TxViewAt(s: Store, tx: Tx, w: nat, k: Key)
    ensures k in TxView(s, tx, w) <==> Alive(TxStack(s, tx, k))
    ensures k in TxView(s, tx, w) ==> Some(TxView(s, tx, w)[k]) == Resolve(TxStack(s, tx, k), w)
  {
    ViewAt(s, w, k);
  }

  /** `rowPutCellsCheckCount`: buffers a row; `check` is the existence probe for the live count. */
  ghost function Put(s: Store, tx: Tx, k: Key, cells: seq<Cell>, check: bool): Tx {
    var r := MemRow(s.nextAddr, Row(k, Version(cells, false)));
    Tx(tx.overlay[k := r],
       if k in tx.overlay then [] else tx.hint + [r],
       tx.cleared,
       if check && !Alive(TxStack(s, tx, k)) then tx.delta + 1 else tx.delta)
  }

  /** `rowDelete`. The insertion-order hint is left alone. */
  ghost function Delete(s: Store, tx: Tx, k: Key): Tx {
    tx.(overlay := tx.overlay[k := MemRow(s.nextAddr, Row(k, Version([], true)))],
        delta := if Alive(TxStack(s, tx, k)) then tx.delta - 1 else tx.delta)
  }

  /** `rowDeleteAll`. */
  function Clear(tx: Tx): Tx {
    Tx(map[], [], true, 0)
  }

  function Allocated(s: Store, n: nat): Store {
    s.(nextAddr := s.nextAddr + n)
  }

  /** `updateConstRange`: one shared partial row for every key the keys-only walk yields. */
  ghost function PutAll(s: Store, tx: Tx, ks: seq<Key>, cells: seq<Cell>): Tx
    decreases ks
  {
    if ks == [] then tx
    else PutAll(Allocated(s, 1), Put(s, tx, ks[0], cells, false), ks[1..], cells)
  }

  // ----- Commit -----

  /** An overlay row folded over the row it replaces in memory. */
  ghost function Folded(r: MemRow, cur: map<Key, MemRow>): MemRow {
    var k := r.row.pk;
    if k in cur && cur[k].addr != r.addr && !cur[k].row.ver.del
    then r.(row := Row(k, Version(Filled(r.row.ver.cells, cur[k].row.ver.cells), r.row.ver.del)))
    else r
  }

  ghost function FoldedRows(cur: map<Key, MemRow>, overlay: map<Key, MemRow>): map<Key, MemRow> {
    map k | k in cur.Keys + overlay.Keys :: if k in overlay then Folded(overlay[k], cur) else cur[k]
  }

  ghost function FoldedMem(m: Mem, tx: Tx): Mem {
    m.(rows := FoldedRows(m.rows, tx.overlay),
       hint := if m.rows == map[] && |tx.hint| == |tx.overlay| && KeysIncreasing(Plain(tx.hint)) then tx.hint else [],
       gen := m.gen + 1)
  }

  ghost function Dropped(s: Store): Store {
    s.(mem := None, parts := [], count := 0)
  }

  ghost function Fold(s: Store, tx: Tx): Store {
    if tx.overlay == map[] then s
    else if s.mem.None? then s.(mem := Some(FoldedMem(FreshMem(s.nextAddr), tx)), nextAddr := s.nextAddr + 1)
    else s.(mem := Some(FoldedMem(s.mem.value, tx)))
  }

  ghost predicate Overfull(s: Store, tx: Tx) {
    tx.overlay != map[] && |MemRows(s)| >= FLUSH_THRESHOLD
  }

  /** The end of a commit: flush over the threshold, then adjust the live count. */
  ghost function Settled(s: Store, tx: Tx): Store {
    var t := if Overfull(s, tx) then Flushed(s) else s;
    t.(count := t.count + tx.delta)
  }

  ghost function Committed(s: Store, tx: Tx): Store {
    Settled(Fold(if tx.cleared then Dropped(s) else s, tx), tx)
  }

  // ----- Background jobs -----

  /** Rows that leave memory: those that are still the very row a job wrote. */
  ghost function Minus(rows: map<Key, MemRow>, written: map<Key, MemRow>): map<Key, MemRow> {
    map k | k in rows && !(k in written && rows[k].addr == written[k].addr) :: rows[k]
  }

  /** Second half of an idle flush, `flushJobAsync` after its write ended (`ok`: without error). */
  ghost function Published(s: Store, memAddr: nat, rows: map<Key, MemRow>, id: nat, ok: bool): Store {
    var mem := if s.mem.Some? && s.mem.value.addr == memAddr
               then Some(s.mem.value.(rows := if ok then Minus(s.mem.value.rows, rows) else s.mem.value.rows, sealing := false))
               else s.mem;
    s.(mem := mem, parts := if ok then SortParts(s.parts + [Part(id, RowsOf(rows))]) else s.parts)
  }

  /** The rows a compaction writes: every live row, resolved, in key order. */
  ghost function TableRows(t: Table): seq<Row> {
    var ks := Ascending(t.Keys);
    seq(|ks|, i requires 0 <= i < |ks| => assert ks[i] in ks; Row(ks[i], Version(t[ks[i]], false)))
  }

  /** The rows cut into parts with consecutive ids. */
  ghost function Chunked(rows: seq<Row>, id: nat): seq<Part> {
    if |rows| <= MERGE_CHUNK then (if rows == [] then [] else [Part(id, rows)])
    else [Part(id, rows[..MERGE_CHUNK])] + Chunked(rows[MERGE_CHUNK..], id + 1)
  }

  /** Phase 3 of a compaction: the new parts replace the old ones. */
  ghost function Swapped(s: Store, olds: seq<Part>, rows: map<Key, MemRow>, oldCount: int, news: seq<Part>, live: nat): Store {
    s.(mem := if s.mem.Some? then Some(s.mem.value.(rows := Minus(s.mem.value.rows, rows))) else None,
       parts := SortParts(Kept(s.parts, olds) + news),
       count := live + (s.count - oldCount))
  }

  function Kept(parts: seq<Part>, olds: seq<Part>): seq<Part> {
    if parts == [] then []
    else (if parts[0] in olds then [] else [parts[0]]) + Kept(parts[1..], olds)
  }

  lemma {:induction false} KeptSuffix(olds: seq<Part>, kept: seq<Part>)
    requires IdsIncreasing(olds + kept)
    ensures Kept(olds + kept, olds) == kept
  {
    KeptNone(olds, olds, kept);
    KeptAll(kept, olds, kept);
  }

  lemma {:induction false} KeptNone(a: seq<Part>, olds: seq<Part>, kept: seq<Part>)
    requires forall i :: 0 <= i < |a| ==> a[i] in olds
    ensures Kept(a + kept, olds) == Kept(kept, olds)
  {
    if a == [] {
      assert a + kept == kept;
    } else {
      assert (a + kept)[1..] == a[1..] + kept;
      KeptNone(a[1..], olds, kept);
    }
  }

  lemma {:induction false} KeptAll(b: seq<Part>, olds: seq<Part>, kept: seq<Part>)
    requires IdsIncreasing(olds + kept)
    requires forall i :: 0 <= i < |b| ==> b[i] in kept
    ensures Kept(b, olds) == b
  {
    if b != [] {
      forall i, j | 0 <= i < |olds| && 0 <= j < |kept| ensures olds[i] != kept[j] {
        assert (olds + kept)[i].id < (olds + kept)[|olds| + j].id;
      }
      KeptAll(b[1..], olds, kept);
    }
  }

  // ----- What compaction writes, stack by stack -----

  lemma TableRowsIncreasing(t: Table)
    ensures KeysIncreasing(TableRows(t)) && |TableRows(t)| == |t|
  {
    var ks := Ascending(t.Keys);
    assert forall i :: 0 <= i < |ks| ==> ks[i] in ks;
  }

  lemma FindTableRows(t: Table, k: Key)
    ensures Find(TableRows(t), k) == if k in t then [Version(t[k], false)] else []
  {
    TableRowsIncreasing(t);
    var ks, rows := Ascending(t.Keys), TableRows(t);
    assert forall i :: 0 <= i < |ks| ==> ks[i] in ks;
    if k in t {
      assert k in ks;
      var i :| 0 <= i < |ks| && ks[i] == k;
      FindAt(rows, i);
    } else if Find(rows, k) != [] {
      var i := FindIndex(rows, k);
    }
  }

  lemma {:induction false} ChunkedStack(rows: seq<Row>, id: nat, k: Key)
    requires KeysIncreasing(rows)
    ensures PartStack(Chunked(rows, id), k) == Find(rows, k)
    decreases |rows|
  {
    if |rows| > MERGE_CHUNK {
      var a, b := rows[..MERGE_CHUNK], rows[MERGE_CHUNK..];
      assert rows == a + b;
      ChunkedStack(b, id + 1, k);
      FindConcat(a, b, k);
    } else if rows != [] {
      assert PartStack([Part(id, rows)], k) == PartStack([], k) + Find(rows, k);
    }
  }

  lemma {:induction false} ChunkedInOrder(rows: seq<Row>, id: nat)
    requires KeysIncreasing(rows)
    ensures PartsInOrder(Chunked(rows, id))
    ensures forall i :: 0 <= i < |Chunked(rows, id)| ==> Chunked(rows, id)[i].id == id + i
    ensures |Chunked(rows, id)| == (|rows| + MERGE_CHUNK - 1) / MERGE_CHUNK
    decreases |rows|
  {
    if |rows| > MERGE_CHUNK {
      ChunkedInOrder(rows[MERGE_CHUNK..], id + 1);
      var rest := Chunked(rows[MERGE_CHUNK..], id + 1);
      assert Chunked(rows, id) == [Part(id, rows[..MERGE_CHUNK])] + rest;
    }
  }
}
