/**
 What each step of a CSTORE2 table keeps: background steps cannot be observed,
 a commit publishes exactly what its transaction read.
 */
module MpartProofs {
  import opened Bytes
  import opened Wrappers
  import opened Versions
  import opened MpartModel
  import opened MpartSteps

  /** `t` is a good state in which every key reads as it does in `s`. */
  ghost predicate Quiet(s: Store, t: Store, w: nat) {
    StoreInv(t, w) && AllAlike(s, t, w)
  }

  // ----- Transactions over a store -----

  /** The insertion-order hint: if it is as long as the overlay it lists the overlay. */
  ghost predicate TxHintSound(tx: Tx) {
    && |tx.hint| <= |tx.overlay|
    && (|tx.hint| == |tx.overlay| ==> forall k :: k in tx.overlay ==> tx.overlay[k] in tx.hint)
  }

  ghost predicate OverlaySound(s: Store, tx: Tx, k: Key, w: nat)
    requires k in tx.overlay
  {
    var r := tx.overlay[k];
    && r.row.pk == k
    && r.addr < s.nextAddr
    && (k in MemRows(s) ==> MemRows(s)[k].addr != r.addr)
    && (!r.row.ver.del ==> |r.row.ver.cells| == w)
    && (!r.row.ver.del && [] in r.row.ver.cells ==> Alive(BaseStack(s, tx, k)))
  }

  ghost predicate TxInv(s: Store, tx: Tx, w: nat) {
    && TxHintSound(tx)
    && (forall k :: k in tx.overlay ==> OverlaySound(s, tx, k, w))
    && tx.delta == |TxView(s, tx, w)| - |BaseView(s, tx, w)|
  }

  lemma TxKeyed(s: Store, tx: Tx, w: nat)
    requires TxInv(s, tx, w)
    ensures Keyed(tx.overlay)
  {
    forall k | k in tx.overlay ensures tx.overlay[k].row.pk == k {
      assert OverlaySound(s, tx, k, w);
    }
  }

  lemma TxStackSound(s: Store, tx: Tx, w: nat, k: Key)
    requires StoreInv(s, w) && TxInv(s, tx, w)
    ensures Sound(TxStack(s, tx, k), w) && Sound(BaseStack(s, tx, k), w)
  {
    assert Sound(Stack(s, k), w);
    var vs := TxStack(s, tx, k);
    if k in tx.overlay {
      assert OverlaySound(s, tx, k, w);
      assert vs[1..] == BaseStack(s, tx, k);
    } else {
      assert vs == BaseStack(s, tx, k);
    }
  }

  /** An open transaction does not notice a quiet step. */
  lemma TxUnderQuiet(s: Store, t: Store, tx: Tx, w: nat)
    requires StoreInv(s, w) && TxInv(s, tx, w) && Quiet(s, t, w) && s.nextAddr <= t.nextAddr
    requires forall k :: k in MemRows(t) ==> k in MemRows(s) && MemRows(s)[k].addr == MemRows(t)[k].addr
    ensures TxInv(t, tx, w) && TxView(t, tx, w) == TxView(s, tx, w) && View(t, w) == View(s, w)
  {
    SameView(s, t, w);
    forall k
      ensures k in tx.overlay ==> OverlaySound(t, tx, k, w)
      ensures Alike(TxStack(s, tx, k), TxStack(t, tx, k), w)
    {
      TxStackSound(s, tx, w, k);
      assert Alike(Stack(s, k), Stack(t, k), w) && Sound(Stack(t, k), w);
      if k in tx.overlay {
        assert OverlaySound(s, tx, k, w);
        assert Alive(BaseStack(s, tx, k)) == Alive(BaseStack(t, tx, k));
      }
      AlikeBelow(VersIn(tx.overlay, k), BaseStack(s, tx, k), BaseStack(t, tx, k), w);
    }
    SameTxView(s, tx, t, tx, w);
  }

  lemma SameTxView(s: Store, tx: Tx, s': Store, tx': Tx, w: nat)
    requires forall k :: Alike(TxStack(s, tx, k), TxStack(s', tx', k), w)
    ensures TxView(s, tx, w) == TxView(s', tx', w)
  {
    forall k
      ensures k in TxView(s, tx, w) <==> k in TxView(s', tx', w)
      ensures k in TxView(s, tx, w) ==> TxView(s, tx, w)[k] == TxView(s', tx', w)[k]
    {
      assert Alike(TxStack(s, tx, k), TxStack(s', tx', k), w);
      TxViewAt(s, tx, w, k);
      TxViewAt(s', tx', w, k);
      AlikeResolve(TxStack(s, tx, k), TxStack(s', tx', k), w);
    }
  }

  // ----- Flush -----

  lemma AppendInOrder(ps: seq<Part>, p: Part)
    requires PartsInOrder(ps) && PartSorted(p) && (forall q :: q in ps ==> q.id < p.id)
    ensures PartsInOrder(ps + [p]) && SortParts(ps + [p]) == ps + [p]
  {
    var qs := ps + [p];
    assert forall i :: 0 <= i < |ps| ==> qs[i] == ps[i] && qs[i] in ps;
    assert IdsIncreasing(qs);
    SortParts_InOrder(qs);
  }

  ghost predicate RowsReadable(s: Store) {
    s.mem.Some? ==> Keyed(s.mem.value.rows) && HintSound(s.mem.value.rows, s.mem.value.hint)
  }

  lemma FlushParts(s: Store)
    requires PartsInv(s) && RowsReadable(s) && MemRows(s) != map[]
    ensures Flushed(s).parts == s.parts + [FlushPart(s)]
    ensures FlushPart(s).rows == RowsOf(MemRows(s))
    ensures PartsInv(Flushed(s))
  {
    SortedRowsList(s.mem.value);
    RowsOfIncreasing(MemRows(s));
    AppendInOrder(s.parts, FlushPart(s));
  }

  lemma FlushStack(s: Store, k: Key)
    requires Keyed(MemRows(s)) && MemRows(s) != map[]
    requires Flushed(s).parts == s.parts + [FlushPart(s)] && FlushPart(s).rows == RowsOf(MemRows(s))
    ensures Stack(Flushed(s), k) == Stack(s, k)
  {
    PartStackAppend(s.parts, FlushPart(s), k);
    FindRowsOf(MemRows(s), k);
  }

  lemma FlushStacks(s: Store, w: nat)
    requires PartsInv(s) && RowsReadable(s) && AllSound(s, w)
    ensures AllSound(Flushed(s), w) && AllAlike(s, Flushed(s), w)
  {
    forall k ensures Sound(Stack(Flushed(s), k), w) && Alike(Stack(s, k), Stack(Flushed(s), k), w) {
      if MemRows(s) != map[] {
        FlushParts(s);
        FlushStack(s, k);
      }
      assert Sound(Stack(s, k), w);
    }
  }

  /** A flush moves the memory rows to the newest part and changes no stack. */
  lemma FlushQuiet(s: Store, w: nat)
    requires StoreInv(s, w)
    ensures Quiet(s, Flushed(s), w)
    ensures View(Flushed(s), w) == View(s, w)
  {
    var t := Flushed(s);
    FlushStacks(s, w);
    SameView(s, t, w);
    if MemRows(s) == map[] {
      assert t == s;
    } else {
      FlushParts(s);
      assert PartsInv(t) && MemInv(t);
      assert !CacheValid(t.mem.value);
    }
  }

  // ----- The sorted view of the memory part -----

  /** Building the sorted view changes no row and leaves a sound cache. */
  lemma CachedQuiet(s: Store, w: nat)
    requires StoreInv(s, w) && s.mem.Some?
    ensures Quiet(s, s.(mem := Some(Cached(s.mem.value))), w)
  {
    hide Sound;
    hide Alike;
    hide Find;
    hide View;
    var m := s.mem.value;
    var t := s.(mem := Some(Cached(m)));
    SameRows(s, t, w);
    if CacheValid(m) {
      assert t == s;
    } else {
      CacheBuilt(s, w);
    }
  }

  lemma SameRows(s: Store, t: Store, w: nat)
    requires AllSound(s, w) && MemRows(t) == MemRows(s) && t.parts == s.parts
    ensures AllSound(t, w) && AllAlike(s, t, w) && View(t, w) == View(s, w)
  {
    forall k ensures Sound(Stack(t, k), w) && Alike(Stack(s, k), Stack(t, k), w) {
      assert Sound(Stack(s, k), w);
      assert Stack(t, k) == Stack(s, k);
    }
    SameView(s, t, w);
  }

  lemma CacheBuilt(s: Store, w: nat)
    requires AllSound(s, w) && s.mem.Some? && RowsReadable(s) && !CacheValid(s.mem.value)
    ensures CacheSound(s.(mem := Some(Cached(s.mem.value))), w)
  {
    var m := s.mem.value;
    var t := s.(mem := Some(Cached(m)));
    var rs := SortedRows(m);
    SortedRowsList(m);
    forall k ensures Find(Plain(rs), k) == VersIn(m.rows, k) {
      ListsFind(rs, m.rows, k);
    }
    forall k | k !in m.rows ensures StaleUnseen(t, k, w) {
      assert Sound(Stack(s, k), w);
      assert ScanStack(t, k) == Stack(s, k) == PartStack(s.parts, k);
    }
  }

  // ----- Background jobs -----

  /** The stack of `k` above the parts a job started from. */
  ghost function Above(s: Store, olds: seq<Part>, k: Key): seq<Version> {
    VersIn(MemRows(s), k) + PartStack(Newer(s, olds), k)
  }

  /** The parts published after the job started. */
  ghost function Newer(s: Store, olds: seq<Part>): seq<Part> {
    if olds <= s.parts then s.parts[|olds|..] else []
  }

  /**
   A row the job holds is still visible at the bottom of what lies above its parts,
   or hidden by a version that no column of it can show through. If it is the very
   row in memory, nothing was published above the job's parts.
   */
  ghost predicate Shielded(s: Store, olds: seq<Part>, r: MemRow, w: nat) {
    var k := r.row.pk;
    var a := Above(s, olds, k);
    && a != []
    && Covers(a[|a| - 1], r.row.ver)
    && Sound([r.row.ver] + PartStack(olds, k), w)
    && (StillThere(s, r) ==> MemRows(s)[k] == r && a == [r.row.ver])
  }

  ghost predicate StillThere(s: Store, r: MemRow) {
    r.row.pk in MemRows(s) && MemRows(s)[r.row.pk].addr == r.addr
  }

  /** What holds while a job that took `rows` over the parts `olds` is in flight. */
  ghost predicate JobInv(s: Store, olds: seq<Part>, rows: map<Key, MemRow>, w: nat) {
    && olds <= s.parts
    && Keyed(rows)
    && forall k :: k in rows ==> rows[k].addr < s.nextAddr && Shielded(s, olds, rows[k], w)
  }

  lemma PrefixRest(a: seq<Part>, b: seq<Part>)
    requires a <= b
    ensures b == a + b[|a|..]
  {
  }

  lemma StackSplit(s: Store, olds: seq<Part>, k: Key)
    requires olds <= s.parts
    ensures Stack(s, k) == Above(s, olds, k) + PartStack(olds, k)
  {
    hide PartStack;
    hide VersIn;
    var news := Newer(s, olds);
    PrefixRest(olds, s.parts);
    PartStackConcat(olds, news, k);
    assert VersIn(MemRows(s), k) + (PartStack(news, k) + PartStack(olds, k)) == Above(s, olds, k) + PartStack(olds, k);
  }

  /** A job starts with every memory row shielded by itself. */
  lemma JobStarts(s: Store, w: nat)
    requires StoreInv(s, w)
    ensures JobInv(s, s.parts, MemRows(s), w)
  {
    assert Newer(s, s.parts) == [];
    forall k | k in MemRows(s) ensures Shielded(s, s.parts, MemRows(s)[k], w) {
      assert Sound(Stack(s, k), w);
      assert Above(s, s.parts, k) == [MemRows(s)[k].row.ver];
    }
  }

  // ----- What a finished job may do to the table -----

  /** What the job holds for `k`, over what it started from. */
  ghost function Held(olds: seq<Part>, rows: map<Key, MemRow>, k: Key): seq<Version> {
    VersIn(rows, k) + PartStack(olds, k)
  }

  /** The stack a job leaves below the newer parts: what it held, as it was or compacted. */
  ghost predicate Rebuilt(y: seq<Version>, held: seq<Version>, w: nat) {
    y == held || y == Compacted(held, w)
  }

  /** At `k`, memory loses the very row the job wrote. */
  ghost predicate TakenOut(s: Store, t: Store, rows: map<Key, MemRow>, k: Key) {
    k in rows && rows[k].row.pk == k && StillThere(s, rows[k]) && k !in MemRows(t)
  }

  ghost predicate KeptOrTaken(s: Store, t: Store, rows: map<Key, MemRow>, k: Key) {
    TakenOut(s, t, rows, k) || VersIn(MemRows(t), k) == VersIn(MemRows(s), k)
  }

  /** `t` differs from `s` as a finished job may make it differ at `k`. */
  ghost predicate Finishes(s: Store, t: Store, olds: seq<Part>, rows: map<Key, MemRow>, y: seq<Version>, w: nat, k: Key) {
    && KeptOrTaken(s, t, rows, k)
    && PartStack(t.parts, k) == PartStack(Newer(s, olds), k) + y
    && Rebuilt(y, Held(olds, rows, k), w)
  }

  ghost predicate FinishesAt(s: Store, t: Store, olds: seq<Part>, rows: map<Key, MemRow>, w: nat, k: Key) {
    exists y :: Finishes(s, t, olds, rows, y, w, k)
  }

  lemma RebuiltUnder(a: seq<Version>, r: seq<Version>, b: seq<Version>, y: seq<Version>, w: nat)
    requires Sound(a + b, w) && |r| <= 1 && Rebuilt(y, r + b, w)
    requires r != [] ==> a != [] && Covers(a[|a| - 1], r[0]) && Sound(r + b, w)
    ensures Sound(a + y, w) && Alike(a + b, a + y, w)
  {
    if r == [] {
      assert r + b == b;
      SoundBelow(a, b, w);
      CompactedAlike(b, w);
      AlikeBelow(a, b, y, w);
    } else {
      assert r == [r[0]];
      PublishBelow(a, r[0], b, w);
      CompactBelow(a, r[0], b, w);
    }
  }

  lemma TakenOutStack(s: Store, t: Store, olds: seq<Part>, rows: map<Key, MemRow>, y: seq<Version>, w: nat, k: Key)
    requires JobInv(s, olds, rows, w) && Finishes(s, t, olds, rows, y, w, k) && TakenOut(s, t, rows, k)
    ensures Stack(t, k) == PartStack(t.parts, k) == y
    ensures Stack(s, k) == Held(olds, rows, k)
    ensures Sound(y, w) && Alike(Stack(s, k), y, w)
  {
    assert Shielded(s, olds, rows[k], w);
    StackSplit(s, olds, k);
    assert PartStack(Newer(s, olds), k) == [];
    CompactedAlike(Held(olds, rows, k), w);
  }

  /** A finished job changes no stack observably. */
  lemma FinishedStack(s: Store, t: Store, olds: seq<Part>, rows: map<Key, MemRow>, y: seq<Version>, w: nat, k: Key)
    requires JobInv(s, olds, rows, w) && Sound(Stack(s, k), w) && Finishes(s, t, olds, rows, y, w, k)
    ensures Sound(Stack(t, k), w) && Alike(Stack(s, k), Stack(t, k), w)
  {
    hide Sound;
    hide Alike;
    if TakenOut(s, t, rows, k) {
      TakenOutStack(s, t, olds, rows, y, w, k);
    } else {
      KeptStack(s, t, olds, rows, y, w, k);
    }
  }

  lemma KeptStack(s: Store, t: Store, olds: seq<Part>, rows: map<Key, MemRow>, y: seq<Version>, w: nat, k: Key)
    requires JobInv(s, olds, rows, w) && Sound(Stack(s, k), w) && Finishes(s, t, olds, rows, y, w, k) && !TakenOut(s, t, rows, k)
    ensures Sound(Stack(t, k), w) && Alike(Stack(s, k), Stack(t, k), w)
  {
    hide Sound;
    hide Alike;
    hide PartStack;
    hide Shielded;
    hide Above;
    hide Covers;
    StackSplit(s, olds, k);
    if k in rows {
      ShieldedBy(s, olds, rows, w, k);
    }
    RebuiltUnder(Above(s, olds, k), VersIn(rows, k), PartStack(olds, k), y, w);
    KeptAbove(s, t, olds, rows, y, w, k);
  }

  lemma ShieldedBy(s: Store, olds: seq<Part>, rows: map<Key, MemRow>, w: nat, k: Key)
    requires JobInv(s, olds, rows, w) && k in rows
    ensures var a := Above(s, olds, k);
            a != [] && Covers(a[|a| - 1], rows[k].row.ver) && Sound(VersIn(rows, k) + PartStack(olds, k), w)
  {
    hide Sound;
    hide Covers;
    hide PartStack;
    assert Shielded(s, olds, rows[k], w);
  }

  lemma KeptAbove(s: Store, t: Store, olds: seq<Part>, rows: map<Key, MemRow>, y: seq<Version>, w: nat, k: Key)
    requires Finishes(s, t, olds, rows, y, w, k) && !TakenOut(s, t, rows, k)
    ensures Stack(t, k) == Above(s, olds, k) + y
  {
    hide PartStack;
    hide Rebuilt;
    hide TakenOut;
    var p, q := VersIn(MemRows(s), k), PartStack(Newer(s, olds), k);
    assert p + (q + y) == p + q + y;
  }

  /** Nor does it make a row that only the cached view still holds visible. */
  lemma FinishedStale(s: Store, t: Store, olds: seq<Part>, rows: map<Key, MemRow>, y: seq<Version>, w: nat, k: Key)
    requires JobInv(s, olds, rows, w) && Sound(Stack(s, k), w) && Finishes(s, t, olds, rows, y, w, k)
    requires k !in MemRows(s) && StaleUnseen(s, k, w)
    requires ScanVers(t.mem, k) == ScanVers(s.mem, k)
    ensures StaleUnseen(t, k, w)
  {
    var c, q, below := ScanVers(s.mem, k), PartStack(Newer(s, olds), k), PartStack(olds, k);
    StackSplit(s, olds, k);
    assert Above(s, olds, k) == q;
    assert k in rows ==> Shielded(s, olds, rows[k], w);
    StaleRebuilt(c, q, VersIn(rows, k), below, y, w) by {
      assert Stack(s, k) == PartStack(s.parts, k);
    }
  }

  lemma StaleRebuilt(c: seq<Version>, q: seq<Version>, r: seq<Version>, b: seq<Version>, y: seq<Version>, w: nat)
    requires Sound(q + b, w) && Sound(c + (q + b), w) && Alike(c + (q + b), q + b, w)
    requires |r| <= 1 && Rebuilt(y, r + b, w)
    requires r != [] ==> q != [] && Covers(q[|q| - 1], r[0]) && Sound(r + b, w)
    ensures Sound(c + (q + y), w) && Alike(c + (q + y), q + y, w)
  {
    assert c + (q + b) == (c + q) + b && c + (q + y) == (c + q) + y;
    RebuiltUnder(q, r, b, y, w);
    RebuiltUnder(c + q, r, b, y, w);
  }

  lemma FinishedTaken(s: Store, t: Store, olds: seq<Part>, rows: map<Key, MemRow>, y: seq<Version>, w: nat, k: Key)
    requires JobInv(s, olds, rows, w) && Finishes(s, t, olds, rows, y, w, k) && TakenOut(s, t, rows, k)
    requires ScanVers(t.mem, k) == VersIn(MemRows(s), k)
    ensures StaleUnseen(t, k, w)
  {
    var r, below := rows[k].row.ver, PartStack(olds, k);
    assert Shielded(s, olds, rows[k], w);
    TakenOutStack(s, t, olds, rows, y, w, k);
    RebuiltUnder([r], [r], below, y, w);
    assert ScanStack(t, k) == [r] + y;
    assert Alike([r] + below, [r] + y, w) && Alike([r] + below, y, w);
  }

  /** A finished job is quiet: every key reads as before, and so does every cached view. */
  lemma FinishedQuiet(s: Store, t: Store, olds: seq<Part>, rows: map<Key, MemRow>, w: nat)
    requires StoreInv(s, w) && JobInv(s, olds, rows, w)
    requires forall k :: FinishesAt(s, t, olds, rows, w, k)
    requires PartsInv(t) && MemInv(t) && t.count == s.count
    requires t.mem.Some? == s.mem.Some? && (t.mem.Some? ==> SameCache(s.mem.value, t.mem.value))
    ensures Quiet(s, t, w) && View(t, w) == View(s, w)
  {
    forall k ensures Sound(Stack(t, k), w) && Alike(Stack(s, k), Stack(t, k), w) {
      assert Sound(Stack(s, k), w) && FinishesAt(s, t, olds, rows, w, k);
      var y :| Finishes(s, t, olds, rows, y, w, k);
      FinishedStack(s, t, olds, rows, y, w, k);
    }
    SameView(s, t, w);
    FinishedCache(s, t, olds, rows, w);
  }

  ghost predicate SameCache(m: Mem, n: Mem) {
    n.gen == m.gen && n.cacheGen == m.cacheGen && n.cache == m.cache
  }

  lemma FinishedCacheAt(s: Store, t: Store, olds: seq<Part>, rows: map<Key, MemRow>, w: nat, k: Key)
    requires JobInv(s, olds, rows, w) && Sound(Stack(s, k), w) && CacheSound(s, w) && FinishesAt(s, t, olds, rows, w, k)
    requires s.mem.Some? && t.mem.Some? && SameCache(s.mem.value, t.mem.value) && CacheValid(t.mem.value)
    ensures k in MemRows(t) ==> Find(Plain(t.mem.value.cache.value), k) == VersIn(MemRows(t), k)
    ensures k !in MemRows(t) ==> StaleUnseen(t, k, w)
  {
    hide StaleUnseen;
    hide Stack;
    hide Sound;
    hide JobInv;
    hide Find;
    var y :| Finishes(s, t, olds, rows, y, w, k);
    assert ScanVers(t.mem, k) == ScanVers(s.mem, k);
    if TakenOut(s, t, rows, k) {
      FinishedTaken(s, t, olds, rows, y, w, k);
    } else if k !in MemRows(t) {
      FinishedStale(s, t, olds, rows, y, w, k);
    }
  }

  lemma FinishedCache(s: Store, t: Store, olds: seq<Part>, rows: map<Key, MemRow>, w: nat)
    requires StoreInv(s, w) && JobInv(s, olds, rows, w)
    requires forall k :: FinishesAt(s, t, olds, rows, w, k)
    requires t.mem.Some? == s.mem.Some? && (t.mem.Some? ==> SameCache(s.mem.value, t.mem.value))
    ensures CacheSound(t, w)
  {
    hide StaleUnseen;
    hide Stack;
    hide Sound;
    hide JobInv;
    hide Find;
    hide FinishesAt;
    if t.mem.Some? && CacheValid(t.mem.value) {
      forall k
        ensures k in MemRows(t) ==> Find(Plain(t.mem.value.cache.value), k) == VersIn(MemRows(t), k)
        ensures k !in MemRows(t) ==> StaleUnseen(t, k, w)
      {
        assert Sound(Stack(s, k), w) && FinishesAt(s, t, olds, rows, w, k);
        FinishedCacheAt(s, t, olds, rows, w, k);
      }
    }
  }

  // ----- Publishing an idle flush -----

  ghost function AfterPublish(s: Store, olds: seq<Part>, rows: map<Key, MemRow>, id: nat): seq<Part> {
    olds + [Part(id, RowsOf(rows))] + Newer(s, olds)
  }

  lemma PublishParts(s: Store, olds: seq<Part>, rows: map<Key, MemRow>, id: nat)
    requires PartsInv(s) && olds <= s.parts && Keyed(rows) && id <= s.nextID
    requires (forall p :: p in olds ==> p.id < id) && forall p :: p in Newer(s, olds) ==> id < p.id
    ensures SortParts(s.parts + [Part(id, RowsOf(rows))]) == AfterPublish(s, olds, rows, id)
    ensures PartsInv(s.(parts := AfterPublish(s, olds, rows, id)))
  {
    var news := Newer(s, olds);
    var p := Part(id, RowsOf(rows));
    assert s.parts == olds + news;
    RowsOfIncreasing(rows);
    SortPublished(olds, p, news);
    IdsBetween(olds, p, news);
  }

  lemma IdsBetween(a: seq<Part>, p: Part, b: seq<Part>)
    requires PartsInOrder(a + b) && PartSorted(p)
    requires (forall q :: q in a ==> q.id < p.id) && forall q :: q in b ==> p.id < q.id
    ensures PartsInOrder(a + [p] + b)
  {
    var ps, qs := a + b, a + [p] + b;
    assert forall i :: 0 <= i < |a| ==> qs[i] == ps[i] && qs[i] in a;
    assert forall i :: |a| < i < |qs| ==> qs[i] == ps[i - 1] && qs[i] in b;
  }

  lemma PublishedPartStack(s: Store, olds: seq<Part>, rows: map<Key, MemRow>, id: nat, k: Key)
    requires Keyed(rows) && olds <= s.parts
    ensures PartStack(AfterPublish(s, olds, rows, id), k) == PartStack(Newer(s, olds), k) + Held(olds, rows, k)
  {
    var p := Part(id, RowsOf(rows));
    PartStackConcat(olds + [p], Newer(s, olds), k);
    PartStackAppend(olds, p, k);
    FindRowsOf(rows, k);
  }

  lemma PublishFinishes(s: Store, t: Store, olds: seq<Part>, memAddr: nat, rows: map<Key, MemRow>, id: nat, w: nat, k: Key)
    requires MemInv(s) && olds <= s.parts && Keyed(rows)
    requires t == Published(s, memAddr, rows, id, true) && t.parts == AfterPublish(s, olds, rows, id)
    requires k in rows && StillThere(s, rows[k]) ==> s.mem.value.addr == memAddr
    ensures FinishesAt(s, t, olds, rows, w, k)
  {
    PublishedPartStack(s, olds, rows, id, k);
    assert KeptOrTaken(s, t, rows, k);
    assert Finishes(s, t, olds, rows, Held(olds, rows, k), w, k);
  }

  /**
   Publishing the part of an idle flush: whatever commits and threshold flushes
   landed since the rows were taken, no row is lost, duplicated or reverted.
   */
  lemma PublishQuiet(s: Store, olds: seq<Part>, memAddr: nat, rows: map<Key, MemRow>, id: nat, ok: bool, w: nat)
    requires StoreInv(s, w) && JobInv(s, olds, rows, w) && id <= s.nextID
    requires (forall p :: p in olds ==> p.id < id) && forall p :: p in Newer(s, olds) ==> id < p.id
    requires forall k :: k in rows && StillThere(s, rows[k]) ==> s.mem.value.addr == memAddr
    ensures Quiet(s, Published(s, memAddr, rows, id, ok), w)
    ensures View(Published(s, memAddr, rows, id, ok), w) == View(s, w)
  {
    var t := Published(s, memAddr, rows, id, ok);
    if ok {
      PublishParts(s, olds, rows, id);
      assert t.parts == AfterPublish(s, olds, rows, id);
      forall k ensures FinishesAt(s, t, olds, rows, w, k) {
        PublishFinishes(s, t, olds, memAddr, rows, id, w, k);
      }
      PublishedMem(s, memAddr, rows, id, ok);
      FinishedQuiet(s, t, olds, rows, w);
    } else {
      SameRows(s, t, w);
      SameMemQuiet(s, t, w);
    }
  }

  lemma PublishedMem(s: Store, memAddr: nat, rows: map<Key, MemRow>, id: nat, ok: bool)
    requires MemInv(s) && Keyed(rows)
    ensures MemInv(Published(s, memAddr, rows, id, ok))
  {
  }

  lemma SameMemQuiet(s: Store, t: Store, w: nat)
    requires StoreInv(s, w) && AllSound(t, w) && View(t, w) == View(s, w)
    requires t.parts == s.parts && t.count == s.count && t.nextID == s.nextID && t.nextAddr == s.nextAddr
    requires t.mem.Some? == s.mem.Some? && (t.mem.Some? ==> t.mem.value == s.mem.value.(sealing := t.mem.value.sealing))
    ensures StoreInv(t, w)
  {
    forall k | k !in MemRows(s) && StaleUnseen(s, k, w) && s.mem.Some? ensures StaleUnseen(t, k, w) {
      assert ScanStack(t, k) == ScanStack(s, k);
    }
  }

  // ----- Swapping in the parts of a compaction -----

  /** The rows a compaction wrote are the compacted stacks it held. */
  ghost predicate Merges(rows: seq<Row>, olds: seq<Part>, mem: map<Key, MemRow>, w: nat) {
    KeysIncreasing(rows) && forall k :: Find(rows, k) == Compacted(Held(olds, mem, k), w)
  }

  lemma MergesSnapshot(s: Store, w: nat)
    ensures Merges(TableRows(View(s, w)), s.parts, MemRows(s), w)
    ensures |TableRows(View(s, w))| == |View(s, w)|
  {
    TableRowsIncreasing(View(s, w));
    forall k ensures Find(TableRows(View(s, w)), k) == Compacted(Held(s.parts, MemRows(s), k), w) {
      FindTableRows(View(s, w), k);
      ViewAt(s, w, k);
    }
  }

  ghost predicate SwapReady(s: Store, olds: seq<Part>, rows: map<Key, MemRow>, out: seq<Row>, startID: nat, w: nat) {
    && JobInv(s, olds, rows, w)
    && Merges(out, olds, rows, w)
    && (forall p :: p in Newer(s, olds) ==> startID + |Chunked(out, startID)| <= p.id)
    && startID + |Chunked(out, startID)| <= s.nextID + 1
  }

  lemma SwapParts(s: Store, olds: seq<Part>, out: seq<Row>, startID: nat)
    requires PartsInv(s) && olds <= s.parts && KeysIncreasing(out)
    requires forall p :: p in Newer(s, olds) ==> startID + |Chunked(out, startID)| <= p.id
    requires startID + |Chunked(out, startID)| <= s.nextID + 1
    ensures SortParts(Kept(s.parts, olds) + Chunked(out, startID)) == Chunked(out, startID) + Newer(s, olds)
    ensures PartsInv(s.(parts := Chunked(out, startID) + Newer(s, olds)))
  {
    var news, kept := Chunked(out, startID), Newer(s, olds);
    PrefixRest(olds, s.parts);
    KeptSuffix(olds, kept);
    ChunkedInOrder(out, startID);
    SuffixInOrder(olds, kept);
    assert forall i, j :: 0 <= i < |news| && 0 <= j < |kept| ==> kept[j] in kept && news[i].id < kept[j].id;
    SortMerged(kept, news);
    ConcatInOrder(news, kept);
  }

  lemma SuffixInOrder(a: seq<Part>, b: seq<Part>)
    requires PartsInOrder(a + b)
    ensures PartsInOrder(b)
  {
    assert forall i :: 0 <= i < |b| ==> b[i] == (a + b)[|a| + i];
    assert forall p :: p in b ==> p in a + b;
  }

  lemma ConcatInOrder(a: seq<Part>, b: seq<Part>)
    requires PartsInOrder(a) && PartsInOrder(b)
    requires forall i, j :: 0 <= i < |a| && 0 <= j < |b| ==> a[i].id < b[j].id
    ensures PartsInOrder(a + b)
  {
  }

  lemma SwapFinishes(s: Store, t: Store, olds: seq<Part>, rows: map<Key, MemRow>, out: seq<Row>, startID: nat, w: nat, k: Key)
    requires MemInv(s) && olds <= s.parts && Keyed(rows) && Merges(out, olds, rows, w)
    requires t.parts == Chunked(out, startID) + Newer(s, olds)
    requires t.mem.Some? == s.mem.Some? && MemRows(t) == Minus(MemRows(s), rows)
    ensures FinishesAt(s, t, olds, rows, w, k)
  {
    PartStackConcat(Chunked(out, startID), Newer(s, olds), k);
    ChunkedStack(out, startID, k);
    assert KeptOrTaken(s, t, rows, k);
    assert Finishes(s, t, olds, rows, Compacted(Held(olds, rows, k), w), w, k);
  }

  lemma SwapMem(s: Store, olds: seq<Part>, rows: map<Key, MemRow>, out: seq<Row>, startID: nat, w: nat)
    requires StoreInv(s, w) && SwapReady(s, olds, rows, out, startID, w)
    ensures var t := Swapped(s, olds, rows, |out|, Chunked(out, startID), |out|);
            && MemInv(t) && t.mem.Some? == s.mem.Some? && (t.mem.Some? ==> SameCache(s.mem.value, t.mem.value))
  {
    hide Chunked;
    hide Stack;
    hide View;
  }

  /**
   Phase 3 of a compaction: after any commits that landed since phase 1 the visible
   table and the live count are what they were before the swap.
   */
  lemma SwapQuiet(s: Store, olds: seq<Part>, rows: map<Key, MemRow>, out: seq<Row>, startID: nat, w: nat)
    requires StoreInv(s, w) && SwapReady(s, olds, rows, out, startID, w)
    ensures var t := Swapped(s, olds, rows, |out|, Chunked(out, startID), |out|);
            Quiet(s, t, w) && View(t, w) == View(s, w) && t.count == s.count
  {
    hide MemInv;
    hide SameCache;
    hide View;
    hide Quiet;
    hide Stack;
    hide Chunked;
    hide FinishesAt;
    var t := Swapped(s, olds, rows, |out|, Chunked(out, startID), |out|);
    SwapParts(s, olds, out, startID);
    assert t.parts == Chunked(out, startID) + Newer(s, olds);
    forall k ensures FinishesAt(s, t, olds, rows, w, k) {
      SwapFinishes(s, t, olds, rows, out, startID, w, k);
    }
    SwapMem(s, olds, rows, out, startID, w);
    FinishedQuiet(s, t, olds, rows, w);
  }

  // ----- Commit -----

  /** Folding an overlay row over memory reads as the overlay over the whole stack. */
  lemma FoldStack(s: Store, tx: Tx, w: nat, k: Key)
    requires Keyed(tx.overlay) && AllSound(s, w)
    requires k in tx.overlay ==> OverlaySound(s, tx, k, w) && !tx.cleared
    ensures Sound(Stack(Fold(s, tx), k), w)
    ensures Alike(VersIn(tx.overlay, k) + Stack(s, k), Stack(Fold(s, tx), k), w)
  {
    var t := Fold(s, tx);
    var below := PartStack(s.parts, k);
    assert Sound(Stack(s, k), w);
    if k !in tx.overlay {
      assert Stack(t, k) == Stack(s, k) == VersIn(tx.overlay, k) + Stack(s, k);
    } else {
      var r := tx.overlay[k].row.ver;
      if k in MemRows(s) {
        var m := MemRows(s)[k].row.ver;
        assert Stack(s, k) == [m] + below;
        assert Stack(t, k) == [FoldedVer(r, m)] + below;
        FoldedAlike(r, m, below, w);
        assert [r] + ([m] + below) == [r] + Stack(s, k);
      } else {
        assert Stack(s, k) == below && Stack(t, k) == [r] + below;
        assert ([r] + below)[1..] == below;
      }
    }
  }

  ghost function FoldedVer(r: Version, m: Version): Version {
    if m.del then r else Version(Filled(r.cells, m.cells), r.del)
  }

  lemma FoldedAlike(r: Version, m: Version, below: seq<Version>, w: nat)
    requires Sound([m] + below, w)
    requires !r.del ==> |r.cells| == w
    requires !r.del && [] in r.cells ==> !m.del
    ensures Sound([FoldedVer(r, m)] + below, w)
    ensures Alike([r] + ([m] + below), [FoldedVer(r, m)] + below, w)
  {
    var x, y := [r] + ([m] + below), [FoldedVer(r, m)] + below;
    assert x[1..] == [m] + below && ([m] + below)[1..] == below == y[1..];
    var f := FoldedVer(r, m);
    if !f.del && [] in f.cells {
      var c :| 0 <= c < w && f.cells[c] == [];
      assert r.cells[c] == [] && m.cells[c] == [];
    }
    forall c: nat | c < w ensures Col(x, c) == Col(y, c) {
      if !r.del && r.cells[c] == [] {
        assert Col(x, c) == Col([m] + below, c);
      }
    }
  }

  lemma FoldMem(s: Store, tx: Tx, w: nat)
    requires MemInv(s) && Keyed(tx.overlay) && TxHintSound(tx) && tx.overlay != map[]
    requires forall k :: k in tx.overlay ==> tx.overlay[k].addr < s.nextAddr
    ensures MemInv(Fold(s, tx)) && !CacheValid(Fold(s, tx).mem.value)
  {
    hide KeysIncreasing;
    hide FoldedRows;
    FoldedKeyed(MemRows(s), tx.overlay, s.nextAddr);
  }

  lemma FoldedKeyed(cur: map<Key, MemRow>, overlay: map<Key, MemRow>, n: nat)
    requires Keyed(cur) && Keyed(overlay)
    requires forall k :: k in cur ==> cur[k].addr < n
    requires forall k :: k in overlay ==> overlay[k].addr < n
    ensures Keyed(FoldedRows(cur, overlay)) && forall k :: k in FoldedRows(cur, overlay) ==> FoldedRows(cur, overlay)[k].addr < n
    ensures cur == map[] ==> FoldedRows(cur, overlay) == overlay
  {
    if cur == map[] {
      assert forall k :: k in overlay ==> Folded(overlay[k], cur) == overlay[k];
    }
  }

  lemma FoldView(s: Store, tx: Tx, w: nat)
    requires AllSound(s, w) && Keyed(tx.overlay) && !tx.cleared
    requires forall k :: k in tx.overlay ==> OverlaySound(s, tx, k, w)
    ensures AllSound(Fold(s, tx), w) && View(Fold(s, tx), w) == TxView(s, tx, w)
  {
    var t := Fold(s, tx);
    forall k
      ensures Sound(Stack(t, k), w)
      ensures k in View(t, w) <==> k in TxView(s, tx, w)
      ensures k in View(t, w) ==> View(t, w)[k] == TxView(s, tx, w)[k]
    {
      FoldStack(s, tx, w, k);
      ViewAt(t, w, k);
      TxViewAt(s, tx, w, k);
      AlikeResolve(TxStack(s, tx, k), Stack(t, k), w);
    }
  }

  /** Only the count is missing. */
  lemma Counted(s: Store, n: int, w: nat)
    requires PartsInv(s) && MemInv(s) && AllSound(s, w) && CacheSound(s, w) && n == |View(s, w)|
    ensures StoreInv(s.(count := n), w) && View(s.(count := n), w) == View(s, w)
  {
    var t := s.(count := n);
    SameRows(s, t, w);
    SameCacheSound(s, t, w);
  }

  lemma SameCacheSound(s: Store, t: Store, w: nat)
    requires CacheSound(s, w) && t.mem == s.mem && t.parts == s.parts
    ensures CacheSound(t, w)
  {
    forall k | StaleUnseen(s, k, w) ensures StaleUnseen(t, k, w) {
      assert ScanStack(t, k) == ScanStack(s, k);
    }
  }

  lemma FoldRest(s: Store, tx: Tx, w: nat)
    requires StoreInv(s, w) && TxInv(s, tx, w)
    ensures PartsInv(Fold(s, tx)) && MemInv(Fold(s, tx)) && CacheSound(Fold(s, tx), w)
  {
    TxKeyed(s, tx, w);
    if tx.overlay == map[] {
      assert Fold(s, tx) == s;
    } else {
      forall k | k in tx.overlay ensures tx.overlay[k].addr < s.nextAddr {
        assert OverlaySound(s, tx, k, w);
      }
      FoldMem(s, tx, w);
      assert Fold(s, tx).parts == s.parts;
    }
  }

  ghost function FoldCounted(s: Store, tx: Tx): Store {
    Fold(s, tx).(count := Fold(s, tx).count + tx.delta)
  }

  /** Folding the overlay of a transaction that did not clear the table. */
  lemma FoldInv(s: Store, tx: Tx, w: nat)
    requires StoreInv(s, w) && TxInv(s, tx, w) && !tx.cleared
    ensures StoreInv(FoldCounted(s, tx), w) && View(FoldCounted(s, tx), w) == TxView(s, tx, w)
  {
    hide PartsInv;
    hide MemInv;
    hide CacheSound;
    hide AllSound;
    hide View;
    hide TxView;
    hide Stack;
    hide Sound;
    TxKeyed(s, tx, w);
    FoldRest(s, tx, w);
    FoldView(s, tx, w);
    Counted(Fold(s, tx), Fold(s, tx).count + tx.delta, w);
  }

  /** A store whose table was cleared, as its transaction sees it. */
  lemma ClearedStack(s: Store, tx: Tx, k: Key)
    requires tx.cleared
    ensures Stack(Dropped(s), k) == [] && TxStack(Dropped(s), tx.(cleared := false), k) == TxStack(s, tx, k)
  {
  }

  lemma DroppedInv(s: Store, w: nat)
    requires StoreInv(s, w)
    ensures StoreInv(Dropped(s), w) && View(Dropped(s), w) == map[]
  {
    var b := Dropped(s);
    forall k ensures Stack(b, k) == [] && Sound(Stack(b, k), w) {
    }
    assert View(b, w) == map[];
  }

  lemma ClearedBase(s: Store, tx: Tx, w: nat)
    requires StoreInv(s, w) && TxInv(s, tx, w) && tx.cleared
    ensures StoreInv(Dropped(s), w) && TxInv(Dropped(s), tx.(cleared := false), w)
    ensures TxView(Dropped(s), tx.(cleared := false), w) == TxView(s, tx, w)
  {
    var b, tx' := Dropped(s), tx.(cleared := false);
    DroppedInv(s, w);
    forall k ensures Alike(TxStack(b, tx', k), TxStack(s, tx, k), w) {
      ClearedStack(s, tx, k);
    }
    SameTxView(b, tx', s, tx, w);
    forall k | k in tx.overlay ensures OverlaySound(b, tx', k, w) {
      assert OverlaySound(s, tx, k, w);
      ClearedStack(s, tx, k);
    }
  }

  /**
   A commit publishes exactly the table its transaction read, and the live count
   follows, with or without a threshold flush.
   */
  lemma CommitPublishes(s: Store, tx: Tx, w: nat)
    requires StoreInv(s, w) && TxInv(s, tx, w)
    ensures StoreInv(Committed(s, tx), w)
    ensures View(Committed(s, tx), w) == TxView(s, tx, w)
    ensures Committed(s, tx).count == |TxView(s, tx, w)|
  {
    if tx.cleared {
      ClearedBase(s, tx, w);
      CommitOpen(Dropped(s), tx.(cleared := false), w);
      CommittedCleared(s, tx);
    } else {
      CommitOpen(s, tx, w);
    }
  }

  lemma CommittedCleared(s: Store, tx: Tx)
    requires tx.cleared
    ensures Committed(s, tx) == Committed(Dropped(s), tx.(cleared := false))
  {
    assert Fold(Dropped(s), tx) == Fold(Dropped(s), tx.(cleared := false));
  }

  lemma CommitOpen(s: Store, tx: Tx, w: nat)
    requires StoreInv(s, w) && TxInv(s, tx, w) && !tx.cleared
    ensures StoreInv(Committed(s, tx), w) && View(Committed(s, tx), w) == TxView(s, tx, w)
  {
    FoldInv(s, tx, w);
    CommittedIs(s, tx);
    FlushQuiet(FoldCounted(s, tx), w);
  }

  /** The count is adjusted last, but a flush does not look at it. */
  lemma FlushIgnoresCount(s: Store, n: int)
    ensures Flushed(s.(count := n)) == Flushed(s).(count := n)
  {
    assert MemRows(s.(count := n)) == MemRows(s);
    if MemRows(s) != map[] {
      assert FlushPart(s.(count := n)) == FlushPart(s);
    }
  }

  lemma SettledIs(s: Store, tx: Tx)
    ensures Settled(s, tx) ==
            if Overfull(s, tx) then Flushed(s.(count := s.count + tx.delta)) else s.(count := s.count + tx.delta)
  {
    FlushIgnoresCount(s, s.count + tx.delta);
  }

  lemma CommittedIs(s: Store, tx: Tx)
    requires !tx.cleared
    ensures Committed(s, tx) == if Overfull(Fold(s, tx), tx) then Flushed(FoldCounted(s, tx)) else FoldCounted(s, tx)
  {
    hide Fold;
    hide Flushed;
    hide Overfull;
    SettledIs(Fold(s, tx), tx);
  }

  // ----- A job in flight survives commits and flushes -----

  lemma {:induction false} LastOfConcat(a: seq<Version>, b: seq<Version>)
    requires b != []
    ensures (a + b)[|a + b| - 1] == b[|b| - 1]
  {
  }

  lemma ShieldedFold(s: Store, tx: Tx, olds: seq<Part>, r: MemRow, w: nat)
    requires AllSound(s, w) && Keyed(tx.overlay) && !tx.cleared && olds <= s.parts
    requires forall k :: k in tx.overlay ==> OverlaySound(s, tx, k, w) && (k == r.row.pk ==> tx.overlay[k].addr != r.addr)
    requires Shielded(s, olds, r, w)
    ensures Shielded(Fold(s, tx), olds, r, w)
  {
    var t, k := Fold(s, tx), r.row.pk;
    var q := PartStack(Newer(s, olds), k);
    assert Newer(t, olds) == Newer(s, olds);
    if k !in tx.overlay {
      assert VersIn(MemRows(t), k) == VersIn(MemRows(s), k);
      assert StillThere(t, r) ==> StillThere(s, r);
    } else {
      assert OverlaySound(s, tx, k, w);
      assert !StillThere(t, r);
      if q != [] {
        LastOfConcat(VersIn(MemRows(s), k), q);
        LastOfConcat(VersIn(MemRows(t), k), q);
      } else {
        var m := MemRows(s)[k].row.ver;
        assert Above(s, olds, k) == [m];
        var o := FoldedVer(tx.overlay[k].row.ver, m);
        assert Above(t, olds, k) == [o];
        assert Sound(Stack(s, k), w) && Stack(s, k)[0] == m;
        FoldedCovers(tx.overlay[k].row.ver, m, r.row.ver, w);
      }
    }
  }

  lemma FoldedCovers(v: Version, m: Version, r: Version, w: nat)
    requires Covers(m, r)
    requires !v.del ==> |v.cells| == w
    requires !m.del ==> |m.cells| == w
    requires !v.del && [] in v.cells ==> !m.del
    ensures Covers(FoldedVer(v, m), r)
  {
    var o := FoldedVer(v, m);
    if !o.del && [] in o.cells {
      var c :| 0 <= c < w && o.cells[c] == [];
      assert v.cells[c] == [] && m.cells[c] == [];
      assert [] in v.cells && [] in m.cells;
      forall i | 0 <= i < |o.cells| && o.cells[i] == [] ensures r.cells[i] == [] {
        assert m.cells[i] == [];
      }
    }
  }

  lemma ShieldedFlush(s: Store, olds: seq<Part>, r: MemRow, w: nat)
    requires PartsInv(s) && RowsReadable(s) && olds <= s.parts
    requires Shielded(s, olds, r, w)
    ensures olds <= Flushed(s).parts && Shielded(Flushed(s), olds, r, w)
  {
    if MemRows(s) != map[] {
      FlushParts(s);
      AboveFlushed(s, olds, r.row.pk);
    }
  }

  lemma AboveFlushed(s: Store, olds: seq<Part>, k: Key)
    requires Keyed(MemRows(s)) && MemRows(s) != map[] && olds <= s.parts
    requires Flushed(s).parts == s.parts + [FlushPart(s)] && FlushPart(s).rows == RowsOf(MemRows(s))
    ensures Above(Flushed(s), olds, k) == Above(s, olds, k)
  {
    hide RowsOf;
    hide Find;
    hide FlushPart;
    assert Newer(Flushed(s), olds) == Newer(s, olds) + [FlushPart(s)];
    PartStackAppend(Newer(s, olds), FlushPart(s), k);
    FindRowsOf(MemRows(s), k);
  }

  /** No row of the transaction is one the job took. */
  ghost predicate Apart(tx: Tx, rows: map<Key, MemRow>) {
    forall k :: k in tx.overlay && k in rows ==> tx.overlay[k].addr != rows[k].addr
  }

  lemma FoldKeeps(s: Store, tx: Tx)
    requires !tx.cleared
    ensures Fold(s, tx).parts == s.parts && Fold(s, tx).nextAddr >= s.nextAddr
  {
  }

  lemma JobUnderFold(s: Store, tx: Tx, olds: seq<Part>, rows: map<Key, MemRow>, w: nat)
    requires StoreInv(s, w) && TxInv(s, tx, w) && !tx.cleared && JobInv(s, olds, rows, w) && Apart(tx, rows)
    ensures JobInv(Fold(s, tx), olds, rows, w)
    ensures PartsInv(Fold(s, tx)) && RowsReadable(Fold(s, tx))
  {
    hide OverlaySound;
    hide HintSound;
    hide PartsInv;
    hide TxView;
    hide AllSound;
    hide Shielded;
    hide CacheSound;
    hide Fold;
    hide View;
    FoldKeeps(s, tx);
    TxKeyed(s, tx, w);
    forall k | k in rows ensures Shielded(Fold(s, tx), olds, rows[k], w) {
      ShieldedFold(s, tx, olds, rows[k], w);
    }
    FoldRest(s, tx, w);
  }

  /** A commit, flushing or not, leaves what a job in flight relies on. */
  lemma JobUnderCommit(s: Store, tx: Tx, olds: seq<Part>, rows: map<Key, MemRow>, w: nat)
    requires StoreInv(s, w) && TxInv(s, tx, w) && !tx.cleared && JobInv(s, olds, rows, w) && Apart(tx, rows)
    ensures JobInv(Committed(s, tx), olds, rows, w)
  {
    JobUnderFold(s, tx, olds, rows, w);
    JobCommitted(s, tx, olds, rows, w);
  }

  lemma JobCommitted(s: Store, tx: Tx, olds: seq<Part>, rows: map<Key, MemRow>, w: nat)
    requires !tx.cleared && JobInv(Fold(s, tx), olds, rows, w)
    requires PartsInv(Fold(s, tx)) && RowsReadable(Fold(s, tx))
    ensures JobInv(Committed(s, tx), olds, rows, w)
  {
    CommittedIs(s, tx);
    var t := FoldCounted(s, tx);
    JobRecount(Fold(s, tx), t, olds, rows, w);
    if Overfull(Fold(s, tx), tx) {
      JobUnderFlush(t, olds, rows, w);
    }
  }

  lemma JobUnderFlush(s: Store, olds: seq<Part>, rows: map<Key, MemRow>, w: nat)
    requires PartsInv(s) && RowsReadable(s) && JobInv(s, olds, rows, w)
    ensures JobInv(Flushed(s), olds, rows, w)
  {
    forall k | k in rows ensures Shielded(Flushed(s), olds, rows[k], w) {
      ShieldedFlush(s, olds, rows[k], w);
    }
    if MemRows(s) != map[] {
      FlushParts(s);
    }
  }

  lemma JobRecount(s: Store, t: Store, olds: seq<Part>, rows: map<Key, MemRow>, w: nat)
    requires JobInv(s, olds, rows, w)
    requires MemRows(t) == MemRows(s) && t.parts == s.parts && s.nextAddr <= t.nextAddr
    ensures JobInv(t, olds, rows, w)
  {
    hide Covers;
    hide Sound;
    hide PartStack;
    forall k | k in rows ensures Shielded(t, olds, rows[k], w) {
      assert Shielded(s, olds, rows[k], w);
      assert Above(t, olds, rows[k].row.pk) == Above(s, olds, rows[k].row.pk);
    }
  }
}
