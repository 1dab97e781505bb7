/**
 Whole runs of a CSTORE2 table: one transaction at a time, interleaved in any order
 with flushes, reads that build the cached view, and one background job in its two
 or three lock-held sections. The table seen through any run is the one obtained by
 applying the transactions to a plain map.
 */
module MpartRun {
  import opened Bytes
  import opened Wrappers
  import opened Versions
  import opened MpartModel
  import opened MpartSteps
  import opened MpartProofs
  import opened MpartTx

  /**
   A background job between its lock-held sections. `olds` are the parts it started
   from; `rows` the memory rows it took, by address; `out` what a merge writes.
   */
  datatype Job =
    | NoJob
    | Idle(olds: seq<Part>, memAddr: nat, rows: map<Key, MemRow>, id: nat)
    | Merge(olds: seq<Part>, rows: map<Key, MemRow>, oldCount: int, out: seq<Row>, startID: Option<nat>)

  datatype State = State(store: Store, tx: Option<Tx>, job: Job)

  datatype Step =
    | Begin
    | PutRow(k: Key, cells: seq<Cell>, check: bool)
    | DeleteRow(k: Key)
    | ClearTable
    | UpdateRange(ucells: seq<Cell>, lo: Option<Key>, hi: Option<Key>)
    | Commit
    | Rollback
    | Flush
    | BuildView
    | TakeIdle
    | PublishIdle(ok: bool)
    | Snapshot
    | Reserve
    | Swap

  function ChunkCount(n: nat): nat {
    (n + MERGE_CHUNK - 1) / MERGE_CHUNK
  }

  /** Publishes no part: what must not happen between a merge's snapshot and its id reservation. */
  ghost predicate Unreserved(job: Job) {
    job.Merge? && job.startID.None?
  }

  /**
   When a step may happen: the order of begin and commit, one job at a time, the
   callers' obligations on writes, and the two windows the code leaves unguarded
   (a clear while a job is in flight, a part published before a merge has its ids).
   */
  ghost predicate Enabled(st: State, step: Step, w: nat) {
    var s := st.store;
    match step
    case Begin => st.tx.None?
    case PutRow(k, cells, check) =>
      st.tx.Some? && PutAllowed(TxView(s, st.tx.value, w), st.tx.value, k, cells, check, w)
    case DeleteRow(k) => st.tx.Some? && DeleteAllowed(st.tx.value, k)
    case ClearTable => st.tx.Some?
    case UpdateRange(cells, lo, hi) =>
      && st.tx.Some? && |cells| == w
      && forall k :: k in TxView(s, st.tx.value, w) && InWindow(k, lo, hi) ==> k !in st.tx.value.overlay
    case Commit =>
      && st.tx.Some?
      && (st.job != NoJob ==> !st.tx.value.cleared)
      && (Unreserved(st.job) ==> !Overfull(Fold(s, st.tx.value), st.tx.value))
    case Rollback => st.tx.Some?
    case Flush => Unreserved(st.job) ==> MemRows(s) == map[]
    case BuildView => s.mem.Some?
    case TakeIdle =>
      st.job.NoJob? && s.mem.Some? && !s.mem.value.sealing && |MemRows(s)| >= IDLE_MIN_ROWS
    case PublishIdle(_) => st.job.Idle?
    case Snapshot => st.job.NoJob?
    case Reserve => Unreserved(st.job)
    case Swap => st.job.Merge? && st.job.startID.Some?
  }

  ghost function Apply(st: State, step: Step, w: nat): State
    requires Enabled(st, step, w)
  {
    var s := st.store;
    match step
    case Begin => st.(tx := Some(EMPTY_TX))
    case PutRow(k, cells, check) =>
      st.(store := Allocated(s, 1), tx := Some(Put(s, st.tx.value, k, cells, check)))
    case DeleteRow(k) => st.(store := Allocated(s, 1), tx := Some(Delete(s, st.tx.value, k)))
    case ClearTable => st.(tx := Some(Clear(st.tx.value)))
    case UpdateRange(cells, lo, hi) =>
      var ks := WindowKeys(TxView(s, st.tx.value, w), lo, hi);
      st.(store := Allocated(s, |ks|), tx := Some(PutAll(s, st.tx.value, ks, cells)))
    case Commit => st.(store := Committed(s, st.tx.value), tx := None)
    case Rollback => st.(tx := None)
    case Flush => st.(store := Flushed(s))
    case BuildView => st.(store := s.(mem := Some(Cached(s.mem.value))))
    case TakeIdle =>
      st.(store := s.(nextID := s.nextID + 1, mem := Some(s.mem.value.(sealing := true))),
          job := Idle(s.parts, s.mem.value.addr, MemRows(s), s.nextID + 1))
    case PublishIdle(ok) =>
      st.(store := Published(s, st.job.memAddr, st.job.rows, st.job.id, ok), job := NoJob)
    case Snapshot => st.(job := Merge(s.parts, MemRows(s), s.count, TableRows(View(s, w)), None))
    case Reserve =>
      st.(store := s.(nextID := s.nextID + ChunkCount(|st.job.out|)), job := st.job.(startID := Some(s.nextID + 1)))
    case Swap =>
      var job := st.job;
      st.(store := Swapped(s, job.olds, job.rows, job.oldCount, Chunked(job.out, job.startID.value), |job.out|), job := NoJob)
  }

  // ----- The specification: a table and what an open transaction has made of it -----

  datatype Spec = Spec(table: Table, open: Option<Table>)

  ghost predicate SpecEnabled(a: Spec, step: Step) {
    match step
    case PutRow(k, cells, _) => a.open.Some? && ([] in cells ==> k in a.open.value)
    case Begin => true
    case Flush | BuildView | TakeIdle | PublishIdle(_) | Snapshot | Reserve | Swap => true
    case _ => a.open.Some?
  }

  ghost function SpecApply(a: Spec, step: Step): Spec
    requires SpecEnabled(a, step)
  {
    match step
    case Begin => a.(open := Some(a.table))
    case PutRow(k, cells, _) => a.(open := Some(Overlaid(a.open.value, k, cells)))
    case DeleteRow(k) => a.(open := Some(a.open.value - {k}))
    case ClearTable => a.(open := Some(map[]))
    case UpdateRange(cells, lo, hi) => a.(open := Some(Assigned(a.open.value, cells, lo, hi)))
    case Commit => Spec(a.open.value, None)
    case Rollback => a.(open := None)
    case _ => a
  }

  // ----- The invariant -----

  /** What a job in flight relies on, including the ids it holds. */
  ghost predicate JobOK(s: Store, job: Job, w: nat) {
    match job
    case NoJob => true
    case Idle(olds, memAddr, rows, id) =>
      && JobInv(s, olds, rows, w)
      && IdBetween(s, olds, id, 1)
      && InMem(s, rows, memAddr)
    case Merge(olds, rows, oldCount, out, startID) =>
      && JobInv(s, olds, rows, w)
      && Merges(out, olds, rows, w) && oldCount == |out|
      && (startID.None? ==> s.parts == olds)
      && (startID.Some? ==> IdBetween(s, olds, startID.value, ChunkCount(|out|)))
  }

  /** The ids `id .. id + n` lie between the job's parts and everything published since. */
  ghost predicate IdBetween(s: Store, olds: seq<Part>, id: nat, n: nat) {
    && (forall p :: p in olds ==> p.id < id)
    && (forall p :: p in Newer(s, olds) ==> id + n <= p.id)
    && id + n <= s.nextID + 1
  }

  ghost predicate InMem(s: Store, rows: map<Key, MemRow>, memAddr: nat) {
    forall k :: k in rows && StillThere(s, rows[k]) ==> s.mem.value.addr == memAddr
  }

  ghost function JobRows(job: Job): map<Key, MemRow> {
    match job
    case NoJob => map[]
    case Idle(_, _, rows, _) => rows
    case Merge(_, rows, _, _, _) => rows
  }

  ghost predicate TxOK(st: State, a: Spec, w: nat) {
    && st.tx.Some? == a.open.Some?
    && (st.tx.Some? ==>
          && TxInv(st.store, st.tx.value, w)
          && TxView(st.store, st.tx.value, w) == a.open.value
          && Apart(st.tx.value, JobRows(st.job)))
  }

  /** `st` shows what `a` says, and everything in flight is consistent. */
  ghost predicate Shows(st: State, a: Spec, w: nat) {
    && StoreInv(st.store, w)
    && View(st.store, w) == a.table
    && TxOK(st, a, w)
    && JobOK(st.store, st.job, w)
  }

  // ----- A job in flight survives the steps around it -----

  ghost function JobOlds(job: Job): seq<Part> {
    match job
    case NoJob => []
    case Idle(olds, _, _, _) => olds
    case Merge(olds, _, _, _, _) => olds
  }

  /** Parts were at most added, with ids never handed out before. */
  ghost predicate Grown(s: Store, t: Store) {
    && s.parts <= t.parts
    && s.nextID <= t.nextID
    && forall p :: p in t.parts[|s.parts|..] ==> s.nextID < p.id
  }

  /** A row the job took is in memory only if it was, and in the same memory part. */
  ghost predicate StaysPut(s: Store, t: Store, rows: map<Key, MemRow>) {
    forall k :: k in rows && StillThere(t, rows[k]) ==>
      StillThere(s, rows[k]) && t.mem.value.addr == s.mem.value.addr
  }

  lemma IdsGrown(s: Store, t: Store, olds: seq<Part>, id: nat, n: nat)
    requires Grown(s, t) && olds <= s.parts && IdBetween(s, olds, id, n)
    ensures IdBetween(t, olds, id, n)
  {
    assert Newer(t, olds) == Newer(s, olds) + t.parts[|s.parts|..];
  }

  lemma JobGrown(s: Store, t: Store, job: Job, w: nat)
    requires JobOK(s, job, w) && Grown(s, t) && StaysPut(s, t, JobRows(job))
    requires !job.NoJob? ==> JobInv(s, JobOlds(job), JobRows(job), w) && JobInv(t, JobOlds(job), JobRows(job), w)
    requires Unreserved(job) ==> t.parts == s.parts
    ensures JobOK(t, job, w)
  {
    match job
    case NoJob =>
    case Idle(olds, memAddr, rows, id) =>
      IdsGrown(s, t, olds, id, 1);
      InMemStays(s, t, rows, memAddr);
    case Merge(olds, rows, oldCount, out, startID) =>
      if startID.Some? {
        IdsGrown(s, t, olds, startID.value, ChunkCount(|out|));
      }
  }

  lemma InMemStays(s: Store, t: Store, rows: map<Key, MemRow>, memAddr: nat)
    requires InMem(s, rows, memAddr) && StaysPut(s, t, rows)
    ensures InMem(t, rows, memAddr)
  {
  }

  /** Steps that leave the parts and the memory rows alone. */
  lemma JobStill(s: Store, t: Store, job: Job, w: nat)
    requires JobOK(s, job, w)
    requires t.parts == s.parts && MemRows(t) == MemRows(s) && s.nextAddr <= t.nextAddr && s.nextID <= t.nextID
    requires s.mem.Some? ==> t.mem.Some? && t.mem.value.addr == s.mem.value.addr
    ensures JobOK(t, job, w)
  {
    if !job.NoJob? {
      JobRecount(s, t, JobOlds(job), JobRows(job), w);
    }
    JobGrown(s, t, job, w);
  }

  lemma FlushGrown(s: Store, rows: map<Key, MemRow>)
    requires PartsInv(s) && RowsReadable(s)
    ensures Grown(s, Flushed(s)) && StaysPut(s, Flushed(s), rows)
  {
    if MemRows(s) != map[] {
      FlushParts(s);
    }
  }

  lemma FlushJob(s: Store, job: Job, w: nat)
    requires StoreInv(s, w) && JobOK(s, job, w)
    requires Unreserved(job) ==> MemRows(s) == map[]
    ensures JobOK(Flushed(s), job, w)
  {
    FlushGrown(s, JobRows(job));
    if !job.NoJob? {
      JobUnderFlush(s, JobOlds(job), JobRows(job), w);
    }
    JobGrown(s, Flushed(s), job, w);
  }

  lemma FoldStaysPut(s: Store, tx: Tx, rows: map<Key, MemRow>)
    requires Apart(tx, rows) && Keyed(rows)
    requires forall k :: k in tx.overlay ==> tx.overlay[k].row.pk == k
    ensures StaysPut(s, Fold(s, tx), rows)
  {
    var t := Fold(s, tx);
    forall k | k in tx.overlay ensures k in MemRows(t) && MemRows(t)[k].addr == tx.overlay[k].addr {
    }
    assert forall k :: k in rows && StillThere(t, rows[k]) ==> k !in tx.overlay;
  }

  lemma CommitGrown(s: Store, tx: Tx, rows: map<Key, MemRow>, w: nat)
    requires StoreInv(s, w) && TxInv(s, tx, w) && !tx.cleared && Apart(tx, rows) && Keyed(rows)
    ensures Grown(s, Committed(s, tx)) && StaysPut(s, Committed(s, tx), rows)
    ensures !Overfull(Fold(s, tx), tx) ==> Committed(s, tx).parts == s.parts
  {
    TxKeyed(s, tx, w);
    FoldStaysPut(s, tx, rows);
    FoldRest(s, tx, w);
    CommittedIs(s, tx);
    CountedGrown(s, tx, rows);
  }

  lemma CountedGrown(s: Store, tx: Tx, rows: map<Key, MemRow>)
    requires StaysPut(s, Fold(s, tx), rows)
    requires PartsInv(Fold(s, tx)) && RowsReadable(Fold(s, tx))
    ensures Grown(s, FoldCounted(s, tx)) && StaysPut(s, FoldCounted(s, tx), rows)
    ensures Grown(s, Flushed(FoldCounted(s, tx))) && StaysPut(s, Flushed(FoldCounted(s, tx)), rows)
  {
    assert Fold(s, tx).parts == s.parts && Fold(s, tx).nextID == s.nextID;
    FlushGrown(FoldCounted(s, tx), rows);
  }

  lemma CommitJob(s: Store, tx: Tx, job: Job, w: nat)
    requires StoreInv(s, w) && TxInv(s, tx, w) && JobOK(s, job, w) && Apart(tx, JobRows(job))
    requires !job.NoJob? ==> !tx.cleared
    requires Unreserved(job) ==> !Overfull(Fold(s, tx), tx)
    ensures JobOK(Committed(s, tx), job, w)
  {
    if !job.NoJob? {
      JobUnderCommit(s, tx, JobOlds(job), JobRows(job), w);
      CommitGrown(s, tx, JobRows(job), w);
      JobGrown(s, Committed(s, tx), job, w);
    }
  }

  // ----- Transaction steps -----

  ghost predicate TxStep(step: Step) {
    step.PutRow? || step.DeleteRow? || step.ClearTable? || step.UpdateRange?
  }

  /** Rows a transaction buffers from now on are none a job in flight took. */
  lemma {:induction false} PutAllApart(s: Store, tx: Tx, ks: seq<Key>, cells: seq<Cell>, rows: map<Key, MemRow>)
    requires Apart(tx, rows) && forall k :: k in rows ==> rows[k].addr < s.nextAddr
    ensures Apart(PutAll(s, tx, ks, cells), rows)
    decreases ks
  {
    if ks != [] {
      PutAllApart(Allocated(s, 1), Put(s, tx, ks[0], cells, false), ks[1..], cells, rows);
    }
  }

  /** After a step the transaction sees what the map would hold. */
  ghost predicate StepSees(st: State, a: Spec, step: Step, w: nat)
    requires Enabled(st, step, w)
  {
    && SpecEnabled(a, step) && Apply(st, step, w).tx.Some? && SpecApply(a, step).open.Some?
    && Sees(Apply(st, step, w).store, Apply(st, step, w).tx.value, a.table, SpecApply(a, step).open.value, w)
  }

  lemma TxStepSees(st: State, a: Spec, step: Step, w: nat)
    requires Shows(st, a, w) && Enabled(st, step, w) && TxStep(step)
    ensures StepSees(st, a, step, w)
  {
    hide StoreInv;
    hide TxInv;
    hide View;
    hide Fold;
    hide Put;
    hide PutAll;
    hide Assigned;
    hide Overlaid;
    hide JobOK;
    var s, tx, t := st.store, st.tx.value, a.open.value;
    assert Sees(s, tx, a.table, t, w);
    match step
    case PutRow(k, cells, check) => PutUpdates(s, tx, k, cells, check, a.table, t, w);
    case DeleteRow(k) => DeleteUpdates(s, tx, k, a.table, t, w);
    case ClearTable => ClearUpdates(s, tx, a.table, t, w);
    case UpdateRange(cells, lo, hi) => UpdateRangeUpdates(s, tx, cells, lo, hi, a.table, t, w);
  }

  lemma TxStepApart(st: State, step: Step, w: nat)
    requires Enabled(st, step, w) && TxStep(step) && Apart(st.tx.value, JobRows(st.job))
    requires forall k :: k in JobRows(st.job) ==> JobRows(st.job)[k].addr < st.store.nextAddr
    ensures Apart(Apply(st, step, w).tx.value, JobRows(st.job))
  {
    match step
    case PutRow(_, _, _) =>
    case DeleteRow(_) =>
    case ClearTable =>
    case UpdateRange(cells, lo, hi) =>
      PutAllApart(st.store, st.tx.value, WindowKeys(TxView(st.store, st.tx.value, w), lo, hi), cells, JobRows(st.job));
  }

  lemma JobRowsOld(s: Store, job: Job, w: nat)
    requires JobOK(s, job, w)
    ensures forall k :: k in JobRows(job) ==> JobRows(job)[k].addr < s.nextAddr
  {
  }

  /** A transaction's step leaves everything but the address counter of the store, and the job. */
  lemma TxStepStore(st: State, a: Spec, step: Step, w: nat)
    requires Enabled(st, step, w) && TxStep(step)
    ensures var u := Apply(st, step, w);
            && u.job == st.job && u.tx.Some?
            && u.store == st.store.(nextAddr := u.store.nextAddr) && st.store.nextAddr <= u.store.nextAddr
    ensures SpecEnabled(a, step) ==> SpecApply(a, step).table == a.table && SpecApply(a, step).open.Some?
  {
    hide Put;
    hide PutAll;
    hide Delete;
    hide View;
    hide TxView;
    hide WindowKeys;
    hide Fold;
    hide Assigned;
    hide Overlaid;
  }

  lemma TxStepShows(st: State, a: Spec, step: Step, w: nat)
    requires Shows(st, a, w) && Enabled(st, step, w) && TxStep(step)
    ensures SpecEnabled(a, step) && Shows(Apply(st, step, w), SpecApply(a, step), w)
  {
    hide Apply;
    hide Enabled;
    hide SpecApply;
    hide TxInv;
    hide StoreInv;
    hide View;
    hide TxView;
    hide JobOK;
    TxStepSees(st, a, step, w);
    TxStepStore(st, a, step, w);
    JobRowsOld(st.store, st.job, w);
    TxStepApart(st, step, w);
    JobStill(st.store, Apply(st, step, w).store, st.job, w);
  }

  // ----- Begin, commit, rollback -----

  lemma EmptyTx(s: Store, w: nat)
    requires StoreInv(s, w)
    ensures TxInv(s, EMPTY_TX, w) && TxView(s, EMPTY_TX, w) == View(s, w)
  {
    EmptyTxView(s, w);
    assert BaseView(s, EMPTY_TX, w) == View(s, w);
  }

  lemma EmptyTxView(s: Store, w: nat)
    ensures TxView(s, EMPTY_TX, w) == View(s, w)
  {
    forall k
      ensures k in TxView(s, EMPTY_TX, w) <==> k in View(s, w)
      ensures k in View(s, w) ==> TxView(s, EMPTY_TX, w)[k] == View(s, w)[k]
    {
      EmptyTxAt(s, w, k);
    }
  }

  lemma EmptyTxAt(s: Store, w: nat, k: Key)
    ensures k in TxView(s, EMPTY_TX, w) <==> k in View(s, w)
    ensures k in View(s, w) ==> TxView(s, EMPTY_TX, w)[k] == View(s, w)[k]
  {
    TxViewAt(s, EMPTY_TX, w, k);
    ViewAt(s, w, k);
    assert TxStack(s, EMPTY_TX, k) == Stack(s, k);
  }

  lemma BoundaryShows(st: State, a: Spec, step: Step, w: nat)
    requires Shows(st, a, w) && Enabled(st, step, w) && (step.Begin? || step.Commit? || step.Rollback?)
    ensures SpecEnabled(a, step) && Shows(Apply(st, step, w), SpecApply(a, step), w)
  {
    if step.Begin? {
      EmptyTx(st.store, w);
    } else if step.Commit? {
      CommitPublishes(st.store, st.tx.value, w);
      CommitJob(st.store, st.tx.value, st.job, w);
    }
  }

  // ----- Background steps -----

  /** What a background step must establish about the store it leaves. */
  lemma QuietShows(st: State, a: Spec, t: Store, job: Job, w: nat)
    requires Shows(st, a, w) && Quiet(st.store, t, w) && st.store.nextAddr <= t.nextAddr
    requires forall k :: k in MemRows(t) ==> k in MemRows(st.store) && MemRows(st.store)[k].addr == MemRows(t)[k].addr
    requires JobOK(t, job, w)
    requires st.tx.Some? ==> Apart(st.tx.value, JobRows(job))
    ensures Shows(State(t, st.tx, job), a, w)
  {
    if st.tx.Some? {
      TxUnderQuiet(st.store, t, st.tx.value, w);
    } else {
      SameView(st.store, t, w);
    }
  }

  lemma FlushShows(st: State, a: Spec, w: nat)
    requires Shows(st, a, w) && Enabled(st, Flush, w)
    ensures Shows(Apply(st, Flush, w), a, w)
  {
    hide StoreInv;
    hide View;
    hide Quiet;
    hide JobOK;
    hide TxInv;
    hide TxView;
    FlushQuiet(st.store, w);
    FlushJob(st.store, st.job, w);
    QuietShows(st, a, Flushed(st.store), st.job, w);
  }

  lemma BuildViewShows(st: State, a: Spec, w: nat)
    requires Shows(st, a, w) && Enabled(st, BuildView, w)
    ensures Shows(Apply(st, BuildView, w), a, w)
  {
    hide StoreInv;
    hide View;
    hide Quiet;
    hide JobOK;
    hide TxInv;
    hide TxView;
    var t := Apply(st, BuildView, w).store;
    CachedQuiet(st.store, w);
    JobStill(st.store, t, st.job, w);
    QuietShows(st, a, t, st.job, w);
  }

  /** A transaction's rows are none of those in memory, so none a new job takes. */
  lemma ApartFromMem(s: Store, tx: Tx, w: nat)
    requires TxInv(s, tx, w)
    ensures Apart(tx, MemRows(s))
  {
    forall k | k in tx.overlay && k in MemRows(s) ensures tx.overlay[k].addr != MemRows(s)[k].addr {
      assert OverlaySound(s, tx, k, w);
    }
  }

  /** Marking the memory part, or moving the id counter on, shows nothing. */
  lemma MarkQuiet(s: Store, t: Store, w: nat)
    requires StoreInv(s, w)
    requires t.parts == s.parts && t.count == s.count && t.nextID >= s.nextID && t.nextAddr == s.nextAddr
    requires t.mem.Some? == s.mem.Some? && (t.mem.Some? ==> t.mem.value == s.mem.value.(sealing := t.mem.value.sealing))
    ensures Quiet(s, t, w)
  {
    var u := t.(nextID := s.nextID);
    SameRows(s, t, w);
    SameRows(s, u, w);
    SameMemQuiet(s, u, w);
    SameCacheSound(u, t, w);
  }

  lemma TakeIdleShows(st: State, a: Spec, w: nat)
    requires Shows(st, a, w) && Enabled(st, TakeIdle, w)
    ensures Shows(Apply(st, TakeIdle, w), a, w)
  {
    hide View;
    hide Shielded;
    hide TxInv;
    hide TxView;
    hide Sound;
    var t, job := Apply(st, TakeIdle, w).store, Apply(st, TakeIdle, w).job;
    MarkQuiet(st.store, t, w);
    JobStarts(t, w);
    if st.tx.Some? {
      ApartFromMem(st.store, st.tx.value, w);
    }
    assert Newer(t, t.parts) == [];
    QuietShows(st, a, t, job, w);
  }

  lemma SnapshotShows(st: State, a: Spec, w: nat)
    requires Shows(st, a, w) && Enabled(st, Snapshot, w)
    ensures Shows(Apply(st, Snapshot, w), a, w)
  {
    var s, job := st.store, Apply(st, Snapshot, w).job;
    JobStarts(s, w);
    MergesSnapshot(s, w);
    if st.tx.Some? {
      ApartFromMem(s, st.tx.value, w);
    }
    assert JobOK(s, job, w);
  }

  lemma ReserveShows(st: State, a: Spec, w: nat)
    requires Shows(st, a, w) && Enabled(st, Reserve, w)
    ensures Shows(Apply(st, Reserve, w), a, w)
  {
    hide View;
    hide Quiet;
    hide TxInv;
    hide TxView;
    var t, job := Apply(st, Reserve, w).store, Apply(st, Reserve, w).job;
    MarkQuiet(st.store, t, w);
    JobRecount(st.store, t, job.olds, job.rows, w);
    assert Newer(t, job.olds) == [];
    QuietShows(st, a, t, job, w);
  }

  lemma PublishShows(st: State, a: Spec, ok: bool, w: nat)
    requires Shows(st, a, w) && Enabled(st, PublishIdle(ok), w)
    ensures Shows(Apply(st, PublishIdle(ok), w), a, w)
  {
    hide StoreInv;
    hide View;
    hide Quiet;
    hide TxInv;
    hide TxView;
    hide JobInv;
    var job := st.job;
    PublishQuiet(st.store, job.olds, job.memAddr, job.rows, job.id, ok, w);
    QuietShows(st, a, Apply(st, PublishIdle(ok), w).store, NoJob, w);
  }

  lemma SwapShows(st: State, a: Spec, w: nat)
    requires Shows(st, a, w) && Enabled(st, Swap, w)
    ensures Shows(Apply(st, Swap, w), a, w)
  {
    var job := st.job;
    ChunkedInOrder(job.out, job.startID.value);
    assert SwapReady(st.store, job.olds, job.rows, job.out, job.startID.value, w);
    SwapQuiet(st.store, job.olds, job.rows, job.out, job.startID.value, w);
    QuietShows(st, a, Apply(st, Swap, w).store, NoJob, w);
  }

  // ----- Whole runs -----

  lemma StepShows(st: State, a: Spec, step: Step, w: nat)
    requires Shows(st, a, w) && Enabled(st, step, w)
    ensures SpecEnabled(a, step) && Shows(Apply(st, step, w), SpecApply(a, step), w)
  {
    hide Shows;
    hide Enabled;
    hide Apply;
    match step
    case Begin | Commit | Rollback => BoundaryShows(st, a, step, w);
    case Flush => FlushShows(st, a, w);
    case BuildView => BuildViewShows(st, a, w);
    case TakeIdle => TakeIdleShows(st, a, w);
    case PublishIdle(ok) => PublishShows(st, a, ok, w);
    case Snapshot => SnapshotShows(st, a, w);
    case Reserve => ReserveShows(st, a, w);
    case Swap => SwapShows(st, a, w);
    case _ => TxStepShows(st, a, step, w);
  }

  ghost predicate CanRun(st: State, steps: seq<Step>, w: nat)
    decreases steps
  {
    steps == [] || (Enabled(st, steps[0], w) && CanRun(Apply(st, steps[0], w), steps[1..], w))
  }

  ghost function Run(st: State, steps: seq<Step>, w: nat): State
    requires CanRun(st, steps, w)
    decreases steps
  {
    if steps == [] then st else Run(Apply(st, steps[0], w), steps[1..], w)
  }

  ghost predicate SpecCanRun(a: Spec, steps: seq<Step>)
    decreases steps
  {
    steps == [] || (SpecEnabled(a, steps[0]) && SpecCanRun(SpecApply(a, steps[0]), steps[1..]))
  }

  ghost function SpecRun(a: Spec, steps: seq<Step>): Spec
    requires SpecCanRun(a, steps)
    decreases steps
  {
    if steps == [] then a else SpecRun(SpecApply(a, steps[0]), steps[1..])
  }

  lemma {:induction false} RunShows(st: State, a: Spec, steps: seq<Step>, w: nat)
    requires Shows(st, a, w) && CanRun(st, steps, w)
    ensures SpecCanRun(a, steps) && Shows(Run(st, steps, w), SpecRun(a, steps), w)
    decreases steps
  {
    if steps != [] {
      StepShows(st, a, steps[0], w);
      RunShows(Apply(st, steps[0], w), SpecApply(a, steps[0]), steps[1..], w);
    }
  }

  const EMPTY_STORE := Store(None, [], 0, 0, 0)

  /**
   Refinement over every run from the empty table: after any interleaving of
   transactions, flushes, idle flushes, compactions and reads the visible table is
   the one a plain map would hold, an open transaction sees its own version of it,
   and the live counter is its size.
   */
  lemma RunsRefineTables(steps: seq<Step>, w: nat)
    requires CanRun(State(EMPTY_STORE, None, NoJob), steps, w)
    ensures SpecCanRun(Spec(map[], None), steps)
    ensures var st, a := Run(State(EMPTY_STORE, None, NoJob), steps, w), SpecRun(Spec(map[], None), steps);
            && View(st.store, w) == a.table
            && st.store.count == |a.table|
            && (st.tx.Some? ==> a.open.Some? && TxView(st.store, st.tx.value, w) == a.open.value
                                && BaseCount(st) + st.tx.value.delta == |a.open.value|)
            && forall k :: Resolve(ScanStack(st.store, k), w) == if k in a.table then Some(a.table[k]) else None
  {
    var st0 := State(EMPTY_STORE, None, NoJob);
    forall k ensures Stack(EMPTY_STORE, k) == [] {
    }
    assert View(EMPTY_STORE, w) == map[];
    RunShows(st0, Spec(map[], None), steps, w);
    var st, a := Run(st0, steps, w), SpecRun(Spec(map[], None), steps);
    ShowsReads(st, a, w);
  }

  /** `countFor` before the transaction's own deltas. */
  ghost function BaseCount(st: State): int
    requires st.tx.Some?
  {
    if st.tx.value.cleared then 0 else st.store.count
  }

  lemma ShowsReads(st: State, a: Spec, w: nat)
    requires Shows(st, a, w)
    ensures st.store.count == |a.table|
    ensures st.tx.Some? ==> BaseCount(st) + st.tx.value.delta == |a.open.value|
    ensures forall k :: Resolve(ScanStack(st.store, k), w) == if k in a.table then Some(a.table[k]) else None
  {
    forall k ensures Resolve(ScanStack(st.store, k), w) == if k in a.table then Some(a.table[k]) else None {
      ScanReadsCurrent(st.store, w, k);
      ViewAt(st.store, w, k);
    }
  }
}
