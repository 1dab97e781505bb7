/**
 One CSTORE2 table as the store object updates it: every lock-held section is a
 method whose effect is the corresponding step of the table's specification.
 */
module MpartStore {
  import opened Bytes
  import opened Wrappers
  import opened MpartModel
  import opened MpartSteps
  import opened Disk
  import opened PointReads
  import opened MemParts

  // ----- Parts -----

  lemma {:induction false} InsertAt(ps: seq<Part>, p: Part, j: nat)
    requires j <= |ps| && (j > 0 ==> ps[j - 1].id < p.id)
    requires forall i :: j <= i < |ps| ==> ps[i].id >= p.id
    ensures InsertPart(ps, p) == ps[..j] + [p] + ps[j..]
  {
    if j == |ps| {
      assert ps[..j] == ps && ps[j..] == [];
    } else {
      var init := ps[..|ps| - 1];
      InsertAt(init, p, j);
      assert ps[j..] == init[j..] + [ps[|ps| - 1]];
    }
  }

  /** Inserts by sequence number, from the end. */
  method InsertBySeq(ds: seq<DiskPart>, d: DiskPart) returns (r: seq<DiskPart>)
    requires AllWritten(ds) && AllWritten([d])
    ensures AllWritten(r) && Parts(r) == InsertPart(Parts(ds), d.part)
  {
    var j := |ds|;
    while j > 0 && ds[j - 1].part.id >= d.part.id
      invariant 0 <= j <= |ds|
      invariant forall i :: j <= i < |ds| ==> ds[i].part.id >= d.part.id
    {
      j := j - 1;
    }
    InsertAt(Parts(ds), d.part, j);
    PartsSpliced(ds, d, j);
    r := ds[..j] + [d] + ds[j..];
  }

  lemma PartsSpliced(ds: seq<DiskPart>, d: DiskPart, j: nat)
    requires AllWritten(ds) && AllWritten([d]) && j <= |ds|
    ensures AllWritten(ds[..j] + [d] + ds[j..])
    ensures Parts(ds[..j] + [d] + ds[j..]) == Parts(ds)[..j] + [d.part] + Parts(ds)[j..]
  {
    PartsConcat(ds[..j], [d]);
    PartsConcat(ds[..j] + [d], ds[j..]);
    assert Parts(ds[..j]) == Parts(ds)[..j] && Parts(ds[j..]) == Parts(ds)[j..] && Parts([d]) == [d.part];
    assert AllWritten(ds[..j]) && AllWritten(ds[j..]);
  }

  lemma PartsConcat(a: seq<DiskPart>, b: seq<DiskPart>)
    ensures Parts(a + b) == Parts(a) + Parts(b)
    ensures AllWritten(a) && AllWritten(b) ==> AllWritten(a + b)
  {
    assert forall i :: 0 <= i < |a + b| ==> (a + b)[i] == if i < |a| then a[i] else b[i - |a|];
  }

  lemma PartsSnoc(ds: seq<DiskPart>, d: DiskPart)
    ensures Parts(ds + [d]) == Parts(ds) + [d.part]
  {
  }

  /** `sortPartsBySeq`. */
  method SortPartsBySeq(ds: seq<DiskPart>) returns (r: seq<DiskPart>)
    requires AllWritten(ds)
    ensures AllWritten(r) && Parts(r) == SortParts(Parts(ds))
  {
    r := [];
    for i := 0 to |ds|
      invariant AllWritten(r) && Parts(r) == SortParts(Parts(ds[..i]))
    {
      OneWritten(ds, i);
      r := InsertBySeq(r, ds[i]);
      assert Parts(ds[..i + 1])[..i] == Parts(ds[..i]);
    }
    assert ds[..|ds|] == ds;
  }

  lemma ChunkStep(rows: seq<Row>, n: nat, id: nat)
    requires rows != [] && n == if |rows| < MERGE_CHUNK then |rows| else MERGE_CHUNK
    ensures Chunked(rows, id) == [Part(id, rows[..n])] + Chunked(rows[n..], id + 1)
  {
    if |rows| <= MERGE_CHUNK {
      assert rows[..n] == rows && rows[n..] == [];
    }
  }

  lemma ChunkAt(rows: seq<Row>, a: nat, b: nat, id: nat)
    requires a < |rows| && b == if a + MERGE_CHUNK > |rows| then |rows| else a + MERGE_CHUNK
    ensures Chunked(rows[a..], id) == [Part(id, rows[a..b])] + Chunked(rows[b..], id + 1)
  {
    ChunkStep(rows[a..], b - a, id);
    assert rows[a..][..b - a] == rows[a..b] && rows[a..][b - a..] == rows[b..];
  }

  /** Cuts merged rows into parts of at most `MERGE_CHUNK` rows. */
  method WriteChunks(rows: seq<Row>, startID: nat) returns (ds: seq<DiskPart>)
    requires KeysIncreasing(rows)
    ensures AllWritten(ds) && Parts(ds) == Chunked(rows, startID)
  {
    hide Chunked;
    hide AllWritten;
    ds := [];
    NoParts();
    var a, id := 0, startID;
    assert rows[0..] == rows;
    while a < |rows|
      invariant 0 <= a <= |rows| && id >= startID && AllWritten(ds)
      invariant Chunked(rows, startID) == Parts(ds) + Chunked(rows[a..], id)
    {
      var b := if a + MERGE_CHUNK > |rows| then |rows| else a + MERGE_CHUNK;
      var d := WritePart(rows[a..b], id);
      ChunkAt(rows, a, b, id);
      PartsSnoc(ds, d);
      WrittenSnoc(ds, d);
      ds := ds + [d];
      a, id := b, id + 1;
    }
    NoChunks(id);
    assert rows[a..] == [] && Parts(ds) + [] == Parts(ds);
  }

  lemma WrittenSnoc(ds: seq<DiskPart>, d: DiskPart)
    requires AllWritten(ds) && AllWritten([d])
    ensures AllWritten(ds + [d])
  {
    assert [d][0] == d;
  }

  lemma NoParts()
    ensures AllWritten([]) && Parts([]) == []
  {
  }

  lemma NoChunks(id: nat)
    ensures Chunked([], id) == []
  {
  }

  /** Keeps the parts a compaction did not read. */
  method KeepOthers(ds: seq<DiskPart>, olds: seq<DiskPart>) returns (r: seq<DiskPart>)
    requires AllWritten(ds)
    requires forall i, j :: 0 <= i < |ds| && 0 <= j < |olds| && ds[i].part == olds[j].part ==> ds[i] == olds[j]
    ensures AllWritten(r) && Parts(r) == Kept(Parts(ds), Parts(olds))
  {
    r := [];
    for i := 0 to |ds|
      invariant AllWritten(r)
      invariant Kept(Parts(ds), Parts(olds)) == Parts(r) + Kept(Parts(ds[i..]), Parts(olds))
    {
      KeptStep(ds, olds, i);
      if ds[i] !in olds {
        PartsSnoc(r, ds[i]);
        r := r + [ds[i]];
      }
    }
  }

  lemma KeptStep(ds: seq<DiskPart>, olds: seq<DiskPart>, i: nat)
    requires i < |ds|
    requires forall i, j :: 0 <= i < |ds| && 0 <= j < |olds| && ds[i].part == olds[j].part ==> ds[i] == olds[j]
    ensures Kept(Parts(ds[i..]), Parts(olds))
            == (if ds[i] in olds then [] else [ds[i].part]) + Kept(Parts(ds[i + 1..]), Parts(olds))
  {
    OldOrKept(ds, olds, i);
    assert Parts(ds[i..])[1..] == Parts(ds[i + 1..]);
  }

  lemma OldOrKept(ds: seq<DiskPart>, olds: seq<DiskPart>, i: nat)
    requires i < |ds|
    requires forall i, j :: 0 <= i < |ds| && 0 <= j < |olds| && ds[i].part == olds[j].part ==> ds[i] == olds[j]
    ensures ds[i].part in Parts(olds) <==> ds[i] in olds
  {
    if ds[i] in olds {
      var j :| 0 <= j < |olds| && olds[j] == ds[i];
      assert Parts(olds)[j] == ds[i].part;
    }
  }

  /** Appends a part and restores the order. */
  method PublishPart(ds: seq<DiskPart>, d: DiskPart) returns (r: seq<DiskPart>)
    requires AllWritten(ds) && AllWritten([d])
    ensures AllWritten(r) && Parts(r) == SortParts(Parts(ds) + [d.part])
  {
    PartsSnoc(ds, d);
    r := SortPartsBySeq(ds + [d]);
  }

  /** Sorts the rows a job took and writes them. */
  method WriteMapped(rows: map<Key, MemRow>, id: nat) returns (d: DiskPart)
    requires Keyed(rows)
    ensures AllWritten([d]) && d.part == Part(id, RowsOf(rows))
  {
    var sorted := SortMemRows(rows);
    ListsRowsOf(sorted, rows);
    RowsOfIncreasing(rows);
    var plain := PlainRows(sorted);
    d := WritePart(plain, id);
  }

  /** What a compaction read in its first phase. */
  datatype Snap = Snap(olds: seq<DiskPart>, rows: map<Key, MemRow>, oldCount: int)

  /** An idle flush between its two lock-held sections. */
  datatype FlushJob = FlushJob(mp: MemPart, rows: map<Key, MemRow>, id: nat)

  /** Drops the rows that are still the very ones a job wrote. */
  method RemoveWritten(rows0: map<Key, MemRow>, written: map<Key, MemRow>) returns (rows: map<Key, MemRow>)
    ensures rows == Minus(rows0, written)
  {
    rows := rows0;
    var rest := written.Keys;
    while rest != {}
      invariant rest <= written.Keys
      invariant rows == Minus(rows0, map k | k in written && k !in rest :: written[k])
    {
      var k :| k in rest;
      if k in rows && rows[k].addr == written[k].addr {
        rows := rows - {k};
      }
      rest := rest - {k};
    }
    assert (map k | k in written && k !in rest :: written[k]) == written;
  }

  lemma FlushedIs(s: Store)
    ensures s.mem.None? || |s.mem.value.rows| == 0 ==> Flushed(s) == s
    ensures s.mem.Some? && |s.mem.value.rows| != 0 ==>
              Flushed(s) == Store(Some(FreshMem(s.nextAddr)),
                                  SortParts(s.parts + [Part(s.nextID + 1, Plain(SortedRows(s.mem.value)))]),
                                  s.count, s.nextID + 1, s.nextAddr + 1)
  {
  }

  // ----- The store -----

  class TableStore {
    var mem: MemPart?
    var parts: seq<DiskPart>
    var count: int
    var nextID: nat
    var nextAddr: nat

    ghost function Abs(): Store
      reads this, mem
    {
      Store(if mem == null then None else Some(mem.Abs()), Parts(parts), count, nextID, nextAddr)
    }

    /** Enough of the store's invariant for its steps to be carried out. */
    ghost predicate Readable()
      reads this, mem
    {
      AllWritten(parts) && (mem != null ==> Keyed(mem.rows))
    }

    constructor ()
      ensures Abs() == Store(None, [], 0, 0, 0) && Readable()
    {
      mem, parts, count, nextID, nextAddr := null, [], 0, 0, 0;
    }

    /** What a commit does for a cleared table. */
    method Drop()
      modifies this
      ensures Readable() && Abs() == Dropped(old(Abs())) && mem == null
    {
      mem, parts, count := null, [], 0;
      assert Parts([]) == [];
    }

    method Recount(delta: int)
      requires Readable()
      modifies this`count
      ensures Readable() && Abs() == old(Abs()).(count := old(count) + delta)
    {
      count := count + delta;
    }

    /** `flushLocked`. */
    method FlushLocked()
      requires Readable()
      modifies this
      ensures Readable() && Abs() == Flushed(old(Abs()))
      ensures mem == old(mem) || fresh(mem)
    {
      FlushedIs(Abs());
      if mem == null || |mem.rows| == 0 {
        return;
      }
      nextID := nextID + 1;
      var d := mem.WriteRows(nextID);
      SealWith(d);
    }

    /** Publishes the flushed part and starts an empty memory part. */
    method SealWith(d: DiskPart)
      requires Readable() && AllWritten([d])
      modifies this
      ensures Readable() && fresh(mem)
      ensures mem.Abs() == FreshMem(old(nextAddr)) && Parts(parts) == SortParts(Parts(old(parts)) + [d.part])
      ensures count == old(count) && nextID == old(nextID) && nextAddr == old(nextAddr) + 1
    {
      var sorted := PublishPart(parts, d);
      var empty := new MemPart(nextAddr);
      parts, mem, nextAddr := sorted, empty, nextAddr + 1;
    }

    /** The first half of `flushIdle`; `due` is what the clock says. */
    method TakeIdle(due: bool) returns (job: Option<FlushJob>)
      requires Readable()
      modifies this, mem
      ensures Readable() && mem == old(mem)
      ensures job.Some? <==> due && mem != null && !old(mem.sealing) && |old(mem.rows)| >= IDLE_MIN_ROWS
      ensures job.None? ==> Abs() == old(Abs())
      ensures job.Some? ==> job.value.mp == mem && job.value.rows == old(mem.rows) && job.value.id == old(nextID) + 1
      ensures job.Some? ==>
                Abs() == old(Abs()).(nextID := old(nextID) + 1, mem := Some(old(mem.Abs()).(sealing := true)))
    {
      if mem == null || mem.sealing || |mem.rows| < IDLE_MIN_ROWS || !due {
        return None;
      }
      nextID := nextID + 1;
      mem.sealing := true;
      return Some(FlushJob(mem, mem.rows, nextID));
    }

    /** The second half, `flushJobAsync` after its write; `failed` is the write's outcome. */
    method PublishIdle(job: FlushJob, failed: bool)
      requires Readable() && Keyed(job.rows)
      requires mem != null && mem.addr == job.mp.addr ==> mem == job.mp
      modifies this, job.mp
      ensures Readable() && mem == old(mem)
      ensures Abs() == Published(old(Abs()), job.mp.addr, job.rows, job.id, !failed)
    {
      hide SortParts;
      hide RowsOf;
      var d := WriteMapped(job.rows, job.id);
      if mem == job.mp {
        if !failed {
          job.mp.rows := RemoveWritten(job.mp.rows, job.rows);
        }
        job.mp.sealing := false;
      }
      if !failed {
        parts := PublishPart(parts, d);
      }
    }

    /** Phase 1 of `compactTable`: what the merge will read. */
    method CompactSnapshot() returns (snap: Snap)
      requires Readable()
      ensures Parts(snap.olds) == Abs().parts && AllWritten(snap.olds)
      ensures snap.rows == MemRows(Abs()) && snap.oldCount == count
    {
      snap := Snap(parts, if mem == null then map[] else mem.rows, count);
    }

    /** The id reservation between reading and writing. */
    method CompactReserve(nrows: nat) returns (startID: nat)
      requires Readable()
      modifies this`nextID
      ensures Readable() && startID == old(nextID) + 1
      ensures Abs() == old(Abs()).(nextID := old(nextID) + (nrows + MERGE_CHUNK - 1) / MERGE_CHUNK)
    {
      startID := nextID + 1;
      nextID := nextID + (nrows + MERGE_CHUNK - 1) / MERGE_CHUNK;
    }

    /** Phase 3: the merged parts replace the ones they were made from. */
    method CompactSwap(snap: Snap, news: seq<DiskPart>, live: nat)
      requires Readable() && Keyed(snap.rows) && AllWritten(news)
      requires forall i, j :: 0 <= i < |parts| && 0 <= j < |snap.olds| && parts[i].part == snap.olds[j].part ==>
                 parts[i] == snap.olds[j]
      modifies this, mem
      ensures Readable()
      ensures Abs() == Swapped(old(Abs()), Parts(snap.olds), snap.rows, snap.oldCount, Parts(news), live)
    {
      hide SortParts;
      hide InsertPart;
      var delta := count - snap.oldCount;
      if mem != null {
        mem.rows := RemoveWritten(mem.rows, snap.rows);
      }
      var kept := KeepOthers(parts, snap.olds);
      PartsConcat(kept, news);
      parts := SortPartsBySeq(kept + news);
      count := live + delta;
    }
  }
}
