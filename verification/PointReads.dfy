/**
 Point reads through the parts, newest first: existence, a full row, one column.
 Each agrees with the version stack the merge reads.
 */
module PointReads {
  import opened Bytes
  import opened Wrappers
  import opened Versions
  import opened MpartModel
  import opened Walk
  import opened Disk

  ghost function Parts(ds: seq<DiskPart>): (ps: seq<Part>)
    ensures |ps| == |ds| && forall i :: 0 <= i < |ds| ==> ps[i] == ds[i].part
  {
    seq(|ds|, i requires 0 <= i < |ds| => ds[i].part)
  }

  /** The versions of `k` in the first `n` parts, newest first. */
  ghost function StackUpTo(ds: seq<DiskPart>, n: nat, k: Key): seq<Version>
    requires n <= |ds|
  {
    PartStack(Parts(ds[..n]), k)
  }

  lemma StackStep(ds: seq<DiskPart>, n: nat, k: Key)
    requires n < |ds|
    ensures StackUpTo(ds, n + 1, k) == Find(ds[n].part.rows, k) + StackUpTo(ds, n, k)
  {
    assert Parts(ds[..n + 1]) == Parts(ds[..n]) + [ds[n].part];
    PartStackAppend(Parts(ds[..n]), ds[n].part, k);
  }

  lemma StackFull(ds: seq<DiskPart>, k: Key)
    ensures StackUpTo(ds, |ds|, k) == PartStack(Parts(ds), k)
  {
    assert ds[..|ds|] == ds;
  }

  // ----- One part -----

  lemma FindHere(rows: seq<Row>, key: Key, lo: nat, hi: nat, i: nat)
    requires KeysIncreasing(rows) && lo <= hi <= |rows| && i <= hi - lo
    requires forall x :: lo <= x < lo + i ==> Less(rows[x].pk, key)
    requires forall x :: lo + i <= x < hi ==> !Less(rows[x].pk, key)
    requires forall x :: 0 <= x < |rows| && rows[x].pk == key ==> lo <= x < hi
    ensures Find(rows, key) == if lo + i < hi && rows[lo + i].pk == key then [rows[lo + i].ver] else []
  {
    Order();
    if Find(rows, key) != [] {
      var x := FindIndex(rows, key);
      assert lo + i <= x;
      KeyOrder(rows, lo + i, x);
    }
    if lo + i < hi && rows[lo + i].pk == key {
      FindAt(rows, lo + i);
    }
  }

  /** Binary search among the rows of a granule, or of a whole part. */
  method SearchRows(rows: seq<Row>, key: Key, lo: nat, hi: nat) returns (r: Option<Version>)
    requires KeysIncreasing(rows) && lo <= hi <= |rows|
    requires forall x :: 0 <= x < |rows| && rows[x].pk == key ==> lo <= x < hi
    ensures Find(rows, key) == if r.Some? then [r.value] else []
  {
    var loaded := rows[lo..hi];
    var i := SearchKey(loaded, key);
    assert forall x :: lo <= x < hi ==> rows[x] == loaded[x - lo];
    FindHere(rows, key, lo, hi, i);
    r := if i < |loaded| && loaded[i].pk == key then Some(loaded[i].ver) else None;
  }

  /** Bloom filter, granule search, row search; whole-part search for older formats. */
  method FindInPart(d: DiskPart, key: Key) returns (r: Option<Version>)
    requires Written(d)
    ensures Find(d.part.rows, key) == if r.Some? then [r.value] else []
  {
    var rows := d.part.rows;
    if !MayContain(d.bloom, key) {
      NotContained(d, key);
      return None;
    }
    if |d.granules| > 0 {
      var g := GranuleFor(rows, d.granules, key);
      if g < 0 {
        Absent(rows, key);
        return None;
      }
      var (lo, hi) := RowRange(|rows|, g);
      r := SearchRows(rows, key, lo, hi);
    } else {
      r := SearchRows(rows, key, 0, |rows|);
    }
  }

  lemma Absent(rows: seq<Row>, key: Key)
    requires forall x :: 0 <= x < |rows| ==> rows[x].pk != key
    ensures Find(rows, key) == []
  {
    if Find(rows, key) != [] {
      var x := FindIndex(rows, key);
    }
  }

  lemma NotContained(d: DiskPart, key: Key)
    requires Written(d) && !MayContain(d.bloom, key)
    ensures Find(d.part.rows, key) == []
  {
    forall x | 0 <= x < |d.part.rows| ensures d.part.rows[x].pk != key {
      assert MayContain(d.bloom, d.part.rows[x].pk);
    }
    Absent(d.part.rows, key);
  }

  lemma OutsideSpan(d: DiskPart, key: Key)
    requires Written(d) && (Less(key, d.pkMin) || Less(d.pkMax, key))
    ensures Find(d.part.rows, key) == []
  {
    var rows := d.part.rows;
    Order();
    if Find(rows, key) != [] {
      var x := FindIndex(rows, key);
      KeyOrder(rows, 0, x);
      KeyOrder(rows, x, |rows| - 1);
    }
  }

  // ----- All parts -----

  /** The part loop of `rowExists`. */
  method ExistsInParts(ds: seq<DiskPart>, key: Key) returns (exists_: bool)
    requires AllWritten(ds)
    ensures exists_ == Alive(PartStack(Parts(ds), key))
  {
    StackFull(ds, key);
    var i := |ds|;
    while i > 0
      invariant 0 <= i <= |ds|
      invariant PartStack(Parts(ds), key) == StackUpTo(ds, i, key)
    {
      i := i - 1;
      var d := ds[i];
      StackStep(ds, i, key);
      if Less(key, d.pkMin) || Less(d.pkMax, key) {
        OutsideSpan(d, key);
        continue;
      }
      var r := FindInPart(d, key);
      if r.Some? {
        return !r.value.del;
      }
    }
    return false;
  }

  /** The part loop of `lookupCol`. */
  method ColInParts(ds: seq<DiskPart>, key: Key, c: nat) returns (cell: Cell)
    requires AllWritten(ds)
    ensures cell == Col(PartStack(Parts(ds), key), c)
  {
    StackFull(ds, key);
    var i := |ds|;
    while i > 0
      invariant 0 <= i <= |ds|
      invariant Col(PartStack(Parts(ds), key), c) == Col(StackUpTo(ds, i, key), c)
    {
      i := i - 1;
      var r := FindInPart(ds[i], key);
      ColStep(ds, i, key, c, r);
      if r.Some? {
        cell := CellAt(r.value, c);
        if r.value.del {
          return [];
        } else if cell != [] {
          return;
        }
      }
    }
    return [];
  }

  lemma ColStep(ds: seq<DiskPart>, i: nat, key: Key, c: nat, r: Option<Version>)
    requires i < |ds| && Find(ds[i].part.rows, key) == if r.Some? then [r.value] else []
    ensures var below := Col(StackUpTo(ds, i, key), c);
            Col(StackUpTo(ds, i + 1, key), c) ==
            if r.None? then below
            else if r.value.del then []
            else if CellAt(r.value, c) != [] then CellAt(r.value, c)
            else below
  {
    StackStep(ds, i, key);
    var below := StackUpTo(ds, i, key);
    if r.Some? {
      assert ([r.value] + below)[1..] == below;
    } else {
      assert [] + below == below;
    }
  }

  /** What a row lookup has so far: nothing, a tombstone, or a row with its columns. */
  datatype Lookup = Missing | Deleted | Found(cells: seq<Cell>)

  /** A lookup that goes on with the older versions `vs`. */
  ghost function Seek(so: Lookup, vs: seq<Version>): Lookup {
    match so
    case Deleted => Deleted
    case Found(cells) => Found(Inherit(cells, vs))
    case Missing => if vs == [] then Missing else if vs[0].del then Deleted else Found(Inherit(vs[0].cells, vs[1..]))
  }

  predicate Settled(r: Lookup) {
    r.Deleted? || (r.Found? && [] !in r.cells)
  }

  /** Takes in the next older version. */
  method Absorb(so: Lookup, v: Version) returns (r: Lookup, settled: bool)
    requires !Settled(so)
    ensures settled <==> Settled(r)
    ensures forall vs :: Seek(so, [v] + vs) == Seek(r, vs)
  {
    forall vs: seq<Version> ensures ([v] + vs)[1..] == vs {
    }
    if v.del {
      r := if so.Missing? then Deleted else so;
      settled := so.Missing?;
      return;
    }
    if so.Missing? {
      r := Found(v.cells);
    } else {
      var merged := Fill(so.cells, v.cells);
      r := Found(merged);
    }
    var holes := HasEmptyCell(r.cells);
    settled := !holes;
  }

  /** The part loop of `lookup`, after overlay and memory gave `so`. */
  method LookupInParts(ds: seq<DiskPart>, key: Key, so: Lookup) returns (r: Lookup)
    requires AllWritten(ds) && !Settled(so)
    ensures r == Seek(so, PartStack(Parts(ds), key))
  {
    StackFull(ds, key);
    r := so;
    var i := |ds|;
    while i > 0
      invariant 0 <= i <= |ds| && !Settled(r)
      invariant Seek(so, PartStack(Parts(ds), key)) == Seek(r, StackUpTo(ds, i, key))
    {
      i := i - 1;
      var v := FindInPart(ds[i], key);
      StackStep(ds, i, key);
      if v.Some? {
        var settled;
        r, settled := Absorb(r, v.value);
        if settled {
          return;
        }
      } else {
        assert [] + StackUpTo(ds, i, key) == StackUpTo(ds, i, key);
      }
    }
  }

  /** Copies a row and fills the copy's holes. */
  method Fill(cells: seq<Cell>, src: seq<Cell>) returns (merged: seq<Cell>)
    ensures merged == Filled(cells, src)
  {
    var copy := new Cell[|cells|](i requires 0 <= i < |cells| => cells[i]);
    assert copy[..] == cells;
    FillEmptyCells(copy, src);
    merged := copy[..];
  }

  // ----- What a lookup returns -----

  /** The row a point read reports, if it reports a live one. */
  function Reported(r: Lookup): Option<seq<Cell>> {
    if r.Found? then Some(r.cells) else None
  }

  /**
   The point read agrees with the merged walk, and both with the meaning of the
   stack: for every sound stack the row reported is the one it resolves to.
   */
  lemma SeekIsResolve(vs: seq<Version>, w: nat)
    requires Sound(vs, w)
    ensures Reported(Seek(Missing, vs)) == Resolve(vs, w)
  {
    if Alive(vs) {
      InheritIsResolve(vs, w);
    }
  }
}
