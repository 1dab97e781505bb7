/**
 Row versions and column-wise inheritance.

 A row version holds one encoded cell per column. An empty cell means "column
 not touched by this version": it is inherited from the newest older version
 that has it. A tombstone ends the row. The versions of one key, newest first,
 form a stack; this module says what a stack means, when every way of reading
 it agrees, and which rearrangements of a stack cannot be observed.
 */
module Versions {
  import opened Bytes
  import opened Wrappers

  /** An encoded cell; the empty string marks an untouched column. */
  type Cell = Key

  datatype Version = Version(cells: seq<Cell>, del: bool)

  /** The meaning of column `c`: the newest non-empty cell above the first tombstone. */
  ghost function Col(vs: seq<Version>, c: nat): Cell {
    if !Alive(vs) then []
    else if c < |vs[0].cells| && vs[0].cells[c] != [] then vs[0].cells[c]
    else Col(vs[1..], c)
  }

  predicate Alive(vs: seq<Version>) {
    vs != [] && !vs[0].del
  }

  /** The row a stack denotes in a table of `w` columns. */
  ghost function Resolve(vs: seq<Version>, w: nat): Option<seq<Cell>> {
    if Alive(vs) then Some(seq(w, (c: nat) => Col(vs, c))) else None
  }

  /**
   The stack invariant: live versions have one cell per column, and directly
   below a partial version there is a live one.
   */
  ghost predicate Sound(vs: seq<Version>, w: nat) {
    vs == [] ||
    (&& Sound(vs[1..], w)
     && (!vs[0].del ==> |vs[0].cells| == w)
     && (!vs[0].del && [] in vs[0].cells ==> Alive(vs[1..])))
  }

  ghost predicate Full(v: Version) {
    !v.del && [] !in v.cells
  }

  /** Under the invariant a live stack has a value for every column. */
  lemma {:induction false} SoundCovers(vs: seq<Version>, w: nat, c: nat)
    requires Sound(vs, w) && Alive(vs) && c < w
    ensures Col(vs, c) != []
  {
    if vs[0].cells[c] == [] {
      SoundCovers(vs[1..], w, c);
    }
  }

  // ----- The two ways the merge reads a stack -----

  ghost function Filled(dst: seq<Cell>, src: seq<Cell>): (r: seq<Cell>)
    ensures |r| == |dst|
  {
    seq(|dst|, c requires 0 <= c < |dst| => if dst[c] == [] && c < |src| then src[c] else dst[c])
  }

  /** Fills the empty cells of `dst` from `src`, in place. */
  method FillEmptyCells(dst: array<Cell>, src: seq<Cell>)
    modifies dst
    ensures dst[..] == Filled(old(dst[..]), src)
  {
    for c := 0 to dst.Length
      invariant forall k :: 0 <= k < c ==> dst[k] == Filled(old(dst[..]), src)[k]
      invariant forall k :: c <= k < dst.Length ==> dst[k] == old(dst[k])
    {
      if dst[c] == [] && c < |src| && src[c] != [] {
        dst[c] := src[c];
      }
    }
  }

  method HasEmptyCell(cells: seq<Cell>) returns (r: bool)
    ensures r <==> [] in cells
  {
    for c := 0 to |cells|
      invariant [] !in cells[..c]
    {
      if cells[c] == [] {
        return true;
      }
    }
    return false;
  }

  /** Full-row inheritance: older live versions fill the holes, tombstones are stepped over. */
  ghost function Inherit(cells: seq<Cell>, older: seq<Version>): seq<Cell>
    decreases older
  {
    if older == [] || [] !in cells then cells
    else if older[0].del then Inherit(cells, older[1..])
    else Inherit(Filled(cells, older[0].cells), older[1..])
  }

  /** Single-column inheritance of the merge. */
  ghost function InheritCell(cell: Cell, older: seq<Version>, c: nat): Cell
    decreases older
  {
    if older == [] || cell != [] then cell
    else if older[0].del then InheritCell(cell, older[1..], c)
    else InheritCell(CellAt(older[0], c), older[1..], c)
  }

  function CellAt(v: Version, c: nat): Cell {
    if c < |v.cells| then v.cells[c] else []
  }

  lemma {:induction false} InheritPointwise(cells: seq<Cell>, older: seq<Version>, w: nat, c: nat)
    requires |cells| == w && c < w && Sound(older, w)
    requires [] in cells ==> Alive(older)
    ensures |Inherit(cells, older)| == w
    ensures Inherit(cells, older)[c] == if cells[c] != [] then cells[c] else Col(older, c)
    decreases older
  {
    if [] in cells {
      var next := Filled(cells, older[0].cells);
      if [] in next {
        var k :| 0 <= k < w && next[k] == [];
        assert older[0].cells[k] == [];
      }
      InheritPointwise(next, older[1..], w, c);
    }
  }

  /** Although it steps over tombstones, the full-row merge denotes the stack. */
  lemma InheritIsResolve(vs: seq<Version>, w: nat)
    requires Sound(vs, w) && Alive(vs)
    ensures Resolve(vs, w) == Some(Inherit(vs[0].cells, vs[1..]))
  {
    forall c | 0 <= c < w
      ensures |Inherit(vs[0].cells, vs[1..])| == w && Inherit(vs[0].cells, vs[1..])[c] == Col(vs, c)
    {
      InheritPointwise(vs[0].cells, vs[1..], w, c);
    }
    assert |Inherit(vs[0].cells, vs[1..])| == w by {
      if w == 0 {
        assert Inherit(vs[0].cells, vs[1..]) == vs[0].cells;
      } else {
        InheritPointwise(vs[0].cells, vs[1..], w, 0);
      }
    }
    assert Resolve(vs, w).value == Inherit(vs[0].cells, vs[1..]);
  }

  lemma {:induction false} InheritCellIsCol(vs: seq<Version>, w: nat, c: nat)
    requires Sound(vs, w) && Alive(vs) && c < w
    ensures InheritCell(CellAt(vs[0], c), vs[1..], c) == Col(vs, c)
  {
    if vs[0].cells[c] == [] {
      assert [] in vs[0].cells;
      InheritCellIsCol(vs[1..], w, c);
    }
  }

  // ----- Rearrangements that cannot be observed -----

  /** Two stacks that read alike: same liveness, same value in every column. */
  ghost predicate Alike(x: seq<Version>, y: seq<Version>, w: nat) {
    Alive(x) == Alive(y) && forall c: nat :: c < w ==> Col(x, c) == Col(y, c)
  }

  lemma AlikeResolve(x: seq<Version>, y: seq<Version>, w: nat)
    requires Alike(x, y, w)
    ensures Resolve(x, w) == Resolve(y, w)
  {
    if Alive(x) {
      assert Resolve(x, w).value == Resolve(y, w).value;
    }
  }

  /** Replacing the bottom of a stack by one that reads alike is unobservable. */
  lemma {:induction false} AlikeBelow(a: seq<Version>, x: seq<Version>, y: seq<Version>, w: nat)
    requires Sound(a + x, w) && Sound(y, w) && Alike(x, y, w)
    ensures Sound(a + y, w) && Alike(a + x, a + y, w)
  {
    if a == [] {
      assert a + x == x && a + y == y;
    } else {
      assert (a + x)[1..] == a[1..] + x && (a + y)[1..] == a[1..] + y;
      AlikeBelow(a[1..], x, y, w);
    }
  }

  lemma {:induction false} SoundBelow(a: seq<Version>, x: seq<Version>, w: nat)
    requires Sound(a + x, w)
    ensures Sound(x, w)
  {
    if a == [] {
      assert a + x == x;
    } else {
      assert (a + x)[1..] == a[1..] + x;
      SoundBelow(a[1..], x, w);
    }
  }

  /**
   `n` stands for `r`: it is that same version, or a newer one that no column of
   `r` can show through.
   */
  ghost predicate Covers(n: Version, r: Version) {
    || n == r
    || n.del
    || [] !in n.cells
    || (&& !r.del && |n.cells| == |r.cells|
        && forall c :: 0 <= c < |n.cells| && n.cells[c] == [] ==> r.cells[c] == [])
  }

  /** Publishing `r` directly below a version that covers it changes nothing. */
  lemma PublishBelow(a: seq<Version>, r: Version, b: seq<Version>, w: nat)
    requires a != [] && Sound(a + b, w) && Sound([r] + b, w) && Covers(a[|a| - 1], r)
    ensures Sound(a + ([r] + b), w) && Alike(a + b, a + ([r] + b), w)
  {
    var m := |a| - 1;
    var n := a[m];
    var x, y := [n] + b, [n] + ([r] + b);
    assert a + b == a[..m] + x && a + ([r] + b) == a[..m] + y;
    SoundBelow(a[..m], x, w);
    assert x[1..] == b && y[1..] == [r] + b && ([r] + b)[1..] == b;
    forall c: nat | c < w ensures Col(x, c) == Col(y, c) {
      if !n.del && n.cells[c] == [] {
        assert Col(x, c) == Col(b, c);
        assert Col(y, c) == Col([r] + b, c);
      }
    }
    AlikeBelow(a[..m], x, y, w);
  }

  /** What compaction writes for a stack: one full row if it is live, nothing otherwise. */
  ghost function Compacted(vs: seq<Version>, w: nat): seq<Version> {
    if Alive(vs) then [Version(Resolve(vs, w).value, false)] else []
  }

  lemma CompactedAlike(vs: seq<Version>, w: nat)
    requires Sound(vs, w)
    ensures Sound(Compacted(vs, w), w) && Alike(vs, Compacted(vs, w), w)
  {
    if Alive(vs) {
      var n := Compacted(vs, w);
      forall c: nat | c < w ensures Col(n, c) == Col(vs, c) && n[0].cells[c] != [] {
        SoundCovers(vs, w, c);
      }
    }
  }

  /**
   Compacting `[r] + b` below a version that covers `r` changes nothing: what `r`
   could have supplied is already above it, and the rest is in the compacted row.
   */
  lemma CompactBelow(a: seq<Version>, r: Version, b: seq<Version>, w: nat)
    requires a != [] && Sound(a + b, w) && Sound([r] + b, w) && Covers(a[|a| - 1], r)
    ensures Sound(a + Compacted([r] + b, w), w)
    ensures Alike(a + b, a + Compacted([r] + b, w), w)
  {
    PublishBelow(a, r, b, w);
    CompactedAlike([r] + b, w);
    AlikeBelow(a, [r] + b, Compacted([r] + b, w), w);
  }
}
