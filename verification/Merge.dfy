/**
 The k-way merge behind every scan: sources are walked by cursors, the heap yields
 the smallest key and, among equal keys, the newest source.
 */
module Merge {
  import opened Bytes
  import opened Versions
  import opened MpartModel
  import opened MergeSpec

  /** One sorted source trimmed to the query window: next position, direction, end (exclusive). */
  datatype Cursor = Cursor(rows: seq<Row>, prio: int, i: int, step: int, last: int)

  ghost predicate InBounds(c: Cursor, rev: bool) {
    && KeysIncreasing(c.rows)
    && if rev then c.step == -1 && -1 <= c.last <= c.i < |c.rows|
       else c.step == 1 && 0 <= c.i <= c.last <= |c.rows|
  }

  predicate Done(c: Cursor) {
    c.i == c.last
  }

  /** The rows a cursor has yet to yield. */
  ghost function Rest(c: Cursor, rev: bool): Rows
    requires InBounds(c, rev)
  {
    if rev then Reverse(c.rows[c.last + 1..c.i + 1]) else c.rows[c.i..c.last]
  }

  function Advance(c: Cursor): Cursor {
    c.(i := c.i + c.step)
  }

  lemma RestHead(c: Cursor, rev: bool)
    requires InBounds(c, rev)
    ensures Done(c) <==> Rest(c, rev) == []
    ensures !Done(c) ==> 0 <= c.i < |c.rows| && Rest(c, rev)[0] == c.rows[c.i]
    ensures !Done(c) ==> InBounds(Advance(c), rev) && Rest(Advance(c), rev) == Rest(c, rev)[1..]
  {
    if rev {
      BackwardHead(c);
    } else {
      ForwardHead(c);
    }
  }

  lemma ForwardHead(c: Cursor)
    requires InBounds(c, false)
    ensures Done(c) <==> Rest(c, false) == []
    ensures !Done(c) ==> 0 <= c.i < |c.rows| && Rest(c, false)[0] == c.rows[c.i]
    ensures !Done(c) ==> InBounds(Advance(c), false) && Rest(Advance(c), false) == Rest(c, false)[1..]
  {
    hide KeysIncreasing;
  }

  lemma BackwardHead(c: Cursor)
    requires InBounds(c, true)
    ensures Done(c) <==> Rest(c, true) == []
    ensures !Done(c) ==> 0 <= c.i < |c.rows| && Rest(c, true)[0] == c.rows[c.i]
    ensures !Done(c) ==> InBounds(Advance(c), true) && Rest(Advance(c), true) == Rest(c, true)[1..]
  {
    hide KeysIncreasing;
    if !Done(c) {
      BackwardTail(c);
    }
  }

  lemma BackwardTail(c: Cursor)
    requires InBounds(c, true) && !Done(c)
    ensures InBounds(Advance(c), true) && Rest(Advance(c), true) == Rest(c, true)[1..]
  {
    hide Reverse;
    hide KeysIncreasing;
    ShorterSlice(c.rows, c.last + 1, c.i);
    ReverseTail(c.rows[c.last + 1..c.i + 1]);
  }

  lemma ShorterSlice(rows: Rows, a: nat, b: nat)
    requires a <= b < |rows|
    ensures rows[a..b] == rows[a..b + 1][..b - a]
  {
  }

  lemma ReverseTail(xs: Rows)
    requires xs != []
    ensures Reverse(xs)[0] == xs[|xs| - 1] && Reverse(xs)[1..] == Reverse(xs[..|xs| - 1])
  {
  }

  lemma RestOrdered(c: Cursor, rev: bool)
    requires InBounds(c, rev)
    ensures Ordered(Rest(c, rev), rev)
  {
    hide Less;
    RestAt(c, rev);
    hide Rest;
    var rest := Rest(c, rev);
    forall i, j | 0 <= i < j < |rest| ensures Before(rest[i].pk, rest[j].pk, rev) {
    }
  }

  lemma RestAt(c: Cursor, rev: bool)
    requires InBounds(c, rev)
    ensures var rest := Rest(c, rev);
            && |rest| == (if rev then c.i - c.last else c.last - c.i)
            && forall i :: 0 <= i < |rest| ==> rest[i] == if rev then c.rows[c.i - i] else c.rows[c.i + i]
  {
    hide Less;
  }

  ghost predicate Heap(h: seq<Cursor>, rev: bool) {
    && (forall j :: 0 <= j < |h| ==> InBounds(h[j], rev))
    && Distinct(Prios(h))
  }

  ghost function Prios(h: seq<Cursor>): (r: seq<int>)
    ensures |r| == |h| && forall j :: 0 <= j < |h| ==> r[j] == h[j].prio
  {
    seq(|h|, j requires 0 <= j < |h| => h[j].prio)
  }

  ghost function Runs(h: seq<Cursor>, rev: bool): (r: seq<Rows>)
    requires Heap(h, rev)
    ensures |r| == |h| && forall j :: 0 <= j < |h| ==> r[j] == Rest(h[j], rev)
  {
    seq(|h|, j requires 0 <= j < |h| => Rest(h[j], rev))
  }

  lemma RunsOrdered(h: seq<Cursor>, rev: bool)
    requires Heap(h, rev)
    ensures AllOrdered(Runs(h, rev), rev)
  {
    forall j | 0 <= j < |h| ensures Ordered(Runs(h, rev)[j], rev) {
      RestOrdered(h[j], rev);
    }
  }

  lemma AdvanceOne(h: seq<Cursor>, rev: bool, m: nat)
    requires Heap(h, rev) && m < |h| && !Done(h[m])
    ensures Heap(h[m := Advance(h[m])], rev)
    ensures Prios(h[m := Advance(h[m])]) == Prios(h)
    ensures Runs(h, rev)[m] != []
    ensures Runs(h[m := Advance(h[m])], rev) == Runs(h, rev)[m := Runs(h, rev)[m][1..]]
  {
    RestHead(h[m], rev);
    assert Prios(h[m := Advance(h[m])]) == Prios(h);
  }

  /** `mergeHeap.Less` between the heads of two cursors. */
  predicate Sooner(a: Cursor, b: Cursor, rev: bool)
    requires 0 <= a.i < |a.rows| && 0 <= b.i < |b.rows|
  {
    var x, y := a.rows[a.i].pk, b.rows[b.i].pk;
    if x != y then Before(x, y, rev) else a.prio > b.prio
  }

  /** `m` is the newest cursor whose head is `k`. */
  ghost predicate NewestAt(h: seq<Cursor>, rev: bool, k: Key, m: int) {
    && 0 <= m < |h| && !Done(h[m]) && InBounds(h[m], rev)
    && 0 <= h[m].i < |h[m].rows| && h[m].rows[h[m].i].pk == k
    && forall j :: 0 <= j < |h| && !Done(h[j]) && InBounds(h[j], rev) && h[j].rows[h[j].i].pk == k ==> h[j].prio <= h[m].prio
  }

  /** `m` is the cursor the heap yields next, -1 if there is none. */
  ghost predicate IsTop(h: seq<Cursor>, rev: bool, m: int)
    requires Heap(h, rev)
  {
    && -1 <= m < |h|
    && (m < 0 ==> forall j :: 0 <= j < |h| ==> Done(h[j]))
    && (m >= 0 ==> 0 <= h[m].i < |h[m].rows| && NewestAt(h, rev, h[m].rows[h[m].i].pk, m) && Leads(Runs(h, rev), h[m].rows[h[m].i].pk, rev))
  }

  /** The top of the heap, or -1 when every cursor is done. */
  method Top(h: seq<Cursor>, rev: bool) returns (m: int)
    requires Heap(h, rev)
    ensures IsTop(h, rev, m)
  {
    Order();
    m := -1;
    for j := 0 to |h|
      invariant -1 <= m < j
      invariant m < 0 ==> forall x :: 0 <= x < j ==> Done(h[x])
      invariant m >= 0 ==> !Done(h[m])
      invariant m >= 0 ==> forall x :: 0 <= x < j && !Done(h[x]) ==> x == m || Sooner(h[m], h[x], rev)
    {
      if !Done(h[j]) && (m < 0 || Sooner(h[j], h[m], rev)) {
        m := j;
      }
    }
    forall j | 0 <= j < |h| ensures !Done(h[j]) ==> Runs(h, rev)[j] != [] && Runs(h, rev)[j][0] == h[j].rows[h[j].i]
                            ensures Done(h[j]) ==> Runs(h, rev)[j] == []
    {
      RestHead(h[j], rev);
    }
  }

  // ----- Consuming the older versions of a key -----

  /** Where a merge stands in the group of key `k`: no source is before `k`. */
  ghost predicate AtGroup(h: seq<Cursor>, rev: bool, k: Key) {
    Heap(h, rev) && Leads(Runs(h, rev), k, rev)
  }

  /** `h'` is `h` after popping some versions of `k`. */
  ghost predicate Popped(h: seq<Cursor>, h': seq<Cursor>, rev: bool, k: Key) {
    && AtGroup(h, rev, k) && AtGroup(h', rev, k)
    && Prios(h') == Prios(h)
    && AllWithout(Runs(h', rev), k) == AllWithout(Runs(h, rev), k)
  }

  ghost function Older(h: seq<Cursor>, rev: bool, k: Key): seq<Version>
    requires Heap(h, rev)
  {
    StackOf(Runs(h, rev), Prios(h), k)
  }

  lemma HeadsOf(h: seq<Cursor>, rev: bool, k: Key, m: nat)
    requires Heap(h, rev) && NewestAt(h, rev, k, m)
    ensures var runs := Runs(h, rev);
            && runs[m] != [] && runs[m][0] == h[m].rows[h[m].i]
            && forall i :: 0 <= i < |runs| && runs[i] != [] && runs[i][0].pk == k ==> Prios(h)[i] <= Prios(h)[m]
  {
    forall j | 0 <= j < |h| ensures Runs(h, rev)[j] != [] ==> !Done(h[j]) && Runs(h, rev)[j][0] == h[j].rows[h[j].i] {
      RestHead(h[j], rev);
    }
    RestHead(h[m], rev);
  }

  lemma PopOne(h: seq<Cursor>, rev: bool, k: Key, m: nat)
    requires AtGroup(h, rev, k) && NewestAt(h, rev, k, m)
    ensures Popped(h, h[m := Advance(h[m])], rev, k)
    ensures Older(h, rev, k) == [h[m].rows[h[m].i].ver] + Older(h[m := Advance(h[m])], rev, k)
    ensures Total(Runs(h[m := Advance(h[m])], rev)) < Total(Runs(h, rev))
  {
    AdvanceOne(h, rev, m);
    RunsOrdered(h, rev);
    HeadsOf(h, rev, k, m);
    PopKeeps(Runs(h, rev), rev, k, m);
    StackPop(Runs(h, rev), Prios(h), rev, k, m);
    TotalShrinks(Runs(h, rev), m);
  }

  /** A heap whose top is past `k` holds no version of `k`. */
  lemma GroupEnds(h: seq<Cursor>, rev: bool, k: Key, top: int)
    requires AtGroup(h, rev, k) && IsTop(h, rev, top)
    requires top >= 0 ==> h[top].rows[h[top].i].pk != k
    ensures Older(h, rev, k) == []
    ensures AllWithout(Runs(h, rev), k) == Runs(h, rev)
  {
    var runs: seq<Rows> := Runs(h, rev);
    RunsOrdered(h, rev);
    if top >= 0 {
      RestHead(h[top], rev);
    }
    forall j: nat | j < |h| ensures runs[j] != [] ==> runs[j][0].pk != k {
      GroupEndsAt(h, rev, k, top, j);
    }
    forall j | 0 <= j < |h| ensures Find(runs[j], k) == [] && Without(runs[j], k) == runs[j] {
      LedFind(runs[j], k, rev);
    }
    assert Holders(runs, k) == {};
  }

  lemma GroupEndsAt(h: seq<Cursor>, rev: bool, k: Key, top: int, j: nat)
    requires AtGroup(h, rev, k) && IsTop(h, rev, top) && j < |h|
    requires top >= 0 ==> h[top].rows[h[top].i].pk != k
    ensures Runs(h, rev)[j] != [] ==> Runs(h, rev)[j][0].pk != k
  {
    RestHead(h[j], rev);
    if top >= 0 && Runs(h, rev)[j] != [] {
      RestHead(h[top], rev);
      var x, y := h[top].rows[h[top].i].pk, Runs(h, rev)[j][0].pk;
      assert Runs(h, rev)[top] != [] && Runs(h, rev)[top][0].pk == x;
      if y == k {
        assert Before(k, x, rev) && Before(x, k, rev);
        LessAsymmetric(if rev then x else k, if rev then k else x);
      }
    }
  }

  /** Popping the newest remaining version while there are holes fills them from it. */
  lemma PopInherit(h: seq<Cursor>, rev: bool, k: Key, m: nat, cells: seq<Cell>)
    requires AtGroup(h, rev, k) && NewestAt(h, rev, k, m) && [] in cells
    ensures Popped(h, h[m := Advance(h[m])], rev, k)
    ensures Total(Runs(h[m := Advance(h[m])], rev)) < Total(Runs(h, rev))
    ensures var v, rest := h[m].rows[h[m].i].ver, Older(h[m := Advance(h[m])], rev, k);
            Inherit(cells, Older(h, rev, k)) == Inherit(if v.del then cells else Filled(cells, v.cells), rest)
  {
    PopOne(h, rev, k, m);
    var v, rest := h[m].rows[h[m].i].ver, Older(h[m := Advance(h[m])], rev, k);
    assert ([v] + rest)[1..] == rest;
  }

  /** Pops every remaining version of `k`. */
  method Drain(h0: seq<Cursor>, rev: bool, k: Key) returns (h: seq<Cursor>)
    requires AtGroup(h0, rev, k)
    ensures Heap(h, rev) && Prios(h) == Prios(h0)
    ensures Runs(h, rev) == AllWithout(Runs(h0, rev), k)
  {
    h := h0;
    var top := Top(h, rev);
    while top >= 0 && h[top].rows[h[top].i].pk == k
      invariant Popped(h0, h, rev, k)
      invariant IsTop(h, rev, top)
      decreases Total(Runs(h, rev))
    {
      PopOne(h, rev, k, top);
      h := h[top := Advance(h[top])];
      top := Top(h, rev);
    }
    GroupEnds(h, rev, k, top);
  }

  /** A live older version fills the holes of `merged`; reports whether any are left. */
  method FillFrom(merged: array<Cell>, ver: Version) returns (holes: bool)
    modifies merged
    ensures merged[..] == if ver.del then old(merged[..]) else Filled(old(merged[..]), ver.cells)
    ensures holes <==> [] in merged[..]
  {
    if !ver.del {
      FillEmptyCells(merged, ver.cells);
    }
    holes := HasEmptyCell(merged[..]);
  }

  /** Full-row inheritance: older versions fill the empty cells while there are any. */
  method FillFromOlder(h0: seq<Cursor>, rev: bool, k: Key, cells: seq<Cell>) returns (h: seq<Cursor>, r: seq<Cell>)
    requires AtGroup(h0, rev, k)
    ensures Popped(h0, h, rev, k)
    ensures r == Inherit(cells, Older(h0, rev, k))
  {
    hide Inherit;
    hide Runs;
    h := h0;
    var merged := new Cell[|cells|](i requires 0 <= i < |cells| => cells[i]);
    assert merged[..] == cells;
    var top := Top(h, rev);
    var holes := HasEmptyCell(cells);
    while top >= 0 && h[top].rows[h[top].i].pk == k && holes
      invariant Popped(h0, h, rev, k) && IsTop(h, rev, top)
      invariant holes <==> [] in merged[..]
      invariant Inherit(merged[..], Older(h, rev, k)) == Inherit(cells, Older(h0, rev, k))
      decreases Total(Runs(h, rev))
    {
      PopInherit(h, rev, k, top, merged[..]);
      holes := FillFrom(merged, h[top].rows[h[top].i].ver);
      h := h[top := Advance(h[top])];
      top := Top(h, rev);
    }
    if holes {
      GroupEnds(h, rev, k, top);
    }
    InheritWhole(merged[..], Older(h, rev, k));
    r := merged[..];
  }

  lemma InheritWhole(cells: seq<Cell>, older: seq<Version>)
    requires [] !in cells || older == []
    ensures Inherit(cells, older) == cells
  {
  }

  /** Single-column inheritance: the next non-empty older cell, draining the group. */
  method CellFromOlder(h0: seq<Cursor>, rev: bool, k: Key, cell: Cell, c: nat) returns (h: seq<Cursor>, r: Cell)
    requires AtGroup(h0, rev, k)
    ensures Heap(h, rev) && Prios(h) == Prios(h0)
    ensures Runs(h, rev) == AllWithout(Runs(h0, rev), k)
    ensures r == InheritCell(cell, Older(h0, rev, k), c)
  {
    h := h0;
    r := cell;
    var top := Top(h, rev);
    while top >= 0 && h[top].rows[h[top].i].pk == k
      invariant Popped(h0, h, rev, k)
      invariant IsTop(h, rev, top)
      invariant InheritCell(r, Older(h, rev, k), c) == InheritCell(cell, Older(h0, rev, k), c)
      decreases Total(Runs(h, rev))
    {
      PopOne(h, rev, k, top);
      ghost var older, rest := Older(h, rev, k), Older(h[top := Advance(h[top])], rev, k);
      assert older[0] == h[top].rows[h[top].i].ver && older[1..] == rest;
      if r == [] && !h[top].rows[h[top].i].ver.del {
        r := CellAt(h[top].rows[h[top].i].ver, c);
      }
      h := h[top := Advance(h[top])];
      top := Top(h, rev);
    }
    GroupEnds(h, rev, k, top);
  }

  /**
   The row a group yields: the newest version, with the columns it lacks taken from
   the older ones; the group is consumed.
   */
  method Group(h0: seq<Cursor>, v: View, rev: bool, row: Row) returns (h: seq<Cursor>, e: Entry)
    requires AtGroup(h0, rev, row.pk)
    ensures Heap(h, rev) && Prios(h) == Prios(h0)
    ensures Runs(h, rev) == AllWithout(Runs(h0, rev), row.pk)
    ensures e == Merged(v, row.pk, [row.ver] + Older(h0, rev, row.pk))
  {
    var k, del := row.pk, row.ver.del;
    assert ([row.ver] + Older(h0, rev, k))[1..] == Older(h0, rev, k);
    match v
    case FullRows =>
      var cells := row.ver.cells;
      h := h0;
      var holes := HasEmptyCell(cells);
      if !del && holes {
        h, cells := FillFromOlder(h, rev, k, cells);
      }
      h := Drain(h, rev, k);
      e := Entry(k, cells, del);
    case Column(c) =>
      var cell := CellAt(row.ver, c);
      if !del && cell == [] {
        h, cell := CellFromOlder(h0, rev, k, cell, c);
      } else {
        h := Drain(h0, rev, k);
      }
      e := Entry(k, [cell], del);
    case KeysOnly =>
      h := Drain(h0, rev, k);
      e := Entry(k, [], del);
  }

  /** Taking the top of the heap and consuming its group is one step of the scan. */
  lemma GroupStep(h: seq<Cursor>, v: View, rev: bool, top: nat)
    requires Heap(h, rev) && IsTop(h, rev, top)
    ensures var row := h[top].rows[h[top].i];
            var h1 := h[top := Advance(h[top])];
            var rest := AllWithout(Runs(h1, rev), row.pk);
            && Scan(Runs(h, rev), Prios(h), v, rev)
               == [Merged(v, row.pk, [row.ver] + Older(h1, rev, row.pk))] + Scan(rest, Prios(h), v, rev)
            && Total(rest) < Total(Runs(h, rev))
  {
    var k := h[top].rows[h[top].i].pk;
    var h1 := h[top := Advance(h[top])];
    PopOne(h, rev, k, top);
    RunsOrdered(h, rev);
    HeadsOf(h, rev, k, top);
    assert k in KeysOf(Runs(h, rev)[top]);
    ScanStep(Runs(h, rev), Prios(h), v, rev, k);
    TotalWithout(Runs(h1, rev), k);
  }

  /** The k-way merge. `stop` is the callback's decision after the rows it was given. */
  method WalkHeap(h0: seq<Cursor>, v: View, rev: bool, stop: seq<Entry> -> bool) returns (out: seq<Entry>)
    requires Heap(h0, rev)
    ensures out == Taken([], Scan(Runs(h0, rev), Prios(h0), v, rev), stop)
  {
    out := [];
    var h := h0;
    var top := Top(h, rev);
    while top >= 0
      invariant Heap(h, rev) && Prios(h) == Prios(h0) && IsTop(h, rev, top)
      invariant Taken(out, Scan(Runs(h, rev), Prios(h), v, rev), stop) == Taken([], Scan(Runs(h0, rev), Prios(h0), v, rev), stop)
      decreases Total(Runs(h, rev))
    {
      GroupStep(h, v, rev, top);
      ghost var k := h[top].rows[h[top].i].pk;
      PopOne(h, rev, k, top);
      var row := h[top].rows[h[top].i];
      ghost var before := Scan(Runs(h, rev), Prios(h), v, rev);
      var e;
      h, e := Group(h[top := Advance(h[top])], v, rev, row);
      ghost var after := Scan(Runs(h, rev), Prios(h), v, rev);
      assert before == [e] + after;
      assert before[1..] == after;
      out := out + [e];
      if stop(out) {
        return;
      }
      top := Top(h, rev);
    }
    NothingLeft(h, v, rev);
  }

  lemma NothingLeft(h: seq<Cursor>, v: View, rev: bool)
    requires Heap(h, rev) && IsTop(h, rev, -1)
    ensures Scan(Runs(h, rev), Prios(h), v, rev) == []
  {
    forall j | 0 <= j < |h| ensures Runs(h, rev)[j] == [] {
      RestHead(h[j], rev);
    }
    assert AllKeys(Runs(h, rev)) == {};
  }
}
