/**
 The swap of a compaction over what it did not see: parts published between its snapshot
 and the reservation of its ids, which end up below the merged parts, and a table cleared
 meanwhile, whose rows the merged parts hold. When exactly the table stays as it was.
 */
module MpartSwaps {
  import opened Bytes
  import opened Wrappers
  import opened Versions
  import opened MpartModel
  import opened MpartSteps
  import opened MpartProofs
  import opened MpartLimits

  // ----- Stacks and tables -----

  lemma ResolveAlike(x: seq<Version>, y: seq<Version>, w: nat)
    requires Resolve(x, w) == Resolve(y, w)
    ensures Alike(x, y, w)
  {
    forall c: nat | c < w ensures Col(x, c) == Col(y, c) {
      if Alive(x) {
        assert Resolve(x, w).value[c] == Resolve(y, w).value[c];
      }
    }
  }

  /** Stores show the same table exactly if all their stacks read alike. */
  lemma SameViewIff(s: Store, t: Store, w: nat)
    ensures View(s, w) == View(t, w) <==> AllAlike(s, t, w)
  {
    if View(s, w) == View(t, w) {
      forall k ensures Alike(Stack(s, k), Stack(t, k), w) {
        ViewAt(s, w, k);
        ViewAt(t, w, k);
        ResolveAlike(Stack(s, k), Stack(t, k), w);
      }
    } else if AllAlike(s, t, w) {
      SameView(s, t, w);
    }
  }

  // ----- A full row moved above the versions it should lie below -----

  /** Nothing in the stack hides column `c` of what lies below. */
  ghost predicate Through(vs: seq<Version>, c: nat) {
    forall i :: 0 <= i < |vs| ==> !vs[i].del && CellAt(vs[i], c) == []
  }

  /**
   Wherever the stack `u` lets the stack `m` show, `m` is alive and supplies no other
   values than `row`.
   */
  ghost predicate Matches(u: seq<Version>, m: seq<Version>, row: seq<Cell>, w: nat)
    requires |row| == w
  {
    && (u == [] ==> Alive(m))
    && forall c :: 0 <= c < w && Through(u, c) ==> Col(m, c) == [] || Col(m, c) == row[c]
  }

  lemma {:induction false} ColOver(m: seq<Version>, row: seq<Cell>, w: nat, c: nat)
    requires Sound(m + [Version(row, false)], w) && Alive(m) && c < w == |row| && row[c] != []
    ensures Col(m + [Version(row, false)], c) == if Col(m, c) != [] then Col(m, c) else row[c]
  {
    var vs := m + [Version(row, false)];
    assert vs[0] == m[0] && vs[1..] == m[1..] + [Version(row, false)];
    if m[0].cells[c] == [] {
      if m[1..] == [] {
        assert vs[1..] == [Version(row, false)];
      } else {
        assert vs[1..][0] == m[1..][0];
        ColOver(m[1..], row, w, c);
      }
    }
  }

  lemma ThroughTop(u: seq<Version>, c: nat)
    requires u != []
    ensures Through(u, c) <==> !u[0].del && CellAt(u[0], c) == [] && Through(u[1..], c)
  {
    assert forall i :: 0 < i < |u| ==> u[i] == u[1..][i - 1];
    if Through(u, c) {
      assert forall i :: 0 <= i < |u[1..]| ==> u[1..][i] == u[i + 1];
    }
  }

  lemma {:induction false} ColMoved(u: seq<Version>, m: seq<Version>, row: seq<Cell>, w: nat, c: nat)
    requires Sound(u + (m + [Version(row, false)]), w) && m != [] && (u == [] ==> Alive(m))
    requires c < w == |row| && row[c] != []
    ensures Col(u + (m + [Version(row, false)]), c) == Col(u + ([Version(row, false)] + m), c) <==>
            (Through(u, c) ==> Col(m, c) == [] || Col(m, c) == row[c])
  {
    var r := Version(row, false);
    var x, y := u + (m + [r]), u + ([r] + m);
    if u == [] {
      assert x == m + [r] && y == [r] + m;
      ColOver(m, row, w, c);
      assert y[0] == r;
    } else {
      ThroughTop(u, c);
      assert x[0] == y[0] == u[0] && x[1..] == u[1..] + (m + [r]) && y[1..] == u[1..] + ([r] + m);
      if !u[0].del && u[0].cells[c] == [] {
        assert Alive(x[1..]);
        assert u[1..] == [] ==> x[1..][0] == m[0];
        ColMoved(u[1..], m, row, w, c);
      }
    }
  }

  /** Moving a full row above `m` cannot be observed exactly if the two match. */
  lemma MovedAlike(u: seq<Version>, m: seq<Version>, row: seq<Cell>, w: nat)
    requires Sound(u + (m + [Version(row, false)]), w) && m != [] && |row| == w && [] !in row
    ensures Alike(u + (m + [Version(row, false)]), u + ([Version(row, false)] + m), w) <==> Matches(u, m, row, w)
  {
    hide Sound;
    hide Col;
    hide Through;
    var r := Version(row, false);
    var x, y := u + (m + [r]), u + ([r] + m);
    assert u == [] ==> x[0] == m[0] && y[0] == r;
    assert u != [] ==> x[0] == u[0] && y[0] == u[0];
    if u == [] ==> Alive(m) {
      forall c: nat | c < w
        ensures Col(x, c) == Col(y, c) <==> (Through(u, c) ==> Col(m, c) == [] || Col(m, c) == row[c])
      {
        assert row[c] in row;
        ColMoved(u, m, row, w, c);
      }
    }
  }

  // ----- Where the merged parts come to lie -----

  lemma {:induction false} SortBetween(mid: seq<Part>, newer: seq<Part>, news: seq<Part>)
    requires IdsIncreasing(mid + newer) && IdsIncreasing(news)
    requires forall i, j :: 0 <= i < |mid| && 0 <= j < |news| ==> mid[i].id < news[j].id
    requires forall i, j :: 0 <= i < |news| && 0 <= j < |newer| ==> news[i].id < newer[j].id
    ensures SortParts(mid + newer + news) == mid + news + newer
  {
    if news == [] {
      assert mid + newer + news == mid + newer == mid + news + newer;
      SortParts_InOrder(mid + newer);
    } else {
      var n := |news| - 1;
      assert (mid + newer + news)[..|mid + newer + news| - 1] == mid + newer + news[..n];
      SortBetween(mid, newer, news[..n]);
      var a := mid + news[..n];
      assert a != [] ==> a[|a| - 1].id < news[n].id;
      InsertBetween(a, news[n], newer);
      assert a + [news[n]] == mid + news;
    }
  }

  /** The parts other than the merged ones: `mid` was published before the ids were reserved, `newer` after. */
  ghost predicate Around(mid: seq<Part>, newer: seq<Part>, out: seq<Row>, startID: nat) {
    && (forall p :: p in mid ==> p.id < startID)
    && (forall p :: p in newer ==> startID + |Chunked(out, startID)| <= p.id)
  }

  lemma SwappedParts(kept: seq<Part>, mid: seq<Part>, newer: seq<Part>, out: seq<Row>, startID: nat)
    requires kept == mid + newer && IdsIncreasing(kept) && KeysIncreasing(out) && Around(mid, newer, out, startID)
    ensures SortParts(kept + Chunked(out, startID)) == mid + Chunked(out, startID) + newer
  {
    var news := Chunked(out, startID);
    ChunkedInOrder(out, startID);
    assert forall i :: 0 <= i < |mid| ==> mid[i] in mid;
    assert forall i :: 0 <= i < |newer| ==> newer[i] in newer;
    SortBetween(mid, newer, news);
  }

  lemma SwappedStack(mid: seq<Part>, newer: seq<Part>, out: seq<Row>, startID: nat, k: Key)
    requires KeysIncreasing(out)
    ensures PartStack(mid + Chunked(out, startID) + newer, k) == PartStack(newer, k) + (Find(out, k) + PartStack(mid, k))
  {
    PartStackConcat(mid + Chunked(out, startID), newer, k);
    PartStackConcat(mid, Chunked(out, startID), k);
    ChunkedStack(out, startID, k);
  }

  /** What lies above both `mid` and the merged parts. */
  ghost function Over(s: Store, newer: seq<Part>, k: Key): seq<Version> {
    VersIn(MemRows(s), k) + PartStack(newer, k)
  }

  /** A merged row of `w` columns, all present. */
  ghost predicate MergedRow(vs: seq<Version>, w: nat) {
    |vs| == 1 && !vs[0].del && |vs[0].cells| == w && [] !in vs[0].cells
  }

  lemma CompactedRow(held: seq<Version>, w: nat)
    requires Sound(held, w)
    ensures Compacted(held, w) == [] || MergedRow(Compacted(held, w), w)
  {
    CompactedAlike(held, w);
    if Alive(held) {
      var row := Resolve(held, w).value;
      forall c | 0 <= c < w ensures row[c] != [] {
        SoundCovers(held, w, c);
      }
    }
  }

  // ----- Parts published before the ids were reserved -----

  ghost predicate MidMatches(s: Store, mid: seq<Part>, newer: seq<Part>, out: seq<Row>, w: nat, k: Key) {
    var c := Find(out, k);
    MergedRow(c, w) && PartStack(mid, k) != [] ==> Matches(Over(s, newer, k), PartStack(mid, k), c[0].cells, w)
  }

  lemma HeldSound(s: Store, olds: seq<Part>, rows: map<Key, MemRow>, w: nat, k: Key)
    requires StoreInv(s, w) && JobInv(s, olds, rows, w)
    ensures Sound(Held(olds, rows, k), w)
  {
    hide Covers;
    if k in rows {
      assert Shielded(s, olds, rows[k], w);
    } else {
      assert Sound(Stack(s, k), w);
      StackSplit(s, olds, k);
      SoundBelow(Above(s, olds, k), PartStack(olds, k), w);
      assert Held(olds, rows, k) == PartStack(olds, k);
    }
  }

  /** At a key whose row the merge takes out of memory. */
  lemma TakenMoved(s: Store, t: Store, olds: seq<Part>, mid: seq<Part>, newer: seq<Part>, rows: map<Key, MemRow>, out: seq<Row>, w: nat, k: Key)
    requires JobInv(s, olds, rows, w) && s.parts == olds + (mid + newer) && TakenOut(s, t, rows, k)
    requires PartStack(t.parts, k) == PartStack(newer, k) + (Find(out, k) + PartStack(mid, k))
    requires Find(out, k) == Compacted(Held(olds, rows, k), w)
    ensures Alike(Stack(s, k), Stack(t, k), w) && PartStack(mid, k) == []
  {
    hide Covers;
    assert Shielded(s, olds, rows[k], w);
    assert Newer(s, olds) == mid + newer;
    PartStackConcat(mid, newer, k);
    assert PartStack(newer, k) + PartStack(mid, k) == [];
    StackSplit(s, olds, k);
    assert Stack(s, k) == Held(olds, rows, k);
    CompactedAlike(Held(olds, rows, k), w);
    assert Stack(t, k) == Find(out, k);
  }

  lemma KeptMoved(s: Store, t: Store, olds: seq<Part>, mid: seq<Part>, newer: seq<Part>, rows: map<Key, MemRow>, out: seq<Row>, w: nat, k: Key)
    requires StoreInv(s, w) && JobInv(s, olds, rows, w) && s.parts == olds + (mid + newer)
    requires VersIn(MemRows(t), k) == VersIn(MemRows(s), k)
    requires PartStack(t.parts, k) == PartStack(newer, k) + (Find(out, k) + PartStack(mid, k))
    requires Find(out, k) == Compacted(Held(olds, rows, k), w)
    ensures Alike(Stack(s, k), Stack(t, k), w) <==> MidMatches(s, mid, newer, out, w, k)
  {
    hide Sound;
    hide Alike;
    hide Matches;
    hide Compacted;
    hide PartStack;
    hide StoreInv;
    hide JobInv;
    var u, m, c := Over(s, newer, k), PartStack(mid, k), Find(out, k);
    RebuiltBelow(s, olds, mid, newer, rows, c, w, k);
    HeldSound(s, olds, rows, w, k);
    CompactedRow(Held(olds, rows, k), w);
    assert Stack(t, k) == u + (c + m) && u + m + c == u + (m + c);
    if c == [] || m == [] {
      assert c + m == m + c;
    } else {
      assert c == [Version(c[0].cells, false)];
      MovedAlike(u, m, c[0].cells, w);
      AlikeThrough(Stack(s, k), u + (m + c), Stack(t, k), w);
    }
  }

  /** Below the parts it did not see, what the merge held reads as what it wrote. */
  lemma RebuiltBelow(s: Store, olds: seq<Part>, mid: seq<Part>, newer: seq<Part>, rows: map<Key, MemRow>, c: seq<Version>, w: nat, k: Key)
    requires StoreInv(s, w) && JobInv(s, olds, rows, w) && s.parts == olds + (mid + newer)
    requires c == Compacted(Held(olds, rows, k), w)
    ensures Sound(Over(s, newer, k) + PartStack(mid, k) + c, w)
    ensures Alike(Stack(s, k), Over(s, newer, k) + PartStack(mid, k) + c, w)
  {
    hide Sound;
    hide Alike;
    hide Covers;
    hide Compacted;
    hide PartStack;
    hide Shielded;
    assert Newer(s, olds) == mid + newer;
    PartStackConcat(mid, newer, k);
    StackSplit(s, olds, k);
    assert Above(s, olds, k) == Over(s, newer, k) + PartStack(mid, k);
    assert Sound(Stack(s, k), w);
    if k in rows {
      ShieldedBy(s, olds, rows, w, k);
    }
    RebuiltUnder(Above(s, olds, k), VersIn(rows, k), PartStack(olds, k), c, w);
  }

  lemma AlikeThrough(x: seq<Version>, y: seq<Version>, z: seq<Version>, w: nat)
    requires Alike(x, y, w)
    ensures Alike(x, z, w) <==> Alike(y, z, w)
  {
  }

  /**
   The swap of a compaction over parts `mid` published before it reserved its ids shows
   the table that was there if and only if, for every key of a merged row, whatever of
   these parts no newer row hides is alive and agrees with the merged row.
   */
  lemma SwapOverParts(s: Store, olds: seq<Part>, mid: seq<Part>, newer: seq<Part>, rows: map<Key, MemRow>, out: seq<Row>, startID: nat, w: nat)
    requires StoreInv(s, w) && JobInv(s, olds, rows, w) && Merges(out, olds, rows, w)
    requires s.parts == olds + (mid + newer) && Around(mid, newer, out, startID)
    ensures var t := Swapped(s, olds, rows, |out|, Chunked(out, startID), |out|);
            View(t, w) == View(s, w) <==> forall k :: MidMatches(s, mid, newer, out, w, k)
  {
    hide MidMatches;
    hide Alike;
    hide View;
    hide PartStack;
    hide Chunked;
    hide Compacted;
    hide Shielded;
    var t := Swapped(s, olds, rows, |out|, Chunked(out, startID), |out|);
    KeptSuffix(olds, mid + newer);
    SuffixInOrder(olds, mid + newer);
    SwappedParts(mid + newer, mid, newer, out, startID);
    SameViewIff(s, t, w);
    forall k ensures Alike(Stack(s, k), Stack(t, k), w) <==> MidMatches(s, mid, newer, out, w, k) {
      SwappedStack(mid, newer, out, startID, k);
      if TakenOut(s, t, rows, k) {
        TakenMoved(s, t, olds, mid, newer, rows, out, w, k);
        NothingBetween(s, mid, newer, out, w, k);
      } else {
        KeptMoved(s, t, olds, mid, newer, rows, out, w, k);
      }
    }
  }

  lemma NothingBetween(s: Store, mid: seq<Part>, newer: seq<Part>, out: seq<Row>, w: nat, k: Key)
    requires PartStack(mid, k) == []
    ensures MidMatches(s, mid, newer, out, w, k)
  {
  }

  // ----- A table cleared while the compaction was in flight -----

  ghost predicate HiddenOrMatched(s: Store, mid: seq<Part>, newer: seq<Part>, out: seq<Row>, w: nat, k: Key) {
    Find(out, k) != [] ==> Stack(s, k) != [] && MidMatches(s, mid, newer, out, w, k)
  }

  lemma ClearedMoved(s: Store, t: Store, mid: seq<Part>, newer: seq<Part>, out: seq<Row>, w: nat, k: Key)
    requires Sound(Stack(s, k), w) && s.parts == mid + newer && (Find(out, k) == [] || MergedRow(Find(out, k), w))
    requires VersIn(MemRows(t), k) == VersIn(MemRows(s), k)
    requires PartStack(t.parts, k) == PartStack(newer, k) + (Find(out, k) + PartStack(mid, k))
    ensures Alike(Stack(s, k), Stack(t, k), w) <==> HiddenOrMatched(s, mid, newer, out, w, k)
  {
    hide Matches;
    hide PartStack;
    hide Sound;
    hide Alike;
    var u, m, c := Over(s, newer, k), PartStack(mid, k), Find(out, k);
    PartStackConcat(mid, newer, k);
    assert Stack(s, k) == u + m && Stack(t, k) == u + (c + m);
    if c == [] {
      assert c + m == m;
      AlikeItself(u + m, w);
    } else if u + m == [] {
      assert Stack(t, k) == c;
      RowIsNew(c, w);
    } else {
      assert c == [Version(c[0].cells, false)];
      assert u + m + c == u + (m + c);
      AppendBelow(u + m, c[0], w);
      AppendSound(u + m, c[0], w);
      if m == [] {
        assert c + m == m + c;
      } else {
        MovedAlike(u, m, c[0].cells, w);
        AlikeThrough(u + m, u + (m + c), u + (c + m), w);
      }
    }
  }

  lemma AlikeItself(x: seq<Version>, w: nat)
    ensures Alike(x, x, w)
  {
  }

  lemma RowIsNew(c: seq<Version>, w: nat)
    requires MergedRow(c, w)
    ensures !Alike([], c, w)
  {
  }

  lemma {:induction false} AppendSound(v: seq<Version>, r: Version, w: nat)
    requires Sound(v, w) && !r.del && |r.cells| == w && [] !in r.cells
    ensures Sound(v + [r], w)
  {
    if v == [] {
      assert v + [r] == [r];
    } else {
      assert (v + [r])[1..] == v[1..] + [r];
      AppendSound(v[1..], r, w);
    }
  }

  /**
   The swap of a compaction over a table cleared since its snapshot brings back every
   merged row that nothing newer hides; the table is unchanged if and only if each is
   hidden, and what was published before the ids were reserved agrees with it. The live
   count is not adjusted.
   */
  lemma SwapAfterClear(s: Store, olds: seq<Part>, mid: seq<Part>, newer: seq<Part>, rows: map<Key, MemRow>, out: seq<Row>, startID: nat, w: nat)
    requires StoreInv(s, w) && Merges(out, olds, rows, w) && forall k :: Sound(Held(olds, rows, k), w)
    requires (forall p :: p in s.parts ==> p !in olds) && forall k :: k in MemRows(s) && k in rows ==> MemRows(s)[k].addr != rows[k].addr
    requires s.parts == mid + newer && Around(mid, newer, out, startID)
    ensures var t := Swapped(s, olds, rows, |out|, Chunked(out, startID), |out|);
            t.count == s.count && (View(t, w) == View(s, w) <==> forall k :: HiddenOrMatched(s, mid, newer, out, w, k))
  {
    hide HiddenOrMatched;
    hide Alike;
    hide View;
    hide PartStack;
    hide Chunked;
    hide Compacted;
    hide Held;
    var t := Swapped(s, olds, rows, |out|, Chunked(out, startID), |out|);
    KeptOthers(s.parts, olds);
    SwappedParts(mid + newer, mid, newer, out, startID);
    SameViewIff(s, t, w);
    forall k ensures Alike(Stack(s, k), Stack(t, k), w) <==> HiddenOrMatched(s, mid, newer, out, w, k) {
      SwappedStack(mid, newer, out, startID, k);
      assert Sound(Stack(s, k), w) && Sound(Held(olds, rows, k), w);
      CompactedRow(Held(olds, rows, k), w);
      ClearedMoved(s, t, mid, newer, out, w, k);
    }
  }

  lemma {:induction false} KeptOthers(parts: seq<Part>, olds: seq<Part>)
    requires forall p :: p in parts ==> p !in olds
    ensures Kept(parts, olds) == parts
  {
    if parts != [] {
      KeptOthers(parts[1..], olds);
    }
  }

  // ----- Two inputs -----

  /**
   A row flushed between the snapshot of a compaction and its id reservation is
   reverted by the swap: the merged part gets the higher id.
   */
  lemma FlushDuringMergeReverts(k: Key, a: Cell, b: Cell)
    requires a != [] && b != [] && a != b
    ensures var before := Store(None, [Part(1, [Row(k, Version([a], false))])], 1, 1, 0);
            var during := before.(parts := before.parts + [Part(2, [Row(k, Version([b], false))])], nextID := 2);
            var out := TableRows(View(before, 1));
            var after := Swapped(during, before.parts, map[], 1, Chunked(out, during.nextID + 1), |out|);
            && k in View(during, 1) && View(during, 1)[k] == [b]
            && k in View(after, 1) && View(after, 1)[k] == [a]
  {
    var p, q := Part(1, [Row(k, Version([a], false))]), Part(2, [Row(k, Version([b], false))]);
    var before := Store(None, [p], 1, 1, 0);
    var during := before.(parts := [p] + [q], nextID := 2);
    OneRowTable(p, k, a, before);
    var out := TableRows(View(before, 1));
    var r := Part(3, out);
    assert Chunked(out, 3) == [r];
    TwoParts(p, q, k, a, b, during);
    var after := Swapped(during, [p], map[], 1, [r], |out|);
    KeptSuffix([p], [q]);
    SortTwo(q, r);
    TwoParts(q, r, k, b, a, after);
  }

  lemma OneRowTable(p: Part, k: Key, a: Cell, s: Store)
    requires a != [] && p.rows == [Row(k, Version([a], false))] && s.mem.None? && s.parts == [p]
    ensures TableRows(View(s, 1)) == [Row(k, Version([a], false))]
  {
    var v := View(s, 1);
    OnePart(p, k);
    ViewAt(s, 1, k);
    assert Stack(s, k) == [Version([a], false)];
    OneColumn(Stack(s, k), a);
    forall x | x in v ensures x == k {
      ViewAt(s, 1, x);
      assert PartStack([p], x) == PartStack([], x) + Find(p.rows, x);
    }
    assert v == map[k := [a]];
    TableRowsIncreasing(v);
    assert Ascending(v.Keys)[0] in Ascending(v.Keys);
  }

  lemma TwoParts(p: Part, q: Part, k: Key, a: Cell, b: Cell, s: Store)
    requires b != [] && p.rows == [Row(k, Version([a], false))] && q.rows == [Row(k, Version([b], false))]
    requires s.mem.None? && s.parts == [p] + [q]
    ensures k in View(s, 1) && View(s, 1)[k] == [b]
  {
    hide View;
    hide Find;
    hide Col;
    OnePart(p, k);
    OnePart(q, k);
    PartStackConcat([p], [q], k);
    hide PartStack;
    ViewAt(s, 1, k);
    assert Stack(s, k) == [Version([b], false), Version([a], false)];
    OneColumn(Stack(s, k), b);
  }

  lemma OneColumn(vs: seq<Version>, c: Cell)
    requires vs != [] && vs[0] == Version([c], false) && c != []
    ensures Resolve(vs, 1) == Some([c])
  {
    assert Col(vs, 0) == c;
    assert Resolve(vs, 1).value == [c];
  }

  lemma SortTwo(q: Part, r: Part)
    requires q.id < r.id
    ensures SortParts([q] + [r]) == [q] + [r]
  {
    assert ([q] + [r])[..1] == [q] && [q][..0] == [];
    assert SortParts([q]) == [q];
  }

  lemma OnePart(p: Part, k: Key)
    requires |p.rows| == 1 && p.rows[0].pk == k
    ensures PartStack([p], k) == [p.rows[0].ver]
  {
    assert PartStack([p], k) == PartStack([], k) + Find(p.rows, k);
  }

  /**
   A row compacted while its table was cleared is back after the swap, and the live count
   does not know of it.
   */
  lemma ClearedRowReturns(k: Key, a: Cell)
    requires a != []
    ensures var before := Store(None, [Part(1, [Row(k, Version([a], false))])], 1, 1, 0);
            var out := TableRows(View(before, 1));
            var cleared := Committed(before, Clear(EMPTY_TX));
            var after := Swapped(cleared, before.parts, map[], 1, Chunked(out, 2), |out|);
            && k !in View(cleared, 1) && k in View(after, 1) && View(after, 1)[k] == [a] && after.count == 0
  {
    var p := Part(1, [Row(k, Version([a], false))]);
    var before := Store(None, [p], 1, 1, 0);
    OneRowTable(p, k, a, before);
    hide Committed;
    hide TableRows;
    hide View;
    var out := TableRows(View(before, 1));
    var r := Part(2, out);
    ChunkedOne(out, 2);
    hide Chunked;
    var cleared := Committed(before, Clear(EMPTY_TX));
    ClearedStore(before);
    ViewAt(cleared, 1, k);
    var after := Swapped(cleared, [p], map[], 1, [r], 1);
    SortParts_InOrder([r]);
    assert [] + [r] == [r];
    assert after.parts == [r];
    OnePart(r, k);
    ViewAt(after, 1, k);
    OneColumn(Stack(after, k), a);
  }

  lemma ChunkedOne(out: seq<Row>, id: nat)
    requires |out| == 1
    ensures Chunked(out, id) == [Part(id, out)]
  {
  }

  lemma ClearedStore(s: Store)
    requires s.mem.None?
    ensures var t := Committed(s, Clear(EMPTY_TX)); t.mem.None? && t.parts == [] && t.count == 0
  {
  }
}
