/**
 A written part: its rows in granules, the last key of each granule, the key span and
 a Bloom filter. Searching a part through all of these finds what its rows hold.
 */
module Disk {
  import opened Bytes
  import opened MpartModel
  import opened MergeSpec
  import opened Merge
  import opened Sources
  import opened Walk

  const GRANULE_ROWS: nat := 65536

  /** `granules` holds the last key of each granule; parts of older formats have none. */
  datatype DiskPart = DiskPart(part: Part, pkMin: Key, pkMax: Key, granules: seq<Key>, bloom: seq<bool>)

  // ----- Bloom filter -----

  const FNV_OFFSET: bv64 := 1469598103934665603
  const FNV_PRIME: bv64 := 1099511628211

  function Hash(pk: Key, h: bv64, mult: bv64): bv64 {
    if pk == [] then h else Hash(pk[1..], (h ^ (pk[0] as bv64)) * mult, mult)
  }

  function BitsFor(n: nat): (m: nat)
    ensures m >= 64
  {
    64 * (n * 4 / 64 + 1)
  }

  /** The two bits of a key in a filter of `m` bits. */
  function HashBits(pk: Key, m: nat): (r: (nat, nat))
    requires m > 0
    ensures r.0 < m && r.1 < m
  {
    (Hash(pk, FNV_OFFSET, FNV_PRIME) as nat % m, Hash(pk, FNV_PRIME, FNV_OFFSET) as nat % m)
  }

  predicate MayContain(bloom: seq<bool>, pk: Key)
    requires bloom != []
  {
    var (i, j) := HashBits(pk, |bloom|);
    bloom[i] && bloom[j]
  }

  /** `add`: the key's two bits are set, and no bit is cleared. */
  method AddKey(bits: array<bool>, pk: Key)
    requires bits.Length > 0
    modifies bits
    ensures MayContain(bits[..], pk)
    ensures Grows(old(bits[..]), bits[..])
  {
    var (i, j) := HashBits(pk, bits.Length);
    bits[i] := true;
    bits[j] := true;
  }

  ghost predicate Grows(before: seq<bool>, after: seq<bool>) {
    |before| == |after| && forall i :: 0 <= i < |before| && before[i] ==> after[i]
  }

  ghost predicate ContainsFirst(bloom: seq<bool>, rows: seq<Row>, n: nat) {
    bloom != [] && n <= |rows| && forall x :: 0 <= x < n ==> MayContain(bloom, rows[x].pk)
  }

  lemma OneMore(before: seq<bool>, after: seq<bool>, rows: seq<Row>, n: nat)
    requires ContainsFirst(before, rows, n) && Grows(before, after)
    requires n < |rows| && MayContain(after, rows[n].pk)
    ensures ContainsFirst(after, rows, n + 1)
  {
  }

  /** A filter over all keys of a part: no false negatives. */
  method BuildBloom(rows: seq<Row>) returns (bloom: seq<bool>)
    ensures |bloom| == BitsFor(|rows|)
    ensures ContainsFirst(bloom, rows, |rows|)
  {
    var bits := new bool[BitsFor(|rows|)](_ => false);
    for n := 0 to |rows|
      invariant ContainsFirst(bits[..], rows, n)
    {
      ghost var before := bits[..];
      AddKey(bits, rows[n].pk);
      OneMore(before, bits[..], rows, n);
    }
    bloom := bits[..];
  }

  // ----- Granules -----

  function GranuleCount(n: nat): nat {
    (n + GRANULE_ROWS - 1) / GRANULE_ROWS
  }

  /** First row of granule `g` and the row after its last one. */
  function RowRange(n: nat, g: nat): (r: (int, int))
    requires g < GranuleCount(n)
    ensures 0 <= r.0 == g * GRANULE_ROWS < r.1 <= n
    ensures g + 1 < GranuleCount(n) ==> r.1 == (g + 1) * GRANULE_ROWS
    ensures g + 1 == GranuleCount(n) ==> r.1 == n
  {
    (g * GRANULE_ROWS, if (g + 1) * GRANULE_ROWS > n then n else (g + 1) * GRANULE_ROWS)
  }

  predicate IndexMatches(rows: seq<Row>, granules: seq<Key>) {
    && |granules| == GranuleCount(|rows|)
    && forall g :: 0 <= g < |granules| ==> granules[g] == rows[RowRange(|rows|, g).1 - 1].pk
  }

  /** What `writePart` guarantees about a part, and older formats up to the granules. */
  ghost predicate Written(d: DiskPart) {
    var rows := d.part.rows;
    && PartSorted(d.part)
    && ContainsFirst(d.bloom, rows, |rows|)
    && (rows != [] ==> d.pkMin == rows[0].pk && d.pkMax == rows[|rows| - 1].pk)
    && (d.granules == [] || IndexMatches(rows, d.granules))
  }

  ghost predicate AllWritten(ds: seq<DiskPart>) {
    forall i {:trigger Written(ds[i])} :: 0 <= i < |ds| ==> Written(ds[i])
  }

  lemma OneWritten(ds: seq<DiskPart>, i: nat)
    requires AllWritten(ds) && i < |ds|
    ensures AllWritten([ds[i]])
  {
    assert Written(ds[i]);
  }

  method BuildIndex(rows: seq<Row>) returns (granules: seq<Key>)
    ensures IndexMatches(rows, granules)
  {
    granules := [];
    for g := 0 to GranuleCount(|rows|)
      invariant |granules| == g
      invariant forall x :: 0 <= x < g ==> granules[x] == rows[RowRange(|rows|, x).1 - 1].pk
    {
      granules := granules + [rows[RowRange(|rows|, g).1 - 1].pk];
    }
  }

  method WritePart(rows: seq<Row>, id: nat) returns (d: DiskPart)
    requires KeysIncreasing(rows)
    ensures AllWritten([d]) && d.part == Part(id, rows) && IndexMatches(rows, d.granules)
  {
    var bloom := BuildBloom(rows);
    var granules := BuildIndex(rows);
    var pkMin, pkMax := [], [];
    if |rows| > 0 {
      pkMin, pkMax := rows[0].pk, rows[|rows| - 1].pk;
    }
    d := DiskPart(Part(id, rows), pkMin, pkMax, granules, bloom);
  }

  // ----- Searching a part -----

  /** The first granule whose last key is not before `pk`. */
  method SearchGranule(granules: seq<Key>, pk: Key) returns (i: nat)
    requires Increasing(granules)
    ensures i <= |granules|
    ensures forall x :: 0 <= x < i ==> Less(granules[x], pk)
    ensures forall x :: i <= x < |granules| ==> !Less(granules[x], pk)
  {
    Order();
    i := 0;
    var j := |granules|;
    while i < j
      invariant 0 <= i <= j <= |granules|
      invariant forall x :: 0 <= x < i ==> Less(granules[x], pk)
      invariant forall x :: j <= x < |granules| ==> !Less(granules[x], pk)
    {
      var m := (i + j) / 2;
      if Less(granules[m], pk) {
        i := m + 1;
      } else {
        j := m;
      }
    }
  }

  /** `granuleFor`: the only granule that can hold `pk`, or -1. */
  method GranuleFor(rows: seq<Row>, granules: seq<Key>, pk: Key) returns (g: int)
    requires KeysIncreasing(rows) && IndexMatches(rows, granules)
    ensures -1 <= g < |granules|
    ensures forall x :: 0 <= x < |rows| && rows[x].pk == pk ==> InGranule(rows, g, x)
  {
    GranulesIncreasing(rows, granules);
    var i := SearchGranule(granules, pk);
    g := if i >= |granules| then -1 else i;
    forall x | 0 <= x < |rows| && rows[x].pk == pk ensures InGranule(rows, g, x) {
      GranuleOf(rows, granules, x, i);
    }
  }

  predicate InGranule(rows: seq<Row>, g: int, x: int) {
    0 <= g < GranuleCount(|rows|) && RowRange(|rows|, g).0 <= x < RowRange(|rows|, g).1
  }

  lemma KeyOrder(rows: seq<Row>, x: nat, y: nat)
    requires KeysIncreasing(rows) && x < |rows| && y < |rows|
    ensures Less(rows[x].pk, rows[y].pk) <==> x < y
  {
    Order();
  }

  lemma GranulesIncreasing(rows: seq<Row>, granules: seq<Key>)
    requires KeysIncreasing(rows) && IndexMatches(rows, granules)
    ensures Increasing(granules)
  {
    var n := |rows|;
    forall x, y | 0 <= x < y < |granules| ensures Less(granules[x], granules[y]) {
      assert RowRange(n, x).1 <= RowRange(n, y).0;
      KeyOrder(rows, RowRange(n, x).1 - 1, RowRange(n, y).1 - 1);
    }
  }

  /** The first granule whose last key is not before the key of row `x` is the one of row `x`. */
  lemma GranuleOf(rows: seq<Row>, granules: seq<Key>, x: nat, i: nat)
    requires KeysIncreasing(rows) && IndexMatches(rows, granules) && x < |rows| && i <= |granules|
    requires forall y :: 0 <= y < i ==> Less(granules[y], rows[x].pk)
    requires forall y :: i <= y < |granules| ==> !Less(granules[y], rows[x].pk)
    ensures InGranule(rows, i, x)
  {
    var n := |rows|;
    var last := GranuleCount(n) - 1;
    assert RowRange(n, last).1 == n;
    KeyOrder(rows, n - 1, x);
    assert i <= last;
    KeyOrder(rows, RowRange(n, i).1 - 1, x);
    if i > 0 {
      KeyOrder(rows, RowRange(n, i - 1).1 - 1, x);
    }
  }

  // ----- Walking keys from the end, granule by granule -----

  /** A part walked from its last row to its first. */
  function Backward(d: DiskPart): Cursor {
    Cursor(d.part.rows, d.part.id, |d.part.rows| - 1, -1, -1)
  }

  ghost function AllBackward(ds: seq<DiskPart>): (h: seq<Cursor>)
    ensures |h| == |ds| && forall i :: 0 <= i < |ds| ==> h[i] == Backward(ds[i])
  {
    seq(|ds|, i requires 0 <= i < |ds| => Backward(ds[i]))
  }

  /**
   `walkPksDescGranules`: when every part has granules and no two parts overlap, the
   keys come out as the merge would yield them, decoding only the granules needed.
   */
  method WalkPksDescGranules(ds: seq<DiskPart>, stop: seq<Entry> -> bool) returns (handled: bool, out: seq<Entry>)
    requires (forall d :: d in ds ==> Written(d)) && Distinct(Prios(AllBackward(ds)))
    ensures handled ==> Heap(AllBackward(ds), true) && out == Taken([], ToCome(AllBackward(ds), KeysOnly, true), stop)
  {
    var h: seq<Cursor> := [];
    out := [];
    for k := 0 to |ds|
      invariant |h| == k && forall i :: 0 <= i < k ==> h[i] == Backward(ds[i]) && ds[i].part.rows != []
    {
      assert Written(ds[k]);
      if |ds[k].granules| == 0 {
        return false, [];
      }
      h := h + [Backward(ds[k])];
    }
    if |h| == 0 {
      return false, [];
    }
    assert h == AllBackward(ds);
    BackwardLive(ds);
    var sorted := SortSources(h, true, SortBy(true, true));
    var apart := CheckApart(sorted, true);
    if !apart {
      return false, [];
    }
    SameStacksSameScan(Runs(sorted, true), Prios(sorted), Runs(h, true), Prios(h), KeysOnly, true);
    StillBackward(ds, sorted);
    handled := true;
    out := WalkGranules(sorted, stop);
  }

  lemma BackwardLive(ds: seq<DiskPart>)
    requires (forall d :: d in ds ==> Written(d) && d.part.rows != []) && Distinct(Prios(AllBackward(ds)))
    ensures Live(AllBackward(ds), true)
  {
    var h := AllBackward(ds);
    forall i | 0 <= i < |h| ensures InBounds(h[i], true) && !Done(h[i]) {
      assert ds[i] in ds;
    }
  }

  lemma StillBackward(ds: seq<DiskPart>, h: seq<Cursor>)
    requires Among(h, AllBackward(ds))
    ensures forall x :: 0 <= x < |h| ==> At(h, x, h[x].rows, |h[x].rows| - 1)
  {
    forall x | 0 <= x < |h| ensures At(h, x, h[x].rows, |h[x].rows| - 1) {
      assert h[x] in AllBackward(ds);
    }
  }

  /** Nothing of the source at `n` was emitted from row `r` down. */
  ghost predicate At(h: seq<Cursor>, n: nat, rows: seq<Row>, r: int) {
    n < |h| && h[n].rows == rows && h[n].i == r && h[n].last == -1 && h[n].step == -1
  }

  /** One granule from its last row to its first. */
  method WalkGranule(h0: seq<Cursor>, n: nat, rows: seq<Row>, g: nat, stop: seq<Entry> -> bool, out0: seq<Entry>, ghost all: seq<Entry>)
    returns (h: seq<Cursor>, out: seq<Entry>, stopped: bool)
    requires g < GranuleCount(|rows|) && At(h0, n, rows, RowRange(|rows|, g).1 - 1)
    requires Walking(h0, true, n, |h0|, KeysOnly, stop, out0, all)
    ensures stopped ==> out == all
    ensures !stopped ==> At(h, n, rows, RowRange(|rows|, g).0 - 1) && Walking(h, true, n, |h0|, KeysOnly, stop, out, all)
    ensures !stopped ==> forall x :: n < x < |h0| ==> h[x] == h0[x]
  {
    hide Taken;
    hide ToCome;
    hide InBounds;
    h, out, stopped := h0, out0, false;
    var (lo, hi) := RowRange(|rows|, g);
    var r := hi - 1;
    while r >= lo
      invariant lo - 1 <= r < hi && At(h, n, rows, r)
      invariant Walking(h, true, n, |h0|, KeysOnly, stop, out, all)
      invariant forall x :: n < x < |h0| ==> h[x] == h0[x]
    {
      var e;
      h, e := EmitHead(h, n, KeysOnly, true);
      TakenStep(out, e, ToCome(h, KeysOnly, true), stop);
      out := out + [e];
      r := r - 1;
      if stop(out) {
        stopped := true;
        return;
      }
    }
  }

  method WalkGranules(h0: seq<Cursor>, stop: seq<Entry> -> bool) returns (out: seq<Entry>)
    requires Apart(h0, true) && forall x :: 0 <= x < |h0| ==> At(h0, x, h0[x].rows, |h0[x].rows| - 1)
    ensures out == Taken([], ToCome(h0, KeysOnly, true), stop)
  {
    out := [];
    var h := h0;
    ghost var all := Taken([], ToCome(h0, KeysOnly, true), stop);
    StartWalking(h0, KeysOnly, true, stop);
    for n := 0 to |h0|
      invariant Walking(h, true, n, |h0|, KeysOnly, stop, out, all)
      invariant forall x :: n <= x < |h0| ==> h[x] == h0[x]
    {
      var rows := h[n].rows;
      var g := GranuleCount(|rows|) - 1;
      while g >= 0
        invariant -1 <= g < GranuleCount(|rows|)
        invariant At(h, n, rows, if g < 0 then -1 else RowRange(|rows|, g).1 - 1)
        invariant Walking(h, true, n, |h0|, KeysOnly, stop, out, all)
        invariant forall x :: n < x < |h0| ==> h[x] == h0[x]
      {
        var stopped;
        h, out, stopped := WalkGranule(h, n, rows, g, stop, out, all);
        if stopped {
          return;
        }
        g := g - 1;
      }
      WalkedThrough(h, true, n, |h0|, KeysOnly, stop, out, all);
    }
    AllDone(h, KeysOnly, true);
  }
}
