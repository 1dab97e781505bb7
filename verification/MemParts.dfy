/**
 The memory part as the object commits and flushes update: its rows sorted with a
 fast comparison for integer keys, and the sorted view it caches for scans.
 */
module MemParts {
  import opened Bytes
  import opened Endian
  import opened Wrappers
  import opened MpartModel
  import opened MpartSteps
  import opened Disk

  // ----- Sorting -----

  const INT_TAG: byte := 0

  /** One encoded 64-bit integer: tag, 0xff, eight bytes, 0xff. */
  predicate IntKey(k: Key) {
    |k| == 11 && k[0] == INT_TAG && k[1] == 0xff && k[10] == 0xff
  }

  function IntBits(k: Key): nat
    requires IntKey(k)
  {
    Decode(k[2..10])
  }

  /** The comparison `sortMemRows` uses: the eight bytes as a number when all keys are integers. */
  predicate Earlier(a: Key, b: Key, fast: bool)
    requires fast ==> IntKey(a) && IntKey(b)
  {
    if fast then IntBits(a) < IntBits(b) else Less(a, b)
  }

  lemma EarlierIsLess(a: Key, b: Key, fast: bool)
    requires fast ==> IntKey(a) && IntKey(b)
    ensures Earlier(a, b, fast) <==> Less(a, b)
  {
    if fast {
      var p, end: byte := a[..2], 0xff;
      var x, y := a[2..10], b[2..10];
      assert a == p + (x + [end]) && b == p + (y + [end]);
      LessUnderPrefix(p, x + [end], y + [end]);
      LessAtLast(x, end, y, end);
      DecodeOrder(x, y);
    }
  }

  method SortRowsFastOK(rows: map<Key, MemRow>) returns (fast: bool)
    ensures fast <==> forall k :: k in rows ==> IntKey(k)
  {
    var rest := rows.Keys;
    while rest != {}
      invariant rest <= rows.Keys
      invariant forall k :: k in rows && k !in rest ==> IntKey(k)
    {
      var k :| k in rest;
      if !IntKey(k) {
        return false;
      }
      rest := rest - {k};
    }
    return true;
  }

  /** `rs` lists the rows of `rows` with the given keys. */
  ghost predicate ListsPart(rs: seq<MemRow>, rows: map<Key, MemRow>, ks: set<Key>) {
    && KeysIncreasing(Plain(rs))
    && (forall i :: 0 <= i < |rs| ==> rs[i].row.pk in ks && rs[i].row.pk in rows && rows[rs[i].row.pk] == rs[i])
    && |rs| == |ks|
  }

  lemma InsertListed(rs: seq<MemRow>, rows: map<Key, MemRow>, ks: set<Key>, k: Key, pos: nat)
    requires ListsPart(rs, rows, ks) && k in rows && rows[k].row.pk == k && k !in ks && pos <= |rs|
    requires forall i :: 0 <= i < pos ==> Less(rs[i].row.pk, k)
    requires forall i :: pos <= i < |rs| ==> Less(k, rs[i].row.pk)
    ensures ListsPart(rs[..pos] + [rows[k]] + rs[pos..], rows, ks + {k})
  {
    hide Less;
    var rs' := rs[..pos] + [rows[k]] + rs[pos..];
    forall i | 0 <= i < |rs'| ensures rs'[i] == if i < pos then rs[i] else if i == pos then rows[k] else rs[i - 1] {
    }
    forall i, j | 0 <= i < j < |rs'| ensures Less(Plain(rs')[i].pk, Plain(rs')[j].pk) {
      InsertOrdered(rs, rs', k, pos, i, j);
    }
  }

  lemma InsertOrdered(rs: seq<MemRow>, rs': seq<MemRow>, k: Key, pos: nat, i: nat, j: nat)
    requires KeysIncreasing(Plain(rs)) && pos <= |rs| && |rs'| == |rs| + 1 && i < j < |rs'|
    requires forall x :: 0 <= x < |rs'| && x != pos ==> rs'[x] == rs[if x < pos then x else x - 1]
    requires rs'[pos].row.pk == k
    requires forall x :: 0 <= x < pos ==> Less(rs[x].row.pk, k)
    requires forall x :: pos <= x < |rs| ==> Less(k, rs[x].row.pk)
    ensures Less(rs'[i].row.pk, rs'[j].row.pk)
  {
    if i != pos && j != pos {
      var x, y := if i < pos then i else i - 1, if j < pos then j else j - 1;
      assert Less(Plain(rs)[x].pk, Plain(rs)[y].pk);
    }
  }

  /** Where `k` goes in a sorted list that does not hold it. */
  method Place(rs: seq<MemRow>, k: Key, fast: bool) returns (pos: nat)
    requires KeysIncreasing(Plain(rs)) && forall i :: 0 <= i < |rs| ==> rs[i].row.pk != k
    requires fast ==> IntKey(k) && forall i :: 0 <= i < |rs| ==> IntKey(rs[i].row.pk)
    ensures pos <= |rs|
    ensures forall i :: 0 <= i < pos ==> Less(rs[i].row.pk, k)
    ensures forall i :: pos <= i < |rs| ==> Less(k, rs[i].row.pk)
  {
    pos := |rs|;
    while pos > 0 && Earlier(k, rs[pos - 1].row.pk, fast)
      invariant pos <= |rs|
      invariant forall i :: pos <= i < |rs| ==> Less(k, rs[i].row.pk)
    {
      EarlierIsLess(k, rs[pos - 1].row.pk, fast);
      pos := pos - 1;
    }
    if pos > 0 {
      EarlierIsLess(k, rs[pos - 1].row.pk, fast);
      BeforeAll(rs, k, pos);
    }
  }

  lemma BeforeAll(rs: seq<MemRow>, k: Key, pos: nat)
    requires KeysIncreasing(Plain(rs)) && 0 < pos <= |rs| && rs[pos - 1].row.pk != k && !Less(k, rs[pos - 1].row.pk)
    ensures forall i :: 0 <= i < pos ==> Less(rs[i].row.pk, k)
  {
    Order();
    forall i | 0 <= i < pos ensures Less(rs[i].row.pk, k) {
      assert i < pos - 1 ==> Less(Plain(rs)[i].pk, Plain(rs)[pos - 1].pk);
    }
  }

  /** `sortMemRows` over the collected rows. */
  method SortMemRows(rows: map<Key, MemRow>) returns (rs: seq<MemRow>)
    requires Keyed(rows)
    ensures rs == MemRowsOf(rows)
  {
    var fast := SortRowsFastOK(rows);
    rs := [];
    var rest := rows.Keys;
    while rest != {}
      invariant rest <= rows.Keys && ListsPart(rs, rows, rows.Keys - rest)
      decreases |rest|
    {
      var k :| k in rest;
      var pos := Place(rs, k, fast);
      InsertListed(rs, rows, rows.Keys - rest, k, pos);
      assert rows.Keys - (rest - {k}) == (rows.Keys - rest) + {k};
      rs := rs[..pos] + [rows[k]] + rs[pos..];
      rest := rest - {k};
    }
    ListedAll(rs, rows);
  }

  lemma ListedAll(rs: seq<MemRow>, rows: map<Key, MemRow>)
    requires ListsPart(rs, rows, rows.Keys - {}) && Keyed(rows)
    ensures rs == MemRowsOf(rows)
  {
    assert rows.Keys - {} == rows.Keys;
    assert |rows.Keys| == |rows|;
    ListedOnce(rs, MemRowsOf(rows), rows);
  }

  lemma ListedOnce(a: seq<MemRow>, b: seq<MemRow>, rows: map<Key, MemRow>)
    requires Lists(a, rows) && Lists(b, rows) && Keyed(rows)
    ensures a == b
  {
    ListsRowsOf(a, rows);
    ListsRowsOf(b, rows);
    assert Plain(a) == Plain(b);
    forall i | 0 <= i < |a| ensures a[i] == b[i] {
      assert Plain(a)[i].pk == Plain(b)[i].pk;
    }
  }

  /** `memRowsSorted`. */
  method MemRowsSorted(rs: seq<MemRow>) returns (sorted: bool)
    ensures sorted <==> KeysIncreasing(Plain(rs))
  {
    Order();
    var i := 1;
    while i < |rs|
      invariant 1 <= i
      invariant forall x, y :: 0 <= x < y < i && y < |rs| ==> Less(rs[x].row.pk, rs[y].row.pk)
    {
      if !Less(rs[i - 1].row.pk, rs[i].row.pk) {
        assert !Less(Plain(rs)[i - 1].pk, Plain(rs)[i].pk);
        return false;
      }
      i := i + 1;
    }
    return true;
  }

  method PlainRows(rs: seq<MemRow>) returns (rows: seq<Row>)
    ensures rows == Plain(rs)
  {
    rows := [];
    for i := 0 to |rs|
      invariant |rows| == i && forall x :: 0 <= x < i ==> rows[x] == rs[x].row
    {
      rows := rows + [rs[i].row];
    }
  }

  // ----- The memory part -----

  class MemPart {
    const addr: nat
    var rows: map<Key, MemRow>
    var hint: seq<MemRow>
    var gen: nat
    var cacheGen: nat
    var cache: Option<seq<MemRow>>
    var sealing: bool

    ghost function Abs(): Mem
      reads this
    {
      Mem(addr, rows, hint, gen, cacheGen, cache, sealing)
    }

    constructor (a: nat)
      ensures Abs() == FreshMem(a) && rows == map[]
    {
      addr := a;
      rows, hint, gen, cacheGen, cache, sealing := map[], [], 0, 0, None, false;
    }

    /** The rows in key order: the hint if it is as long as the map and sorted. */
    method Sorted() returns (rs: seq<MemRow>)
      requires Keyed(rows)
      ensures rs == SortedRows(Abs())
    {
      if |hint| == |rows| {
        var sorted := MemRowsSorted(hint);
        if sorted {
          return hint;
        }
      }
      rs := SortMemRows(rows);
    }

    /** Writes the rows in key order as a new part. */
    method WriteRows(id: nat) returns (d: DiskPart)
      requires Keyed(rows)
      ensures AllWritten([d]) && d.part == Part(id, Plain(SortedRows(Abs())))
    {
      var rs := Sorted();
      var plain := PlainRows(rs);
      d := WritePart(plain, id);
    }

    method EnsureCached()
      requires Keyed(rows)
      modifies this
      ensures Abs() == Cached(old(Abs()))
    {
      if gen == cacheGen && cache.Some? {
        return;
      }
      var rs := Sorted();
      cache := Some(rs);
      cacheGen := gen;
    }
  }
}
