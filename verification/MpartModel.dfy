/**
 The state of one CSTORE2 table and what it means.

 A table is a memory part over immutable sorted parts ordered by sequence number.
 The Go pointers that the code compares (`*memRow`, `*memPart`) are modelled by
 addresses handed out by a counter, a written part by its row sequence.
 */
module MpartModel {
  import opened Bytes
  import opened Wrappers
  import opened Versions

  datatype Row = Row(pk: Key, ver: Version)

  /** A buffered row; `addr` is its identity. */
  datatype MemRow = MemRow(addr: nat, row: Row)

  datatype Part = Part(id: nat, rows: seq<Row>)

  /** `hint` and `cache` are the two derived copies of `rows` that later steps may trust. */
  datatype Mem = Mem(addr: nat, rows: map<Key, MemRow>, hint: seq<MemRow>,
                     gen: nat, cacheGen: nat, cache: Option<seq<MemRow>>, sealing: bool)

  datatype Store = Store(mem: Option<Mem>, parts: seq<Part>, count: int, nextID: nat, nextAddr: nat)

  // ----- Sorted rows -----

  ghost predicate KeysIncreasing(rows: seq<Row>) {
    forall i, j :: 0 <= i < j < |rows| ==> Less(rows[i].pk, rows[j].pk)
  }

  /** The version a row sequence holds for `k`: no element or one. */
  ghost function Find(rows: seq<Row>, k: Key): (r: seq<Version>)
    ensures |r| <= 1
  {
    if rows == [] then []
    else if rows[0].pk == k then [rows[0].ver]
    else Find(rows[1..], k)
  }

  lemma {:induction false} FindAt(rows: seq<Row>, i: nat)
    requires KeysIncreasing(rows) && i < |rows|
    ensures Find(rows, rows[i].pk) == [rows[i].ver]
  {
    if i > 0 {
      LessAsymmetric(rows[0].pk, rows[i].pk);
      FindAt(rows[1..], i - 1);
    }
  }

  lemma {:induction false} FindIndex(rows: seq<Row>, k: Key) returns (i: nat)
    requires Find(rows, k) != []
    ensures i < |rows| && rows[i].pk == k && Find(rows, k) == [rows[i].ver]
  {
    if rows[0].pk == k {
      i := 0;
    } else {
      var j := FindIndex(rows[1..], k);
      i := j + 1;
    }
  }

  lemma {:induction false} FindConcat(a: seq<Row>, b: seq<Row>, k: Key)
    requires KeysIncreasing(a + b)
    ensures Find(a + b, k) == Find(b, k) + Find(a, k)
  {
    if a == [] {
      assert a + b == b;
    } else {
      assert (a + b)[1..] == a[1..] + b;
      assert KeysIncreasing(a[1..] + b);
      FindConcat(a[1..], b, k);
      if a[0].pk == k && Find(b, k) != [] {
        var i := FindIndex(b, k);
        assert (a + b)[|a| + i] == b[i];
        LessIrreflexive(k);
      }
    }
  }

  /** The rows of a map in key order, as `sortMemRows` and `writePart` lay them out. */
  ghost function RowsOf(m: map<Key, MemRow>): seq<Row> {
    var ks := Ascending(m.Keys);
    seq(|ks|, i requires 0 <= i < |ks| => assert ks[i] in ks; m[ks[i]].row)
  }

  ghost predicate Keyed(m: map<Key, MemRow>) {
    forall k :: k in m ==> m[k].row.pk == k
  }

  ghost function VersIn(m: map<Key, MemRow>, k: Key): seq<Version> {
    if k in m then [m[k].row.ver] else []
  }

  lemma RowsOfIncreasing(m: map<Key, MemRow>)
    requires Keyed(m)
    ensures KeysIncreasing(RowsOf(m)) && |RowsOf(m)| == |m|
  {
    var ks := Ascending(m.Keys);
    forall i | 0 <= i < |ks| ensures RowsOf(m)[i].pk == ks[i] {
      assert ks[i] in ks;
    }
  }

  lemma FindRowsOf(m: map<Key, MemRow>, k: Key)
    requires Keyed(m)
    ensures Find(RowsOf(m), k) == VersIn(m, k)
  {
    RowsOfIncreasing(m);
    var ks, rows := Ascending(m.Keys), RowsOf(m);
    assert forall i :: 0 <= i < |ks| ==> ks[i] in ks;
    if k in m {
      assert k in ks;
      var i :| 0 <= i < |ks| && ks[i] == k;
      FindAt(rows, i);
      assert rows[i] == m[k].row;
    } else if Find(rows, k) != [] {
      var i := FindIndex(rows, k);
    }
  }

  // ----- The version stack of a key, newest first -----

  ghost function PartStack(parts: seq<Part>, k: Key): seq<Version> {
    if parts == [] then [] else PartStack(parts[1..], k) + Find(parts[0].rows, k)
  }

  lemma {:induction false} PartStackConcat(a: seq<Part>, b: seq<Part>, k: Key)
    ensures PartStack(a + b, k) == PartStack(b, k) + PartStack(a, k)
  {
    if a == [] {
      assert a + b == b;
    } else {
      assert (a + b)[1..] == a[1..] + b;
      PartStackConcat(a[1..], b, k);
    }
  }

  lemma PartStackAppend(a: seq<Part>, p: Part, k: Key)
    ensures PartStack(a + [p], k) == Find(p.rows, k) + PartStack(a, k)
  {
    PartStackConcat(a, [p], k);
    assert PartStack([p], k) == PartStack([], k) + Find(p.rows, k);
  }

  ghost function MemRows(s: Store): map<Key, MemRow> {
    if s.mem.Some? then s.mem.value.rows else map[]
  }

  ghost function Stack(s: Store, k: Key): seq<Version> {
    VersIn(MemRows(s), k) + PartStack(s.parts, k)
  }

  ghost function PartKeys(parts: seq<Part>): set<Key> {
    set i, j | 0 <= i < |parts| && 0 <= j < |parts[i].rows| :: parts[i].rows[j].pk
  }

  lemma {:induction false} PartStackKeys(parts: seq<Part>, k: Key)
    requires k !in PartKeys(parts)
    ensures PartStack(parts, k) == []
  {
    if parts != [] {
      assert forall j :: 0 <= j < |parts[0].rows| ==> parts[0].rows[j].pk in PartKeys(parts);
      if Find(parts[0].rows, k) != [] {
        var j := FindIndex(parts[0].rows, k);
      }
      forall x | x in PartKeys(parts[1..]) ensures x in PartKeys(parts) {
        var i, j :| 0 <= i < |parts[1..]| && 0 <= j < |parts[1..][i].rows| && parts[1..][i].rows[j].pk == x;
        assert parts[i + 1].rows[j].pk == x;
      }
      PartStackKeys(parts[1..], k);
    }
  }

  // ----- Tables: the visible rows of an assignment of stacks to keys -----

  type Table = map<Key, seq<Cell>>

  /** The visible table: the row each live stack resolves to. */
  ghost function View(s: Store, w: nat): Table {
    map k | k in MemRows(s).Keys + PartKeys(s.parts) && Alive(Stack(s, k)) :: Resolve(Stack(s, k), w).value
  }

  lemma ViewAt(s: Store, w: nat, k: Key)
    ensures k in View(s, w) <==> Alive(Stack(s, k))
    ensures k in View(s, w) ==> Some(View(s, w)[k]) == Resolve(Stack(s, k), w)
  {
    if k !in MemRows(s) && k !in PartKeys(s.parts) {
      PartStackKeys(s.parts, k);
    }
  }

  ghost predicate AllAlike(s: Store, t: Store, w: nat) {
    forall k :: Alike(Stack(s, k), Stack(t, k), w)
  }

  /** Stores whose stacks read alike show the same table. */
  lemma SameView(s: Store, t: Store, w: nat)
    requires AllAlike(s, t, w)
    ensures View(s, w) == View(t, w)
  {
    forall k
      ensures k in View(s, w) <==> k in View(t, w)
      ensures k in View(s, w) ==> View(s, w)[k] == View(t, w)[k]
    {
      assert Alike(Stack(s, k), Stack(t, k), w);
      ViewAt(s, w, k);
      ViewAt(t, w, k);
      AlikeResolve(Stack(s, k), Stack(t, k), w);
    }
  }

  // ----- Invariants of the committed state -----

  ghost predicate IdsIncreasing(parts: seq<Part>) {
    forall i, j :: 0 <= i < j < |parts| ==> parts[i].id < parts[j].id
  }

  ghost predicate PartSorted(p: Part) {
    KeysIncreasing(p.rows)
  }

  ghost predicate PartsInOrder(parts: seq<Part>) {
    IdsIncreasing(parts) && forall p :: p in parts ==> PartSorted(p)
  }

  /**
   A non-empty hint is sorted and holds every row of the map, so when it is also as
   long as the map it lists the map's rows in key order.
   */
  ghost predicate HintSound(rows: map<Key, MemRow>, hint: seq<MemRow>) {
    hint != [] ==> KeysIncreasing(Plain(hint)) && forall k :: k in rows ==> rows[k] in hint
  }

  ghost function Plain(rs: seq<MemRow>): (r: seq<Row>)
    ensures |r| == |rs| && forall i :: 0 <= i < |rs| ==> r[i] == rs[i].row
  {
    seq(|rs|, i requires 0 <= i < |rs| => rs[i].row)
  }

  /** `rs` is sorted and holds exactly the rows of `rows`. */
  ghost predicate Lists(rs: seq<MemRow>, rows: map<Key, MemRow>) {
    && KeysIncreasing(Plain(rs))
    && (forall i :: 0 <= i < |rs| ==> rs[i].row.pk in rows && rows[rs[i].row.pk] == rs[i])
    && |rs| == |rows|
  }

  ghost predicate CacheValid(m: Mem) {
    m.gen == m.cacheGen && m.cache.Some?
  }

  /** The versions a scan takes from memory: the cached view when it is valid. */
  ghost function ScanVers(m: Option<Mem>, k: Key): seq<Version> {
    if m.None? then []
    else if CacheValid(m.value) then Find(Plain(m.value.cache.value), k)
    else VersIn(m.value.rows, k)
  }

  ghost function ScanStack(s: Store, k: Key): seq<Version> {
    ScanVers(s.mem, k) + PartStack(s.parts, k)
  }

  /**
   A valid cache agrees with the rows still in memory; a row it holds beyond them
   has moved to the parts, where it reads alike.
   */
  ghost predicate CacheSound(s: Store, w: nat) {
    s.mem.Some? && CacheValid(s.mem.value) ==>
      && KeysIncreasing(Plain(s.mem.value.cache.value))
      && (forall k :: k in s.mem.value.rows ==> Find(Plain(s.mem.value.cache.value), k) == VersIn(s.mem.value.rows, k))
      && (forall k :: k !in s.mem.value.rows ==> StaleUnseen(s, k, w))
  }

  ghost predicate StaleUnseen(s: Store, k: Key, w: nat) {
    Sound(ScanStack(s, k), w) && Alike(ScanStack(s, k), PartStack(s.parts, k), w)
  }

  ghost predicate PartsInv(s: Store) {
    PartsInOrder(s.parts) && IdsUpTo(s.parts, s.nextID)
  }

  ghost predicate IdsUpTo(parts: seq<Part>, n: nat) {
    forall p :: p in parts ==> p.id <= n
  }

  ghost predicate MemInv(s: Store) {
    && Keyed(MemRows(s))
    && (forall k :: k in MemRows(s) ==> MemRows(s)[k].addr < s.nextAddr)
    && (s.mem.Some? ==>
          && s.mem.value.addr < s.nextAddr
          && s.mem.value.cacheGen <= s.mem.value.gen
          && HintSound(s.mem.value.rows, s.mem.value.hint))
  }

  ghost predicate AllSound(s: Store, w: nat) {
    forall k :: Sound(Stack(s, k), w)
  }

  ghost predicate StoreInv(s: Store, w: nat) {
    && PartsInv(s)
    && MemInv(s)
    && AllSound(s, w)
    && CacheSound(s, w)
    && s.count == |View(s, w)|
  }

  /** A scan through the cached view reads every key as the current rows do. */
  lemma ScanReadsCurrent(s: Store, w: nat, k: Key)
    requires StoreInv(s, w)
    ensures Sound(ScanStack(s, k), w)
    ensures Resolve(ScanStack(s, k), w) == Resolve(Stack(s, k), w)
  {
    assert Sound(Stack(s, k), w);
    if s.mem.Some? && k !in s.mem.value.rows && CacheValid(s.mem.value) {
      assert StaleUnseen(s, k, w);
      assert Stack(s, k) == PartStack(s.parts, k);
      AlikeResolve(ScanStack(s, k), Stack(s, k), w);
    }
  }

  lemma {:induction false} ListsFind(rs: seq<MemRow>, rows: map<Key, MemRow>, k: Key)
    requires Lists(rs, rows) && Keyed(rows)
    ensures Find(Plain(rs), k) == VersIn(rows, k)
  {
    var ks := set i | 0 <= i < |rs| :: rs[i].row.pk;
    ListKeyCount(rs);
    assert ks <= rows.Keys;
    SubsetFull(ks, rows.Keys);
    if k in rows {
      assert k in ks;
      var i :| 0 <= i < |rs| && rs[i].row.pk == k;
      FindAt(Plain(rs), i);
    } else if Find(Plain(rs), k) != [] {
      var i := FindIndex(Plain(rs), k);
    }
  }

  lemma HintLists(rows: map<Key, MemRow>, hint: seq<MemRow>)
    requires Keyed(rows) && HintSound(rows, hint) && hint != [] && |hint| == |rows|
    ensures Lists(hint, rows)
  {
    var ks := set i | 0 <= i < |hint| :: hint[i].row.pk;
    ListKeyCount(hint);
    forall k | k in rows.Keys ensures k in ks {
      var i :| 0 <= i < |hint| && hint[i] == rows[k];
    }
    SubsetFull(rows.Keys, ks);
    forall i | 0 <= i < |hint| ensures hint[i].row.pk in rows && rows[hint[i].row.pk] == hint[i] {
      var k := hint[i].row.pk;
      assert k in ks;
      var j :| 0 <= j < |hint| && hint[j] == rows[k];
      assert Plain(hint)[i].pk == k == Plain(hint)[j].pk;
      LessIrreflexive(k);
    }
  }

  lemma {:induction false} ListKeyCount(rs: seq<MemRow>)
    requires KeysIncreasing(Plain(rs))
    ensures |set i | 0 <= i < |rs| :: rs[i].row.pk| == |rs|
  {
    if rs == [] {
    } else {
      var n := |rs| - 1;
      var init := rs[..n];
      assert forall i :: 0 <= i < n ==> Plain(init)[i] == Plain(rs)[i];
      ListKeyCount(init);
      var s0 := set i | 0 <= i < |init| :: init[i].row.pk;
      if rs[n].row.pk in s0 {
        var i :| 0 <= i < n && init[i].row.pk == rs[n].row.pk;
        assert Less(Plain(rs)[i].pk, Plain(rs)[n].pk);
        LessIrreflexive(rs[n].row.pk);
      }
      assert (set i | 0 <= i < |rs| :: rs[i].row.pk) == s0 + {rs[n].row.pk};
    }
  }

  lemma {:induction false} SubsetFull<T>(a: set<T>, b: set<T>)
    requires a <= b && |a| == |b|
    ensures a == b
  {
    if a != b {
      var x :| x in b && x !in a;
      SubsetSize(a, b - {x});
    }
  }

  lemma {:induction false} SubsetSize<T>(a: set<T>, b: set<T>)
    requires a <= b
    ensures |a| <= |b|
  {
    if a != {} {
      var x :| x in a;
      SubsetSize(a - {x}, b - {x});
    }
  }

  /** Listing is unique: the rows of the map in key order. */
  lemma ListsRowsOf(rs: seq<MemRow>, rows: map<Key, MemRow>)
    requires Lists(rs, rows) && Keyed(rows)
    ensures Plain(rs) == RowsOf(rows)
  {
    var ks := seq(|rs|, i requires 0 <= i < |rs| => rs[i].row.pk);
    forall x ensures x in ks <==> x in rows.Keys {
      ListsFind(rs, rows, x);
      if x in rows {
        var i := FindIndex(Plain(rs), x);
        assert ks[i] == x;
      }
    }
    assert Increasing(ks);
    AscendingUnique(ks, rows.Keys);
  }
}
