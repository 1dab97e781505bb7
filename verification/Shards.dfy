/**
 A sharded table: splits add empty shards over ranges that overlap the old ones, rows
 go to the narrowest shard that owns their key, and scans let narrower shards win.
 */
module Shards {
  import opened Bytes
  import opened Wrappers

  /** A shard and the rows its group holds; an empty bound is unbounded. */
  datatype Shard<V> = Shard(start: Key, end: Key, rows: map<Key, V>)

  /** `ShardSpec.Owns`. */
  predicate Owns<V>(s: Shard<V>, key: Key) {
    !(|s.start| > 0 && Less(key, s.start)) && !(|s.end| > 0 && !Less(key, s.end))
  }

  /** `ShardSpec.StartAfter`: a larger start is a narrower slice. */
  predicate StartAfter<V>(a: Shard<V>, b: Shard<V>) {
    Less(b.start, a.start)
  }

  // ----- What holds in every state -----

  /** Ends are unbounded, starts distinct, one shard starts at the bottom, rows lie in their shard. */
  ghost predicate Laid<V>(shards: seq<Shard<V>>) {
    && (forall i :: 0 <= i < |shards| ==> shards[i].end == [])
    && (forall i, j :: 0 <= i < j < |shards| ==> shards[i].start != shards[j].start)
    && (exists i :: 0 <= i < |shards| && shards[i].start == [])
    && forall i, k :: 0 <= i < |shards| && k in shards[i].rows ==> !Less(k, shards[i].start)
  }

  /** `i` is the owner of `key`: the narrowest shard that owns it. */
  ghost predicate IsOwner<V>(shards: seq<Shard<V>>, key: Key, i: int) {
    && 0 <= i < |shards| && Owns(shards[i], key)
    && forall j :: 0 <= j < |shards| && Owns(shards[j], key) ==> j == i || StartAfter(shards[i], shards[j])
  }

  /** `i` holds a row for `key` and no narrower shard does. */
  ghost predicate Newest<V>(shards: seq<Shard<V>>, key: Key, i: int) {
    && 0 <= i < |shards| && key in shards[i].rows
    && forall j :: 0 <= j < |shards| && key in shards[j].rows ==> j == i || StartAfter(shards[i], shards[j])
  }

  /** The shards show the table `t` at `k`: the narrowest holder has its row. */
  ghost predicate ShowsAt<V>(shards: seq<Shard<V>>, t: map<Key, V>, k: Key) {
    if k in t then exists i :: Newest(shards, k, i) && shards[i].rows[k] == t[k]
    else forall i :: 0 <= i < |shards| ==> k !in shards[i].rows
  }

  ghost predicate Shows<V>(shards: seq<Shard<V>>, t: map<Key, V>) {
    forall k :: ShowsAt(shards, t, k)
  }

  /** Exactly one shard is the owner of a key. */
  lemma OwnerUnique<V>(shards: seq<Shard<V>>, key: Key, i: int, j: int)
    requires IsOwner(shards, key, i) && IsOwner(shards, key, j)
    ensures i == j
  {
    Order();
  }

  /** `owningShard`. */
  method OwningShard<V>(shards: seq<Shard<V>>, key: Key) returns (best: int)
    requires Laid(shards)
    ensures IsOwner(shards, key, best)
  {
    Order();
    best := -1;
    for i := 0 to |shards|
      invariant -1 <= best < i
      invariant best >= 0 ==> Owns(shards[best], key)
      invariant forall j :: 0 <= j < i && Owns(shards[j], key) ==> best >= 0 && (j == best || StartAfter(shards[best], shards[j]))
    {
      if Owns(shards[i], key) {
        if best < 0 || StartAfter(shards[i], shards[best]) {
          best := i;
        }
      }
    }
    BottomOwns(shards, key);
  }

  lemma BottomOwns<V>(shards: seq<Shard<V>>, key: Key)
    requires Laid(shards)
    ensures exists i :: 0 <= i < |shards| && Owns(shards[i], key)
  {
    var i :| 0 <= i < |shards| && shards[i].start == [];
    assert Owns(shards[i], key);
  }

  // ----- Splits -----

  /** A split appends an empty shard; nothing moves. */
  lemma SplitKeeps<V>(shards: seq<Shard<V>>, start: Key, t: map<Key, V>)
    requires Laid(shards) && Shows(shards, t)
    requires forall i :: 0 <= i < |shards| ==> shards[i].start != start
    ensures Laid(shards + [Shard(start, [], map[])]) && Shows(shards + [Shard(start, [], map[])], t)
  {
    var shards' := shards + [Shard(start, [], map[])];
    assert forall i :: 0 <= i < |shards| ==> shards'[i] == shards[i];
    var b :| 0 <= b < |shards| && shards[b].start == [];
    assert shards'[b].start == [];
    forall k ensures ShowsAt(shards', t, k) {
      assert ShowsAt(shards, t, k);
      if k in t {
        var i :| Newest(shards, k, i) && shards[i].rows[k] == t[k];
        assert Newest(shards', k, i);
      }
    }
  }

  // ----- Inserting one row -----

  ghost function Stored<V>(shards: seq<Shard<V>>, i: nat, k: Key, v: V): seq<Shard<V>>
    requires i < |shards|
  {
    shards[i := shards[i].(rows := shards[i].rows[k := v])]
  }

  lemma HoldersOwn<V>(shards: seq<Shard<V>>, k: Key)
    requires Laid(shards)
    ensures forall j :: 0 <= j < |shards| && k in shards[j].rows ==> Owns(shards[j], k)
  {
  }

  /** A row stored in the shard that owns its key is the one that shows from then on. */
  lemma StoreShows<V>(shards: seq<Shard<V>>, i: nat, k: Key, v: V, t: map<Key, V>)
    requires Laid(shards) && Shows(shards, t) && IsOwner(shards, k, i)
    ensures Laid(Stored(shards, i, k, v)) && Shows(Stored(shards, i, k, v), t[k := v])
  {
    var shards', t' := Stored(shards, i, k, v), t[k := v];
    Order();
    var b :| 0 <= b < |shards| && shards[b].start == [];
    assert shards'[b].start == [];
    forall x ensures ShowsAt(shards', t', x) {
      assert ShowsAt(shards, t, x);
      if x == k {
        HoldersOwn(shards, k);
        assert Newest(shards', k, i);
      } else if x in t {
        var j :| Newest(shards, x, j) && shards[j].rows[x] == t[x];
        assert Newest(shards', x, j);
      }
    }
  }

  // ----- A batch of rows, grouped by owner -----

  /** A batch as an update of the table: later rows of a key win. */
  ghost function Inserted<V>(t: map<Key, V>, batch: seq<(Key, V)>): map<Key, V> {
    if batch == [] then t
    else Inserted(t, batch[..|batch| - 1])[batch[|batch| - 1].0 := batch[|batch| - 1].1]
  }

  /** The rows of a batch that belong to shard `i`, in order. */
  ghost function Routed<V>(shards: seq<Shard<V>>, batch: seq<(Key, V)>, i: int): seq<(Key, V)> {
    if batch == [] then []
    else
      var init, last := batch[..|batch| - 1], batch[|batch| - 1];
      Routed(shards, init, i) + if IsOwner(shards, last.0, i) then [last] else []
  }

  ghost predicate Grouped<V>(shards: seq<Shard<V>>, groups: seq<seq<(Key, V)>>, batch: seq<(Key, V)>) {
    |groups| == |shards| && forall i :: 0 <= i < |groups| ==> groups[i] == Routed(shards, batch, i)
  }

  /** The grouping loop of `execInsert`. */
  method GroupByOwner<V>(shards: seq<Shard<V>>, batch: seq<(Key, V)>) returns (groups: seq<seq<(Key, V)>>)
    requires Laid(shards)
    ensures Grouped(shards, groups, batch)
  {
    groups := seq(|shards|, i => []);
    for n := 0 to |batch|
      invariant Grouped(shards, groups, batch[..n])
    {
      var owner := OwningShard(shards, batch[n].0);
      RoutedOne(shards, batch, n, owner);
      groups := groups[owner := groups[owner] + [batch[n]]];
    }
    assert batch[..|batch|] == batch;
  }

  lemma RoutedOne<V>(shards: seq<Shard<V>>, batch: seq<(Key, V)>, n: nat, owner: int)
    requires n < |batch| && IsOwner(shards, batch[n].0, owner)
    ensures forall i :: Routed(shards, batch[..n + 1], i) == Routed(shards, batch[..n], i) + if i == owner then [batch[n]] else []
  {
    assert batch[..n + 1][..n] == batch[..n];
    forall i ensures IsOwner(shards, batch[n].0, i) <==> i == owner {
      if IsOwner(shards, batch[n].0, i) {
        OwnerUnique(shards, batch[n].0, i, owner);
      }
    }
  }

  /** A shard applies its rows in order. */
  method ApplyRows<V>(rows0: map<Key, V>, group: seq<(Key, V)>) returns (rows: map<Key, V>)
    ensures rows == Inserted(rows0, group)
  {
    rows := rows0;
    for n := 0 to |group|
      invariant rows == Inserted(rows0, group[..n])
    {
      rows := rows[group[n].0 := group[n].1];
      assert group[..n + 1][..n] == group[..n];
    }
    assert group[..|group|] == group;
  }

  method ApplyGroups<V>(shards: seq<Shard<V>>, groups: seq<seq<(Key, V)>>, ghost batch: seq<(Key, V)>) returns (out: seq<Shard<V>>)
    requires Grouped(shards, groups, batch)
    ensures AllApplied(shards, out, batch)
  {
    out := [];
    for i := 0 to |shards|
      invariant |out| == i
      invariant forall x :: 0 <= x < i ==> out[x] == shards[x].(rows := Inserted(shards[x].rows, Routed(shards, batch, x)))
    {
      var rows := ApplyRows(shards[i].rows, groups[i]);
      out := out + [shards[i].(rows := rows)];
    }
  }

  /** The shards after every group was applied, in whatever order. */
  ghost predicate AllApplied<V>(shards: seq<Shard<V>>, shards': seq<Shard<V>>, batch: seq<(Key, V)>) {
    && |shards'| == |shards|
    && forall i :: 0 <= i < |shards| ==> shards'[i] == shards[i].(rows := Inserted(shards[i].rows, Routed(shards, batch, i)))
  }

  ghost function Applied<V>(shards: seq<Shard<V>>, batch: seq<(Key, V)>): (r: seq<Shard<V>>)
    ensures AllApplied(shards, r, batch)
  {
    seq(|shards|, i requires 0 <= i < |shards| => shards[i].(rows := Inserted(shards[i].rows, Routed(shards, batch, i))))
  }

  /** Applying the groups shard by shard is storing the rows one by one with their owners. */
  lemma {:induction false} AppliedShows<V>(shards: seq<Shard<V>>, shards': seq<Shard<V>>, batch: seq<(Key, V)>, t: map<Key, V>)
    requires Laid(shards) && Shows(shards, t) && AllApplied(shards, shards', batch)
    ensures Laid(shards') && Shows(shards', Inserted(t, batch))
    decreases |batch|
  {
    if batch == [] {
      assert shards' == shards;
    } else {
      var n := |batch| - 1;
      var init, k, v := batch[..n], batch[n].0, batch[n].1;
      var mid := Applied(shards, init);
      AppliedShows(shards, mid, init, t);
      var owner := FindOwner(shards, k);
      LastApplied(shards, mid, shards', batch, owner);
      SameOwner(shards, mid, k, owner);
      StoreShows(mid, owner, k, v, Inserted(t, init));
    }
  }

  lemma LastApplied<V>(shards: seq<Shard<V>>, mid: seq<Shard<V>>, shards': seq<Shard<V>>, batch: seq<(Key, V)>, owner: int)
    requires batch != [] && IsOwner(shards, batch[|batch| - 1].0, owner)
    requires AllApplied(shards, mid, batch[..|batch| - 1]) && AllApplied(shards, shards', batch)
    ensures shards' == Stored(mid, owner, batch[|batch| - 1].0, batch[|batch| - 1].1)
  {
    var n := |batch| - 1;
    RoutedOne(shards, batch, n, owner);
    assert batch[..n + 1] == batch;
    forall i | 0 <= i < |shards| ensures shards'[i] == Stored(mid, owner, batch[n].0, batch[n].1)[i] {
      InsertedSnoc(shards[i].rows, Routed(shards, batch[..n], i), batch[n]);
      assert i != owner ==> Routed(shards, batch[..n], i) + [] == Routed(shards, batch[..n], i);
    }
  }

  lemma InsertedSnoc<V>(rows: map<Key, V>, group: seq<(Key, V)>, r: (Key, V))
    ensures Inserted(rows, group + [r]) == Inserted(rows, group)[r.0 := r.1]
  {
    assert (group + [r])[..|group|] == group;
  }

  lemma FindOwner<V>(shards: seq<Shard<V>>, key: Key) returns (owner: int)
    requires Laid(shards)
    ensures IsOwner(shards, key, owner)
  {
    BottomOwns(shards, key);
    var s := set i: nat | i < |shards| && Owns(shards[i], key);
    var b :| 0 <= b < |shards| && Owns(shards[b], key);
    assert b in s;
    owner := NarrowestOf(shards, s);
  }

  lemma {:induction false} NarrowestOf<V>(shards: seq<Shard<V>>, s: set<nat>) returns (m: nat)
    requires Laid(shards) && s != {} && forall i :: i in s ==> i < |shards|
    ensures m in s && forall i :: i in s ==> i == m || StartAfter(shards[m], shards[i])
  {
    Order();
    var x :| x in s;
    if s == {x} {
      m := x;
    } else {
      var y := NarrowestOf(shards, s - {x});
      m := if StartAfter(shards[x], shards[y]) then x else y;
      forall i | i in s ensures i == m || StartAfter(shards[m], shards[i]) {
        assert i == x || i in s - {x};
      }
    }
  }

  lemma SameOwner<V>(shards: seq<Shard<V>>, shards': seq<Shard<V>>, k: Key, owner: int)
    requires |shards'| == |shards| && forall i :: 0 <= i < |shards| ==> shards'[i].start == shards[i].start && shards'[i].end == shards[i].end
    requires IsOwner(shards, k, owner)
    ensures IsOwner(shards', k, owner)
  {
    forall j | 0 <= j < |shards'| && Owns(shards'[j], k) ensures j == owner || StartAfter(shards'[owner], shards'[j]) {
      assert Owns(shards[j], k);
    }
  }

  // ----- Split points -----

  /** `hasNarrowerSucc`: another shard with the same end starts later. */
  method HasNarrowerSucc<V>(shards: seq<Shard<V>>, i: nat) returns (r: bool)
    requires Laid(shards) && i < |shards|
    ensures r <==> exists j :: 0 <= j < |shards| && StartAfter(shards[j], shards[i])
  {
    for j := 0 to |shards|
      invariant forall x :: 0 <= x < j ==> !StartAfter(shards[x], shards[i])
    {
      if j != i && shards[j].end == shards[i].end && StartAfter(shards[j], shards[i]) {
        return true;
      }
      if j == i {
        LessIrreflexive(shards[i].start);
      }
    }
    return false;
  }

  /** The rows of a shard in key order. */
  method ScanKeys<V>(rows: map<Key, V>) returns (keys: seq<Key>)
    ensures keys == Ascending(rows.Keys)
  {
    Order();
    keys := [];
    var rest := rows.Keys;
    while rest != {}
      invariant rest <= rows.Keys && Increasing(keys)
      invariant forall k :: k in keys <==> k in rows.Keys && k !in rest
      decreases |rest|
    {
      var k :| k in rest;
      keys := PlaceKey(keys, k);
      rest := rest - {k};
    }
    AscendingUnique(keys, rows.Keys);
  }

  method PlaceKey(keys: seq<Key>, k: Key) returns (r: seq<Key>)
    requires Increasing(keys) && k !in keys
    ensures Increasing(r) && forall x :: x in r <==> x in keys || x == k
  {
    Order();
    var pos: int := |keys|;
    while pos > 0 && Less(k, keys[pos - 1])
      invariant 0 <= pos <= |keys| && forall i :: pos <= i < |keys| ==> Less(k, keys[i])
    {
      pos := pos - 1;
    }
    PlacedKey(keys, k, pos);
    r := keys[..pos] + [k] + keys[pos..];
  }

  lemma PlacedKey(keys: seq<Key>, k: Key, pos: nat)
    requires Increasing(keys) && k !in keys && pos <= |keys|
    requires pos > 0 ==> !Less(k, keys[pos - 1])
    requires forall i :: pos <= i < |keys| ==> Less(k, keys[i])
    ensures var r := keys[..pos] + [k] + keys[pos..];
            Increasing(r) && forall x :: x in r <==> x in keys || x == k
  {
    Order();
    var r := keys[..pos] + [k] + keys[pos..];
    assert forall i :: 0 <= i < pos ==> r[i] == keys[i];
    assert r[pos] == k;
    assert forall i :: pos < i < |r| ==> r[i] == keys[i - 1];
    forall i | 0 <= i < pos ensures Less(r[i], k) {
      assert i == pos - 1 || Less(keys[i], keys[pos - 1]);
    }
    forall x ensures x in r <==> x in keys || x == k {
      assert x in keys <==> x in keys[..pos] || x in keys[pos..] by {
        assert keys == keys[..pos] + keys[pos..];
      }
    }
  }

  /** The keys of a shard below a key. */
  ghost function KeysBelow(s: set<Key>, key: Key): set<Key> {
    set k | k in s && Less(k, key)
  }

  /** The key at which a shard is split: half of its keys lie below, and it is above the start. */
  ghost predicate Median<V>(s: Shard<V>, key: Key) {
    |s.rows| >= 2 && Less(s.start, key) && key in s.rows && |KeysBelow(s.rows.Keys, key)| == |s.rows| / 2
  }

  /** In a list of keys in order as many lie below the one at a position as the position says. */
  lemma RankIs(keys: seq<Key>, s: set<Key>, m: nat)
    requires Increasing(keys) && m < |keys| && forall k :: k in keys <==> k in s
    ensures |KeysBelow(s, keys[m])| == m
  {
    forall k ensures k in KeysBelow(s, keys[m]) <==> k in keys[..m] {
      BelowAt(keys, m, k);
    }
    hide Less;
    IncreasingSet(keys[..m]);
    assert KeysBelow(s, keys[m]) == set k | k in keys[..m];
  }

  lemma BelowAt(keys: seq<Key>, m: nat, k: Key)
    requires Increasing(keys) && m < |keys|
    ensures k in keys && Less(k, keys[m]) <==> k in keys[..m]
  {
    if k in keys && Less(k, keys[m]) {
      LessAsymmetric(k, keys[m]);
      hide Less;
      var i :| 0 <= i < |keys| && keys[i] == k;
      assert i < m;
      assert keys[..m][i] == k;
    }
    if k in keys[..m] {
      var j :| 0 <= j < m && keys[j] == k;
      assert Less(keys[j], keys[m]);
    }
  }

  lemma {:induction false} IncreasingSet(keys: seq<Key>)
    requires Increasing(keys)
    ensures |set k | k in keys| == |keys|
    decreases |keys|
  {
    if keys != [] {
      var n := |keys| - 1;
      IncreasingSet(keys[..n]);
      LessIrreflexive(keys[n]);
      hide Less;
      assert keys == keys[..n] + [keys[n]];
      assert (set k | k in keys) == (set k | k in keys[..n]) + {keys[n]};
    }
  }

  lemma MedianIs<V>(s: Shard<V>, key: Key)
    requires |s.rows| >= 2
    ensures Median(s, key) <==> key == Ascending(s.rows.Keys)[|s.rows| / 2] && Less(s.start, key)
  {
    hide Less;
    hide Increasing;
    hide KeysBelow;
    var keys := Ascending(s.rows.Keys);
    var m := |s.rows| / 2;
    assert |s.rows| == |s.rows.Keys|;
    RankIs(keys, s.rows.Keys, m);
    assert keys[m] in keys;
    if key in s.rows.Keys {
      assert key in keys;
      var i :| 0 <= i < |keys| && keys[i] == key;
      RankIs(keys, s.rows.Keys, i);
    }
  }

  /** `splitPointFor`: the median key of the rows in a shard, if it lies above the start. */
  method SplitPointFor<V>(s: Shard<V>) returns (key: Option<Key>)
    ensures key.Some? ==> Median(s, key.value)
    ensures key.None? ==> forall k :: !Median(s, k)
  {
    var keys := ScanKeys(s.rows);
    assert |keys| == |s.rows|;
    if |keys| < 2 {
      return None;
    }
    var mid := keys[|keys| / 2];
    forall k ensures Median(s, k) <==> k == mid && Less(s.start, k) {
      MedianIs(s, k);
    }
    if !Less(s.start, mid) {
      return None;
    }
    return Some(mid);
  }

  // ----- The table -----

  class ShardedTable<V(==)> {
    var shards: seq<Shard<V>>
    ghost var table: map<Key, V>

    /** Splits and inserts keep every key with its last row where a scan finds it first. */
    ghost predicate Valid()
      reads this
    {
      Laid(shards) && Shows(shards, table)
    }

    constructor ()
      ensures Valid() && table == map[]
    {
      var bottom: seq<Shard<V>> := [Shard([], [], map[])];
      assert bottom[0].start == [];
      shards, table := bottom, map[];
    }

    /** `splitShardByValue`: refused if the owner starts at the key already. */
    method SplitAt(key: Key) returns (ok: bool)
      requires Valid() && key != []
      modifies this
      ensures Valid() && table == old(table)
      ensures ok <==> forall i :: 0 <= i < |old(shards)| ==> old(shards)[i].start != key
      ensures shards == if ok then old(shards) + [Shard(key, [], map[])] else old(shards)
    {
      var owner := OwningShard(shards, key);
      OwnerStarts(shards, key, owner);
      if |shards[owner].start| > 0 && !Less(shards[owner].start, key) {
        return false;
      }
      SplitKeeps(shards, key, table);
      shards := shards + [Shard(key, shards[owner].end, map[])];
      return true;
    }

    /**
     One turn of `maybeAutoSplit` for shard `i`: if it is `oversized` and the narrowest,
     it is split at its median.
     */
    method AutoSplit(i: nat, oversized: bool) returns (ok: bool)
      requires Valid() && i < |shards|
      modifies this
      ensures Valid() && table == old(table)
      ensures ok <==> oversized && (exists key :: Median(old(shards)[i], key))
                      && forall j :: 0 <= j < |old(shards)| ==> !StartAfter(old(shards)[j], old(shards)[i])
      ensures !ok ==> shards == old(shards)
      ensures ok ==> exists key :: Median(old(shards)[i], key) && shards == old(shards) + [Shard(key, [], map[])]
    {
      var narrower := HasNarrowerSucc(shards, i);
      if narrower || !oversized {
        return false;
      }
      var key := SplitPointFor(shards[i]);
      if key.None? {
        return false;
      }
      NarrowestStarts(shards, i, key.value);
      SplitKeeps(shards, key.value, table);
      shards := shards + [Shard(key.value, shards[i].end, map[])];
      return true;
    }

    /** `execInsert`: rows are grouped by owner and each group is applied in order. */
    method Insert(batch: seq<(Key, V)>)
      requires Valid()
      modifies this
      ensures Valid() && table == Inserted(old(table), batch)
    {
      var groups := GroupByOwner(shards, batch);
      var out := ApplyGroups(shards, groups, batch);
      AppliedShows(shards, out, batch, table);
      shards, table := out, Inserted(table, batch);
    }
  }

  lemma OwnerStarts<V>(shards: seq<Shard<V>>, key: Key, owner: int)
    requires Laid(shards) && IsOwner(shards, key, owner) && key != []
    ensures (|shards[owner].start| > 0 && !Less(shards[owner].start, key)) <==> exists i :: 0 <= i < |shards| && shards[i].start == key
  {
    Order();
    if i :| 0 <= i < |shards| && shards[i].start == key {
      assert Owns(shards[i], key);
    }
  }

  lemma NarrowestStarts<V>(shards: seq<Shard<V>>, i: nat, key: Key)
    requires i < |shards| && Less(shards[i].start, key)
    requires !exists j :: 0 <= j < |shards| && StartAfter(shards[j], shards[i])
    ensures forall j :: 0 <= j < |shards| ==> shards[j].start != key
  {
    forall j | 0 <= j < |shards| ensures shards[j].start != key {
      assert !StartAfter(shards[j], shards[i]);
    }
  }
}
