/**
 Scans over a sharded table: narrowest shard first, the first row of a key wins.
 */
module ShardScan {
  import opened Bytes
  import opened Wrappers
  import opened Shards

  /** `rs` lists the rows of `m`, each once. */
  ghost predicate ListsRows<V(!new)>(rs: seq<(Key, V)>, m: map<Key, V>) {
    && (forall i, j :: 0 <= i < j < |rs| ==> rs[i].0 != rs[j].0)
    && (forall i :: 0 <= i < |rs| ==> rs[i].0 in m && m[rs[i].0] == rs[i].1)
    && forall k :: k in m ==> HasKey(rs, k)
  }

  ghost predicate HasKey<V>(rs: seq<(Key, V)>, k: Key) {
    exists i :: 0 <= i < |rs| && rs[i].0 == k
  }

  /** The rows of a table that satisfy a condition on the key. */
  ghost function Chosen<V>(t: map<Key, V>, where: Key -> bool): map<Key, V> {
    map k | k in t && where(k) :: t[k]
  }

  // ----- Narrowest first -----

  ghost predicate Narrowing<V>(shards: seq<Shard<V>>) {
    forall i, j :: 0 <= i < j < |shards| ==> StartAfter(shards[i], shards[j])
  }

  /** Orders the shards by decreasing start. */
  method SortByStart<V>(shards: seq<Shard<V>>) returns (sorted: seq<Shard<V>>)
    requires Laid(shards)
    ensures Narrowing(sorted) && forall s :: s in sorted <==> s in shards
  {
    sorted := [];
    for n := 0 to |shards|
      invariant Narrowing(sorted) && forall s :: s in sorted <==> s in shards[..n]
    {
      var pos: int := |sorted|;
      while pos > 0 && StartAfter(shards[n], sorted[pos - 1])
        invariant 0 <= pos <= |sorted|
        invariant forall i :: pos <= i < |sorted| ==> StartAfter(shards[n], sorted[i])
      {
        pos := pos - 1;
      }
      NotYetPlaced(shards, sorted, n, pos);
      Placed(sorted, shards[n], pos);
      assert shards[..n + 1] == shards[..n] + [shards[n]];
      sorted := sorted[..pos] + [shards[n]] + sorted[pos..];
    }
    assert shards[..|shards|] == shards;
  }

  lemma NotYetPlaced<V>(shards: seq<Shard<V>>, sorted: seq<Shard<V>>, n: nat, pos: int)
    requires Laid(shards) && n < |shards| && (forall s :: s in sorted ==> s in shards[..n])
    requires 0 <= pos <= |sorted| && (pos > 0 ==> !StartAfter(shards[n], sorted[pos - 1]))
    ensures pos > 0 ==> StartAfter(sorted[pos - 1], shards[n])
  {
    Order();
    if pos > 0 {
      assert sorted[pos - 1] in sorted;
      var i :| 0 <= i < n && shards[..n][i] == sorted[pos - 1];
      assert shards[i].start != shards[n].start;
    }
  }

  lemma Placed<V>(sorted: seq<Shard<V>>, s: Shard<V>, pos: nat)
    requires Narrowing(sorted) && pos <= |sorted| && (pos > 0 ==> StartAfter(sorted[pos - 1], s))
    requires forall i :: pos <= i < |sorted| ==> StartAfter(s, sorted[i])
    ensures Narrowing(sorted[..pos] + [s] + sorted[pos..])
    ensures forall x :: x in sorted[..pos] + [s] + sorted[pos..] <==> x in sorted || x == s
  {
    Order();
    var r := sorted[..pos] + [s] + sorted[pos..];
    assert forall i :: 0 <= i < pos ==> r[i] == sorted[i];
    assert r[pos] == s;
    assert forall i :: pos < i < |r| ==> r[i] == sorted[i - 1];
    forall i | 0 <= i < pos ensures StartAfter(r[i], s) {
      assert i == pos - 1 || StartAfter(sorted[i], sorted[pos - 1]);
    }
    MembersPlaced(sorted, s, pos);
  }

  lemma MembersPlaced<V>(sorted: seq<Shard<V>>, s: Shard<V>, pos: nat)
    requires pos <= |sorted|
    ensures forall x :: x in sorted[..pos] + [s] + sorted[pos..] <==> x in sorted || x == s
  {
    assert sorted == sorted[..pos] + sorted[pos..];
  }

  // ----- One shard -----

  /** Whether a shard cannot hold a row of the key range. */
  predicate SkipShard<V>(s: Shard<V>, lo: Option<Key>, hi: Option<Key>) {
    || (lo.Some? && |s.end| > 0 && !Less(lo.value, s.end))
    || (hi.Some? && |s.start| > 0 && !Less(s.start, hi.value))
  }

  /** The rows a shard returns for a condition on the key. */
  method ScanShard<V(!new)>(s: Shard<V>, where: Key -> bool) returns (rs: seq<(Key, V)>)
    ensures ListsRows(rs, Chosen(s.rows, where))
  {
    hide Scanned;
    hide Chosen;
    var keys := ScanKeys(s.rows);
    KeysDistinct(keys);
    rs := [];
    ScanStart(s, where, keys);
    for i := 0 to |keys|
      invariant Scanned(rs, s, where, keys, i)
    {
      assert keys[i] in keys;
      ScanStep(rs, s, where, keys, i);
      if where(keys[i]) {
        rs := rs + [(keys[i], s.rows[keys[i]])];
      }
    }
    ScanEnd(rs, s, where, keys);
  }

  lemma ScanStart<V>(s: Shard<V>, where: Key -> bool, keys: seq<Key>)
    ensures Scanned([], s, where, keys, 0)
  {
  }

  lemma ScanEnd<V(!new)>(rs: seq<(Key, V)>, s: Shard<V>, where: Key -> bool, keys: seq<Key>)
    requires Scanned(rs, s, where, keys, |keys|) && forall k :: k in keys <==> k in s.rows
    ensures ListsRows(rs, Chosen(s.rows, where))
  {
    forall k | k in Chosen(s.rows, where) ensures HasKey(rs, k) {
      var x :| 0 <= x < |keys| && keys[x] == k;
    }
  }

  /** The rows of the first `n` keys. */
  ghost predicate Scanned<V>(rs: seq<(Key, V)>, s: Shard<V>, where: Key -> bool, keys: seq<Key>, n: int) {
    && 0 <= n <= |keys|
    && (forall i, j :: 0 <= i < j < |rs| ==> rs[i].0 != rs[j].0)
    && (forall i :: 0 <= i < |rs| ==> rs[i].0 in keys[..n] && where(rs[i].0) && rs[i].0 in s.rows && s.rows[rs[i].0] == rs[i].1)
    && forall x :: 0 <= x < n && where(keys[x]) ==> HasKey(rs, keys[x])
  }

  lemma ScanStep<V>(rs: seq<(Key, V)>, s: Shard<V>, where: Key -> bool, keys: seq<Key>, n: int)
    requires Scanned(rs, s, where, keys, n) && n < |keys| && keys[n] in s.rows
    requires forall i, j :: 0 <= i < j < |keys| ==> keys[i] != keys[j]
    ensures Scanned(if where(keys[n]) then rs + [(keys[n], s.rows[keys[n]])] else rs, s, where, keys, n + 1)
  {
    if where(keys[n]) {
      ScanTake(rs, s, where, keys, n);
    } else {
      OneKeyMore(keys, n);
    }
  }

  lemma OneKeyMore(keys: seq<Key>, n: nat)
    requires n < |keys|
    ensures forall k :: k in keys[..n + 1] <==> k in keys[..n] || k == keys[n]
  {
    assert keys[..n + 1] == keys[..n] + [keys[n]];
  }

  lemma ScanTake<V>(rs: seq<(Key, V)>, s: Shard<V>, where: Key -> bool, keys: seq<Key>, n: int)
    requires Scanned(rs, s, where, keys, n) && n < |keys| && keys[n] in s.rows && where(keys[n])
    requires forall i, j :: 0 <= i < j < |keys| ==> keys[i] != keys[j]
    ensures Scanned(rs + [(keys[n], s.rows[keys[n]])], s, where, keys, n + 1)
  {
    hide HasKey;
    var r := (keys[n], s.rows[keys[n]]);
    OneKeyMore(keys, n);
    assert keys[n] !in keys[..n];
    SeenOneMore(rs, r);
    var rs' := rs + [r];
    forall i | 0 <= i < |rs'| ensures rs'[i].0 in keys[..n + 1] && where(rs'[i].0) && rs'[i].0 in s.rows && s.rows[rs'[i].0] == rs'[i].1 {
      assert i < |rs| ==> rs'[i] == rs[i];
    }
    forall i, j | 0 <= i < j < |rs'| ensures rs'[i].0 != rs'[j].0 {
      assert j < |rs| ==> rs'[i] == rs[i] && rs'[j] == rs[j];
      assert j == |rs| ==> rs'[i] == rs[i] && rs[i].0 in keys[..n];
    }
  }

  lemma StillHas<V>(rs: seq<(Key, V)>, rs': seq<(Key, V)>, k: Key)
    requires HasKey(rs, k) && rs <= rs'
    ensures HasKey(rs', k)
  {
    var i :| 0 <= i < |rs| && rs[i].0 == k;
    assert rs'[i].0 == k;
  }

  lemma KeysDistinct(keys: seq<Key>)
    requires Increasing(keys)
    ensures forall i, j :: 0 <= i < j < |keys| ==> keys[i] != keys[j]
  {
    Order();
  }

  // ----- All shards -----

  /** `all` concatenates the rows of the first `n` shards: for each key the first row is the right one. */
  ghost predicate Gathered<V>(all: seq<(Key, V)>, sorted: seq<Shard<V>>, n: nat, t: map<Key, V>, where: Key -> bool) {
    && n <= |sorted|
    && (forall p :: 0 <= p < |all| ==> all[p].0 in t && where(all[p].0))
    && (forall p :: 0 <= p < |all| && FirstAt(all, p) ==> all[p].1 == t[all[p].0])
    && (forall i, k :: 0 <= i < n && k in sorted[i].rows && where(k) ==> HasKey(all, k))
  }

  ghost predicate FirstAt<V>(all: seq<(Key, V)>, p: int) {
    0 <= p < |all| && forall q :: 0 <= q < p ==> all[q].0 != all[p].0
  }

  lemma NarrowingAt<V>(sorted: seq<Shard<V>>, n: nat, j: nat)
    requires Narrowing(sorted)
    ensures n < j < |sorted| ==> StartAfter(sorted[n], sorted[j])
  {
  }

  /** The narrowest holder of a key has the table's row. */
  lemma NarrowestHolder<V>(shards: seq<Shard<V>>, sorted: seq<Shard<V>>, n: nat, t: map<Key, V>, k: Key)
    requires Shows(shards, t) && Narrowing(sorted) && (forall s :: s in sorted <==> s in shards)
    requires n < |sorted| && k in sorted[n].rows && forall i :: 0 <= i < n ==> k !in sorted[i].rows
    ensures k in t && t[k] == sorted[n].rows[k]
  {
    assert ShowsAt(shards, t, k);
    assert sorted[n] in sorted;
    var a :| 0 <= a < |shards| && shards[a] == sorted[n];
    assert k in t;
    var i :| Newest(shards, k, i) && shards[i].rows[k] == t[k];
    assert shards[i] in shards;
    var j :| 0 <= j < |sorted| && sorted[j] == shards[i];
    Order();
    assert a == i || StartAfter(shards[i], shards[a]);
    NarrowingAt(sorted, n, j);
  }

  lemma GatherStep<V(!new)>(shards: seq<Shard<V>>, all: seq<(Key, V)>, sorted: seq<Shard<V>>, n: nat, t: map<Key, V>, where: Key -> bool, rs: seq<(Key, V)>)
    requires Shows(shards, t) && Narrowing(sorted) && (forall s :: s in sorted <==> s in shards)
    requires Gathered(all, sorted, n, t, where) && n < |sorted|
    requires ListsRows(rs, Chosen(sorted[n].rows, where))
    ensures Gathered(all + rs, sorted, n + 1, t, where)
  {
    var all' := all + rs;
    assert sorted[n] in sorted;
    var a :| 0 <= a < |shards| && shards[a] == sorted[n];
    forall p | 0 <= p < |all'|
      ensures all'[p].0 in t && where(all'[p].0)
      ensures FirstAt(all', p) ==> all'[p].1 == t[all'[p].0]
    {
      if p < |all| {
        FirstBefore(all, rs, p);
      } else {
        var k := rs[p - |all|].0;
        assert all'[p] == rs[p - |all|] && k in sorted[n].rows && where(k);
        assert ShowsAt(shards, t, k);
        if FirstAt(all', p) {
          forall i | 0 <= i < n ensures k !in sorted[i].rows {
            FirstIsNew(all, rs, p, k);
          }
          NarrowestHolder(shards, sorted, n, t, k);
        }
      }
    }
    forall i, k | 0 <= i < n + 1 && k in sorted[i].rows && where(k) ensures HasKey(all', k) {
      if i < n {
        StillHas(all, all', k);
      } else {
        assert k in Chosen(sorted[n].rows, where);
        var j :| 0 <= j < |rs| && rs[j].0 == k;
        assert all'[|all| + j].0 == k;
      }
    }
  }

  lemma FirstBefore<V>(all: seq<(Key, V)>, rs: seq<(Key, V)>, p: int)
    requires 0 <= p < |all|
    ensures (all + rs)[p] == all[p] && (FirstAt(all + rs, p) ==> FirstAt(all, p))
  {
    if FirstAt(all + rs, p) {
      assert forall q :: 0 <= q < p ==> (all + rs)[q] == all[q];
    }
  }

  lemma FirstIsNew<V>(all: seq<(Key, V)>, rs: seq<(Key, V)>, p: int, k: Key)
    requires |all| <= p < |all| + |rs| && FirstAt(all + rs, p) && (all + rs)[p].0 == k
    ensures !HasKey(all, k)
  {
    forall q | 0 <= q < |all| ensures all[q].0 != k {
      assert (all + rs)[q] == all[q];
    }
  }

  /** A skipped shard has no row of the range. */
  lemma SkippedEmpty<V>(s: Shard<V>, where: Key -> bool, lo: Option<Key>, hi: Option<Key>)
    requires SkipShard(s, lo, hi) && (forall k :: where(k) ==> InWindow(k, lo, hi))
    requires s.end == [] && forall k :: k in s.rows ==> !Less(k, s.start)
    ensures Chosen(s.rows, where) == map[]
  {
    Order();
    forall k | k in s.rows ensures !where(k) {
      assert where(k) ==> InWindow(k, lo, hi);
    }
  }

  /** The rows of all shards, narrowest first, without those that cannot match. */
  method GatherRows<V(!new)>(shards: seq<Shard<V>>, where: Key -> bool, lo: Option<Key>, hi: Option<Key>, ghost t: map<Key, V>)
    returns (all: seq<(Key, V)>, ghost sorted: seq<Shard<V>>)
    requires Laid(shards) && Shows(shards, t) && forall k :: where(k) ==> InWindow(k, lo, hi)
    ensures Gathered(all, sorted, |sorted|, t, where)
    ensures forall s :: s in sorted <==> s in shards
  {
    var order := SortByStart(shards);
    sorted := order;
    all := [];
    for n := 0 to |order|
      invariant Gathered(all, order, n, t, where)
    {
      var rs := [];
      assert order[n] in order;
      if SkipShard(order[n], lo, hi) {
        SkippedEmpty(order[n], where, lo, hi);
      } else {
        rs := ScanShard(order[n], where);
      }
      GatherStep(shards, all, order, n, t, where, rs);
      all := all + rs;
    }
  }

  /** `execSelect` before the final statement: first row of each key. */
  method Select<V(!new)>(shards: seq<Shard<V>>, where: Key -> bool, lo: Option<Key>, hi: Option<Key>, ghost t: map<Key, V>)
    returns (rows: seq<(Key, V)>)
    requires Laid(shards) && Shows(shards, t) && forall k :: where(k) ==> InWindow(k, lo, hi)
    ensures ListsRows(rows, Chosen(t, where))
  {
    var all, sorted := GatherRows(shards, where, lo, hi, t);
    var seen: set<Key> := {};
    rows := [];
    for p := 0 to |all|
      invariant forall k :: k in seen <==> HasKey(rows, k)
      invariant forall k :: k in seen <==> exists q :: 0 <= q < p && all[q].0 == k
      invariant forall i, j :: 0 <= i < j < |rows| ==> rows[i].0 != rows[j].0
      invariant forall i :: 0 <= i < |rows| ==> rows[i].0 in Chosen(t, where) && t[rows[i].0] == rows[i].1
    {
      if all[p].0 !in seen {
        assert FirstAt(all, p);
        SeenOneMore(rows, all[p]);
        seen := seen + {all[p].0};
        rows := rows + [all[p]];
      }
    }
    forall k | k in Chosen(t, where) ensures HasKey(rows, k) {
      assert ShowsAt(shards, t, k);
      var i :| Newest(shards, k, i) && shards[i].rows[k] == t[k];
      assert shards[i] in sorted;
      assert HasKey(all, k);
    }
  }

  lemma SeenOneMore<V>(rows: seq<(Key, V)>, r: (Key, V))
    ensures forall k :: HasKey(rows + [r], k) <==> HasKey(rows, k) || k == r.0
  {
    forall k ensures HasKey(rows + [r], k) <==> HasKey(rows, k) || k == r.0 {
      if HasKey(rows, k) {
        StillHas(rows, rows + [r], k);
      }
      assert (rows + [r])[|rows|] == r;
    }
  }

  // ----- Conditions on other columns -----

  /** What a scan finds first for `k` when shards only return rows that satisfy `cond`. */
  ghost predicate FoundFirst<V(!new)>(shards: seq<Shard<V>>, cond: (Key, V) -> bool, k: Key, i: int) {
    && 0 <= i < |shards| && k in shards[i].rows && cond(k, shards[i].rows[k])
    && forall j :: 0 <= j < |shards| && k in shards[j].rows && cond(k, shards[j].rows[k]) ==> j == i || StartAfter(shards[i], shards[j])
  }

  /**
   A condition that reads the row can be satisfied by a row a split left behind: what
   is found for a key is right if and only if its current row satisfies the condition
   or no left-behind row does.
   */
  lemma RowConditions<V(!new)>(shards: seq<Shard<V>>, t: map<Key, V>, cond: (Key, V) -> bool, k: Key)
    requires Laid(shards) && Shows(shards, t) && k in t
    ensures (forall i :: FoundFirst(shards, cond, k, i) ==> cond(k, t[k]) && shards[i].rows[k] == t[k]) <==>
            cond(k, t[k]) || forall i :: 0 <= i < |shards| && k in shards[i].rows ==> !cond(k, shards[i].rows[k])
  {
    Order();
    assert ShowsAt(shards, t, k);
    var n :| Newest(shards, k, n) && shards[n].rows[k] == t[k];
    if !cond(k, t[k]) {
      var s := set i: nat | i < |shards| && k in shards[i].rows && cond(k, shards[i].rows[k]);
      if s != {} {
        var m := NarrowestOf(shards, s);
        assert FoundFirst(shards, cond, k, m);
      } else {
        assert forall i: nat :: i < |shards| && k in shards[i].rows && cond(k, shards[i].rows[k]) ==> i in s;
      }
    }
  }
}
