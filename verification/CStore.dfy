/**
 The column store over the versioned key-value store: rows split into a marker and one key
 per cell, an overlay of uncommitted writes, and a live-row counter committed with the rows.
 */
module CStore {
  import opened Bytes
  import opened Endian
  import opened Wrappers
  import opened Versions
  import opened KvModel
  import opened KvStore

  // ----- The layout of the key space -----

  const ROW_TAG: byte := 0x72
  const COL_TAG: byte := 0x63
  const COUNT_TAG: byte := 0x6E

  function RowPrefix(t: Key): Key {
    [ROW_TAG, 0] + t + [0]
  }

  function RowKey(t: Key, pk: Key): Key {
    RowPrefix(t) + pk
  }

  function ColAllPrefix(t: Key): Key {
    [COL_TAG, 0] + t + [0]
  }

  function ColKey(t: Key, i: nat, pk: Key): Key {
    ColAllPrefix(t) + BigEndian(i, 4) + [0] + pk
  }

  function CountKey(t: Key): Key {
    [COUNT_TAG, 0] + t
  }

  /** Table names contain no zero byte. */
  predicate TableName(t: Key) {
    0 !in t
  }

  predicate Prefixed(p: Key, k: Key) {
    |p| <= |k| && k[..|p|] == p
  }

  /** A name and the zero byte behind it are found again in whatever follows. */
  lemma {:induction false} NameApart(t: Key, u: Key, x: Key, y: Key)
    requires TableName(t) && TableName(u) && t + [0] + x == u + [0] + y
    ensures t == u && x == y
  {
    var a, b := t + [0] + x, u + [0] + y;
    FirstByte(t, x);
    FirstByte(u, y);
    if t == [] && u == [] {
      assert a[1..] == x && b[1..] == y;
    } else if t != [] && u != [] {
      assert a[1..] == t[1..] + [0] + x && b[1..] == u[1..] + [0] + y;
      NameApart(t[1..], u[1..], x, y);
      assert t == [t[0]] + t[1..] && u == [u[0]] + u[1..];
    }
  }

  lemma FirstByte(t: Key, x: Key)
    requires TableName(t)
    ensures t == [] <==> (t + [0] + x)[0] == 0
    ensures t != [] ==> (t + [0] + x)[0] == t[0]
  {
    assert t != [] ==> t[0] in t;
  }

  lemma RowKeyApart(t: Key, u: Key, p: Key, q: Key)
    requires TableName(t) && TableName(u) && RowKey(t, p) == RowKey(u, q)
    ensures t == u && p == q
  {
    assert RowKey(t, p)[2..] == t + [0] + p && RowKey(u, q)[2..] == u + [0] + q;
    NameApart(t, u, p, q);
  }

  lemma ColKeyApart(t: Key, i: nat, p: Key, u: Key, j: nat, q: Key)
    requires TableName(t) && TableName(u) && i < Pow256(4) && j < Pow256(4) && ColKey(t, i, p) == ColKey(u, j, q)
    ensures t == u && i == j && p == q
  {
    var x, y := BigEndian(i, 4) + [0] + p, BigEndian(j, 4) + [0] + q;
    assert ColKey(t, i, p)[2..] == t + [0] + x && ColKey(u, j, q)[2..] == u + [0] + y;
    NameApart(t, u, x, y);
    assert x[..4] == BigEndian(i, 4) && y[..4] == BigEndian(j, 4);
    assert x[5..] == p && y[5..] == q;
    DecodeBigEndian(i, 4);
    DecodeBigEndian(j, 4);
  }

  lemma Tags(t: Key, u: Key, v: Key, p: Key, i: nat, q: Key)
    ensures RowKey(t, p) != [] && ColKey(u, i, q) != [] && CountKey(v) != []
    ensures RowKey(t, p)[0] == ROW_TAG && ColKey(u, i, q)[0] == COL_TAG && CountKey(v)[0] == COUNT_TAG
  {
  }

  // ----- What a key space holds -----

  type Contents = map<Key, Key>

  /** `len(get(k)) == 0` also holds of a key that is not there. */
  function At(m: Contents, k: Key): Key {
    if k in m then m[k] else []
  }

  function Live(m: Contents, t: Key, pk: Key): bool {
    At(m, RowKey(t, pk)) != []
  }

  /** The row of a key: the cells its marker counts, none if one is missing. */
  ghost function Row(m: Contents, t: Key, pk: Key): Option<seq<Cell>> {
    if !Live(m, t, pk) then None
    else
      var n := Decode(At(m, RowKey(t, pk)));
      if exists i :: 0 <= i < n && At(m, ColKey(t, i, pk)) == [] then None
      else Some(seq(n, i requires 0 <= i < n => At(m, ColKey(t, i, pk))))
  }

  /** The live keys of a table. */
  ghost function LiveKeys(m: Contents, t: Key): set<Key> {
    set k | k in m && Prefixed(RowPrefix(t), k) && m[k] != [] :: k[|RowPrefix(t)|..]
  }

  lemma LiveKey(m: Contents, t: Key, pk: Key)
    ensures pk in LiveKeys(m, t) <==> Live(m, t, pk)
  {
    var k := RowKey(t, pk);
    assert k[..|RowPrefix(t)|] == RowPrefix(t) && k[|RowPrefix(t)|..] == pk;
    if pk in LiveKeys(m, t) {
      var j :| j in m && Prefixed(RowPrefix(t), j) && m[j] != [] && j[|RowPrefix(t)|..] == pk;
      assert j == j[..|RowPrefix(t)|] + j[|RowPrefix(t)|..];
    }
  }

  /** The bounds of a prefix that ends in a zero byte: itself, and the same with a one. */
  predicate InBounds(k: Key, lower: Key, upper: Key) {
    !Less(k, lower) && Less(k, upper)
  }

  lemma PrefixedFirst(p: Key, k: Key)
    ensures Prefixed(p, k) && p != [] ==> k != [] && k[0] == p[0]
  {
    if Prefixed(p, k) && p != [] {
      assert k[..|p|][0] == k[0];
    }
  }

  lemma ZeroBounds(k: Key)
    ensures InBounds(k, [0], [1]) <==> Prefixed([0], k)
  {
    if k != [] {
      assert k[..1] == [k[0]];
      assert !Less(k[1..], [0][1..]) && !Less(k[1..], [1][1..]);
      assert [0][0] == 0 && [1][0] == 1;
    }
  }

  lemma {:induction false} BoundsArePrefix(q: Key, k: Key)
    ensures InBounds(k, q + [0], q + [1]) <==> Prefixed(q + [0], k)
  {
    PrefixedFirst(q + [0], k);
    if q == [] {
      assert q + [0] == [0] && q + [1] == [1];
      ZeroBounds(k);
    } else {
      assert (q + [0])[1..] == q[1..] + [0] && (q + [1])[1..] == q[1..] + [1];
      assert (q + [0])[0] == q[0] && (q + [1])[0] == q[0];
      if k != [] && k[0] == q[0] {
        BoundsArePrefix(q[1..], k[1..]);
        PrefixedTail(q + [0], k);
      }
    }
  }

  lemma PrefixedTail(p: Key, k: Key)
    requires p != [] && k != [] && p[0] == k[0]
    ensures Prefixed(p, k) <==> Prefixed(p[1..], k[1..])
  {
    if |p| <= |k| {
      assert k[..|p|] == [k[0]] + k[1..][..|p| - 1];
      assert p == [p[0]] + p[1..];
    }
  }

  /** Operations in order. */
  function Applied(m: Contents, ops: seq<Op>): Contents {
    if ops == [] then m
    else
      var op := ops[|ops| - 1];
      var m' := Applied(m, ops[..|ops| - 1]);
      if op.delete_ then m' - {op.key} else m'[op.key := op.value]
  }

  lemma AppliedOne(m: Contents, ops: seq<Op>, op: Op)
    ensures Applied(m, ops + [op]) == if op.delete_ then Applied(m, ops) - {op.key} else Applied(m, ops)[op.key := op.value]
  {
    assert (ops + [op])[..|ops|] == ops;
  }

  /** Applying a batch to the versioned store is applying it to what the newest revision reads. */
  lemma {:induction false} AppliedInStore(m: Contents, ops: seq<Op>, k: Key)
    ensures LastOp(ops, k).None? ==> (k in Applied(m, ops) <==> k in m) && At(Applied(m, ops), k) == At(m, k)
    ensures LastOp(ops, k).Some? ==> var op := LastOp(ops, k).value;
            (k in Applied(m, ops) <==> !op.delete_) && (!op.delete_ ==> Applied(m, ops)[k] == op.value)
    decreases |ops|
  {
    if ops != [] {
      AppliedInStore(m, ops[..|ops| - 1], k);
    }
  }

  lemma StoreReads(h: History, rev: int, ops: seq<Op>, m: Contents, k: Key)
    requires forall v :: v in h ==> v.rev < rev
    requires Reads(h, rev, m, k)
    ensures Reads(Written(h, rev, ops), rev, Applied(m, ops), k)
  {
    AppliedInStore(m, ops, k);
    ReadsAfterApply(h, rev, ops, k, rev);
    if LastOp(ops, k).Some? {
      FlaggedReads(LastOp(ops, k).value);
    }
  }

  /** At a revision the versioned store reads a key as a map has it. */
  ghost predicate Reads(h: History, rev: int, m: Contents, k: Key) {
    Value(h, k, rev) == if k in m then Some(m[k]) else None
  }
}
