/**
 The MVCC byte store as a sorted record sequence, and what it means: a history of
 versions per key. Reads at a revision are defined on the history alone.
 */
module KvModel {
  import opened Bytes
  import opened Endian
  import opened Wrappers
  import opened KvKeys

  type Bytestring = seq<byte>

  /** One record of the ordered store: physical key and flagged value. */
  datatype Rec = Rec(dk: Key, val: Bytestring)

  function KeyOf(r: Rec): Key {
    ExtractKey(r.dk)
  }

  function Rev(r: Rec): int {
    RevOf(r.dk)
  }

  ghost predicate RecOK(r: Rec) {
    0 < Rev(r) < TWO_64 && r.dk == DataKey(KeyOf(r), Rev(r))
  }

  /** The store invariant: physical keys strictly increasing, all well formed, no revision past `last`. */
  ghost predicate RecsOK(recs: seq<Rec>, last: nat) {
    && last < TWO_64
    && (forall i :: 0 <= i < |recs| ==> RecOK(recs[i]) && Rev(recs[i]) <= last)
    && forall i, j :: 0 <= i < j < |recs| ==> Less(recs[i].dk, recs[j].dk)
  }

  // ----- Histories -----

  datatype Ver = Ver(key: Key, rev: int)

  type History = map<Ver, Bytestring>

  ghost function Hist(recs: seq<Rec>): History {
    if recs == [] then map[]
    else
      var r := recs[|recs| - 1];
      Hist(recs[..|recs| - 1])[Ver(KeyOf(r), Rev(r)) := r.val]
  }

  /** The revisions up to `R` at which `k` was written. */
  ghost function RevsUpTo(h: History, k: Key, R: int): set<int> {
    set v | v in h.Keys && v.key == k && v.rev <= R :: v.rev
  }

  lemma EmptyHasNone(s: set<int>)
    ensures s == {} || exists x :: x in s
  {
    if forall x :: x !in s {
      assert s == {};
    }
  }

  lemma {:induction false} HasLatest(s: set<int>) returns (m: int)
    requires s != {}
    ensures m in s && forall x :: x in s ==> x <= m
  {
    EmptyHasNone(s);
    var x :| x in s;
    if s == {x} {
      m := x;
    } else {
      var y := HasLatest(s - {x});
      m := if x < y then y else x;
      forall z | z in s ensures z <= m {
        assert z == x || z in s - {x};
      }
    }
  }

  ghost function Latest(s: set<int>): (m: int)
    requires s != {}
    ensures m in s && forall x :: x in s ==> x <= m
  {
    assert exists m :: m in s && forall x :: x in s ==> x <= m by {
      var m := HasLatest(s);
    }
    var m :| m in s && forall x :: x in s ==> x <= m;
    m
  }

  /** The raw value of `k` as of `R`: the newest version not newer than `R`. */
  ghost function AsOf(h: History, k: Key, R: int): Option<Bytestring> {
    var revs := RevsUpTo(h, k, R);
    if revs == {} then None else Some(h[Ver(k, Latest(revs))])
  }

  /** A stored value without its flag; `None` for a tombstone. */
  function Payload(val: Bytestring): Option<Bytestring> {
    if |val| == 0 || val[0] == 0 then None else Some(val[1..])
  }

  /** What a point read returns. */
  ghost function Value(h: History, k: Key, R: int): Option<Bytestring> {
    var v := AsOf(h, k, R);
    if v.None? then None else Payload(v.value)
  }

  /** One callback of a range read; `payload` is `None` for a deleted key. */
  datatype Hit = Hit(key: Key, payload: Option<Bytestring>)

  ghost function KeysAsOf(h: History, R: int, start: Option<Key>, end: Option<Key>): set<Key> {
    set v | v in h.Keys && v.rev <= R && InWindow(v.key, start, end) :: v.key
  }

  ghost function HitsAt(h: History, R: int, ks: seq<Key>): (r: seq<Hit>)
    ensures |r| == |ks| && forall i :: 0 <= i < |ks| ==> r[i] == Hit(ks[i], Value(h, ks[i], R))
  {
    seq(|ks|, i requires 0 <= i < |ks| => Hit(ks[i], Value(h, ks[i], R)))
  }

  /** A range read: every key of the range with a version not newer than `R`, in order, once. */
  ghost function Ranged(h: History, R: int, start: Option<Key>, end: Option<Key>): seq<Hit> {
    HitsAt(h, R, Ascending(KeysAsOf(h, R, start, end)))
  }

  // ----- Records and history -----

  lemma {:induction false} HistHas(recs: seq<Rec>, i: nat)
    requires i < |recs|
    requires forall a, b :: 0 <= a < b < |recs| ==> KeyOf(recs[a]) != KeyOf(recs[b]) || Rev(recs[a]) != Rev(recs[b])
    ensures var v := Ver(KeyOf(recs[i]), Rev(recs[i]));
            v in Hist(recs) && Hist(recs)[v] == recs[i].val
  {
    var n := |recs| - 1;
    if i < n {
      HistHas(recs[..n], i);
    }
  }

  lemma {:induction false} HistFrom(recs: seq<Rec>, v: Ver) returns (i: nat)
    requires v in Hist(recs)
    ensures i < |recs| && v == Ver(KeyOf(recs[i]), Rev(recs[i]))
  {
    var n := |recs| - 1;
    if v == Ver(KeyOf(recs[n]), Rev(recs[n])) {
      i := n;
    } else {
      i := HistFrom(recs[..n], v);
    }
  }

  lemma Distinct(recs: seq<Rec>, last: nat)
    requires RecsOK(recs, last)
    ensures forall a, b :: 0 <= a < b < |recs| ==> KeyOf(recs[a]) != KeyOf(recs[b]) || Rev(recs[a]) != Rev(recs[b])
  {
    forall a, b | 0 <= a < b < |recs| ensures KeyOf(recs[a]) != KeyOf(recs[b]) || Rev(recs[a]) != Rev(recs[b]) {
      LessIrreflexive(recs[a].dk);
    }
  }

  /** InWindow a key, records go from the newest version to the oldest. */
  lemma NewestFirst(recs: seq<Rec>, last: nat, i: nat, j: nat)
    requires RecsOK(recs, last) && i < j < |recs| && KeyOf(recs[i]) == KeyOf(recs[j])
    ensures Rev(recs[i]) > Rev(recs[j])
  {
    SameKeyOrder(KeyOf(recs[i]), Rev(recs[i]), Rev(recs[j]));
  }

  /** The first record of `k` not newer than `R` holds what `k` was as of `R`. */
  lemma FirstIsAsOf(recs: seq<Rec>, last: nat, k: Key, R: int, i: nat)
    requires RecsOK(recs, last) && i < |recs| && KeyOf(recs[i]) == k && Rev(recs[i]) <= R
    requires forall j :: 0 <= j < i && KeyOf(recs[j]) == k ==> Rev(recs[j]) > R
    ensures AsOf(Hist(recs), k, R) == Some(recs[i].val)
  {
    var h := Hist(recs);
    Distinct(recs, last);
    HistHas(recs, i);
    var revs := RevsUpTo(h, k, R);
    assert Ver(k, Rev(recs[i])) in h.Keys;
    assert Rev(recs[i]) in revs;
    forall x | x in revs ensures x <= Rev(recs[i]) {
      var j := HistFrom(recs, Ver(k, x));
      if j > i {
        NewestFirst(recs, last, i, j);
      }
    }
    assert Latest(revs) == Rev(recs[i]);
  }

  lemma NoneAsOf(recs: seq<Rec>, last: nat, k: Key, R: int)
    requires RecsOK(recs, last)
    requires forall j :: 0 <= j < |recs| && KeyOf(recs[j]) == k ==> Rev(recs[j]) > R
    ensures AsOf(Hist(recs), k, R) == None
  {
    if RevsUpTo(Hist(recs), k, R) != {} {
      var x :| x in RevsUpTo(Hist(recs), k, R);
      var j := HistFrom(recs, Ver(k, x));
    }
  }

  lemma KeyAsOf(recs: seq<Rec>, last: nat, k: Key, R: int, start: Option<Key>, end: Option<Key>)
    requires RecsOK(recs, last)
    ensures k in KeysAsOf(Hist(recs), R, start, end) <==>
            InWindow(k, start, end) && exists i :: 0 <= i < |recs| && KeyOf(recs[i]) == k && Rev(recs[i]) <= R
  {
    var h := Hist(recs);
    Distinct(recs, last);
    if k in KeysAsOf(h, R, start, end) {
      var v :| v in h.Keys && v.rev <= R && InWindow(v.key, start, end) && v.key == k;
      var i := HistFrom(recs, v);
    }
    if i :| 0 <= i < |recs| && KeyOf(recs[i]) == k && Rev(recs[i]) <= R {
      HistHas(recs, i);
      assert Ver(k, Rev(recs[i])) in h.Keys;
    }
  }

  // ----- Groups -----

  /** No stored key followed by a zero byte is a prefix of another stored key. */
  ghost predicate Separate(recs: seq<Rec>) {
    forall i, j :: 0 <= i < |recs| && 0 <= j < |recs| ==> !Shadows(KeyOf(recs[i]), KeyOf(recs[j]))
  }

  /** ... nor of a bound. */
  ghost predicate SeparateFrom(recs: seq<Rec>, b: Option<Key>) {
    b.Some? ==> forall i :: 0 <= i < |recs| ==> !Shadows(KeyOf(recs[i]), b.value)
  }

  /** Then records are in key order, newest version first. */
  ghost predicate Grouped(recs: seq<Rec>) {
    forall i, j :: 0 <= i < j < |recs| ==>
      Less(KeyOf(recs[i]), KeyOf(recs[j])) || (KeyOf(recs[i]) == KeyOf(recs[j]) && Rev(recs[i]) > Rev(recs[j]))
  }

  lemma DataBefore(a: Rec, b: Rec)
    requires RecOK(a) && RecOK(b) && Less(KeyOf(a), KeyOf(b)) && !Shadows(KeyOf(a), KeyOf(b))
    ensures Less(a.dk, b.dk)
  {
    GroupBefore(KeyOf(a), KeyOf(b), RevSuffix(Rev(a)), [0] + RevSuffix(Rev(b)));
  }

  lemma AreGrouped(recs: seq<Rec>, last: nat)
    requires RecsOK(recs, last) && Separate(recs)
    ensures Grouped(recs)
  {
    Order();
    forall i, j | 0 <= i < j < |recs|
      ensures Less(KeyOf(recs[i]), KeyOf(recs[j])) || (KeyOf(recs[i]) == KeyOf(recs[j]) && Rev(recs[i]) > Rev(recs[j]))
    {
      if KeyOf(recs[i]) == KeyOf(recs[j]) {
        NewestFirst(recs, last, i, j);
      } else if Less(KeyOf(recs[j]), KeyOf(recs[i])) {
        DataBefore(recs[j], recs[i]);
      }
    }
  }

  /** Where `SeekGE` of the version key of a stored key lands, seen from any record. */
  lemma SeekVersion(r: Rec, raw: Key, R: nat)
    requires RecOK(r) && R < TWO_64 && !Shadows(KeyOf(r), raw) && !Shadows(raw, KeyOf(r))
    ensures Less(r.dk, DataKey(raw, R)) <==> Less(KeyOf(r), raw) || (KeyOf(r) == raw && Rev(r) > R)
  {
    Order();
    var k := KeyOf(r);
    if k == raw {
      SameKeyOrder(k, Rev(r), R);
    } else if Less(k, raw) {
      GroupBefore(k, raw, RevSuffix(Rev(r)), [0] + RevSuffix(R));
    } else {
      GroupBefore(raw, k, RevSuffix(R), [0] + RevSuffix(Rev(r)));
    }
  }

  lemma SeekUpper(r: Rec, raw: Key)
    requires RecOK(r) && !Shadows(KeyOf(r), raw) && !Shadows(raw, KeyOf(r))
    ensures Less(r.dk, DataUpper(raw)) <==> !Less(raw, KeyOf(r))
  {
    Order();
    var k := KeyOf(r);
    if k == raw {
      OwnBelowUpper(k, RevSuffix(Rev(r)));
    } else if Less(k, raw) {
      GroupBefore(k, raw, RevSuffix(Rev(r)), [1]);
    } else {
      AfterUpper(k, raw, RevSuffix(Rev(r)));
    }
  }

  lemma SeekLower(r: Rec, start: Key)
    requires RecOK(r) && !Shadows(KeyOf(r), start)
    ensures Less(r.dk, DataLower(start)) <==> Less(KeyOf(r), start)
  {
    var k := KeyOf(r);
    if Less(k, start) {
      GroupBefore(k, start, RevSuffix(Rev(r)), [0]);
    } else {
      AtLeastLower(k, start, RevSuffix(Rev(r)));
    }
  }

  /** The end bound lets through every smaller key, and possibly some that are not smaller. */
  lemma BelowEnd(r: Rec, end: Key)
    requires RecOK(r) && !Shadows(KeyOf(r), end) && Less(KeyOf(r), end)
    ensures Less(r.dk, DataUpper(end))
  {
    GroupBefore(KeyOf(r), end, RevSuffix(Rev(r)), [1]);
  }
}
