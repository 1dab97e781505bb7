/**
 The MVCC store as an object: applying operations at a revision, compare-and-swap,
 and dropping superseded versions.
 */
module KvStore {
  import opened Bytes
  import opened Endian
  import opened Wrappers
  import opened KvKeys
  import opened KvModel
  import opened KvReads

  datatype Op = Op(key: Key, value: Bytestring, delete_: bool)

  function Flagged(op: Op): Bytestring {
    if op.delete_ then [0] else [1] + op.value
  }

  /** What an operation leaves to be read: nothing or its value. */
  lemma FlaggedReads(op: Op)
    ensures Payload(Flagged(op)) == if op.delete_ then None else Some(op.value)
  {
    if !op.delete_ {
      assert Flagged(op)[1..] == op.value;
    }
  }

  ghost function Written(h: History, rev: int, ops: seq<Op>): History
    decreases ops
  {
    if ops == [] then h
    else Written(h, rev, ops[..|ops| - 1])[Ver(ops[|ops| - 1].key, rev) := Flagged(ops[|ops| - 1])]
  }

  /** The last operation on `k` in a batch. */
  ghost function LastOp(ops: seq<Op>, k: Key): Option<Op> {
    if ops == [] then None
    else if ops[|ops| - 1].key == k then Some(ops[|ops| - 1])
    else LastOp(ops[..|ops| - 1], k)
  }

  lemma {:induction false} WrittenAt(h: History, rev: int, ops: seq<Op>, v: Ver)
    ensures var h' := Written(h, rev, ops);
            if v.rev == rev && LastOp(ops, v.key).Some? then v in h' && h'[v] == Flagged(LastOp(ops, v.key).value)
            else (v in h' <==> v in h) && (v in h ==> h'[v] == h[v])
  {
    if ops != [] {
      WrittenAt(h, rev, ops[..|ops| - 1], v);
    }
  }

  /**
   Applying a batch at a new revision: reads below it are untouched, reads from it on
   see the batch's last operation on each key it names and everything else as before.
   */
  lemma ReadsAfterApply(h: History, rev: int, ops: seq<Op>, k: Key, R: int)
    requires forall v :: v in h ==> v.rev < rev
    ensures AsOf(Written(h, rev, ops), k, R) ==
            if R >= rev && LastOp(ops, k).Some? then Some(Flagged(LastOp(ops, k).value)) else AsOf(h, k, R)
  {
    var h' := Written(h, rev, ops);
    var revs, revs' := RevsUpTo(h, k, R), RevsUpTo(h', k, R);
    forall x ensures x in revs' <==> x in revs || (x == rev && R >= rev && LastOp(ops, k).Some?) {
      WrittenAt(h, rev, ops, Ver(k, x));
      assert x in revs <==> Ver(k, x) in h && x <= R;
      assert x in revs' <==> Ver(k, x) in h' && x <= R;
    }
    if R >= rev && LastOp(ops, k).Some? {
      assert rev in revs';
      forall x | x in revs' ensures x <= rev {
        assert x in revs ==> Ver(k, x) in h;
      }
      assert Latest(revs') == rev;
      WrittenAt(h, rev, ops, Ver(k, rev));
    } else {
      assert revs' == revs;
      if revs != {} {
        assert Ver(k, Latest(revs)) in h;
        WrittenAt(h, rev, ops, Ver(k, Latest(revs)));
      }
    }
  }

  // ----- Setting one record -----

  /** Replacing the records `i` to `d`, which have the key of `r` if there are any, by `r`. */
  lemma SetRecord(recs: seq<Rec>, last: nat, r: Rec, i: nat, d: nat, rev: nat)
    requires RecsOK(recs, last) && RecOK(r) && Rev(r) == rev && last <= rev && i <= d <= |recs|
    requires forall x :: 0 <= x < i ==> Less(recs[x].dk, r.dk)
    requires forall x :: i <= x < d ==> recs[x].dk == r.dk
    requires forall x :: d <= x < |recs| ==> Less(r.dk, recs[x].dk)
    ensures RecsOK(recs[..i] + [r] + recs[d..], rev)
    ensures Hist(recs[..i] + [r] + recs[d..]) == Hist(recs)[Ver(KeyOf(r), rev) := r.val]
  {
    var recs' := recs[..i] + [r] + recs[d..];
    IsSpliced(recs, r, i, d);
    SetSorted(recs, recs', r, i, d);
    SetOK(recs, recs', r, i, d, last, rev);
    SetHist(recs, recs', r, i, d, last, rev);
  }

  lemma IsSpliced(recs: seq<Rec>, r: Rec, i: nat, d: nat)
    requires i <= d <= |recs|
    ensures Spliced(recs, recs[..i] + [r] + recs[d..], r, i, d)
  {
  }

  lemma SetOK(recs: seq<Rec>, recs': seq<Rec>, r: Rec, i: nat, d: nat, last: nat, rev: nat)
    requires RecsOK(recs, last) && Spliced(recs, recs', r, i, d) && RecOK(r) && Rev(r) == rev && last <= rev
    requires Sorted(recs')
    ensures RecsOK(recs', rev)
  {
    forall x | 0 <= x < |recs'| ensures RecOK(recs'[x]) && Rev(recs'[x]) <= rev {
      assert recs'[x] == if x < i then recs[x] else if x == i then r else recs[x - i - 1 + d];
    }
  }

  /** `recs'` is `recs` with the records `i` to `d` replaced by `r`. */
  ghost predicate Spliced(recs: seq<Rec>, recs': seq<Rec>, r: Rec, i: nat, d: nat) {
    && i <= d <= |recs| && |recs'| == i + 1 + |recs| - d && recs'[i] == r
    && (forall x :: 0 <= x < i ==> recs'[x] == recs[x])
    && (forall x :: i < x < |recs'| ==> recs'[x] == recs[x - i - 1 + d])
  }

  lemma SetHist(recs: seq<Rec>, recs': seq<Rec>, r: Rec, i: nat, d: nat, last: nat, rev: nat)
    requires RecsOK(recs, last) && RecsOK(recs', rev) && Spliced(recs, recs', r, i, d) && Rev(r) == rev
    requires forall x :: i <= x < d ==> recs[x].dk == r.dk
    ensures Hist(recs') == Hist(recs)[Ver(KeyOf(r), rev) := r.val]
  {
    forall v
      ensures v in Hist(recs') <==> v in Hist(recs) || v == Ver(KeyOf(r), rev)
      ensures v in Hist(recs') ==> Hist(recs')[v] == if v == Ver(KeyOf(r), rev) then r.val else Hist(recs)[v]
    {
      SetHistAt(recs, recs', r, i, d, last, rev, v);
    }
  }

  lemma SetHistAt(recs: seq<Rec>, recs': seq<Rec>, r: Rec, i: nat, d: nat, last: nat, rev: nat, v: Ver)
    requires RecsOK(recs, last) && RecsOK(recs', rev) && Spliced(recs, recs', r, i, d) && Rev(r) == rev
    requires forall x :: i <= x < d ==> recs[x].dk == r.dk
    ensures v in Hist(recs') <==> v in Hist(recs) || v == Ver(KeyOf(r), rev)
    ensures v in Hist(recs') ==> Hist(recs')[v] == if v == Ver(KeyOf(r), rev) then r.val else Hist(recs)[v]
  {
    Distinct(recs, last);
    Distinct(recs', rev);
    HistHas(recs', i);
    if v in Hist(recs') {
      SetHistFrom(recs, recs', r, i, d, last, rev, v);
    }
    if v in Hist(recs) {
      SetHistKeeps(recs, recs', r, i, d, v);
    }
  }

  lemma SetHistFrom(recs: seq<Rec>, recs': seq<Rec>, r: Rec, i: nat, d: nat, last: nat, rev: nat, v: Ver)
    requires RecsOK(recs, last) && RecsOK(recs', rev) && Spliced(recs, recs', r, i, d) && v in Hist(recs')
    ensures v == Ver(KeyOf(r), Rev(r)) || (v in Hist(recs) && Hist(recs')[v] == Hist(recs)[v])
  {
    Distinct(recs, last);
    Distinct(recs', rev);
    var x := HistFrom(recs', v);
    HistHas(recs', x);
    if x != i {
      HistHas(recs, if x < i then x else x - i - 1 + d);
    }
  }

  lemma SetHistKeeps(recs: seq<Rec>, recs': seq<Rec>, r: Rec, i: nat, d: nat, v: Ver)
    requires Spliced(recs, recs', r, i, d) && v in Hist(recs)
    requires forall x :: i <= x < d ==> recs[x].dk == r.dk
    ensures v == Ver(KeyOf(r), Rev(r)) || v in Hist(recs')
  {
    var y := HistFrom(recs, v);
    if y < i {
      HistIn(recs', y);
    } else if y < d {
      SameVersion(recs[y], r);
    } else {
      var x := y - d + i + 1;
      assert recs'[x] == recs[y];
      HistIn(recs', x);
    }
  }

  lemma {:induction false} HistIn(recs: seq<Rec>, i: nat)
    requires i < |recs|
    ensures Ver(KeyOf(recs[i]), Rev(recs[i])) in Hist(recs)
  {
    if i < |recs| - 1 {
      HistIn(recs[..|recs| - 1], i);
    }
  }

  lemma SameVersion(a: Rec, b: Rec)
    requires a.dk == b.dk
    ensures KeyOf(a) == KeyOf(b) && Rev(a) == Rev(b)
  {
  }

  lemma SetSorted(recs: seq<Rec>, recs': seq<Rec>, r: Rec, i: nat, d: nat)
    requires Sorted(recs) && Spliced(recs, recs', r, i, d)
    requires forall x :: 0 <= x < i ==> Less(recs[x].dk, r.dk)
    requires forall x :: d <= x < |recs| ==> Less(r.dk, recs[x].dk)
    ensures Sorted(recs')
  {
    Order();
    forall x, y | 0 <= x < y < |recs'| ensures Less(recs'[x].dk, recs'[y].dk) {
      assert recs'[x] == if x < i then recs[x] else if x == i then r else recs[x - i - 1 + d];
      assert recs'[y] == if y < i then recs[y] else if y == i then r else recs[y - i - 1 + d];
      if y < i {
        assert Less(recs[x].dk, recs[y].dk);
      } else if x > i {
        assert Less(recs[x - i - 1 + d].dk, recs[y - i - 1 + d].dk);
      } else {
        assert x == i || Less(recs'[x].dk, r.dk);
        assert y == i || Less(r.dk, recs'[y].dk);
      }
    }
  }

  lemma FirstNotBefore(recs: seq<Rec>, k: Key, i: nat, d: nat)
    requires Sorted(recs) && i <= |recs| && d == if i < |recs| && recs[i].dk == k then i + 1 else i
    requires forall x :: i <= x < |recs| ==> !Less(recs[x].dk, k)
    ensures forall x :: i <= x < d ==> recs[x].dk == k
    ensures forall x :: d <= x < |recs| ==> Less(k, recs[x].dk)
  {
    Order();
  }

  // ----- Dropping versions -----

  /** Every record is kept or superseded by a kept version of its key not newer than `keep`. */
  ghost predicate Justified(r: Rec, kept: seq<Rec>, keep: int) {
    r in kept || exists a :: a in kept && KeyOf(a) == KeyOf(r) && Rev(r) < Rev(a) <= keep
  }

  ghost predicate Thinned(recs: seq<Rec>, kept: seq<Rec>, keep: int) {
    && (forall x :: 0 <= x < |kept| ==> kept[x] in recs)
    && (forall x :: 0 <= x < |recs| ==> Justified(recs[x], kept, keep))
  }

  lemma HistAt(recs: seq<Rec>, last: nat, r: Rec)
    requires RecsOK(recs, last) && r in recs
    ensures Ver(KeyOf(r), Rev(r)) in Hist(recs) && Hist(recs)[Ver(KeyOf(r), Rev(r))] == r.val
  {
    Distinct(recs, last);
    var i :| 0 <= i < |recs| && recs[i] == r;
    HistHas(recs, i);
  }

  /** Reads from `keep` on do not see what was dropped. */
  lemma ThinnedReads(recs: seq<Rec>, kept: seq<Rec>, last: nat, keep: int, k: Key, R: int)
    requires RecsOK(recs, last) && RecsOK(kept, last) && Thinned(recs, kept, keep) && R >= keep
    ensures AsOf(Hist(kept), k, R) == AsOf(Hist(recs), k, R)
  {
    var h, h' := Hist(recs), Hist(kept);
    var revs, revs' := RevsUpTo(h, k, R), RevsUpTo(h', k, R);
    forall x | x in revs' ensures x in revs && h'[Ver(k, x)] == h[Ver(k, x)] {
      var i := HistFrom(kept, Ver(k, x));
      HistAt(kept, last, kept[i]);
      HistAt(recs, last, kept[i]);
      assert Ver(k, x) in h.Keys;
    }
    if revs != {} {
      var m := Latest(revs);
      assert Ver(k, m) in h;
      var i := HistFrom(recs, Ver(k, m));
      var a := KeptAbove(recs, kept, keep, i);
      HistAt(kept, last, a);
      assert Ver(k, Rev(a)) in h'.Keys;
      assert Rev(a) in revs';
      assert Latest(revs') == m;
    }
  }

  lemma KeptAbove(recs: seq<Rec>, kept: seq<Rec>, keep: int, i: nat) returns (a: Rec)
    requires Thinned(recs, kept, keep) && i < |recs|
    ensures a in kept && KeyOf(a) == KeyOf(recs[i]) && Rev(recs[i]) <= Rev(a)
    ensures Rev(a) == Rev(recs[i]) || Rev(a) <= keep
  {
    assert Justified(recs[i], kept, keep);
    if recs[i] in kept {
      a := recs[i];
    } else {
      a :| a in kept && KeyOf(a) == KeyOf(recs[i]) && Rev(recs[i]) < Rev(a) <= keep;
    }
  }

  lemma ThinnedRanges(recs: seq<Rec>, kept: seq<Rec>, last: nat, keep: int, R: int, start: Option<Key>, end: Option<Key>)
    requires RecsOK(recs, last) && RecsOK(kept, last) && Thinned(recs, kept, keep) && R >= keep
    ensures Ranged(Hist(kept), R, start, end) == Ranged(Hist(recs), R, start, end)
  {
    hide AsOf;
    hide Hist;
    hide Ascending;
    hide KeysAsOf;
    var h, h' := Hist(recs), Hist(kept);
    forall k ensures k in KeysAsOf(h', R, start, end) <==> k in KeysAsOf(h, R, start, end)
             ensures AsOf(h', k, R) == AsOf(h, k, R) {
      ThinnedReads(recs, kept, last, keep, k, R);
      KeyIsRead(h, R, start, end, k);
      KeyIsRead(h', R, start, end, k);
    }
    assert KeysAsOf(h', R, start, end) == KeysAsOf(h, R, start, end);
    var ks := Ascending(KeysAsOf(h, R, start, end));
    assert forall i :: 0 <= i < |ks| ==> Value(h', ks[i], R) == Value(h, ks[i], R);
  }

  /** The record a point read lands on, if it is of the key, is the key's version as of the revision. */
  lemma LandsOnVersion(recs: seq<Rec>, last: nat, key: Key, R: nat)
    requires RecsOK(recs, last) && R < TWO_64
    ensures var i := FirstFrom(recs, DataKey(key, R));
            i < |recs| && KeyOf(recs[i]) == key ==>
              && Less(recs[i].dk, DataUpper(key)) && Rev(recs[i]) <= R && AsOf(Hist(recs), key, R) == Some(recs[i].val)
              && forall j :: 0 <= j < |recs| && KeyOf(recs[j]) == key && Rev(recs[j]) <= R ==> i <= j
  {
    hide Less;
    hide AsOf;
    var i := FirstFrom(recs, DataKey(key, R));
    OwnRecords(recs, key, R);
    if i < |recs| && KeyOf(recs[i]) == key {
      FirstIsAsOf(recs, last, key, R, i);
    }
  }

  lemma SeenFirst(recs: seq<Rec>, k: Key, r: Rec)
    requires Sorted(recs) && r in recs && !Less(r.dk, k)
    ensures var i := FirstFrom(recs, k); i < |recs| && !Less(r.dk, recs[i].dk) && !Less(recs[i].dk, k)
  {
    Order();
    var x :| 0 <= x < |recs| && recs[x] == r;
    var i := FirstFrom(recs, k);
    assert i <= x;
    assert i < x ==> Less(recs[i].dk, r.dk);
  }

  ghost predicate AnswersOn(recs: seq<Rec>, kept: seq<Rec>, key: Key, R: nat)
    requires R < TWO_64
  {
    Answer(kept, key, R) == Answer(recs, key, R) || Answer(kept, key, R) == Value(Hist(recs), key, R)
  }

  /**
   On any store a point read answers after the thinning what it answered before, or else
   the right value: a record that stood in its way is gone.
   */
  lemma ThinnedAnswer(recs: seq<Rec>, kept: seq<Rec>, last: nat, keep: int, key: Key, R: nat)
    requires RecsOK(recs, last) && RecsOK(kept, last) && Thinned(recs, kept, keep) && keep <= R < TWO_64
    ensures AnswersOn(recs, kept, key, R)
  {
    hide Less;
    hide AsOf;
    hide Hist;
    var k := DataKey(key, R);
    var i, j := FirstFrom(recs, k), FirstFrom(kept, k);
    LandsOnVersion(recs, last, key, R);
    LandsOnVersion(kept, last, key, R);
    ThinnedReads(recs, kept, last, keep, key, R);
    if i < |recs| && KeyOf(recs[i]) == key {
      FirstIsKept(recs, kept, last, keep, key, R);
    }
  }

  lemma FirstIsKept(recs: seq<Rec>, kept: seq<Rec>, last: nat, keep: int, key: Key, R: nat)
    requires RecsOK(recs, last) && RecsOK(kept, last) && Thinned(recs, kept, keep) && keep <= R < TWO_64
    requires var i := FirstFrom(recs, DataKey(key, R)); i < |recs| && KeyOf(recs[i]) == key
    ensures var i, j := FirstFrom(recs, DataKey(key, R)), FirstFrom(kept, DataKey(key, R));
            j < |kept| && kept[j] == recs[i]
  {
    hide Less;
    hide Thinned;
    hide RecsOK;
    var k := DataKey(key, R);
    var i := FirstFrom(recs, k);
    SortedOf(recs, last);
    SortedOf(kept, last);
    VersionIsKept(recs, kept, last, keep, key, R);
    FromKey(recs, k);
    SeenFirst(kept, k, recs[i]);
    var j := FirstFrom(kept, k);
    AmongRecs(recs, kept, keep, j);
    SeenFirst(recs, k, kept[j]);
    var y :| 0 <= y < |recs| && recs[y] == kept[j];
    SortedAt(recs, i, y);
    Order();
  }

  lemma SortedOf(recs: seq<Rec>, last: nat)
    requires RecsOK(recs, last)
    ensures Sorted(recs)
  {
    hide Less;
  }

  lemma FromKey(recs: seq<Rec>, k: Key)
    ensures FirstFrom(recs, k) < |recs| ==> !Less(recs[FirstFrom(recs, k)].dk, k)
  {
  }

  lemma AmongRecs(recs: seq<Rec>, kept: seq<Rec>, keep: int, j: nat)
    requires Thinned(recs, kept, keep) && j < |kept|
    ensures kept[j] in recs
  {
  }

  /** The version a read lands on is not dropped. */
  lemma VersionIsKept(recs: seq<Rec>, kept: seq<Rec>, last: nat, keep: int, key: Key, R: nat)
    requires RecsOK(recs, last) && Thinned(recs, kept, keep) && keep <= R < TWO_64
    requires var i := FirstFrom(recs, DataKey(key, R)); i < |recs| && KeyOf(recs[i]) == key
    ensures recs[FirstFrom(recs, DataKey(key, R))] in kept
  {
    hide Less;
    hide AsOf;
    hide Hist;
    hide RecsOK;
    hide Thinned;
    hide Justified;
    hide KeyOf;
    hide Rev;
    hide FirstFrom;
    hide DataKey;
    var i := FirstFrom(recs, DataKey(key, R));
    LandsOnVersion(recs, last, key, R);
    var a := KeptAbove(recs, kept, keep, i);
    var j :| 0 <= j < |kept| && kept[j] == a;
    AmongRecs(recs, kept, keep, j);
    var x :| 0 <= x < |recs| && recs[x] == a;
    assert i <= x;
    if i < x {
      NewestFirst(recs, last, i, x);
    }
    assert a == recs[i];
  }

  lemma SortedAt(recs: seq<Rec>, i: nat, j: nat)
    requires Sorted(recs) && i < |recs| && j < |recs|
    ensures i < j ==> Less(recs[i].dk, recs[j].dk)
    ensures j < i ==> Less(recs[j].dk, recs[i].dk)
  {
  }

  lemma KeyIsRead(h: History, R: int, start: Option<Key>, end: Option<Key>, k: Key)
    ensures k in KeysAsOf(h, R, start, end) <==> InWindow(k, start, end) && AsOf(h, k, R).Some?
  {
    if AsOf(h, k, R).Some? {
      var x :| x in RevsUpTo(h, k, R);
      assert Ver(k, x) in h.Keys;
    }
    if k in KeysAsOf(h, R, start, end) {
      var v :| v in h.Keys && v.rev <= R && InWindow(v.key, start, end) && v.key == k;
      assert v.rev in RevsUpTo(h, k, R);
    }
  }

  /** At most one version per key that is not newer than `keep`. */
  ghost predicate OneAnchor(recs: seq<Rec>, keep: int) {
    forall i, j :: 0 <= i < j < |recs| && KeyOf(recs[i]) == KeyOf(recs[j]) ==> Rev(recs[i]) > keep
  }

  /** The scan of `Compact` after `i` records. */
  ghost predicate Thinning(recs: seq<Rec>, kept: seq<Rec>, i: nat, keep: int, lastKey: Key, anchorSet: bool, dropped: nat) {
    && i <= |recs| && dropped + |kept| == i
    && Sorted(kept)
    && (forall x :: 0 <= x < |kept| ==> kept[x] in recs[..i])
    && (forall x :: 0 <= x < i ==> Justified(recs[x], kept, keep))
    && (anchorSet ==> Anchored(kept, keep, lastKey))
    && (Grouped(recs) ==> OneAnchor(kept, keep) && (i > 0 ==> lastKey == KeyOf(recs[i - 1])) && (Anchored(kept, keep, lastKey) ==> anchorSet))
    && (OneAnchor(recs, keep) ==> kept == recs[..i])
  }

  ghost predicate Anchored(kept: seq<Rec>, keep: int, k: Key) {
    exists x :: 0 <= x < |kept| && KeyOf(kept[x]) == k && Rev(kept[x]) <= keep
  }

  lemma AnchoredSnoc(kept: seq<Rec>, r: Rec, keep: int, k: Key)
    ensures Anchored(kept + [r], keep, k) <==> Anchored(kept, keep, k) || (KeyOf(r) == k && Rev(r) <= keep)
  {
    if Anchored(kept, keep, k) {
      var x :| 0 <= x < |kept| && KeyOf(kept[x]) == k && Rev(kept[x]) <= keep;
      assert (kept + [r])[x] == kept[x];
    }
    assert (kept + [r])[|kept|] == r;
  }

  lemma ThinningStep(recs: seq<Rec>, kept: seq<Rec>, i: nat, keep: int, lastKey: Key, anchorSet: bool, dropped: nat, last: nat)
    requires RecsOK(recs, last) && Thinning(recs, kept, i, keep, lastKey, anchorSet, dropped) && i < |recs|
    ensures var r := recs[i];
            var anchor := KeyOf(r) == lastKey && anchorSet;
            if Rev(r) > keep || !anchor then Thinning(recs, kept + [r], i + 1, keep, KeyOf(r), anchor || Rev(r) <= keep, dropped)
            else Thinning(recs, kept, i + 1, keep, KeyOf(r), anchor, dropped + 1)
  {
    var r := recs[i];
    if Rev(r) > keep || !(KeyOf(r) == lastKey && anchorSet) {
      KeepStep(recs, kept, i, keep, lastKey, anchorSet, dropped, last);
    } else {
      DropStep(recs, kept, i, keep, lastKey, anchorSet, dropped, last);
    }
  }

  lemma KeptEarlier(recs: seq<Rec>, kept: seq<Rec>, i: nat, x: nat) returns (j: nat)
    requires i <= |recs| && x < |kept| && kept[x] in recs[..i]
    ensures j < i && recs[j] == kept[x]
  {
    j :| 0 <= j < i && recs[..i][j] == kept[x];
  }

  lemma DropStep(recs: seq<Rec>, kept: seq<Rec>, i: nat, keep: int, lastKey: Key, anchorSet: bool, dropped: nat, last: nat)
    requires RecsOK(recs, last) && Thinning(recs, kept, i, keep, lastKey, anchorSet, dropped) && i < |recs|
    requires Rev(recs[i]) <= keep && KeyOf(recs[i]) == lastKey && anchorSet
    ensures Thinning(recs, kept, i + 1, keep, lastKey, anchorSet, dropped + 1)
  {
    hide Sorted;
    hide OneAnchor;
    hide Justified;
    hide Anchored;
    hide Grouped;
    DropJustified(recs, kept, i, keep, lastKey, last);
    forall y | 0 <= y < |kept| ensures kept[y] in recs[..i + 1] {
      var j := KeptEarlier(recs, kept, i, y);
      assert recs[..i + 1][j] == kept[y];
    }
  }

  /** A version behind its key's anchor is superseded by it. */
  lemma DropJustified(recs: seq<Rec>, kept: seq<Rec>, i: nat, keep: int, lastKey: Key, last: nat)
    requires RecsOK(recs, last) && i < |recs| && (forall x :: 0 <= x < |kept| ==> kept[x] in recs[..i])
    requires Anchored(kept, keep, lastKey) && Rev(recs[i]) <= keep && KeyOf(recs[i]) == lastKey
    ensures Justified(recs[i], kept, keep) && !OneAnchor(recs, keep)
  {
    var x :| 0 <= x < |kept| && KeyOf(kept[x]) == lastKey && Rev(kept[x]) <= keep;
    var j := KeptEarlier(recs, kept, i, x);
    NewestFirst(recs, last, j, i);
    assert kept[x] in kept;
  }

  lemma KeepStep(recs: seq<Rec>, kept: seq<Rec>, i: nat, keep: int, lastKey: Key, anchorSet: bool, dropped: nat, last: nat)
    requires RecsOK(recs, last) && Thinning(recs, kept, i, keep, lastKey, anchorSet, dropped) && i < |recs|
    requires Rev(recs[i]) > keep || !(KeyOf(recs[i]) == lastKey && anchorSet)
    ensures Thinning(recs, kept + [recs[i]], i + 1, keep, KeyOf(recs[i]),
                     (KeyOf(recs[i]) == lastKey && anchorSet) || Rev(recs[i]) <= keep, dropped)
  {
    var r, kept' := recs[i], kept + [recs[i]];
    KeepSorted(recs, kept, i, last);
    TakeOneMore(recs, i);
    KeptInFirst(recs, kept, i);
    KeepJustified(recs, kept, i, keep);
    AnchoredSnoc(kept, r, keep, KeyOf(r));
    if Grouped(recs) {
      KeepAnchors(recs, kept, i, keep, lastKey, anchorSet, dropped);
    }
  }

  lemma TakeOneMore(recs: seq<Rec>, i: nat)
    requires i < |recs|
    ensures recs[..i + 1] == recs[..i] + [recs[i]]
  {
  }

  lemma KeptInFirst(recs: seq<Rec>, kept: seq<Rec>, i: nat)
    requires i < |recs| && forall x :: 0 <= x < |kept| ==> kept[x] in recs[..i]
    ensures forall x :: 0 <= x < |kept + [recs[i]]| ==> (kept + [recs[i]])[x] in recs[..i + 1]
  {
    TakeOneMore(recs, i);
  }

  lemma KeepJustified(recs: seq<Rec>, kept: seq<Rec>, i: nat, keep: int)
    requires i < |recs| && forall x :: 0 <= x < i ==> Justified(recs[x], kept, keep)
    ensures forall x :: 0 <= x < i + 1 ==> Justified(recs[x], kept + [recs[i]], keep)
  {
    forall x | 0 <= x < i + 1 ensures Justified(recs[x], kept + [recs[i]], keep) {
      if x < i {
        StillJustified(recs[x], kept, recs[i], keep);
      }
    }
  }

  lemma StillJustified(q: Rec, kept: seq<Rec>, r: Rec, keep: int)
    requires Justified(q, kept, keep)
    ensures Justified(q, kept + [r], keep)
  {
    if q !in kept {
      var a :| a in kept && KeyOf(a) == KeyOf(q) && Rev(q) < Rev(a) <= keep;
      assert a in kept + [r];
    }
  }

  lemma KeepSorted(recs: seq<Rec>, kept: seq<Rec>, i: nat, last: nat)
    requires RecsOK(recs, last) && i < |recs| && Sorted(kept) && forall x :: 0 <= x < |kept| ==> kept[x] in recs[..i]
    ensures Sorted(kept + [recs[i]])
    ensures forall x :: 0 <= x < |kept| ==> Less(kept[x].dk, recs[i].dk)
  {
    forall x | 0 <= x < |kept| ensures Less(kept[x].dk, recs[i].dk) {
      var j := KeptEarlier(recs, kept, i, x);
    }
  }

  /** With keys in order, a key's anchor is found exactly while its group lasts. */
  lemma KeepAnchors(recs: seq<Rec>, kept: seq<Rec>, i: nat, keep: int, lastKey: Key, anchorSet: bool, dropped: nat)
    requires Grouped(recs) && Thinning(recs, kept, i, keep, lastKey, anchorSet, dropped) && i < |recs|
    requires Rev(recs[i]) > keep || !(KeyOf(recs[i]) == lastKey && anchorSet)
    ensures OneAnchor(kept + [recs[i]], keep)
    ensures Anchored(kept, keep, KeyOf(recs[i])) ==> KeyOf(recs[i]) == lastKey && anchorSet
  {
    hide Sorted;
    hide Justified;
    Order();
    var r, kept' := recs[i], kept + [recs[i]];
    forall x | 0 <= x < |kept| && KeyOf(kept[x]) == KeyOf(r)
      ensures KeyOf(r) == lastKey
      ensures Rev(kept[x]) > Rev(r)
    {
      var j := KeptEarlier(recs, kept, i, x);
      assert KeyOf(recs[i - 1]) == lastKey;
      assert j == i - 1 || Less(KeyOf(recs[j]), lastKey) || KeyOf(recs[j]) == lastKey;
    }
    forall x, y | 0 <= x < y < |kept'| && KeyOf(kept'[x]) == KeyOf(kept'[y]) ensures Rev(kept'[x]) > keep {
      if y < |kept| {
        assert KeyOf(kept[x]) == KeyOf(kept[y]);
      } else if Rev(r) <= keep {
        assert KeyOf(kept[x]) == KeyOf(r);
        assert Rev(kept[x]) <= keep ==> Anchored(kept, keep, lastKey);
      }
    }
  }

  /** What the finished scan gives. */
  lemma ThinnedAll(recs: seq<Rec>, kept: seq<Rec>, keep: int, lastKey: Key, anchorSet: bool, dropped: nat, last: nat)
    requires RecsOK(recs, last) && Thinning(recs, kept, |recs|, keep, lastKey, anchorSet, dropped)
    ensures RecsOK(kept, last) && Thinned(recs, kept, keep) && dropped == |recs| - |kept|
    ensures Separate(recs) ==> Separate(kept) && OneAnchor(kept, keep)
    ensures OneAnchor(recs, keep) ==> kept == recs
  {
    assert recs[..|recs|] == recs;
    forall x | 0 <= x < |kept| ensures RecOK(kept[x]) && Rev(kept[x]) <= last {
      var j := KeptEarlier(recs, kept, |recs|, x);
    }
    if Separate(recs) {
      AreGrouped(recs, last);
      forall x, y | 0 <= x < |kept| && 0 <= y < |kept| ensures !Shadows(KeyOf(kept[x]), KeyOf(kept[y])) {
        var i := KeptEarlier(recs, kept, |recs|, x);
        var j := KeptEarlier(recs, kept, |recs|, y);
      }
    }
  }

  /** A store that never committed has no records. */
  lemma EmptyThinned(recs: seq<Rec>, keep: int)
    requires recs == []
    ensures Thinned(recs, recs, keep) && OneAnchor(recs, keep)
    ensures forall k, R: nat :: keep <= R < TWO_64 ==> AnswersOn(recs, recs, k, R)
  {
  }

  lemma NoRecords(recs: seq<Rec>, last: nat)
    requires RecsOK(recs, last)
    ensures recs == [] || last > 0
  {
    if recs != [] {
      var r := recs[0];
    }
  }

  /** The scan itself. */
  method Thin(recs: seq<Rec>, keep: int, ghost last: nat) returns (kept: seq<Rec>, dropped: nat)
    requires RecsOK(recs, last)
    ensures RecsOK(kept, last) && Thinned(recs, kept, keep) && dropped == |recs| - |kept|
    ensures Separate(recs) ==> Separate(kept) && OneAnchor(kept, keep)
    ensures OneAnchor(recs, keep) ==> kept == recs
  {
    var lastKey, anchorSet := [], false;
    kept, dropped := [], 0;
    for i := 0 to |recs|
      invariant Thinning(recs, kept, i, keep, lastKey, anchorSet, dropped)
    {
      ThinningStep(recs, kept, i, keep, lastKey, anchorSet, dropped, last);
      var raw := KeyOf(recs[i]);
      if raw != lastKey {
        lastKey, anchorSet := raw, false;
      }
      if Rev(recs[i]) > keep {
        kept := kept + [recs[i]];
      } else if !anchorSet {
        anchorSet := true;
        kept := kept + [recs[i]];
      } else {
        dropped := dropped + 1;
      }
    }
    ThinnedAll(recs, kept, keep, lastKey, anchorSet, dropped, last);
  }

  // ----- The store -----

  class KvStore {
    var recs: seq<Rec>
    var last: nat

    ghost predicate Valid()
      reads this
    {
      RecsOK(recs, last)
    }

    ghost function History(): History
      reads this
    {
      Hist(recs)
    }

    constructor ()
      ensures Valid() && History() == map[] && last == 0
    {
      recs, last := [], 0;
    }

    method Set(key: Key, rev: nat, val: Bytestring)
      requires Valid() && 0 < rev && last <= rev < TWO_64
      modifies this
      ensures Valid() && last == rev && History() == old(History())[Ver(key, rev) := val]
    {
      var r := Rec(DataKey(key, rev), val);
      ExtractDataKey(key, rev);
      var i := Search(recs, r.dk, 0, |recs|);
      var d := if i < |recs| && recs[i].dk == r.dk then i + 1 else i;
      FirstNotBefore(recs, r.dk, i, d);
      SetRecord(recs, last, r, i, d, rev);
      recs := recs[..i] + [r] + recs[d..];
      last := rev;
    }

    /** `Apply`: revision 0 asks for the next one; a revision that is not newer is refused. */
    method Apply(rev0: nat, ops: seq<Op>) returns (regress: bool)
      requires Valid() && rev0 < TWO_64
      modifies this
      ensures Valid()
      ensures var rev := if rev0 == 0 then (old(last) + 1) % TWO_64 else rev0;
              && (regress <==> ops != [] && rev <= old(last))
              && (ops == [] || regress ==> recs == old(recs) && last == old(last))
              && (ops != [] && !regress ==> last == rev && History() == Written(old(History()), rev, ops))
    {
      if |ops| == 0 {
        return false;
      }
      var rev := if rev0 == 0 then (last + 1) % TWO_64 else rev0;
      if rev <= last {
        return true;
      }
      ghost var h := History();
      var i := 0;
      while i < |ops|
        invariant i <= |ops| && Valid() && (if i == 0 then last < rev else last == rev)
        invariant History() == Written(h, rev, ops[..i])
      {
        Set(ops[i].key, rev, Flagged(ops[i]));
        assert ops[..i + 1][..i] == ops[..i];
        i := i + 1;
      }
      assert ops[..|ops|] == ops;
      return false;
    }

    /** `CompareAndSwap`. */
    method CompareAndSwap(rev: nat, key: Key, expected: Bytestring, expectMissing: bool, op: Op) returns (swapped: bool, failed: bool)
      requires Valid() && rev < TWO_64
      modifies this
      ensures Valid()
      ensures StandsApart(old(recs), key) ==> Answer(old(recs), key, old(last)) == Value(old(History()), key, old(last))
      ensures var cur := Answer(old(recs), key, old(last));
              swapped <==> rev != 0 && if expectMissing then cur == None else cur == Some(expected)
      ensures failed <==> rev == 0 || (swapped && rev <= old(last))
      ensures if swapped && !failed then last == rev && History() == Written(old(History()), rev, [op])
              else recs == old(recs) && last == old(last)
    {
      if StandsApart(recs, key) {
        AnswerRight(recs, last, key, last);
      }
      if rev == 0 {
        return false, true;
      }
      var cur := Get(recs, last, key, last);
      if expectMissing {
        if cur.Some? {
          return false, false;
        }
      } else if cur != Some(expected) {
        return false, false;
      }
      swapped := true;
      failed := Apply(rev, [op]);
    }

    /**
     `Compact`: what a key was from `keep` on is unchanged, whatever keys are stored, and a
     point read answers as before or else right; with separate keys one version not newer than `keep` remains per key and a second run
     drops nothing.
     */
    method Compact(keep: int) returns (dropped: nat)
      requires Valid()
      modifies this
      ensures Valid() && last == old(last)
      ensures Thinned(old(recs), recs, keep)
      ensures forall k, R :: R >= keep ==> AsOf(History(), k, R) == AsOf(old(History()), k, R)
      ensures forall k, R: nat :: keep <= R < TWO_64 ==> AnswersOn(old(recs), recs, k, R)
      ensures dropped == |old(recs)| - |recs|
      ensures Separate(old(recs)) ==> Separate(recs) && OneAnchor(recs, keep)
      ensures OneAnchor(old(recs), keep) ==> dropped == 0 && recs == old(recs)
    {
      hide Thinned;
      hide AnswersOn;
      hide AsOf;
      hide Separate;
      hide OneAnchor;
      NoRecords(recs, last);
      if last == 0 {
        EmptyThinned(recs, keep);
        return 0;
      }
      var kept;
      kept, dropped := Thin(recs, keep, last);
      forall k, R | R >= keep ensures AsOf(Hist(kept), k, R) == AsOf(Hist(recs), k, R) {
        ThinnedReads(recs, kept, last, keep, k, R);
      }
      forall k, R: nat | keep <= R < TWO_64 ensures AnswersOn(recs, kept, k, R) {
        ThinnedAnswer(recs, kept, last, keep, k, R);
      }
      recs := kept;
    }
  }
}
