/**
 Where the physical key layout of the MVCC store lets a key hide another, and exactly
 when a point read misses what is stored.
 */
module KvLimits {
  import opened Bytes
  import opened Endian
  import opened Wrappers
  import opened KvKeys
  import opened KvModel
  import opened KvReads

  /** The newest live version of `key` as of `R`. */
  ghost predicate BestLive(recs: seq<Rec>, key: Key, R: int, b: int) {
    && 0 <= b < |recs| && KeyOf(recs[b]) == key && Rev(recs[b]) <= R && Payload(recs[b].val).Some?
    && forall j :: 0 <= j < b && KeyOf(recs[j]) == key ==> Rev(recs[j]) > R
  }

  /**
   A point read misses a live value exactly when a record of another key sorts between
   the version it seeks and the version it should find.
   */
  lemma AnswerMisses(recs: seq<Rec>, last: nat, key: Key, R: nat, b: nat)
    requires RecsOK(recs, last) && R < TWO_64 && BestLive(recs, key, R, b)
    ensures Value(Hist(recs), key, R) == Payload(recs[b].val)
    ensures Answer(recs, key, R) != Value(Hist(recs), key, R) <==>
            exists x :: 0 <= x < b && KeyOf(recs[x]) != key && !Less(recs[x].dk, DataKey(key, R))
  {
    FirstIsAsOf(recs, last, key, R, b);
    OwnRecords(recs, key, R);
    var i := FirstFrom(recs, DataKey(key, R));
    assert KeyOf(recs[b]) == key && !Less(recs[b].dk, DataKey(key, R));
    assert i <= b;
    if KeyOf(recs[i]) == key {
      assert i == b;
    } else {
      assert !Less(recs[i].dk, DataKey(key, R));
    }
  }

  /**
   Any key has such a neighbour: itself, a zero byte and the suffix of a later
   revision. Storing that key hides every older version from reads at that revision.
   */
  lemma ShadowHides(key: Key, r: nat, R: nat, q: nat)
    requires r < R < TWO_64 && q < TWO_64
    ensures var s := key + ([0] + RevSuffix(R));
            && Shadows(key, s)
            && !Less(DataKey(s, q), DataKey(key, R)) && Less(DataKey(s, q), DataKey(key, r))
  {
    var s, tail := key + ([0] + RevSuffix(R)), [0] + RevSuffix(q);
    assert s[..|key|] == key;
    assert DataKey(s, q) == [1] + (s + tail);
    assert s + tail == key + ([0] + RevSuffix(R) + tail);
    assert DataKey(key, R) + tail == DataKey(s, q);
    PrefixLeq(DataKey(key, R), DataKey(s, q));
    LessUnderPrefix([1], s + tail, key + ([0] + RevSuffix(r)));
    LessUnderPrefix(key, [0] + RevSuffix(R) + tail, [0] + RevSuffix(r));
    assert [0] + RevSuffix(R) + tail == [0] + (RevSuffix(R) + tail);
    LessUnderPrefix([0], RevSuffix(R) + tail, RevSuffix(r));
    Pow256Of8();
    BigEndianOrder(TWO_64 - 1 - R, TWO_64 - 1 - r, SUFFIX);
    LessExtended(RevSuffix(R), RevSuffix(r), tail, []);
    assert RevSuffix(r) + [] == RevSuffix(r);
  }

  /** A value written at revision 1 and still current is not found at revision 2. */
  lemma ShadowedRead(key: Key, value: Bytestring)
    ensures var s := key + ([0] + RevSuffix(2));
            var recs := [Rec(DataKey(s, 2), [0]), Rec(DataKey(key, 1), [1] + value)];
            && RecsOK(recs, 2)
            && Value(Hist(recs), key, 2) == Some(value)
            && Answer(recs, key, 2) == None
  {
    var s := key + ([0] + RevSuffix(2));
    var recs := [Rec(DataKey(s, 2), [0]), Rec(DataKey(key, 1), [1] + value)];
    ShadowHides(key, 1, 2, 2);
    ExtractDataKey(s, 2);
    ExtractDataKey(key, 1);
    assert recs[1].val[1..] == value;
    assert BestLive(recs, key, 2, 1);
    AnswerMisses(recs, 2, key, 2, 1);
    assert KeyOf(recs[0]) != key;
    assert FirstFrom(recs, DataKey(key, 2)) == 0;
  }

  // ----- Range reads -----

  lemma {:induction false} InRuns(recs: seq<Rec>, n: nat, i: nat)
    requires n <= i < |recs|
    ensures exists x :: 0 <= x < |Runs(recs, n, |recs|, None)| && Runs(recs, n, |recs|, None)[x].key == KeyOf(recs[i])
    decreases |recs| - n
  {
    var m := Past(recs, n, |recs|);
    var rest := Runs(recs, m, |recs|, None);
    var all := Runs(recs, n, |recs|, None);
    assert all == [Hit(KeyOf(recs[n]), Payload(recs[n].val))] + rest;
    if i < m {
      assert all[0].key == KeyOf(recs[i]);
    } else {
      InRuns(recs, m, i);
      var x :| 0 <= x < |rest| && rest[x].key == KeyOf(recs[i]);
      assert all[x + 1].key == KeyOf(recs[i]);
    }
  }

  /** Runs in key order mean records in key order. */
  lemma {:induction false} RunsOrdered(recs: seq<Rec>, n: nat)
    requires n <= |recs| && InKeyOrder(Runs(recs, n, |recs|, None), false)
    ensures forall i, j :: n <= i < j < |recs| ==> Less(KeyOf(recs[i]), KeyOf(recs[j])) || KeyOf(recs[i]) == KeyOf(recs[j])
    decreases |recs| - n
  {
    if n < |recs| {
      var m := Past(recs, n, |recs|);
      var rest := Runs(recs, m, |recs|, None);
      var all := Runs(recs, n, |recs|, None);
      assert all == [Hit(KeyOf(recs[n]), Payload(recs[n].val))] + rest;
      assert forall x :: 0 <= x < |rest| ==> all[x + 1] == rest[x];
      RunsOrdered(recs, m);
      forall i, j | n <= i < m <= j < |recs| ensures Less(KeyOf(recs[i]), KeyOf(recs[j])) {
        InRuns(recs, m, j);
        var x :| 0 <= x < |rest| && rest[x].key == KeyOf(recs[j]);
        assert Less(all[0].key, all[x + 1].key);
      }
    }
  }

  /** A read of the whole store at its latest revision is right exactly if the records are in key order. */
  lemma LatestRunsIff(recs: seq<Rec>, last: nat)
    requires RecsOK(recs, last)
    ensures Runs(recs, 0, |recs|, None) == Ranged(Hist(recs), last, None, None) <==> Grouped(recs)
  {
    if Grouped(recs) {
      RunsAreRange(recs, last, None, None, 0, |recs|);
    }
    if Runs(recs, 0, |recs|, None) == Ranged(Hist(recs), last, None, None) {
      RunsOrdered(recs, 0);
      forall i, j | 0 <= i < j < |recs|
        ensures Less(KeyOf(recs[i]), KeyOf(recs[j])) || (KeyOf(recs[i]) == KeyOf(recs[j]) && Rev(recs[i]) > Rev(recs[j]))
      {
        if KeyOf(recs[i]) == KeyOf(recs[j]) {
          NewestFirst(recs, last, i, j);
        }
      }
    }
  }

  /** One turn of the seek loop without an end bound: where it stands after the key at `n`. */
  ghost function Turn(recs: seq<Rec>, R: nat, n: nat): nat
    requires n < |recs| && R < TWO_64
  {
    var raw := KeyOf(recs[n]);
    var p := FirstFrom(recs, DataKey(raw, R));
    if p < |recs| && KeyOf(recs[p]) == raw then FirstFrom(recs, DataUpper(raw)) else p
  }

  /**
   With keys that do not stand apart the seek loop need not end: from the key of the first
   record it goes to the second, and from there back.
   */
  lemma SeekLoops(key: Key)
    ensures var s := key + ([0] + RevSuffix(2));
            var recs := [Rec(DataKey(s, 1), [1]), Rec(DataKey(key, 1), [1])];
            RecsOK(recs, 3) && Turn(recs, 2, 0) == 1 && Turn(recs, 2, 1) == 0
  {
    hide Less;
    Order();
    var s := key + ([0] + RevSuffix(2));
    var recs := [Rec(DataKey(s, 1), [1]), Rec(DataKey(key, 1), [1])];
    ExtractDataKey(s, 1);
    ExtractDataKey(key, 1);
    ShadowHides(key, 1, 2, 1);
    SameKeyOrder(s, 2, 1);
    assert KeyOf(recs[0]) == s && KeyOf(recs[1]) == key && |s| > |key|;
    UpperBetween(key);
    FirstIs(recs, DataKey(s, 2), 0);
    FirstIs(recs, DataUpper(s), 1);
    FirstIs(recs, DataKey(key, 2), 0);
  }

  lemma UpperBetween(key: Key)
    ensures var s := key + ([0] + RevSuffix(2));
            Less(DataKey(s, 1), DataUpper(s)) && Less(DataUpper(s), DataKey(key, 1))
  {
    var s := key + ([0] + RevSuffix(2));
    OwnBelowUpper(s, RevSuffix(1));
    LessUnderPrefix([1], s + [1], key + ([0] + RevSuffix(1)));
    assert s + [1] == key + ([0] + (RevSuffix(2) + [1]));
    LessUnderPrefix(key, [0] + (RevSuffix(2) + [1]), [0] + RevSuffix(1));
    LessUnderPrefix([0], RevSuffix(2) + [1], RevSuffix(1));
    Pow256Of8();
    BigEndianOrder(TWO_64 - 1 - 2, TWO_64 - 1 - 1, SUFFIX);
    LessExtended(RevSuffix(2), RevSuffix(1), [1], []);
    assert RevSuffix(1) + [] == RevSuffix(1);
  }
}
