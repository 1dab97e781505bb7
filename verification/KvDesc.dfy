/**
 Reverse range reads and counting over the MVCC store.
 */
module KvDesc {
  import opened Bytes
  import opened Endian
  import opened Wrappers
  import opened KvKeys
  import opened KvModel
  import opened KvReads

  ghost function Backwards(s: seq<Hit>): (r: seq<Hit>)
    ensures |r| == |s| && forall i :: 0 <= i < |s| ==> r[i] == s[|s| - 1 - i]
  {
    seq(|s|, i requires 0 <= i < |s| => s[|s| - 1 - i])
  }

  /** A descending loop that covered all records has produced the range backwards. */
  lemma CoveredIsReverse(out: seq<Hit>, recs: seq<Rec>, last: nat, R: int, start: Option<Key>, end: Option<Key>)
    requires RecsOK(recs, last) && Covered(out, recs, R, start, end, 0, |recs|, true)
    ensures out == Backwards(Ranged(Hist(recs), R, start, end))
  {
    var rev := Backwards(out);
    forall k ensures Reported(rev, k) <==> Reported(out, k) {
      BackwardsReported(out, k);
    }
    BackwardsCovered(out, recs, R, start, end);
    CoveredIsRange(rev, recs, last, R, start, end);
    assert Backwards(rev) == out;
  }

  lemma BackwardsReported(out: seq<Hit>, k: Key)
    ensures Reported(Backwards(out), k) <==> Reported(out, k)
  {
    var rev := Backwards(out);
    if Reported(out, k) {
      var j :| 0 <= j < |out| && out[j].key == k;
      assert rev[|out| - 1 - j].key == k;
    }
    if Reported(rev, k) {
      var j :| 0 <= j < |rev| && rev[j].key == k;
      assert out[|out| - 1 - j].key == k;
    }
  }

  lemma BackwardsCovered(out: seq<Hit>, recs: seq<Rec>, R: int, start: Option<Key>, end: Option<Key>)
    requires Covered(out, recs, R, start, end, 0, |recs|, true)
    requires forall k :: Reported(Backwards(out), k) <==> Reported(out, k)
    ensures Covered(Backwards(out), recs, R, start, end, 0, |recs|, false)
  {
    var rev := Backwards(out);
    forall j | 0 <= j < |rev| ensures rev[j] == Hit(rev[j].key, Value(Hist(recs), rev[j].key, R)) {
      assert out[|out| - 1 - j] == rev[j];
    }
    forall k ensures Reported(rev, k) <==> InWindow(k, start, end) && SeenIn(recs, R, 0, |recs|, k) {
      assert Reported(rev, k) <==> Reported(out, k);
    }
  }

  /** The records of `raw` at positions `m + 1` to `n`; from `p` on they are not newer than `R`. */
  ghost predicate GroupBelow(recs: seq<Rec>, R: int, m: int, p: int, n: int, raw: Key) {
    && 0 <= m + 1 <= p <= n + 1 <= |recs|
    && (forall i :: m < i <= n ==> KeyOf(recs[i]) == raw)
    && (forall i :: m < i < p ==> Rev(recs[i]) > R)
    && (p <= n ==> Rev(recs[p]) <= R)
  }

  /** The state of a descending loop at position `n`: everything above it is done. */
  ghost predicate Descended(out: seq<Hit>, recs: seq<Rec>, R: int, start: Option<Key>, end: Option<Key>, n: int, hi: int) {
    && 0 <= n + 1 <= hi <= |recs|
    && (n >= 0 ==> forall i :: n < i < hi ==> KeyOf(recs[i]) != KeyOf(recs[n]))
    && Covered(out, recs, R, start, end, n + 1, hi, true)
  }

  lemma SeenBelow(recs: seq<Rec>, R: int, m: int, p: int, n: int, hi: int, raw: Key, k: Key)
    requires GroupBelow(recs, R, m, p, n, raw) && n + 1 <= hi <= |recs|
    ensures SeenIn(recs, R, m + 1, hi, k) <==> SeenIn(recs, R, n + 1, hi, k) || (p <= n && k == raw)
  {
    if SeenIn(recs, R, m + 1, hi, k) {
      var i :| m + 1 <= i < hi && 0 <= i < |recs| && KeyOf(recs[i]) == k && Rev(recs[i]) <= R;
      assert i <= n ==> p <= n;
    }
    if p <= n {
      assert KeyOf(recs[p]) == raw;
    }
  }

  lemma ReportedAfter(out: seq<Hit>, recs: seq<Rec>, R: int, start: Option<Key>, end: Option<Key>, n: int, hi: int)
    requires Descended(out, recs, R, start, end, n, hi) && n >= 0 && Grouped(recs)
    ensures forall j :: 0 <= j < |out| ==> Less(KeyOf(recs[n]), out[j].key)
  {
    forall j | 0 <= j < |out| ensures Less(KeyOf(recs[n]), out[j].key) {
      assert Reported(out, out[j].key);
      var i :| n + 1 <= i < hi && 0 <= i < |recs| && KeyOf(recs[i]) == out[j].key && Rev(recs[i]) <= R;
    }
  }

  /** Reporting a group, or passing over one that is out of range or has no version yet. */
  lemma DescendStep(out: seq<Hit>, recs: seq<Rec>, last: nat, R: int, start: Option<Key>, end: Option<Key>, m: int, p: int, n: int, hi: int, raw: Key)
    requires RecsOK(recs, last) && Grouped(recs)
    requires Descended(out, recs, R, start, end, n, hi) && n >= 0 && m < n && GroupBelow(recs, R, m, p, n, raw)
    requires m >= 0 ==> KeyOf(recs[m]) != raw
    ensures Descended(if p <= n && InWindow(raw, start, end) then out + [Hit(raw, Payload(recs[p].val))] else out,
                      recs, R, start, end, m, hi)
  {
    assert KeyOf(recs[n]) == raw && KeyOf(recs[m + 1]) == raw;
    GroupsApart(recs, m, hi);
    if p <= n && InWindow(raw, start, end) {
      FirstInGroup(recs, last, R, m, p, n, raw);
      ReportedAfter(out, recs, R, start, end, n, hi);
      EmitBelow(out, Hit(raw, Payload(recs[p].val)), recs, R, start, end, m, p, n, hi);
    } else {
      PassBelow(out, recs, R, start, end, m, p, n, hi, raw);
    }
  }

  lemma PassBelow(out: seq<Hit>, recs: seq<Rec>, R: int, start: Option<Key>, end: Option<Key>, m: int, p: int, n: int, hi: int, raw: Key)
    requires Covered(out, recs, R, start, end, n + 1, hi, true) && GroupBelow(recs, R, m, p, n, raw) && n + 1 <= hi <= |recs|
    requires p > n || !InWindow(raw, start, end)
    ensures Covered(out, recs, R, start, end, m + 1, hi, true)
  {
    forall k ensures Reported(out, k) <==> InWindow(k, start, end) && SeenIn(recs, R, m + 1, hi, k) {
      SeenBelow(recs, R, m, p, n, hi, raw, k);
      assert Reported(out, k) <==> InWindow(k, start, end) && SeenIn(recs, R, n + 1, hi, k);
    }
  }

  lemma GroupsApart(recs: seq<Rec>, m: int, hi: int)
    requires Grouped(recs) && m + 1 < |recs| && (m >= 0 ==> KeyOf(recs[m]) != KeyOf(recs[m + 1])) && hi <= |recs|
    ensures m >= 0 ==> forall i :: m < i < hi ==> KeyOf(recs[i]) != KeyOf(recs[m])
  {
    Order();
  }

  lemma FirstInGroup(recs: seq<Rec>, last: nat, R: int, m: int, p: int, n: int, raw: Key)
    requires RecsOK(recs, last) && Grouped(recs) && GroupBelow(recs, R, m, p, n, raw) && p <= n
    requires m >= 0 ==> KeyOf(recs[m]) != raw
    ensures AsOf(Hist(recs), raw, R) == Some(recs[p].val)
  {
    hide Less;
    hide AsOf;
    hide Hist;
    hide RecsOK;
    Order();
    assert KeyOf(recs[m + 1]) == raw;
    assert m >= 0 ==> forall j :: 0 <= j <= m ==> Less(KeyOf(recs[j]), raw);
    FirstIsAsOf(recs, last, raw, R, p);
  }

  lemma EmitBelow(out: seq<Hit>, h: Hit, recs: seq<Rec>, R: int, start: Option<Key>, end: Option<Key>, m: int, p: int, n: int, hi: int)
    requires Covered(out, recs, R, start, end, n + 1, hi, true) && GroupBelow(recs, R, m, p, n, h.key) && n + 1 <= hi <= |recs|
    requires p <= n && InWindow(h.key, start, end) && h == Hit(h.key, Value(Hist(recs), h.key, R))
    requires forall j :: 0 <= j < |out| ==> Less(h.key, out[j].key)
    ensures Covered(out + [h], recs, R, start, end, m + 1, hi, true)
  {
    hide SeenIn;
    hide Reported;
    hide InWindow;
    hide Less;
    hide GroupBelow;
    forall k ensures Reported(out + [h], k) <==> InWindow(k, start, end) && SeenIn(recs, R, m + 1, hi, k) {
      assert Reported(out, k) <==> InWindow(k, start, end) && SeenIn(recs, R, n + 1, hi, k);
      ReportedSnoc(out, h, k);
      SeenBelow(recs, R, m, p, n, hi, h.key, k);
    }
  }

  /** Where `SeekGE` of the version key of `raw` lands, seen from the group of `raw`. */
  ghost predicate SplitAt(recs: seq<Rec>, R: int, lo: int, hi: int, p: int, raw: Key) {
    && 0 <= lo <= p <= hi <= |recs|
    && (forall i :: lo <= i < hi && KeyOf(recs[i]) == raw ==> (Rev(recs[i]) > R <==> i < p))
    && (p < hi ==> !Less(KeyOf(recs[p]), raw))
  }

  lemma SoughtSplits(recs: seq<Rec>, R: nat, lo: int, hi: int, n: int, p: int)
    requires R < TWO_64 && VersionsFit(recs, R)
    requires 0 <= lo <= n < hi <= |recs| && lo <= p <= hi
    requires forall i :: lo <= i < p ==> Less(recs[i].dk, DataKey(KeyOf(recs[n]), R))
    requires forall i :: p <= i < hi ==> !Less(recs[i].dk, DataKey(KeyOf(recs[n]), R))
    ensures SplitAt(recs, R, lo, hi, p, KeyOf(recs[n]))
  {
    var raw := KeyOf(recs[n]);
    LessIrreflexive(raw);
    assert forall i :: lo <= i < hi ==> (Less(recs[i].dk, DataKey(raw, R)) <==> NewerThan(recs[i], raw, R));
  }

  /** `belowGroup`, from anywhere: the last record below the group that ends at `n`. */
  method BelowGroup(it: Iter, raw: Key, ghost n: int)
    requires it.Ready() && Grouped(it.recs) && VersionsFit(it.recs, 0) && forall i :: 0 <= i < |it.recs| ==> Rev(it.recs[i]) > 0
    requires it.lo <= n < it.hi && KeyOf(it.recs[n]) == raw
    requires forall i :: n < i < it.hi ==> KeyOf(it.recs[i]) != raw
    modifies it
    ensures it.Ready() && it.pos < n
    ensures forall i :: it.pos < i <= n ==> KeyOf(it.recs[i]) == raw
    ensures it.pos >= it.lo ==> KeyOf(it.recs[it.pos]) != raw
  {
    it.SeekLT(DataKey(raw, 0));
    LandsOnGroup(it.recs, it.lo, it.hi, n, it.pos);
    while it.Valid() && KeyOf(it.recs[it.pos]) == raw
      invariant it.Ready() && it.pos <= n
      invariant forall i :: it.pos < i <= n ==> KeyOf(it.recs[i]) == raw
      invariant it.pos == n ==> it.Valid() && KeyOf(it.recs[it.pos]) == raw
      decreases it.pos
    {
      it.Prev();
    }
  }

  /** `SeekLT` of the version key for revision 0 lands on the oldest version of the key itself. */
  lemma LandsOnGroup(recs: seq<Rec>, lo: int, hi: int, n: int, pos: int)
    requires Grouped(recs) && VersionsFit(recs, 0) && forall i :: 0 <= i < |recs| ==> Rev(recs[i]) > 0
    requires 0 <= lo <= n < hi <= |recs| && lo <= pos + 1 <= hi
    requires forall i :: n < i < hi ==> KeyOf(recs[i]) != KeyOf(recs[n])
    requires forall i :: lo <= i <= pos ==> Less(recs[i].dk, DataKey(KeyOf(recs[n]), 0))
    requires forall i :: pos < i < hi ==> !Less(recs[i].dk, DataKey(KeyOf(recs[n]), 0))
    ensures pos == n
  {
    Order();
    assert forall i :: lo <= i < hi ==> (Less(recs[i].dk, DataKey(KeyOf(recs[n]), 0)) <==> NewerThan(recs[i], KeyOf(recs[n]), 0));
    assert NewerThan(recs[n], KeyOf(recs[n]), 0);
    if n + 1 < hi {
      assert !NewerThan(recs[n + 1], KeyOf(recs[n]), 0);
    }
  }

  /** One turn of the reverse loop. */
  method DescendGroup(it: Iter, last: nat, R: nat, start: Option<Key>, end: Option<Key>, raw: Key, out0: seq<Hit>)
    returns (out: seq<Hit>)
    requires it.Ready() && it.Valid() && R < TWO_64 && KeyOf(it.recs[it.pos]) == raw
    requires DescReadable(it.recs, last, R, start, end) && Window(it.recs, start, end, it.lo, it.hi)
    requires Descended(out0, it.recs, R, start, end, it.pos, it.hi) && (start.Some? ==> !Less(raw, start.value))
    modifies it
    ensures it.Ready() && it.pos < old(it.pos)
    ensures Descended(out, it.recs, R, start, end, it.pos, it.hi)
  {
    ghost var n := it.pos;
    out := out0;
    if end.Some? && !Less(raw, end.value) {
      BelowGroup(it, raw, n);
      SkipBelow(out, it.recs, last, R, start, end, it.pos, n, it.lo, it.hi, raw);
      return;
    }
    it.SeekGE(DataKey(raw, R));
    ghost var p := it.pos;
    SoughtSplits(it.recs, R, it.lo, it.hi, n, p);
    if it.Valid() && KeyOf(it.recs[it.pos]) == raw {
      out := out + [Hit(raw, Payload(it.recs[it.pos].val))];
    }
    BelowGroup(it, raw, n);
    TurnDone(out0, it.recs, last, R, start, end, it.pos, p, n, it.lo, it.hi, raw);
  }

  lemma SkipBelow(out: seq<Hit>, recs: seq<Rec>, last: nat, R: int, start: Option<Key>, end: Option<Key>, m: int, n: int, lo: int, hi: int, raw: Key)
    requires Descended(out, recs, R, start, end, n, hi) && n >= 0 && -1 <= m < n && !InWindow(raw, start, end) && Grouped(recs)
    requires (forall i :: m < i <= n ==> KeyOf(recs[i]) == raw)
    requires Window(recs, start, end, lo, hi) && lo <= m + 1 && (m >= lo ==> KeyOf(recs[m]) != raw)
    requires start.Some? ==> !Less(raw, start.value)
    ensures Descended(out, recs, R, start, end, m, hi)
  {
    forall k ensures Reported(out, k) <==> InWindow(k, start, end) && SeenIn(recs, R, m + 1, hi, k) {
      assert Reported(out, k) <==> InWindow(k, start, end) && SeenIn(recs, R, n + 1, hi, k);
    }
    assert KeyOf(recs[m + 1]) == raw;
    GroupsApart(recs, m, hi);
  }

  lemma TurnDone(out: seq<Hit>, recs: seq<Rec>, last: nat, R: int, start: Option<Key>, end: Option<Key>, m: int, p: int, n: int, lo: int, hi: int, raw: Key)
    requires RecsOK(recs, last) && Grouped(recs) && InWindow(raw, start, end) && 0 <= lo <= m + 1 <= n < hi <= |recs|
    requires Descended(out, recs, R, start, end, n, hi) && lo <= p <= hi
    requires (forall i :: m < i <= n ==> KeyOf(recs[i]) == raw) && (m >= lo ==> KeyOf(recs[m]) != raw)
    requires Window(recs, start, end, lo, hi)
    requires SplitAt(recs, R, lo, hi, p, raw)
    ensures Descended(if p < hi && KeyOf(recs[p]) == raw then out + [Hit(raw, Payload(recs[p].val))] else out,
                      recs, R, start, end, m, hi)
  {
    GroupFound(recs, R, m, p, n, lo, hi, raw);
    var q := if p < hi && KeyOf(recs[p]) == raw then p else n + 1;
    assert m >= 0 && m < lo ==> KeyOf(recs[m]) != raw;
    DescendStep(out, recs, last, R, start, end, m, q, n, hi, raw);
  }

  lemma GroupFound(recs: seq<Rec>, R: int, m: int, p: int, n: int, lo: int, hi: int, raw: Key)
    requires Grouped(recs) && 0 <= lo <= m + 1 <= n < hi <= |recs| && lo <= p <= hi
    requires (forall i :: m < i <= n ==> KeyOf(recs[i]) == raw) && (m >= lo ==> KeyOf(recs[m]) != raw)
    requires forall i :: n < i < hi ==> KeyOf(recs[i]) != KeyOf(recs[n])
    requires SplitAt(recs, R, lo, hi, p, raw)
    ensures GroupBelow(recs, R, m, if p < hi && KeyOf(recs[p]) == raw then p else n + 1, n, raw)
  {
    Order();
    assert KeyOf(recs[n]) == raw && KeyOf(recs[m + 1]) == raw;
    assert forall i :: lo <= i <= m ==> Less(KeyOf(recs[i]), raw);
    assert p > m;
  }

  /** What a descending range read relies on: it seeks the version, and revision 0 to leave the group. */
  ghost predicate DescReadable(recs: seq<Rec>, last: nat, R: nat, start: Option<Key>, end: Option<Key>)
    requires R < TWO_64
  {
    RecsOK(recs, last) && Grouped(recs) && BoundsFit(recs, start, end) && VersionsFit(recs, R) && VersionsFit(recs, 0)
  }

  lemma ApartIsDescReadable(recs: seq<Rec>, last: nat, R: nat, start: Option<Key>, end: Option<Key>)
    requires RecsOK(recs, last) && Separate(recs) && SeparateFrom(recs, start) && SeparateFrom(recs, end) && R < TWO_64
    ensures DescReadable(recs, last, R, start, end)
  {
    ApartIsReadable(recs, last, R, start, end);
    ApartIsReadable(recs, last, 0, start, end);
  }

  /** `RangeDesc`: the range of the ascending read, backwards. */
  method RangeDesc(recs: seq<Rec>, last: nat, R: nat, start: Option<Key>, end: Option<Key>) returns (out: seq<Hit>)
    requires R < TWO_64 && DescReadable(recs, last, R, start, end)
    ensures out == Backwards(Ranged(Hist(recs), R, start, end))
  {
    if start.Some? && end.Some? && !Less(start.value, end.value) {
      NothingWithin(recs, R, start.value, end.value);
      return [];
    }
    var it := new Iter(recs, LowerBound(start), UpperBound(end));
    WindowOf(recs, start, end, it.lo, it.hi);
    if end.Some? {
      // The iterator ends at this very bound, so there is never a record to step back from.
      it.SeekGE(DataUpper(end.value));
      AtHigh(recs, it.lo, it.hi, it.pos, DataUpper(end.value));
    }
    it.Last();
    out := [];
    while it.Valid()
      invariant it.Ready() && it.recs == recs && Descended(out, recs, R, start, end, it.pos, it.hi)
      decreases it.pos
    {
      var raw := KeyOf(it.recs[it.pos]);
      if start.Some? && Less(raw, start.value) {
        break;
      }
      out := DescendGroup(it, last, R, start, end, raw, out);
    }
    DescendedAll(out, recs, last, R, start, end, it.lo, it.hi, it.pos);
  }

  /** InWindow an iterator bounded by a key, seeking that key finds nothing. */
  lemma AtHigh(recs: seq<Rec>, lo: int, hi: int, pos: int, k: Key)
    requires 0 <= lo <= pos <= hi <= |recs|
    requires forall i :: lo <= i < hi ==> Less(recs[i].dk, k)
    requires forall i :: pos <= i < hi ==> !Less(recs[i].dk, k)
    ensures pos == hi
  {
    if lo < hi {
      var r := recs[if pos < hi then pos else lo];
    }
  }

  lemma DescendedAll(out: seq<Hit>, recs: seq<Rec>, last: nat, R: int, start: Option<Key>, end: Option<Key>, lo: int, hi: int, n: int)
    requires RecsOK(recs, last) && Grouped(recs) && Window(recs, start, end, lo, hi)
    requires Descended(out, recs, R, start, end, n, hi)
    requires n + 1 == lo
    ensures out == Backwards(Ranged(Hist(recs), R, start, end))
  {
    CoveredBeyond(out, recs, R, start, end, n + 1, hi, true);
    CoveredIsReverse(out, recs, last, R, start, end);
  }

  // ----- Counting -----

  function LiveHits(hits: seq<Hit>): nat {
    if hits == [] then 0 else LiveHits(hits[..|hits| - 1]) + if hits[|hits| - 1].payload.Some? then 1 else 0
  }

  /** The loop of `rangeCount`: the runs whose first version is live. */
  method CountRuns(it: Iter, end: Option<Key>) returns (n: nat)
    requires it.Ready() && it.pos == it.lo
    modifies it
    ensures n == LiveHits(Runs(it.recs, it.lo, it.hi, end))
  {
    hide Less;
    hide Past;
    hide Runs;
    hide Sorted;
    n := 0;
    ghost var out: seq<Hit> := [];
    assert out + Runs(it.recs, it.lo, it.hi, end) == Runs(it.recs, it.lo, it.hi, end);
    while it.Valid()
      invariant it.Ready() && it.lo <= it.pos
      invariant Runs(it.recs, it.lo, it.hi, end) == out + Runs(it.recs, it.pos, it.hi, end)
      invariant n == LiveHits(out)
      decreases it.hi - it.pos
    {
      var raw := KeyOf(it.recs[it.pos]);
      if end.Some? && !Less(raw, end.value) {
        break;
      }
      var val := it.recs[it.pos].val;
      if |val| > 0 && val[0] != 0 {
        n := n + 1;
      }
      ghost var first := it.pos;
      PassGroup(it, raw);
      PastIs(it.recs, first, it.pos, it.hi);
      RunsStep(out, it.recs, first, it.pos, it.hi, end);
      out := CountedHit(out, Hit(raw, Payload(val)));
    }
    RunsOver(it.recs, it.pos, it.hi, end);
    assert out + [] == out;
  }

  /** `rangeCount`: the live keys of a range at the latest revision. */
  method CountLatest(recs: seq<Rec>, last: nat, start: Option<Key>, end: Option<Key>) returns (n: nat)
    requires last < TWO_64 && RangeReadable(recs, last, last, start, end)
    ensures n == LiveHits(Ranged(Hist(recs), last, start, end))
  {
    if start.Some? && end.Some? && !Less(start.value, end.value) {
      NothingWithin(recs, last, start.value, end.value);
      return 0;
    }
    var it := new Iter(recs, LowerBound(start), UpperBound(end));
    WindowOf(recs, start, end, it.lo, it.hi);
    it.SeekGE(LowerBound(start));
    NothingBelow(recs, it.lo, it.pos, LowerBound(start));
    n := CountRuns(it, end);
    RunsAreRange(recs, last, start, end, it.lo, it.hi);
  }

  ghost method CountedHit(out: seq<Hit>, h: Hit) returns (r: seq<Hit>)
    ensures r == out + [h] && LiveHits(r) == LiveHits(out) + if h.payload.Some? then 1 else 0
  {
    r := out + [h];
    assert r[..|out|] == out;
  }

  /**
   `RangeCount`: the live keys at the latest revision, but at an older one every key
   with a version, deleted or not.
   */
  method RangeCount(recs: seq<Rec>, last: nat, R: nat, start: Option<Key>, end: Option<Key>) returns (n: nat)
    requires R < TWO_64 && RangeReadable(recs, last, R, start, end)
    ensures var hits := Ranged(Hist(recs), R, start, end);
            n == if R == last then LiveHits(hits) else |hits|
  {
    if R != last {
      var hits := RangeIter(recs, last, R, start, end);
      return |hits|;
    }
    n := CountLatest(recs, last, start, end);
  }

  /** Both are the number of live keys exactly when the range has no deleted key at that revision. */
  lemma {:induction false} CountsAgree(hits: seq<Hit>)
    ensures LiveHits(hits) <= |hits|
    ensures LiveHits(hits) == |hits| <==> forall i :: 0 <= i < |hits| ==> hits[i].payload.Some?
  {
    if hits != [] {
      var n := |hits| - 1;
      CountsAgree(hits[..n]);
      assert forall i :: 0 <= i < n ==> hits[..n][i] == hits[i];
    }
  }
}
