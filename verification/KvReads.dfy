/**
 Reads of the MVCC store: a point read and the range loops, as the iterator moves
 over the physical records.
 */
module KvReads {
  import opened Bytes
  import opened Endian
  import opened Wrappers
  import opened KvKeys
  import opened KvModel

  ghost predicate Sorted(recs: seq<Rec>) {
    forall i, j :: 0 <= i < j < |recs| ==> Less(recs[i].dk, recs[j].dk)
  }

  /** The first record not before `k` between two positions. */
  method Search(recs: seq<Rec>, k: Key, lo: nat, hi: nat) returns (i: int)
    requires Sorted(recs) && lo <= hi <= |recs|
    ensures lo <= i <= hi
    ensures forall x :: lo <= x < i ==> Less(recs[x].dk, k)
    ensures forall x :: i <= x < hi ==> !Less(recs[x].dk, k)
  {
    Order();
    i := lo;
    var j := hi;
    while i < j
      invariant lo <= i <= j <= hi
      invariant forall x :: lo <= x < i ==> Less(recs[x].dk, k)
      invariant forall x :: j <= x < hi ==> !Less(recs[x].dk, k)
    {
      var m := (i + j) / 2;
      if Less(recs[m].dk, k) {
        i := m + 1;
      } else {
        j := m;
      }
    }
  }

  /** An iterator over the records of a window of physical keys. */
  class Iter {
    const recs: seq<Rec>
    const lo: nat
    const hi: nat
    var pos: int

    ghost predicate Ready()
      reads this
    {
      Sorted(recs) && lo <= hi <= |recs| && lo <= pos + 1 && pos <= hi
    }

    predicate Valid()
      reads this
    {
      lo <= pos < hi && hi <= |recs|
    }

    constructor (rs: seq<Rec>, lower: Key, upper: Option<Key>)
      requires Sorted(rs)
      ensures Ready() && recs == rs && pos == lo
      ensures forall i :: 0 <= i < lo ==> Less(rs[i].dk, lower)
      ensures forall i :: lo <= i < |rs| ==> !Less(rs[i].dk, lower)
      ensures upper.None? ==> hi == |rs|
      ensures upper.Some? ==> forall i :: lo <= i < hi ==> Less(rs[i].dk, upper.value)
      ensures upper.Some? ==> forall i :: hi <= i < |rs| ==> !Less(rs[i].dk, upper.value)
    {
      var first := Search(rs, lower, 0, |rs|);
      var last: nat := |rs|;
      if upper.Some? {
        last := Search(rs, upper.value, first, |rs|);
      }
      recs, lo, hi, pos := rs, first, last, first;
    }

    method SeekGE(k: Key)
      requires Ready()
      modifies this
      ensures Ready() && lo <= pos <= hi
      ensures forall i :: lo <= i < pos ==> Less(recs[i].dk, k)
      ensures forall i :: pos <= i < hi ==> !Less(recs[i].dk, k)
    {
      pos := Search(recs, k, lo, hi);
    }

    method SeekLT(k: Key)
      requires Ready()
      modifies this
      ensures Ready() && lo <= pos + 1 <= hi
      ensures forall i :: lo <= i <= pos ==> Less(recs[i].dk, k)
      ensures forall i :: pos < i < hi ==> !Less(recs[i].dk, k)
    {
      var i := Search(recs, k, lo, hi);
      pos := i - 1;
    }

    method Next()
      requires Ready() && Valid()
      modifies this
      ensures Ready() && pos == old(pos) + 1
    {
      pos := pos + 1;
    }

    method Prev()
      requires Ready() && Valid()
      modifies this
      ensures Ready() && pos == old(pos) - 1
    {
      pos := pos - 1;
    }

    method Last()
      requires Ready()
      modifies this
      ensures Ready() && pos == hi - 1
    {
      pos := hi - 1;
    }
  }

  // ----- Point reads -----

  /** If `key` is stored, neither it nor another stored key hides behind the other. */
  ghost predicate StandsApart(recs: seq<Rec>, key: Key) {
    forall i, j :: 0 <= i < |recs| && 0 <= j < |recs| && KeyOf(recs[i]) == key ==>
      !Shadows(key, KeyOf(recs[j])) && !Shadows(KeyOf(recs[j]), key)
  }

  /** The first record not before a physical key, |recs| if there is none. */
  ghost function FirstFrom(recs: seq<Rec>, k: Key): (i: nat)
    ensures i <= |recs|
    ensures forall x :: 0 <= x < i ==> Less(recs[x].dk, k)
    ensures i < |recs| ==> !Less(recs[i].dk, k)
  {
    if recs == [] || !Less(recs[0].dk, k) then 0
    else
      var j := FirstFrom(recs[1..], k);
      assert forall x :: 1 <= x < j + 1 ==> recs[x] == recs[1..][x - 1];
      j + 1
  }

  /** What a point read answers, whatever is stored: the record it lands on must be of the key. */
  ghost function Answer(recs: seq<Rec>, key: Key, R: nat): Option<Bytestring>
    requires R < TWO_64
  {
    var i := FirstFrom(recs, DataKey(key, R));
    if i < |recs| && Less(recs[i].dk, DataUpper(key)) && KeyOf(recs[i]) == key then Payload(recs[i].val) else None
  }

  /** `Get`. The answer is the value as of the revision if the stored keys stand apart. */
  method Get(recs: seq<Rec>, last: nat, key: Key, R: nat) returns (val: Option<Bytestring>)
    requires RecsOK(recs, last) && R < TWO_64
    ensures val == Answer(recs, key, R)
    ensures StandsApart(recs, key) ==> val == Value(Hist(recs), key, R)
  {
    var it := new Iter(recs, DataKey(key, R), Some(DataUpper(key)));
    it.SeekGE(DataKey(key, R));
    NothingBelow(recs, it.lo, it.pos, DataKey(key, R));
    FirstIs(recs, DataKey(key, R), it.lo);
    if StandsApart(recs, key) {
      FirstHit(recs, last, key, R, it.lo, it.hi);
    }
    if !it.Valid() || KeyOf(recs[it.pos]) != key {
      return None;
    }
    val := Payload(recs[it.pos].val);
  }

  /** A point read is right for every key that stands apart. */
  lemma AnswerRight(recs: seq<Rec>, last: nat, key: Key, R: nat)
    requires RecsOK(recs, last) && R < TWO_64 && StandsApart(recs, key)
    ensures Answer(recs, key, R) == Value(Hist(recs), key, R)
  {
    hide Less;
    var lo, hi := FirstFrom(recs, DataKey(key, R)), FirstFrom(recs, DataUpper(key));
    FromFirst(recs, DataKey(key, R));
    FromFirst(recs, DataUpper(key));
    UpperAbove(key, R);
    FirstsInOrder(recs, DataKey(key, R), DataUpper(key));
    FirstHit(recs, last, key, R, lo, hi);
  }

  lemma FromFirst(recs: seq<Rec>, k: Key)
    requires Sorted(recs)
    ensures forall i :: FirstFrom(recs, k) <= i < |recs| ==> !Less(recs[i].dk, k)
  {
    Order();
    var f := FirstFrom(recs, k);
    forall i | f <= i < |recs| ensures !Less(recs[i].dk, k) {
      assert f < i ==> Less(recs[f].dk, recs[i].dk);
    }
  }

  lemma FirstsInOrder(recs: seq<Rec>, k: Key, u: Key)
    requires Less(k, u)
    ensures FirstFrom(recs, k) <= FirstFrom(recs, u)
  {
    Order();
    var f := FirstFrom(recs, u);
    assert f < |recs| ==> !Less(recs[f].dk, k);
  }

  lemma UpperAbove(key: Key, R: nat)
    requires R < TWO_64
    ensures Less(DataKey(key, R), DataUpper(key))
  {
    OwnBelowUpper(key, RevSuffix(R));
  }

  lemma FirstIs(recs: seq<Rec>, k: Key, i: nat)
    requires i <= |recs|
    requires forall x :: 0 <= x < i ==> Less(recs[x].dk, k)
    requires forall x :: i <= x < |recs| ==> !Less(recs[x].dk, k)
    ensures FirstFrom(recs, k) == i
  {
    var j := FirstFrom(recs, k);
    if j < |recs| {
      var r := recs[j];
    }
    if i < |recs| {
      var r := recs[i];
    }
  }

  lemma NothingBelow(recs: seq<Rec>, lo: nat, pos: int, k: Key)
    requires lo <= pos <= |recs|
    requires forall i :: lo <= i < |recs| ==> !Less(recs[i].dk, k)
    requires forall i :: lo <= i < pos ==> Less(recs[i].dk, k)
    ensures pos == lo
  {
    if lo < |recs| {
      var r := recs[lo];
    }
  }

  lemma OwnRecord(r: Rec, key: Key, R: nat)
    requires RecOK(r) && R < TWO_64 && KeyOf(r) == key
    ensures Less(r.dk, DataKey(key, R)) <==> Rev(r) > R
    ensures Less(r.dk, DataUpper(key))
  {
    SameKeyOrder(key, Rev(r), R);
    OwnBelowUpper(key, RevSuffix(Rev(r)));
  }

  /** A record of another key at the front of the window means the window has none of this key. */
  lemma ForeignFirst(a: Rec, b: Rec, key: Key, R: nat)
    requires RecOK(a) && RecOK(b) && R < TWO_64 && KeyOf(a) != key && KeyOf(b) == key
    requires !Shadows(key, KeyOf(a)) && !Shadows(KeyOf(a), key)
    requires !Less(a.dk, DataKey(key, R))
    ensures !Less(a.dk, b.dk)
  {
    Order();
    SeekVersion(a, key, R);
    DataBefore(b, a);
  }

  /** What stands first in the window of a point read. */
  lemma FirstHit(recs: seq<Rec>, last: nat, key: Key, R: nat, lo: nat, hi: nat)
    requires RecsOK(recs, last) && R < TWO_64 && lo <= hi <= |recs| && StandsApart(recs, key)
    requires forall i :: 0 <= i < lo ==> Less(recs[i].dk, DataKey(key, R))
    requires forall i :: lo <= i < |recs| ==> !Less(recs[i].dk, DataKey(key, R))
    requires forall i :: hi <= i < |recs| ==> !Less(recs[i].dk, DataUpper(key))
    ensures lo < hi && KeyOf(recs[lo]) == key ==> AsOf(Hist(recs), key, R) == Some(recs[lo].val)
    ensures lo == hi || KeyOf(recs[lo]) != key ==> AsOf(Hist(recs), key, R) == None
  {
    if lo < hi && KeyOf(recs[lo]) == key {
      OwnRecords(recs, key, R);
      FirstIsAsOf(recs, last, key, R, lo);
    } else {
      forall j | 0 <= j < |recs| && KeyOf(recs[j]) == key ensures Rev(recs[j]) > R {
        NoneOlder(recs, key, R, lo, hi, j);
      }
      NoneAsOf(recs, last, key, R);
    }
  }

  lemma NoneOlder(recs: seq<Rec>, key: Key, R: nat, lo: nat, hi: nat, j: nat)
    requires R < TWO_64 && lo <= hi <= |recs| && j < |recs| && KeyOf(recs[j]) == key && RecOK(recs[j])
    requires lo < |recs| ==> RecOK(recs[lo]) && !Less(recs[lo].dk, DataKey(key, R))
    requires lo < j ==> Less(recs[lo].dk, recs[j].dk)
    requires lo == hi || KeyOf(recs[lo]) != key
    requires j < lo ==> Less(recs[j].dk, DataKey(key, R))
    requires j >= hi ==> !Less(recs[j].dk, DataUpper(key))
    requires lo < |recs| ==> !Shadows(key, KeyOf(recs[lo])) && !Shadows(KeyOf(recs[lo]), key)
    ensures Rev(recs[j]) > R
  {
    OwnRecord(recs[j], key, R);
    if lo <= j && lo < hi {
      ForeignFirst(recs[lo], recs[j], key, R);
    }
  }

  lemma OwnRecords(recs: seq<Rec>, key: Key, R: nat)
    requires (forall i :: 0 <= i < |recs| ==> RecOK(recs[i])) && R < TWO_64
    ensures forall j :: 0 <= j < |recs| && KeyOf(recs[j]) == key ==>
              (Less(recs[j].dk, DataKey(key, R)) <==> Rev(recs[j]) > R) && Less(recs[j].dk, DataUpper(key))
  {
    forall j | 0 <= j < |recs| && KeyOf(recs[j]) == key
      ensures (Less(recs[j].dk, DataKey(key, R)) <==> Rev(recs[j]) > R) && Less(recs[j].dk, DataUpper(key))
    {
      OwnRecord(recs[j], key, R);
    }
  }

  // ----- Range reads -----

  /** `k` has a version not newer than `R` among the records of a stretch. */
  ghost predicate SeenIn(recs: seq<Rec>, R: int, from: int, to: int, k: Key) {
    exists i :: from <= i < to && 0 <= i < |recs| && KeyOf(recs[i]) == k && Rev(recs[i]) <= R
  }

  ghost predicate Reported(out: seq<Hit>, k: Key) {
    exists j :: 0 <= j < |out| && out[j].key == k
  }

  ghost predicate InKeyOrder(out: seq<Hit>, desc: bool) {
    forall i, j :: 0 <= i < j < |out| ==> if desc then Less(out[j].key, out[i].key) else Less(out[i].key, out[j].key)
  }

  /** What a range loop has done with the records of a stretch: every key of the range reported once, as of `R`. */
  ghost predicate Covered(out: seq<Hit>, recs: seq<Rec>, R: int, start: Option<Key>, end: Option<Key>, from: int, to: int, desc: bool) {
    && InKeyOrder(out, desc)
    && (forall j :: 0 <= j < |out| ==> out[j] == Hit(out[j].key, Value(Hist(recs), out[j].key, R)))
    && forall k :: Reported(out, k) <==> InWindow(k, start, end) && SeenIn(recs, R, from, to, k)
  }

  ghost function HitKeys(out: seq<Hit>): (ks: seq<Key>)
    ensures |ks| == |out| && forall i :: 0 <= i < |out| ==> ks[i] == out[i].key
  {
    seq(|out|, i requires 0 <= i < |out| => out[i].key)
  }

  /** A loop that covered all records has produced the range. */
  lemma CoveredIsRange(out: seq<Hit>, recs: seq<Rec>, last: nat, R: int, start: Option<Key>, end: Option<Key>)
    requires RecsOK(recs, last) && Covered(out, recs, R, start, end, 0, |recs|, false)
    ensures out == Ranged(Hist(recs), R, start, end)
  {
    hide Less;
    hide Value;
    hide Hist;
    var ks := HitKeys(out);
    forall k ensures k in ks <==> k in KeysAsOf(Hist(recs), R, start, end) {
      KeyAsOf(recs, last, k, R, start, end);
      assert k in ks <==> Reported(out, k) by {
        if Reported(out, k) {
          var j :| 0 <= j < |out| && out[j].key == k;
          assert ks[j] == k;
        }
      }
    }
    AscendingUnique(ks, KeysAsOf(Hist(recs), R, start, end));
  }

  /** Records outside the range add nothing. */
  lemma CoveredBeyond(out: seq<Hit>, recs: seq<Rec>, R: int, start: Option<Key>, end: Option<Key>, from: int, to: int, desc: bool)
    requires Covered(out, recs, R, start, end, from, to, desc) && 0 <= from <= to <= |recs|
    requires forall i :: 0 <= i < from || to <= i < |recs| ==> !InWindow(KeyOf(recs[i]), start, end)
    ensures Covered(out, recs, R, start, end, 0, |recs|, desc)
  {
    forall k ensures Reported(out, k) <==> InWindow(k, start, end) && SeenIn(recs, R, 0, |recs|, k) {
      assert Reported(out, k) <==> InWindow(k, start, end) && SeenIn(recs, R, from, to, k);
    }
  }

  /** The records of one key, `n` to `m`; those before `p` are newer than `R`. */
  ghost predicate GroupAt(recs: seq<Rec>, R: int, n: int, p: int, m: int, raw: Key) {
    && 0 <= n <= p <= m <= |recs|
    && (forall i :: n <= i < m ==> KeyOf(recs[i]) == raw)
    && (forall i :: n <= i < p ==> Rev(recs[i]) > R)
  }

  /** Going past a group that has no version yet. */
  lemma CoveredSkip(out: seq<Hit>, recs: seq<Rec>, R: int, start: Option<Key>, end: Option<Key>, from: int, n: int, m: int, raw: Key)
    requires Covered(out, recs, R, start, end, from, n, false) && from <= n && GroupAt(recs, R, n, m, m, raw)
    ensures Covered(out, recs, R, start, end, from, m, false)
  {
    forall k ensures Reported(out, k) <==> InWindow(k, start, end) && SeenIn(recs, R, from, m, k) {
      assert Reported(out, k) <==> InWindow(k, start, end) && SeenIn(recs, R, from, n, k);
    }
  }

  lemma ReportedSnoc(out: seq<Hit>, h: Hit, k: Key)
    ensures Reported(out + [h], k) <==> Reported(out, k) || h.key == k
  {
    if Reported(out, k) {
      var j :| 0 <= j < |out| && out[j].key == k;
      assert (out + [h])[j].key == k;
    }
    assert (out + [h])[|out|] == h;
  }

  /** Keys reported from records before a group sort before its key. */
  lemma ReportedBefore(out: seq<Hit>, recs: seq<Rec>, R: int, start: Option<Key>, end: Option<Key>, from: int, n: int, raw: Key)
    requires Covered(out, recs, R, start, end, from, n, false) && 0 <= from <= n < |recs| && Grouped(recs)
    requires KeyOf(recs[n]) == raw && forall i :: 0 <= i < n ==> KeyOf(recs[i]) != raw
    ensures forall j :: 0 <= j < |out| ==> Less(out[j].key, raw)
  {
    forall j | 0 <= j < |out| ensures Less(out[j].key, raw) {
      assert Reported(out, out[j].key);
      var i :| from <= i < n && 0 <= i < |recs| && KeyOf(recs[i]) == out[j].key && Rev(recs[i]) <= R;
    }
  }

  /** Reporting a group by its newest version not newer than `R`. */
  lemma CoveredEmit(out: seq<Hit>, recs: seq<Rec>, last: nat, R: int, start: Option<Key>, end: Option<Key>, from: int, n: int, p: int, m: int, raw: Key)
    requires RecsOK(recs, last) && Grouped(recs)
    requires Covered(out, recs, R, start, end, from, n, false) && 0 <= from <= n && GroupAt(recs, R, n, p, m, raw)
    requires p < m && Rev(recs[p]) <= R && InWindow(raw, start, end)
    requires forall i :: 0 <= i < n ==> KeyOf(recs[i]) != raw
    ensures Covered(out + [Hit(raw, Payload(recs[p].val))], recs, R, start, end, from, m, false)
  {
    var h := Hit(raw, Payload(recs[p].val));
    FirstIsAsOf(recs, last, raw, R, p);
    ReportedBefore(out, recs, R, start, end, from, n, raw);
    EmitCovers(out, h, recs, R, start, end, from, n, p, m);
  }

  lemma EmitCovers(out: seq<Hit>, h: Hit, recs: seq<Rec>, R: int, start: Option<Key>, end: Option<Key>, from: int, n: int, p: int, m: int)
    requires Covered(out, recs, R, start, end, from, n, false) && 0 <= from <= n && GroupAt(recs, R, n, p, m, h.key)
    requires p < m && Rev(recs[p]) <= R && InWindow(h.key, start, end) && h == Hit(h.key, Value(Hist(recs), h.key, R))
    requires forall j :: 0 <= j < |out| ==> Less(out[j].key, h.key)
    ensures Covered(out + [h], recs, R, start, end, from, m, false)
  {
    forall k ensures Reported(out + [h], k) <==> InWindow(k, start, end) && SeenIn(recs, R, from, m, k) {
      assert Reported(out, k) <==> InWindow(k, start, end) && SeenIn(recs, R, from, n, k);
      ReportedSnoc(out, h, k);
      SeenExtended(recs, R, from, n, p, m, h.key, k);
    }
  }

  lemma SeenExtended(recs: seq<Rec>, R: int, from: int, n: int, p: int, m: int, raw: Key, k: Key)
    requires 0 <= from <= n && GroupAt(recs, R, n, p, m, raw) && p < m && Rev(recs[p]) <= R
    ensures SeenIn(recs, R, from, m, k) <==> SeenIn(recs, R, from, n, k) || k == raw
  {
    if SeenIn(recs, R, from, n, k) {
      var i :| from <= i < n && 0 <= i < |recs| && KeyOf(recs[i]) == k && Rev(recs[i]) <= R;
    }
    assert KeyOf(recs[p]) == raw;
  }

  // ----- The window of a range read -----

  /** Sorts before the version of `raw` as of `R`. */
  ghost predicate NewerThan(r: Rec, raw: Key, R: int) {
    Less(KeyOf(r), raw) || (KeyOf(r) == raw && Rev(r) > R)
  }

  /** Among the records, the version key of every stored key sorts where its key and revision put it. */
  ghost predicate VersionsFit(recs: seq<Rec>, R: nat)
    requires R < TWO_64
  {
    forall i, j :: 0 <= i < |recs| && 0 <= j < |recs| ==>
      (Less(recs[i].dk, DataKey(KeyOf(recs[j]), R)) <==> NewerThan(recs[i], KeyOf(recs[j]), R))
  }

  /** ... and its upper bound sorts behind its records and before those of greater keys. */
  ghost predicate UppersFit(recs: seq<Rec>) {
    forall i, j :: 0 <= i < |recs| && 0 <= j < |recs| ==>
      (Less(recs[i].dk, DataUpper(KeyOf(recs[j]))) <==> !Less(KeyOf(recs[j]), KeyOf(recs[i])))
  }

  /** The bounds of a range cut the records where the range ends. */
  ghost predicate BoundsFit(recs: seq<Rec>, start: Option<Key>, end: Option<Key>) {
    forall i :: 0 <= i < |recs| ==>
      && (Less(recs[i].dk, LowerBound(start)) <==> start.Some? && Less(KeyOf(recs[i]), start.value))
      && (end.Some? && Less(KeyOf(recs[i]), end.value) ==> Less(recs[i].dk, DataUpper(end.value)))
  }

  /** What an ascending range read relies on: at an older revision it seeks, at the latest it does not. */
  ghost predicate RangeReadable(recs: seq<Rec>, last: nat, R: nat, start: Option<Key>, end: Option<Key>)
    requires R < TWO_64
  {
    && RecsOK(recs, last) && Grouped(recs) && BoundsFit(recs, start, end)
    && (R != last ==> VersionsFit(recs, R) && UppersFit(recs))
  }

  /** All of it holds of keys that stand apart from one another and from the bounds. */
  lemma ApartIsReadable(recs: seq<Rec>, last: nat, R: nat, start: Option<Key>, end: Option<Key>)
    requires RecsOK(recs, last) && Separate(recs) && SeparateFrom(recs, start) && SeparateFrom(recs, end) && R < TWO_64
    ensures RangeReadable(recs, last, R, start, end) && VersionsFit(recs, R) && UppersFit(recs)
  {
    AreGrouped(recs, last);
    forall i, j | 0 <= i < |recs| && 0 <= j < |recs|
      ensures Less(recs[i].dk, DataKey(KeyOf(recs[j]), R)) <==> NewerThan(recs[i], KeyOf(recs[j]), R)
      ensures Less(recs[i].dk, DataUpper(KeyOf(recs[j]))) <==> !Less(KeyOf(recs[j]), KeyOf(recs[i]))
    {
      SeekVersion(recs[i], KeyOf(recs[j]), R);
      SeekUpper(recs[i], KeyOf(recs[j]));
    }
    forall i | 0 <= i < |recs|
      ensures Less(recs[i].dk, LowerBound(start)) <==> start.Some? && Less(KeyOf(recs[i]), start.value)
      ensures end.Some? && Less(KeyOf(recs[i]), end.value) ==> Less(recs[i].dk, DataUpper(end.value))
    {
      WindowAt(recs[i], start, end);
    }
  }

  function LowerBound(start: Option<Key>): Key {
    if start.None? then [1] else DataLower(start.value)
  }

  function UpperBound(end: Option<Key>): Option<Key> {
    if end.None? then None else Some(DataUpper(end.value))
  }

  /** The bounds of the iterator leave out only records outside the range, and none of them at the front. */
  ghost predicate Window(recs: seq<Rec>, start: Option<Key>, end: Option<Key>, lo: int, hi: int) {
    && 0 <= lo <= hi <= |recs| && (start.None? ==> lo == 0) && (end.None? ==> hi == |recs|)
    && (forall i :: 0 <= i < lo ==> start.Some? ==> Less(KeyOf(recs[i]), start.value))
    && (forall i :: lo <= i < |recs| ==> start.Some? ==> !Less(KeyOf(recs[i]), start.value))
    && (forall i :: hi <= i < |recs| ==> end.Some? ==> !Less(KeyOf(recs[i]), end.value))
  }

  lemma WindowOf(recs: seq<Rec>, start: Option<Key>, end: Option<Key>, lo: nat, hi: nat)
    requires BoundsFit(recs, start, end) && lo <= hi <= |recs|
    requires forall i :: 0 <= i < lo ==> Less(recs[i].dk, LowerBound(start))
    requires forall i :: lo <= i < |recs| ==> !Less(recs[i].dk, LowerBound(start))
    requires if end.None? then hi == |recs| else forall i :: hi <= i < |recs| ==> !Less(recs[i].dk, UpperBound(end).value)
    ensures Window(recs, start, end, lo, hi)
  {
    if lo > 0 {
      assert Less(recs[0].dk, LowerBound(start));
    }
    forall i | 0 <= i < lo ensures start.Some? && Less(KeyOf(recs[i]), start.value) {
      assert Less(recs[i].dk, LowerBound(start));
    }
  }

  lemma WindowAt(r: Rec, start: Option<Key>, end: Option<Key>)
    requires RecOK(r)
    requires start.Some? ==> !Shadows(KeyOf(r), start.value)
    requires end.Some? ==> !Shadows(KeyOf(r), end.value)
    ensures Less(r.dk, LowerBound(start)) <==> start.Some? && Less(KeyOf(r), start.value)
    ensures end.Some? && Less(KeyOf(r), end.value) ==> Less(r.dk, DataUpper(end.value))
  {
    if start.Some? {
      SeekLower(r, start.value);
    } else {
      assert r.dk[0] == 1 && [1][1..] == [];
    }
    if end.Some? && Less(KeyOf(r), end.value) {
      BelowEnd(r, end.value);
    }
  }

  // ----- Ascending range reads -----

  /** Nothing before `n` has the key at `n`. */
  ghost predicate GroupStart(recs: seq<Rec>, n: int) {
    0 <= n < |recs| ==> forall i :: 0 <= i < n ==> KeyOf(recs[i]) != KeyOf(recs[n])
  }

  /** The state of an ascending loop at position `n`. */
  ghost predicate Ascended(out: seq<Hit>, recs: seq<Rec>, R: int, start: Option<Key>, end: Option<Key>, lo: int, n: int) {
    lo <= n <= |recs| && GroupStart(recs, n) && Covered(out, recs, R, start, end, lo, n, false)
  }

  /** Past the end of a group another one starts. */
  lemma NextGroup(recs: seq<Rec>, n: int, m: int, raw: Key)
    requires Grouped(recs) && 0 <= n < m <= |recs| && (forall i :: n <= i < m ==> KeyOf(recs[i]) == raw)
    requires m < |recs| ==> KeyOf(recs[m]) != raw
    ensures GroupStart(recs, m)
  {
    Order();
    if m < |recs| {
      forall i | 0 <= i < m ensures KeyOf(recs[i]) != KeyOf(recs[m]) {
        assert KeyOf(recs[m - 1]) == raw;
      }
    }
  }

  lemma AllAfter(recs: seq<Rec>, n: int, end: Key)
    requires Grouped(recs) && 0 <= n < |recs| && !Less(KeyOf(recs[n]), end)
    ensures forall i :: n <= i < |recs| ==> !Less(KeyOf(recs[i]), end)
  {
    Order();
  }

  /** The loop is over: what is left lies outside the range. */
  lemma AscendedAll(out: seq<Hit>, recs: seq<Rec>, last: nat, R: int, start: Option<Key>, end: Option<Key>, lo: int, hi: int, n: int)
    requires RecsOK(recs, last) && Grouped(recs) && Window(recs, start, end, lo, hi)
    requires Ascended(out, recs, R, start, end, lo, n)
    requires n < hi ==> end.Some? && !Less(KeyOf(recs[n]), end.value)
    ensures out == Ranged(Hist(recs), R, start, end)
  {
    if n < hi {
      AllAfter(recs, n, end.value);
    }
    CoveredBeyond(out, recs, R, start, end, lo, n, false);
    CoveredIsRange(out, recs, last, R, start, end);
  }

  lemma AscendStart(recs: seq<Rec>, last: nat, R: int, start: Option<Key>, end: Option<Key>, lo: int, hi: int)
    requires Window(recs, start, end, lo, hi)
    ensures Ascended([], recs, R, start, end, lo, lo)
  {
    Order();
  }

  /** One group reported or passed over. */
  lemma AscendStep(out: seq<Hit>, recs: seq<Rec>, last: nat, R: int, start: Option<Key>, end: Option<Key>, lo: int, n: int, p: int, m: int, raw: Key)
    requires RecsOK(recs, last) && Grouped(recs) && 0 <= lo
    requires Ascended(out, recs, R, start, end, lo, n) && n < m && GroupAt(recs, R, n, p, m, raw)
    requires m < |recs| ==> KeyOf(recs[m]) != raw
    requires p < m ==> Rev(recs[p]) <= R && InWindow(raw, start, end)
    ensures Ascended(if p < m then out + [Hit(raw, Payload(recs[p].val))] else out, recs, R, start, end, lo, m)
  {
    NextGroup(recs, n, m, raw);
    if p < m {
      assert KeyOf(recs[n]) == raw;
      CoveredEmit(out, recs, last, R, start, end, lo, n, p, m, raw);
    } else {
      CoveredSkip(out, recs, R, start, end, lo, n, m, raw);
    }
  }

  /** `Next` until the key changes. */
  method PassGroup(it: Iter, raw: Key)
    requires it.Ready() && it.Valid() && KeyOf(it.recs[it.pos]) == raw
    modifies it
    ensures it.Ready() && old(it.pos) < it.pos
    ensures forall i :: old(it.pos) <= i < it.pos ==> KeyOf(it.recs[i]) == raw
    ensures it.pos < it.hi ==> KeyOf(it.recs[it.pos]) != raw
  {
    it.Next();
    while it.Valid() && KeyOf(it.recs[it.pos]) == raw
      invariant it.Ready() && old(it.pos) < it.pos
      invariant forall i :: old(it.pos) <= i < it.pos ==> KeyOf(it.recs[i]) == raw
      decreases it.hi - it.pos
    {
      it.Next();
    }
  }

  /** The position behind the records that share the key at `n`. */
  ghost function Past(recs: seq<Rec>, n: nat, hi: nat): (m: nat)
    requires n < hi <= |recs|
    ensures n < m <= hi && (forall i :: n <= i < m ==> KeyOf(recs[i]) == KeyOf(recs[n]))
    ensures m < hi ==> KeyOf(recs[m]) != KeyOf(recs[n])
    decreases hi - n
  {
    if n + 1 < hi && KeyOf(recs[n + 1]) == KeyOf(recs[n]) then Past(recs, n + 1, hi) else n + 1
  }

  /** The first record of each run of equal keys, up to a key that is not before the end. */
  ghost function Runs(recs: seq<Rec>, n: nat, hi: nat, end: Option<Key>): seq<Hit>
    requires n <= hi <= |recs|
    decreases hi - n
  {
    if n == hi || (end.Some? && !Less(KeyOf(recs[n]), end.value)) then []
    else [Hit(KeyOf(recs[n]), Payload(recs[n].val))] + Runs(recs, Past(recs, n, hi), hi, end)
  }

  lemma {:induction false} PastIs(recs: seq<Rec>, n: nat, m: nat, hi: nat)
    requires n < m <= hi <= |recs| && (forall i :: n <= i < m ==> KeyOf(recs[i]) == KeyOf(recs[n]))
    requires m < hi ==> KeyOf(recs[m]) != KeyOf(recs[n])
    ensures Past(recs, n, hi) == m
    decreases m - n
  {
    if n + 1 < m {
      PastIs(recs, n + 1, m, hi);
    }
  }

  lemma RunsStep(out: seq<Hit>, recs: seq<Rec>, n: nat, m: nat, hi: nat, end: Option<Key>)
    requires n < m <= hi <= |recs| && m == Past(recs, n, hi) && (end.Some? ==> Less(KeyOf(recs[n]), end.value))
    ensures out + Runs(recs, n, hi, end) == out + [Hit(KeyOf(recs[n]), Payload(recs[n].val))] + Runs(recs, m, hi, end)
  {
    hide Less;
    hide Past;
  }

  /** The latest-revision loop: the first version of each run is the answer, the rest is stepped over. */
  method RangeLatest(it: Iter, end: Option<Key>) returns (out: seq<Hit>)
    requires it.Ready() && it.pos == it.lo
    modifies it
    ensures out == Runs(it.recs, it.lo, it.hi, end)
  {
    hide Less;
    hide Past;
    hide Runs;
    hide Sorted;
    out := [];
    assert out + Runs(it.recs, it.lo, it.hi, end) == Runs(it.recs, it.lo, it.hi, end);
    while it.Valid()
      invariant it.Ready() && it.lo <= it.pos
      invariant Runs(it.recs, it.lo, it.hi, end) == out + Runs(it.recs, it.pos, it.hi, end)
      decreases it.hi - it.pos
    {
      var raw := KeyOf(it.recs[it.pos]);
      if end.Some? && !Less(raw, end.value) {
        break;
      }
      ghost var n, out0 := it.pos, out;
      out := out + [Hit(raw, Payload(it.recs[it.pos].val))];
      PassGroup(it, raw);
      PastIs(it.recs, n, it.pos, it.hi);
      RunsStep(out0, it.recs, n, it.pos, it.hi, end);
    }
    RunsOver(it.recs, it.pos, it.hi, end);
    assert out + [] == out;
  }

  lemma RunsOver(recs: seq<Rec>, n: nat, hi: nat, end: Option<Key>)
    requires n <= hi <= |recs| && (n < hi ==> end.Some? && !Less(KeyOf(recs[n]), end.value))
    ensures Runs(recs, n, hi, end) == []
  {
  }

  /** In a grouped store the runs of the window are the range. */
  lemma {:induction false} RunsAscend(out: seq<Hit>, recs: seq<Rec>, last: nat, start: Option<Key>, end: Option<Key>, lo: nat, hi: nat, n: nat)
    requires RecsOK(recs, last) && Grouped(recs) && Window(recs, start, end, lo, hi) && n <= hi
    requires Ascended(out, recs, last, start, end, lo, n)
    ensures out + Runs(recs, n, hi, end) == Ranged(Hist(recs), last, start, end)
    decreases hi - n
  {
    hide Grouped;
    hide Ranged;
    hide Runs;
    hide Less;
    if n == hi || (end.Some? && !Less(KeyOf(recs[n]), end.value)) {
      AscendedAll(out, recs, last, last, start, end, lo, hi, n);
      RunsOver(recs, n, hi, end);
      assert out + [] == out;
    } else {
      var raw, m := KeyOf(recs[n]), Past(recs, n, hi);
      var h := Hit(raw, Payload(recs[n].val));
      PastHigh(recs, start, end, lo, hi, m, raw);
      AscendStep(out, recs, last, last, start, end, lo, n, n, m, raw);
      RunsAscend(out + [h], recs, last, start, end, lo, hi, m);
      RunsStep(out, recs, n, m, hi, end);
    }
  }

  lemma RunsAreRange(recs: seq<Rec>, last: nat, start: Option<Key>, end: Option<Key>, lo: nat, hi: nat)
    requires RecsOK(recs, last) && Grouped(recs) && Window(recs, start, end, lo, hi)
    ensures Runs(recs, lo, hi, end) == Ranged(Hist(recs), last, start, end)
  {
    AscendStart(recs, last, last, start, end, lo, hi);
    RunsAscend([], recs, last, start, end, lo, hi, lo);
    assert [] + Runs(recs, lo, hi, end) == Runs(recs, lo, hi, end);
  }

  /** `SeekGE` to a version key, from the start of the group of a stored key. */
  lemma SoughtVersion(recs: seq<Rec>, R: nat, lo: int, hi: int, n: int, p: int)
    requires Grouped(recs) && R < TWO_64 && VersionsFit(recs, R)
    requires 0 <= lo <= n < hi <= |recs| && lo <= p <= hi && GroupStart(recs, n)
    requires forall i :: lo <= i < p ==> Less(recs[i].dk, DataKey(KeyOf(recs[n]), R))
    requires forall i :: p <= i < hi ==> !Less(recs[i].dk, DataKey(KeyOf(recs[n]), R))
    ensures n <= p && GroupAt(recs, R, n, p, p, KeyOf(recs[n]))
    ensures p < hi && KeyOf(recs[p]) == KeyOf(recs[n]) ==> Rev(recs[p]) <= R
    ensures p < hi && KeyOf(recs[p]) != KeyOf(recs[n]) ==> n < p
    ensures p == hi ==> n < p
  {
    var raw := KeyOf(recs[n]);
    assert forall i :: lo <= i < hi ==> (Less(recs[i].dk, DataKey(raw, R)) <==> NewerThan(recs[i], raw, R));
    SoughtIn(recs, R, lo, hi, n, p);
  }

  lemma SoughtIn(recs: seq<Rec>, R: int, lo: int, hi: int, n: int, p: int)
    requires Grouped(recs) && 0 <= lo <= n < hi <= |recs| && lo <= p <= hi && GroupStart(recs, n)
    requires forall i :: lo <= i < p ==> NewerThan(recs[i], KeyOf(recs[n]), R)
    requires forall i :: p <= i < hi ==> !NewerThan(recs[i], KeyOf(recs[n]), R)
    ensures n <= p && GroupAt(recs, R, n, p, p, KeyOf(recs[n]))
    ensures p < hi && KeyOf(recs[p]) == KeyOf(recs[n]) ==> Rev(recs[p]) <= R
    ensures p < hi && KeyOf(recs[p]) != KeyOf(recs[n]) ==> n < p
    ensures p == hi ==> n < p
  {
    Order();
    var raw := KeyOf(recs[n]);
    assert forall i :: lo <= i < n ==> Less(KeyOf(recs[i]), raw);
    assert p < n ==> !NewerThan(recs[p], raw, R);
    forall i | n <= i < p ensures KeyOf(recs[i]) == raw && Rev(recs[i]) > R {
      assert NewerThan(recs[i], raw, R);
      assert n < i ==> !Less(KeyOf(recs[i]), raw);
    }
    if p < hi && KeyOf(recs[p]) == raw {
      assert !NewerThan(recs[p], raw, R);
    }
  }

  /** `SeekGE` past a group, from one of its records. */
  lemma SoughtNext(recs: seq<Rec>, lo: int, hi: int, p: int, m: int)
    requires Grouped(recs) && UppersFit(recs)
    requires 0 <= lo <= p < hi <= |recs| && lo <= m <= hi
    requires forall i :: lo <= i < m ==> Less(recs[i].dk, DataUpper(KeyOf(recs[p])))
    requires forall i :: m <= i < hi ==> !Less(recs[i].dk, DataUpper(KeyOf(recs[p])))
    ensures p < m && forall i :: p <= i < m ==> KeyOf(recs[i]) == KeyOf(recs[p])
    ensures m < hi ==> KeyOf(recs[m]) != KeyOf(recs[p])
  {
    Order();
    var raw := KeyOf(recs[p]);
    assert forall i :: lo <= i < hi ==> (Less(recs[i].dk, DataUpper(raw)) <==> !Less(raw, KeyOf(recs[i])));
  }

  /** One turn of the loop below: the version of the key at hand, if it has one yet, and past the key. */
  method SeekGroup(it: Iter, last: nat, R: nat, start: Option<Key>, end: Option<Key>, raw: Key, out0: seq<Hit>)
    returns (out: seq<Hit>)
    requires it.Ready() && it.Valid() && R < TWO_64 && KeyOf(it.recs[it.pos]) == raw
    requires RecsOK(it.recs, last) && Grouped(it.recs) && VersionsFit(it.recs, R) && UppersFit(it.recs)
    requires Window(it.recs, start, end, it.lo, it.hi)
    requires Ascended(out0, it.recs, R, start, end, it.lo, it.pos) && (end.Some? ==> Less(raw, end.value))
    modifies it
    ensures it.Ready() && old(it.pos) < it.pos
    ensures Ascended(out, it.recs, R, start, end, it.lo, it.pos)
  {
    ghost var n := it.pos;
    out := out0;
    it.SeekGE(DataKey(raw, R));
    ghost var p := it.pos;
    SoughtVersion(it.recs, R, it.lo, it.hi, n, p);
    if it.Valid() && KeyOf(it.recs[it.pos]) == raw {
      out := out + [Hit(raw, Payload(it.recs[it.pos].val))];
      it.SeekGE(DataUpper(raw));
      SoughtNext(it.recs, it.lo, it.hi, p, it.pos);
    }
    PastHigh(it.recs, start, end, it.lo, it.hi, it.pos, raw);
    AscendStep(out0, it.recs, last, R, start, end, it.lo, n, p, it.pos, raw);
  }

  /** The loop for an older revision: seek to the version of each key, then past the key. */
  method RangeSeek(it: Iter, last: nat, R: nat, start: Option<Key>, end: Option<Key>) returns (out: seq<Hit>)
    requires it.Ready() && it.pos == it.lo && R < TWO_64
    requires RecsOK(it.recs, last) && Grouped(it.recs) && VersionsFit(it.recs, R) && UppersFit(it.recs)
    requires Window(it.recs, start, end, it.lo, it.hi)
    modifies it
    ensures out == Ranged(Hist(it.recs), R, start, end)
  {
    out := [];
    AscendStart(it.recs, last, R, start, end, it.lo, it.hi);
    while it.Valid()
      invariant it.Ready() && Ascended(out, it.recs, R, start, end, it.lo, it.pos)
      decreases it.hi - it.pos
    {
      var raw := KeyOf(it.recs[it.pos]);
      if end.Some? && !Less(raw, end.value) {
        break;
      }
      out := SeekGroup(it, last, R, start, end, raw, out);
    }
    AscendedAll(out, it.recs, last, R, start, end, it.lo, it.hi, it.pos);
  }

  /** Behind the window no record has a key of the range. */
  lemma PastHigh(recs: seq<Rec>, start: Option<Key>, end: Option<Key>, lo: int, hi: int, m: int, raw: Key)
    requires Window(recs, start, end, lo, hi) && lo <= m <= hi
    requires m < hi ==> KeyOf(recs[m]) != raw
    requires end.Some? ==> Less(raw, end.value)
    ensures m < |recs| ==> KeyOf(recs[m]) != raw
  {
  }

  /** `rangeIter` for revision `R` of a store whose last revision is `last`. */
  method RangeIter(recs: seq<Rec>, last: nat, R: nat, start: Option<Key>, end: Option<Key>) returns (out: seq<Hit>)
    requires R < TWO_64 && RangeReadable(recs, last, R, start, end)
    ensures out == Ranged(Hist(recs), R, start, end)
  {
    if start.Some? && end.Some? && !Less(start.value, end.value) {
      NothingWithin(recs, R, start.value, end.value);
      return [];
    }
    var it := new Iter(recs, LowerBound(start), UpperBound(end));
    WindowOf(recs, start, end, it.lo, it.hi);
    it.SeekGE(LowerBound(start));
    NothingBelow(recs, it.lo, it.pos, LowerBound(start));
    if R == last {
      out := RangeLatest(it, end);
      RunsAreRange(recs, last, start, end, it.lo, it.hi);
    } else {
      out := RangeSeek(it, last, R, start, end);
    }
  }

  lemma NothingWithin(recs: seq<Rec>, R: nat, start: Key, end: Key)
    requires !Less(start, end)
    ensures Ranged(Hist(recs), R, Some(start), Some(end)) == []
  {
    Order();
    assert KeysAsOf(Hist(recs), R, Some(start), Some(end)) == {};
  }
}
