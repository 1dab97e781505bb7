/**
 Byte strings and the order every sorted structure of the system relies on.

 Encoded primary keys, physical MVCC keys and shard bounds are all compared by
 `bytes.Compare`, so the order is defined once here, with the facts about
 prefixes that the key encodings rest on.
 */
module Bytes {
  import opened Wrappers


  type byte = b: int | 0 <= b < 256

  type Key = seq<byte>

  /** `bytes.Compare(a, b) < 0`. */
  predicate Less(a: Key, b: Key) {
    b != [] && (a == [] || a[0] < b[0] || (a[0] == b[0] && Less(a[1..], b[1..])))
  }

  predicate Leq(a: Key, b: Key) {
    a == b || Less(a, b)
  }

  lemma {:induction false} LessIrreflexive(a: Key)
    ensures !Less(a, a)
  {
    if a != [] {
      LessIrreflexive(a[1..]);
    }
  }

  lemma {:induction false} LessTransitive(a: Key, b: Key, c: Key)
    requires Less(a, b) && Less(b, c)
    ensures Less(a, c)
  {
    if a != [] && a[0] == b[0] == c[0] {
      LessTransitive(a[1..], b[1..], c[1..]);
    }
  }

  lemma {:induction false} LessTotal(a: Key, b: Key)
    ensures Less(a, b) || a == b || Less(b, a)
  {
    if a != [] && b != [] && a[0] == b[0] {
      LessTotal(a[1..], b[1..]);
      assert a == [a[0]] + a[1..] && b == [b[0]] + b[1..];
    }
  }

  lemma LessAsymmetric(a: Key, b: Key)
    requires Less(a, b)
    ensures !Less(b, a) && a != b
  {
    LessIrreflexive(a);
    if Less(b, a) {
      LessTransitive(a, b, a);
    }
  }

  /** The order as one fact, for proofs that compare many keys. */
  lemma Order()
    ensures forall a: Key {:trigger Less(a, a)} :: !Less(a, a)
    ensures forall a: Key, b: Key {:trigger Less(a, b)} :: Less(a, b) || a == b || Less(b, a)
    ensures forall a: Key, b: Key {:trigger Less(a, b)} :: Less(a, b) ==> a != b && !Less(b, a)
    ensures forall a: Key, b: Key, c: Key {:trigger Less(a, b), Less(b, c)} :: Less(a, b) && Less(b, c) ==> Less(a, c)
  {
    forall a: Key ensures !Less(a, a) {
      LessIrreflexive(a);
    }
    forall a: Key, b: Key ensures Less(a, b) || a == b || Less(b, a) {
      LessTotal(a, b);
    }
    forall a: Key, b: Key | Less(a, b) ensures a != b && !Less(b, a) {
      LessAsymmetric(a, b);
    }
    forall a: Key, b: Key, c: Key | Less(a, b) && Less(b, c) ensures Less(a, c) {
      LessTransitive(a, b, c);
    }
  }

  /** A common prefix does not affect the comparison. */
  lemma {:induction false} LessUnderPrefix(p: Key, a: Key, b: Key)
    ensures Less(p + a, p + b) <==> Less(a, b)
  {
    if p == [] {
      assert p + a == a && p + b == b;
    } else {
      assert (p + a)[1..] == p[1..] + a && (p + b)[1..] == p[1..] + b;
      LessUnderPrefix(p[1..], a, b);
    }
  }

  /** At `i` the keys first differ: there `a` ends or has the smaller byte. */
  ghost predicate Differ(a: Key, b: Key, i: int) {
    0 <= i <= |a| && i < |b| && a[..i] == b[..i] && (i == |a| || a[i] < b[i])
  }

  /** The order is that of the first difference. */
  lemma LessDiffers(a: Key, b: Key)
    ensures Less(a, b) <==> exists i :: Differ(a, b, i)
  {
    if Less(a, b) {
      var i := FirstDifference(a, b);
    }
    if i :| Differ(a, b, i) {
      assert a == a[..i] + a[i..] && b == b[..i] + b[i..];
      LessUnderPrefix(a[..i], a[i..], b[i..]);
    }
  }

  lemma {:induction false} FirstDifference(a: Key, b: Key) returns (i: nat)
    requires Less(a, b)
    ensures Differ(a, b, i)
  {
    i := 0;
    if a != [] && a[0] == b[0] {
      i := FirstDifference(a[1..], b[1..]);
      assert a[..i + 1] == [a[0]] + a[1..][..i] && b[..i + 1] == [b[0]] + b[1..][..i];
      i := i + 1;
    }
  }

  /** When neither key is a prefix of the other, appending anything keeps their order. */
  lemma {:induction false} LessExtended(a: Key, b: Key, x: Key, y: Key)
    requires Less(a, b) && !(a <= b)
    ensures Less(a + x, b + y)
  {
    assert a != [];
    if a[0] == b[0] {
      assert a[1..] <= b[1..] ==> a <= b;
      LessExtended(a[1..], b[1..], x, y);
      assert (a + x)[1..] == a[1..] + x && (b + y)[1..] == b[1..] + y;
    }
  }

  /** A proper prefix sorts first. */
  lemma {:induction false} PrefixLess(a: Key, b: Key)
    requires a <= b && a != b
    ensures Less(a, b)
  {
    if a != [] {
      assert a[0] == b[0];
      assert a[1..] <= b[1..];
      PrefixLess(a[1..], b[1..]);
    }
  }

  lemma PrefixLeq(a: Key, b: Key)
    requires a <= b
    ensures !Less(b, a)
  {
    LessIrreflexive(a);
    if a != b {
      PrefixLess(a, b);
      LessAsymmetric(a, b);
    }
  }

  /** Strictly increasing sequences of keys: sorted without duplicates. */
  predicate Increasing(ks: seq<Key>) {
    forall i, j :: 0 <= i < j < |ks| ==> Less(ks[i], ks[j])
  }

  lemma {:induction false} HasLeast(s: set<Key>) returns (k: Key)
    requires s != {}
    ensures k in s && forall x :: x in s ==> Leq(k, x)
  {
    Order();
    var y :| y in s;
    if s == {y} {
      k := y;
    } else {
      var m := HasLeast(s - {y});
      k := if Less(y, m) then y else m;
      forall x | x in s ensures Leq(k, x) {
        if x != y {
          assert x in s - {y};
        }
      }
    }
  }

  ghost function Least(s: set<Key>): (k: Key)
    requires s != {}
    ensures k in s && forall x :: x in s ==> Leq(k, x)
  {
    assert exists k :: k in s && forall x :: x in s ==> Leq(k, x) by {
      var k := HasLeast(s);
    }
    var k :| k in s && forall x :: x in s ==> Leq(k, x);
    k
  }

  lemma ConsIncreasing(k: Key, ks: seq<Key>)
    requires Increasing(ks) && forall x :: x in ks ==> Leq(k, x) && x != k
    ensures Increasing([k] + ks)
    ensures forall x :: x in [k] + ks <==> x == k || x in ks
  {
    hide Less;
    var all := [k] + ks;
    forall i, j | 0 <= i < j < |all| ensures Less(all[i], all[j]) {
      assert all[j] == ks[j - 1] && ks[j - 1] in ks;
      if i > 0 {
        assert all[i] == ks[i - 1];
      }
    }
  }

  /** The keys of a finite set in ascending order. */
  ghost function Ascending(s: set<Key>): (ks: seq<Key>)
    ensures |ks| == |s|
    ensures forall x :: x in ks <==> x in s
    ensures Increasing(ks)
  {
    if s == {} then []
    else
      var k := Least(s);
      var rest := Ascending(s - {k});
      ConsIncreasing(k, rest);
      [k] + rest
  }

  /** An increasing sequence begins with the least of its keys. */
  lemma FirstIsLeast(ks: seq<Key>, s: set<Key>)
    requires Increasing(ks) && ks != [] && forall x :: x in ks <==> x in s
    ensures s != {} && ks[0] == Least(s)
    ensures Increasing(ks[1..]) && forall x :: x in ks[1..] <==> x in s - {ks[0]}
  {
    assert ks[0] in s;
    Order();
    hide Less;
    var k := Least(s);
    var i :| 0 <= i < |ks| && ks[i] == k;
    assert ks == [ks[0]] + ks[1..];
    forall x ensures x in ks[1..] <==> x in s - {ks[0]} {
      if x in ks[1..] {
        var j :| 0 <= j < |ks| - 1 && ks[1..][j] == x;
        assert ks[j + 1] == x;
      }
    }
  }

  lemma AscendingStep(s: set<Key>)
    ensures s == {} ==> Ascending(s) == []
    ensures s != {} ==> Ascending(s) == [Least(s)] + Ascending(s - {Least(s)})
  {
  }

  /** Only one increasing sequence has a given set of keys. */
  lemma {:induction false} AscendingUnique(ks: seq<Key>, s: set<Key>)
    requires Increasing(ks)
    requires forall x :: x in ks <==> x in s
    ensures ks == Ascending(s)
    decreases |ks|
  {
    hide Less;
    hide Increasing;
    hide Ascending;
    AscendingStep(s);
    if ks == [] {
      assert forall x :: x !in s;
      assert s == {};
    } else {
      FirstIsLeast(ks, s);
      AscendingUnique(ks[1..], s - {ks[0]});
      assert ks == [ks[0]] + ks[1..];
    }
  }

  /** The half-open window between two keys, open where there is none. */
  predicate InWindow(k: Key, lo: Option<Key>, hi: Option<Key>) {
    (lo.Some? ==> !Less(k, lo.value)) && (hi.Some? ==> Less(k, hi.value))
  }
}
