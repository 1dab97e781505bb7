/**
 Physical keys of the MVCC byte store: one record per version, the newest version of
 a key first, and what the byte order of these keys says about keys and revisions.
 */
module KvKeys {
  import opened Bytes
  import opened Endian

  const SUFFIX: nat := 8

  /** The eight bytes of the complement of a revision: newer revisions sort first. */
  function RevSuffix(rev: nat): (s: Key)
    requires rev < TWO_64
    ensures |s| == SUFFIX
  {
    BigEndian(TWO_64 - 1 - rev, SUFFIX)
  }

  function DataKey(key: Key, rev: nat): Key
    requires rev < TWO_64
  {
    [1] + (key + ([0] + RevSuffix(rev)))
  }

  /** Upper bound (exclusive) of all versions of `key`. */
  function DataUpper(key: Key): Key {
    [1] + (key + [1])
  }

  /** Lower bound of a range: the group of its first key. */
  function DataLower(key: Key): Key {
    [1] + (key + [0])
  }

  function ExtractKey(dk: Key): Key {
    if |dk| < 10 then [] else dk[1..|dk| - 9]
  }

  function RevOf(dk: Key): int {
    if |dk| < 10 then 0 else TWO_64 - 1 - Decode(dk[|dk| - 8..])
  }

  lemma ExtractDataKey(key: Key, rev: nat)
    requires rev < TWO_64
    ensures ExtractKey(DataKey(key, rev)) == key && RevOf(DataKey(key, rev)) == rev
  {
    var dk := DataKey(key, rev);
    assert dk[1..|dk| - 9] == key;
    assert dk[|dk| - 8..] == RevSuffix(rev);
    Pow256Of8();
    DecodeBigEndian(TWO_64 - 1 - rev, SUFFIX);
  }

  /** InWindow one key the newer version sorts first. */
  lemma SameKeyOrder(key: Key, r: nat, s: nat)
    requires r < TWO_64 && s < TWO_64
    ensures Less(DataKey(key, r), DataKey(key, s)) <==> r > s
  {
    LessUnderPrefix([1], key + ([0] + RevSuffix(r)), key + ([0] + RevSuffix(s)));
    LessUnderPrefix(key, [0] + RevSuffix(r), [0] + RevSuffix(s));
    LessUnderPrefix([0], RevSuffix(r), RevSuffix(s));
    Pow256Of8();
    BigEndianOrder(TWO_64 - 1 - r, TWO_64 - 1 - s, SUFFIX);
  }

  /**
   `a` followed by a zero byte is a prefix of `b`: the versions of `a` and of `b`
   then share the prefix that is meant to keep groups apart.
   */
  predicate Shadows(a: Key, b: Key) {
    |a| < |b| && b[..|a|] == a && b[|a|] == 0
  }

  /** Unless `a` shadows `b`, everything in the group of a smaller `a` sorts before every extension of `b`. */
  lemma GroupBefore(a: Key, b: Key, x: Key, y: Key)
    requires Less(a, b) && !Shadows(a, b)
    ensures Less([1] + (a + ([0] + x)), [1] + (b + y))
  {
    LessUnderPrefix([1], a + ([0] + x), b + y);
    if a <= b {
      var z := b[|a|..];
      assert b == a + z && a + z + y == a + (z + y);
      LessIrreflexive(a);
      assert z == [] ==> b == a;
      LessUnderPrefix(a, [0] + x, z + y);
      assert (z + y)[0] == b[|a|];
    } else {
      LessExtended(a, b, [0] + x, y);
    }
  }

  lemma AtLeastLower(k: Key, s: Key, x: Key)
    requires !Less(k, s)
    ensures !Less([1] + (k + ([0] + x)), DataLower(s))
  {
    LessUnderPrefix([1], k + ([0] + x), s + [0]);
    if s <= k {
      var z := k[|s|..];
      assert k == s + z && s + z + ([0] + x) == s + (z + ([0] + x));
      LessUnderPrefix(s, z + ([0] + x), [0]);
      if z + ([0] + x) != [] && (z + ([0] + x))[0] == 0 {
        assert [0][1..] == [];
      }
    } else {
      LessTotal(k, s);
      LessExtended(s, k, [0], [0] + x);
      LessAsymmetric(s + [0], k + ([0] + x));
    }
  }

  lemma AfterUpper(k: Key, raw: Key, x: Key)
    requires Less(raw, k) && !Shadows(raw, k)
    ensures !Less([1] + (k + ([0] + x)), DataUpper(raw))
  {
    LessUnderPrefix([1], k + ([0] + x), raw + [1]);
    if raw <= k {
      var z := k[|raw|..];
      assert k == raw + z && raw + z + ([0] + x) == raw + (z + ([0] + x));
      LessUnderPrefix(raw, z + ([0] + x), [1]);
      LessIrreflexive(k);
      assert z == [] ==> raw == k;
      assert (z + ([0] + x))[0] == k[|raw|] >= 1;
      assert [1][1..] == [];
    } else {
      LessExtended(raw, k, [1], [0] + x);
      LessAsymmetric(raw + [1], k + ([0] + x));
    }
  }

  lemma OwnBelowUpper(k: Key, x: Key)
    ensures Less([1] + (k + ([0] + x)), DataUpper(k))
    ensures !Less([1] + (k + ([0] + x)), DataLower(k))
  {
    LessUnderPrefix([1], k + ([0] + x), k + [1]);
    LessUnderPrefix(k, [0] + x, [1]);
    LessIrreflexive(k);
    AtLeastLower(k, k, x);
  }
}
