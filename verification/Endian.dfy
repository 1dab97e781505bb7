/**
 Fixed-width big-endian integers: the byte order of the encodings is the order of
 the numbers.
 */
module Endian {
  import opened Bytes

  function Pow256(w: nat): (p: nat)
    ensures p > 0
  {
    if w == 0 then 1 else 256 * Pow256(w - 1)
  }

  /** The `w` low bytes of `n`, most significant first. */
  function BigEndian(n: nat, w: nat): (r: Key)
    ensures |r| == w
  {
    if w == 0 then [] else BigEndian(n / 256, w - 1) + [n % 256]
  }

  function Decode(b: Key): nat {
    if b == [] then 0 else 256 * Decode(b[..|b| - 1]) + b[|b| - 1]
  }

  lemma {:induction false} DecodeBigEndian(n: nat, w: nat)
    requires n < Pow256(w)
    ensures Decode(BigEndian(n, w)) == n
  {
    if w > 0 {
      DecodeBigEndian(n / 256, w - 1);
      assert BigEndian(n, w)[..w - 1] == BigEndian(n / 256, w - 1);
    }
  }

  /** Comparing equally long keys: by everything but the last byte, then by the last byte. */
  lemma {:induction false} LessAtLast(a: Key, x: byte, b: Key, y: byte)
    requires |a| == |b|
    ensures Less(a + [x], b + [y]) <==> Less(a, b) || (a == b && x < y)
  {
    if a == [] {
      assert a + [x] == [x] && b + [y] == [y];
      assert [x][1..] == [] && [y][1..] == [];
    } else {
      assert (a + [x])[1..] == a[1..] + [x] && (b + [y])[1..] == b[1..] + [y];
      LessAtLast(a[1..], x, b[1..], y);
      assert a == [a[0]] + a[1..] && b == [b[0]] + b[1..];
    }
  }

  lemma {:induction false} DecodeOrder(a: Key, b: Key)
    requires |a| == |b|
    ensures Less(a, b) <==> Decode(a) < Decode(b)
    ensures a == b <==> Decode(a) == Decode(b)
  {
    if a != [] {
      var n := |a| - 1;
      DecodeOrder(a[..n], b[..n]);
      LessAtLast(a[..n], a[n], b[..n], b[n]);
      assert a == a[..n] + [a[n]] && b == b[..n] + [b[n]];
    }
  }

  /** The encoding embeds the order of the numbers into the order of byte strings. */
  lemma BigEndianOrder(n: nat, m: nat, w: nat)
    requires n < Pow256(w) && m < Pow256(w)
    ensures Less(BigEndian(n, w), BigEndian(m, w)) <==> n < m
    ensures BigEndian(n, w) == BigEndian(m, w) <==> n == m
  {
    DecodeBigEndian(n, w);
    DecodeBigEndian(m, w);
    DecodeOrder(BigEndian(n, w), BigEndian(m, w));
  }

  const TWO_64: nat := 0x1_0000_0000_0000_0000

  lemma Pow256Of8()
    ensures Pow256(8) == TWO_64
  {
    assert Pow256(1) == 256;
    assert Pow256(2) == 0x1_0000;
    assert Pow256(3) == 0x100_0000;
    assert Pow256(4) == 0x1_0000_0000;
    assert Pow256(5) == 0x100_0000_0000;
    assert Pow256(6) == 0x1_0000_0000_0000;
    assert Pow256(7) == 0x100_0000_0000_0000;
  }
}
