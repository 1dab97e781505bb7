/**
 Primitive fields of the binary statement codec: variable-length integers, strings,
 booleans, and a reader that remembers its first error.
 */
module CodecPrims {
  import opened Bytes
  import opened Endian

  type Buffer = seq<byte>

  // ----- Writing -----

  /** `binary.PutUvarint`: seven bits a byte, least significant first. */
  function Uvarint(n: nat): (r: Buffer)
    ensures r != []
  {
    if n < 128 then [n] else [n % 128 + 128] + Uvarint(n / 128)
  }

  function Str(s: Key): Buffer {
    Uvarint(|s|) + s
  }

  function Bool(b: bool): Buffer {
    [if b then 1 else 0]
  }

  /** A signed 64-bit integer as its unsigned bits. */
  function Varint(i: int): Buffer {
    Uvarint(i % TWO_64)
  }

  // ----- Reading -----

  /** `bReader`: position and sticky error. */
  datatype Reader = Reader(pos: nat, err: bool)

  /** Reading never goes back or past the end, and an error stays. */
  predicate Forward(buf: Buffer, r: Reader, r': Reader) {
    r.pos <= r'.pos && (r.pos <= |buf| ==> r'.pos <= |buf|) && (r.err ==> r'.err)
  }

  function Failed(r: Reader): Reader {
    r.(err := true)
  }

  function Times(a: nat, b: nat): nat {
    a * b
  }

  /** The value at the front of `b`, its length, or length 0 if it is cut short or too long. */
  function UvarintAt(b: Buffer, i: nat, x: nat, s: nat): (r: (nat, nat))
    ensures r.1 <= |b| && (r.1 > 0 ==> i < r.1)
    decreases |b| - i
  {
    if i >= |b| || i >= 10 then (0, 0)
    else if b[i] < 128 then
      if i == 9 && b[i] > 1 then (0, 0) else ((x + Times(b[i], s)) % TWO_64, i + 1)
    else UvarintAt(b, i + 1, x + Times(b[i] - 128, s), s * 128)
  }

  function ReadUvarint(buf: Buffer, r: Reader): (p: (nat, Reader))
    requires r.pos <= |buf|
    ensures Forward(buf, r, p.1)
  {
    if r.err then (0, r)
    else
      var (v, n) := UvarintAt(buf[r.pos..], 0, 0, 1);
      if n == 0 then (0, Failed(r)) else (v, r.(pos := r.pos + n))
  }

  /** The conversion of an unsigned value to a signed 64-bit one. */
  function Signed(u: nat): int {
    if u < 0x8000_0000_0000_0000 then u else u - TWO_64
  }

  function ReadVarint(buf: Buffer, r: Reader): (p: (int, Reader))
    requires r.pos <= |buf|
    ensures Forward(buf, r, p.1)
  {
    var (u, r1) := ReadUvarint(buf, r);
    (Signed(u), r1)
  }

  function ReadByte(buf: Buffer, r: Reader): (p: (byte, Reader))
    ensures Forward(buf, r, p.1)
  {
    if r.err || r.pos >= |buf| then (0, Failed(r)) else (buf[r.pos], r.(pos := r.pos + 1))
  }

  function ReadBool(buf: Buffer, r: Reader): (p: (bool, Reader))
    ensures Forward(buf, r, p.1)
  {
    var (b, r1) := ReadByte(buf, r);
    (b == 1, r1)
  }

  /** The next `n` bytes; a negative length, which no writer produces, is an error here. */
  function Take(buf: Buffer, r: Reader, n: int): (Key, Reader) {
    if r.err || n < 0 || r.pos + n > |buf| then ([], Failed(r)) else (buf[r.pos..r.pos + n], r.(pos := r.pos + n))
  }

  function ReadStr(buf: Buffer, r: Reader): (p: (Key, Reader))
    requires r.pos <= |buf|
    ensures Forward(buf, r, p.1)
  {
    var (n, r1) := ReadVarint(buf, r);
    Take(buf, r1, n)
  }

  // ----- What was written is read back -----

  function Peek(b: Buffer, i: nat): byte
    requires i < |b|
  {
    b[i]
  }

  /** `enc` stands at a position of the buffer. */
  ghost predicate At(buf: Buffer, pos: nat, enc: Buffer) {
    pos + |enc| <= |buf| && forall i: nat {:trigger Peek(enc, i)} :: i < |enc| ==> buf[pos + i] == Peek(enc, i)
  }

  lemma AtSlice(buf: Buffer, pos: nat, enc: Buffer)
    ensures At(buf, pos, enc) <==> pos + |enc| <= |buf| && buf[pos..pos + |enc|] == enc
  {
    if At(buf, pos, enc) {
      forall i | 0 <= i < |enc| ensures buf[pos + i] == enc[i] {
        assert Peek(enc, i) == enc[i];
      }
    } else if pos + |enc| <= |buf| {
      var i: nat :| i < |enc| && buf[pos + i] != Peek(enc, i);
      assert buf[pos..pos + |enc|][i] == buf[pos + i];
    }
  }

  lemma AtConcat(buf: Buffer, pos: nat, a: Buffer, b: Buffer)
    ensures At(buf, pos, a + b) <==> At(buf, pos, a) && At(buf, pos + |a|, b)
  {
    AtSlice(buf, pos, a + b);
    AtSlice(buf, pos, a);
    AtSlice(buf, pos + |a|, b);
    if pos + |a + b| <= |buf| {
      var s := buf[pos..pos + |a + b|];
      assert s[..|a|] == buf[pos..pos + |a|] && s[|a|..] == buf[pos + |a|..pos + |a| + |b|];
      assert (a + b)[..|a|] == a && (a + b)[|a|..] == b;
      assert s == s[..|a|] + s[|a|..];
    }
  }

  function Pow128(i: nat): (p: nat)
    ensures p > 0
  {
    if i == 0 then 1 else 128 * Pow128(i - 1)
  }

  /** How many bytes an unsigned 64-bit value takes: at most ten, the tenth at most one. */
  lemma {:induction false} UvarintLength(n: nat, i: nat)
    requires i <= 9 && n * Pow128(i) < TWO_64
    ensures i + |Uvarint(n)| <= 10
    ensures i == 9 ==> n <= 1
  {
    PowTop();
    if i == 9 {
      assert n * Pow128(9) < 2 * Pow128(9);
      BelowTwo(n, Pow128(9));
    } else if n >= 128 {
      Seventh(n, Pow128(i));
      assert Pow128(i + 1) == 128 * Pow128(i);
      UvarintLength(n / 128, i + 1);
    }
  }

  lemma BelowTwo(n: nat, p: nat)
    requires p > 0 && n * p < 2 * p
    ensures n <= 1
  {
    Multiples(2, n, p);
  }

  lemma Multiples(m: nat, n: nat, p: nat)
    ensures m <= n ==> m * p <= n * p
  {
    if m <= n {
      assert n * p == m * p + (n - m) * p;
    }
  }

  lemma Seventh(n: nat, p: nat)
    ensures n / 128 * (128 * p) <= n * p
  {
    var q := n / 128;
    assert 128 * q <= n;
    assert q * (128 * p) == 128 * q * p;
    assert 128 * q * p <= n * p;
  }

  lemma PowTop()
    ensures 2 * Pow128(9) == TWO_64
  {
    assert Pow128(1) == 128;
    assert Pow128(2) == 0x4000;
    assert Pow128(3) == 0x20_0000;
    assert Pow128(4) == 0x1000_0000;
    assert Pow128(5) == 0x8_0000_0000;
    assert Pow128(6) == 0x400_0000_0000;
    assert Pow128(7) == 0x2_0000_0000_0000;
    assert Pow128(8) == 0x100_0000_0000_0000;
  }

  lemma {:induction false} UvarintReads(b: Buffer, i: nat, x: nat, n: nat)
    requires i <= 9 && n * Pow128(i) < TWO_64 && At(b, i, Uvarint(n)) && x + n * Pow128(i) < TWO_64
    ensures UvarintAt(b, i, x, Pow128(i)) == (x + n * Pow128(i), i + |Uvarint(n)|)
    decreases n
  {
    hide UvarintAt;
    UvarintLength(n, i);
    var enc, p := Uvarint(n), Pow128(i);
    assert b[i + 0] == Peek(enc, 0);
    UvarintStep(b, i, x, p);
    if n >= 128 {
      var q := n / 128;
      assert enc == [n % 128 + 128] + Uvarint(q);
      AtConcat(b, i, [n % 128 + 128], Uvarint(q));
      assert Pow128(i + 1) == 128 * p;
      Seventh(n, p);
      Regrouped(n, p, x);
      UvarintReads(b, i + 1, x + n % 128 * p, q);
      assert p * 128 == Pow128(i + 1);
    }
  }

  lemma UvarintStep(b: Buffer, i: nat, x: nat, s: nat)
    requires i < |b| && i < 10
    ensures b[i] >= 128 ==> UvarintAt(b, i, x, s) == UvarintAt(b, i + 1, x + (b[i] - 128) * s, s * 128)
    ensures b[i] < 128 && (i < 9 || b[i] <= 1) ==> UvarintAt(b, i, x, s) == ((x + b[i] * s) % TWO_64, i + 1)
  {
  }

  lemma Regrouped(n: nat, p: nat, x: nat)
    ensures x + n % 128 * p + n / 128 * (128 * p) == x + n * p
  {
    var q, m := n / 128, n % 128;
    assert n == 128 * q + m;
    assert q * (128 * p) == 128 * q * p;
    assert m * p + 128 * q * p == (m + 128 * q) * p;
  }

  lemma ReadsUvarint(buf: Buffer, pos: nat, n: nat)
    requires n < TWO_64 && At(buf, pos, Uvarint(n))
    ensures ReadUvarint(buf, Reader(pos, false)) == (n, Reader(pos + |Uvarint(n)|, false))
  {
    var b, k := buf[pos..], |Uvarint(n)|;
    AtSlice(buf, pos, Uvarint(n));
    AtSlice(b, 0, Uvarint(n));
    assert b[0..k] == buf[pos..pos + k];
    assert Pow128(0) == 1;
    UvarintReads(b, 0, 0, n);
  }

  predicate Int64(i: int) {
    -0x8000_0000_0000_0000 <= i < 0x8000_0000_0000_0000
  }

  lemma ReadsVarint(buf: Buffer, pos: nat, i: int)
    requires Int64(i) && At(buf, pos, Varint(i))
    ensures ReadVarint(buf, Reader(pos, false)) == (i, Reader(pos + |Varint(i)|, false))
  {
    ReadsUvarint(buf, pos, i % TWO_64);
    if i < 0 {
      assert i % TWO_64 == i + TWO_64;
    }
  }

  lemma ReadsByte(buf: Buffer, pos: nat, b: byte)
    requires At(buf, pos, [b])
    ensures ReadByte(buf, Reader(pos, false)) == (b, Reader(pos + 1, false))
  {
    assert buf[pos + 0] == Peek([b], 0);
  }

  lemma ReadsBool(buf: Buffer, pos: nat, b: bool)
    requires At(buf, pos, Bool(b))
    ensures ReadBool(buf, Reader(pos, false)) == (b, Reader(pos + 1, false))
  {
    ReadsByte(buf, pos, if b then 1 else 0);
  }

  lemma ReadsStr(buf: Buffer, pos: nat, s: Key)
    requires Int64(|s|) && At(buf, pos, Str(s))
    ensures ReadStr(buf, Reader(pos, false)) == (s, Reader(pos + |Str(s)|, false))
  {
    AtConcat(buf, pos, Uvarint(|s|), s);
    AtSlice(buf, pos + |Uvarint(|s|)|, s);
    ReadsVarint(buf, pos, |s|);
    assert |s| % TWO_64 == |s|;
  }

  // ----- A field and what follows it -----

  ghost predicate GetsByte(buf: Buffer, pos: nat, b: byte) {
    ReadByte(buf, Reader(pos, false)) == (b, Reader(pos + 1, false))
  }

  ghost predicate GetsBool(buf: Buffer, pos: nat, b: bool) {
    ReadBool(buf, Reader(pos, false)) == (b, Reader(pos + 1, false))
  }

  ghost predicate GetsStr(buf: Buffer, pos: nat, s: Key) {
    pos <= |buf| && ReadStr(buf, Reader(pos, false)) == (s, Reader(pos + |Str(s)|, false))
  }

  ghost predicate GetsCount(buf: Buffer, pos: nat, n: nat) {
    pos <= |buf| && ReadVarint(buf, Reader(pos, false)) == (n, Reader(pos + |Uvarint(n)|, false))
  }

  lemma ByteThen(buf: Buffer, pos: nat, b: byte, rest: Buffer)
    requires At(buf, pos, [b] + rest)
    ensures GetsByte(buf, pos, b) && At(buf, pos + 1, rest)
  {
    AtConcat(buf, pos, [b], rest);
    ReadsByte(buf, pos, b);
  }

  lemma BoolThen(buf: Buffer, pos: nat, b: bool, rest: Buffer)
    requires At(buf, pos, Bool(b) + rest)
    ensures GetsBool(buf, pos, b) && At(buf, pos + 1, rest)
  {
    AtConcat(buf, pos, Bool(b), rest);
    ReadsBool(buf, pos, b);
  }

  lemma StrThen(buf: Buffer, pos: nat, s: Key, rest: Buffer)
    requires Int64(|s|) && At(buf, pos, Str(s) + rest)
    ensures GetsStr(buf, pos, s) && At(buf, pos + |Str(s)|, rest)
  {
    AtConcat(buf, pos, Str(s), rest);
    ReadsStr(buf, pos, s);
  }

  /** A length in front of a list. */
  lemma CountThen(buf: Buffer, pos: nat, n: nat, rest: Buffer)
    requires Int64(n) && At(buf, pos, Uvarint(n) + rest)
    ensures GetsCount(buf, pos, n) && At(buf, pos + |Uvarint(n)|, rest)
  {
    AtConcat(buf, pos, Uvarint(n), rest);
    assert n % TWO_64 == n;
    ReadsVarint(buf, pos, n);
  }
}
