/**
 The primary-key encoding and the bounds derived from it: an order embedding of
 composite keys into byte strings in which no key is a prefix of another.
 */
module PkEncoding {
  import opened Bytes
  import opened Endian

  const TWO_63: nat := 0x8000_0000_0000_0000
  const GUARD: byte := 0xff

  datatype Type = IntT | StringT | BoolT | TimeT

  /** A key column's value; a timestamp is a count of microseconds. */
  datatype Value = IntV(i: int) | StringV(s: Key) | BoolV(b: bool) | TimeV(t: int)

  predicate Int64(x: int) {
    -(TWO_63 as int) <= x < TWO_63
  }

  /** Of a type, in its range; strings without a zero byte. */
  predicate HasType(v: Value, t: Type) {
    match v
    case IntV(i) => t.IntT? && Int64(i)
    case StringV(s) => t.StringT? && 0 !in s
    case BoolV(_) => t.BoolT?
    case TimeV(m) => t.TimeT? && Int64(m)
  }

  /** `Compare(v, w) < 0` between values of one type. */
  predicate LessV(v: Value, w: Value) {
    match (v, w)
    case (IntV(a), IntV(b)) => a < b
    case (StringV(a), StringV(b)) => Less(a, b)
    case (BoolV(a), BoolV(b)) => !a && b
    case (TimeV(a), TimeV(b)) => a < b
    case _ => false
  }

  function Tag(t: Type): byte {
    match t
    case IntT => 0
    case StringT => 2
    case BoolT => 3
    case TimeT => 4
  }

  function Payload(v: Value, t: Type): Key
    requires HasType(v, t)
  {
    match v
    case IntV(i) => BigEndian(i + TWO_63, 8)
    case StringV(s) => s + [0]
    case BoolV(b) => if b then [2] else [1]
    case TimeV(m) => BigEndian(m + TWO_63, 8)
  }

  function EncodeValue(v: Value, t: Type): Key
    requires HasType(v, t)
  {
    [Tag(t), GUARD] + (Payload(v, t) + [GUARD])
  }

  // ----- Composite keys -----

  predicate Typed(vals: seq<Value>, types: seq<Type>) {
    |vals| <= |types| && forall i :: 0 <= i < |vals| ==> HasType(vals[i], types[i])
  }

  function EncodeKey(vals: seq<Value>, types: seq<Type>): Key
    requires Typed(vals, types)
  {
    if vals == [] then [] else EncodeValue(vals[0], types[0]) + EncodeKey(vals[1..], types[1..])
  }

  /** `encodeKeyInto`: appends the encoding of each value. */
  method EncodeKeyInto(vals: seq<Value>, types: seq<Type>, buf0: Key) returns (buf: Key)
    requires Typed(vals, types)
    ensures buf == buf0 + EncodeKey(vals, types)
  {
    buf := buf0;
    assert vals[0..] == vals && types[0..] == types;
    for i := 0 to |vals|
      invariant buf + EncodeKey(vals[i..], types[i..]) == buf0 + EncodeKey(vals, types)
    {
      var enc := EncodeValue(vals[i], types[i]);
      NextValue(vals, types, i);
      Regroup(buf, enc, EncodeKey(vals[i + 1..], types[i + 1..]));
      buf := buf + enc;
    }
    assert buf + [] == buf;
  }

  lemma NextValue(vals: seq<Value>, types: seq<Type>, i: nat)
    requires Typed(vals, types) && i < |vals|
    ensures EncodeKey(vals[i..], types[i..]) == EncodeValue(vals[i], types[i]) + EncodeKey(vals[i + 1..], types[i + 1..])
  {
    assert vals[i..][1..] == vals[i + 1..] && types[i..][1..] == types[i + 1..];
  }

  lemma Regroup(a: Key, b: Key, c: Key)
    ensures (a + b) + c == a + (b + c)
  {
  }

  predicate LexLess(a: seq<Value>, b: seq<Value>) {
    a != [] && b != [] && (LessV(a[0], b[0]) || (a[0] == b[0] && LexLess(a[1..], b[1..])))
  }

  lemma TotalV(v: Value, w: Value, t: Type)
    requires HasType(v, t) && HasType(w, t)
    ensures LessV(v, w) || v == w || LessV(w, v)
    ensures LessV(v, w) ==> v != w && !LessV(w, v)
  {
    Order();
  }

  lemma {:induction false} LexTotal(a: seq<Value>, b: seq<Value>, types: seq<Type>)
    requires Typed(a, types) && Typed(b, types) && |a| == |b|
    ensures LexLess(a, b) || a == b || LexLess(b, a)
    ensures LexLess(a, b) ==> a != b && !LexLess(b, a)
  {
    if a != [] {
      TotalV(a[0], b[0], types[0]);
      LexTotal(a[1..], b[1..], types[1..]);
      assert a == [a[0]] + a[1..] && b == [b[0]] + b[1..];
    }
  }

  // ----- The embedding -----

  lemma NumberOrder(a: nat, b: nat, x: Key, y: Key)
    requires a < b < TWO_64
    ensures Less(BigEndian(a, 8) + x, BigEndian(b, 8) + y)
  {
    Pow256Of8();
    BigEndianOrder(a, b, 8);
    LessIrreflexive(BigEndian(a, 8));
    LessExtended(BigEndian(a, 8), BigEndian(b, 8), x, y);
  }

  lemma StringOrder(s: Key, t: Key, x: Key, y: Key)
    requires Less(s, t) && 0 !in t
    ensures Less(s + [0] + x, t + [0] + y)
  {
    if s <= t {
      var z := t[|s|..];
      LessIrreflexive(s);
      assert z == [] ==> t == s;
      assert t == s + z && s + [0] + x == s + ([0] + x) && t + [0] + y == s + (z + [0] + y);
      LessUnderPrefix(s, [0] + x, z + [0] + y);
      assert (z + [0] + y)[0] == t[|s|];
    } else {
      assert s + [0] + x == s + ([0] + x) && t + [0] + y == t + ([0] + y);
      LessExtended(s, t, [0] + x, [0] + y);
    }
  }

  /** A smaller value's encoding sorts first whatever follows either of them. */
  lemma ValueOrder(v: Value, w: Value, t: Type, x: Key, y: Key)
    requires HasType(v, t) && HasType(w, t) && LessV(v, w)
    ensures Less(EncodeValue(v, t) + x, EncodeValue(w, t) + y)
  {
    var p := [Tag(t), GUARD];
    var a, b := Payload(v, t), Payload(w, t);
    assert EncodeValue(v, t) + x == p + (a + ([GUARD] + x)) && EncodeValue(w, t) + y == p + (b + ([GUARD] + y));
    LessUnderPrefix(p, a + ([GUARD] + x), b + ([GUARD] + y));
    match v
    case IntV(i) => NumberOrder(i + TWO_63, w.i + TWO_63, [GUARD] + x, [GUARD] + y);
    case StringV(s) => StringOrder(s, w.s, [GUARD] + x, [GUARD] + y);
    case BoolV(_) =>
    case TimeV(m) => NumberOrder(m + TWO_63, w.t + TWO_63, [GUARD] + x, [GUARD] + y);
  }

  /** A smaller composite key sorts first whatever follows: an order embedding, and prefix-free. */
  lemma {:induction false} KeyOrder(a: seq<Value>, b: seq<Value>, types: seq<Type>, x: Key, y: Key)
    requires Typed(a, types) && Typed(b, types) && |a| == |b| && LexLess(a, b)
    ensures Less(EncodeKey(a, types) + x, EncodeKey(b, types) + y)
  {
    var e, f := EncodeValue(a[0], types[0]), EncodeValue(b[0], types[0]);
    var ra, rb := EncodeKey(a[1..], types[1..]), EncodeKey(b[1..], types[1..]);
    assert EncodeKey(a, types) + x == e + (ra + x) && EncodeKey(b, types) + y == f + (rb + y);
    if a[0] == b[0] {
      TotalV(a[0], b[0], types[0]);
      KeyOrder(a[1..], b[1..], types[1..], x, y);
      LessUnderPrefix(e, ra + x, rb + y);
    } else {
      ValueOrder(a[0], b[0], types[0], ra + x, rb + y);
    }
  }

  /** The encoding preserves and reflects the order, and is injective. */
  lemma KeyEmbedding(a: seq<Value>, b: seq<Value>, types: seq<Type>)
    requires Typed(a, types) && Typed(b, types) && |a| == |b|
    ensures Less(EncodeKey(a, types), EncodeKey(b, types)) <==> LexLess(a, b)
    ensures EncodeKey(a, types) == EncodeKey(b, types) <==> a == b
  {
    Order();
    LexTotal(a, b, types);
    assert EncodeKey(a, types) + [] == EncodeKey(a, types) && EncodeKey(b, types) + [] == EncodeKey(b, types);
    if LexLess(a, b) {
      KeyOrder(a, b, types, [], []);
    } else if LexLess(b, a) {
      KeyOrder(b, a, types, [], []);
    }
  }

  lemma {:induction false} EncodeSplit(vals: seq<Value>, types: seq<Type>, n: nat)
    requires Typed(vals, types) && n <= |vals|
    ensures EncodeKey(vals, types) == EncodeKey(vals[..n], types) + EncodeKey(vals[n..], types[n..])
  {
    if n == 0 {
      assert vals[..0] == [] && vals[0..] == vals && types[0..] == types;
    } else {
      var head := vals[..n];
      EncodeSplit(vals[1..], types[1..], n - 1);
      assert vals[1..][..n - 1] == head[1..] && head[0] == vals[0];
      assert vals[1..][n - 1..] == vals[n..] && types[1..][n - 1..] == types[n..];
      Regroup(EncodeValue(vals[0], types[0]), EncodeKey(head[1..], types[1..]), EncodeKey(vals[n..], types[n..]));
    }
  }

  /** Where a key stands to an encoded prefix and to the prefix with its guard byte. */
  lemma AtBound(vals: seq<Value>, p: seq<Value>, types: seq<Type>)
    requires Typed(vals, types) && Typed(p, types) && |p| <= |vals|
    ensures Less(EncodeKey(vals, types), EncodeKey(p, types)) <==> LexLess(vals[..|p|], p)
    ensures Less(EncodeKey(vals, types), EncodeKey(p, types) + [GUARD]) <==> !LexLess(p, vals[..|p|])
  {
    Order();
    var pre := vals[..|p|];
    var rest, b := EncodeKey(vals[|p|..], types[|p|..]), EncodeKey(p, types);
    EncodeSplit(vals, types, |p|);
    LexTotal(pre, p, types);
    assert b + [] == b;
    if LexLess(pre, p) {
      KeyOrder(pre, p, types, rest, []);
      KeyOrder(pre, p, types, rest, [GUARD]);
    } else if LexLess(p, pre) {
      KeyOrder(p, pre, types, [], rest);
      KeyOrder(p, pre, types, [GUARD], rest);
    } else {
      LessUnderPrefix(b, rest, []);
      LessUnderPrefix(b, rest, [GUARD]);
      assert rest != [] ==> rest[0] == Tag(types[|p|]) < GUARD;
    }
  }
}
