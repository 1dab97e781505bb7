/**
 The writer and the reader of the binary statement codec: a growing buffer, and a cursor
 with a sticky error that the mutually recursive decoders move.
 */
module CodecIO {
  import opened Bytes
  import opened Endian
  import opened CodecPrims
  import opened CodecExpr

  method OpIndex(list: seq<string>, op: string) returns (k: int)
    ensures k + 1 == OpCode(list, op)
  {
    hide OpCode;
    k := 0;
    while k < |list|
      invariant 0 <= k <= |list| && op !in list[..k]
    {
      if list[k] == op {
        assert op in list;
        return;
      }
      k := k + 1;
    }
    k := -1;
  }

  /** `bWriter` */
  class BWriter {
    var buf: Buffer

    constructor ()
      ensures buf == []
    {
      buf := [];
    }

    method PutByte(b: byte)
      modifies this
      ensures buf == old(buf) + [b]
    {
      buf := buf + [b];
    }

    method PutBool(b: bool)
      modifies this
      ensures buf == old(buf) + Bool(b)
    {
      PutByte(if b then 1 else 0);
    }

    /** `binary.PutUvarint` into a scratch array, then appended. */
    method PutUvarint(v: nat)
      modifies this
      ensures buf == old(buf) + Uvarint(v)
    {
      var n, t: Buffer := v, [];
      while n >= 128
        invariant buf == old(buf) && t + Uvarint(n) == Uvarint(v)
        decreases n
      {
        Longer(t, n);
        t, n := t + [n % 128 + 128], n / 128;
      }
      assert Uvarint(n) == [n];
      buf := buf + (t + [n]);
    }

    method PutVarint(i: int)
      modifies this
      ensures buf == old(buf) + Varint(i)
    {
      PutUvarint(i % TWO_64);
    }

    method PutStr(s: Key)
      modifies this
      ensures buf == old(buf) + Str(s)
    {
      hide Uvarint;
      PutUvarint(|s|);
      buf := buf + s;
    }

    /** `encodeExpr`, on an expression that is there. */
    method PutExpr(e: Expr)
      requires NoNil(e)
      modifies this
      ensures buf == old(buf) + EncExpr(e)
      decreases e, 1
    {
      hide Uvarint;
      hide Str;
      hide EncExprs;
      hide OpCode;
      match e
      case Lit(l) =>
        PutByte(1);
        PutLit(l);
      case Ident(name) =>
        PutByte(2);
        PutStr(name);
      case Binary(op, l, r) =>
        PutByte(3);
        var k := OpIndex(BINARY_OPS, op);
        PutByte(k + 1);
        PutExpr(l);
        PutExpr(r);
        Grouped(old(buf), [3], [k + 1], EncExpr(l), EncExpr(r));
      case Unary(op, x) =>
        PutByte(4);
        var k := OpIndex(UNARY_OPS, op);
        PutByte(k + 1);
        PutExpr(x);
        Grouped(old(buf), [4], [k + 1], EncExpr(x), []);
      case Call(fn, args) =>
        PutByte(5);
        PutStr(fn);
        PutUvarint(|args|);
        PutExprs(args, e);
        Grouped(old(buf), [5], Str(fn), Uvarint(|args|), EncExprs(args));
      case Cast(x, t) =>
        PutByte(6);
        PutExpr(x);
        PutByte(t);
        Grouped(old(buf), [6], EncExpr(x), [t], []);
    }

    method PutLit(l: Literal)
      modifies this
      ensures buf == old(buf) + ([l.typ] + LitFields(l))
    {
      hide Uvarint;
      hide Str;
      PutByte(l.typ);
      if l.typ == T_INT || l.typ == T_TIMESTAMP {
        PutVarint(l.i);
      } else if l.typ == T_FLOAT {
        PutUvarint(l.bits);
      } else if l.typ == T_STRING {
        PutStr(l.s);
      } else if l.typ == T_BOOL {
        PutBool(l.b);
      }
    }

    /** The loops over expressions; `whole` is what they are part of. */
    method PutExprs(es: seq<Expr>, ghost whole: Expr)
      requires forall i :: 0 <= i < |es| ==> NoNil(es[i]) && es[i] < whole
      modifies this
      ensures buf == old(buf) + EncExprs(es)
      decreases whole, 0
    {
      hide EncExpr;
      var i := 0;
      while i < |es|
        invariant 0 <= i <= |es| && buf + EncExprs(es[i..]) == old(buf) + EncExprs(es)
      {
        label before: PutExpr(es[i]);
        assert old@before(buf) + EncExprs(es[i..]) == old@before(buf) + EncExpr(es[i]) + EncExprs(es[i + 1..]) by {
          assert es[i..][1..] == es[i + 1..];
        }
        i := i + 1;
      }
      assert es[i..] == [];
    }
  }

  lemma Grouped(a: Buffer, b: Buffer, c: Buffer, d: Buffer, e: Buffer)
    ensures a + b + c + d + e == a + (b + (c + (d + e)))
    ensures e == [] ==> a + b + c + d == a + (b + (c + d))
  {
  }

  lemma Longer(t: Buffer, n: nat)
    requires n >= 128
    ensures t + [n % 128 + 128] + Uvarint(n / 128) == t + Uvarint(n)
  {
  }

  /** `encodeExpr` panics on a missing expression. */
  predicate NoNil(e: Expr) {
    match e
    case Nil => false
    case Binary(_, l, r) => NoNil(l) && NoNil(r)
    case Unary(_, x) => NoNil(x)
    case Call(_, args) => forall i :: 0 <= i < |args| ==> NoNil(args[i])
    case Cast(x, _) => NoNil(x)
    case _ => true
  }

  // ----- Reading -----

  /** One byte of a variable-length integer. */
  lemma UvarintByte(b: Buffer, i: nat, x: nat, s: nat)
    ensures i >= |b| || i >= 10 ==> UvarintAt(b, i, x, s) == (0, 0)
    ensures i < |b| && i < 10 && b[i] >= 128 ==> UvarintAt(b, i, x, s) == UvarintAt(b, i + 1, x + (b[i] - 128) * s, s * 128)
    ensures i < |b| && i < 10 && b[i] < 128 && i == 9 && b[i] > 1 ==> UvarintAt(b, i, x, s) == (0, 0)
    ensures i < |b| && i < 10 && b[i] < 128 && (i < 9 || b[i] <= 1) ==> UvarintAt(b, i, x, s) == ((x + b[i] * s) % TWO_64, i + 1)
  {
  }

  /** `binary.Uvarint`: the value and how many bytes it took, 0 where it is cut short or too long. */
  method UvarintFrom(b: Buffer) returns (x: nat, n: nat)
    ensures (x, n) == UvarintAt(b, 0, 0, 1)
  {
    hide UvarintAt;
    var s: nat, i: nat := 1, 0;
    x := 0;
    while i < |b|
      invariant 0 <= i <= |b| && i <= 10 && UvarintAt(b, i, x, s) == UvarintAt(b, 0, 0, 1)
    {
      UvarintByte(b, i, x, s);
      if i == 10 {
        return 0, 0;
      }
      if b[i] < 128 {
        if i == 9 && b[i] > 1 {
          return 0, 0;
        }
        return (x + b[i] * s) % TWO_64, i + 1;
      }
      x, s, i := x + (b[i] - 128) * s, s * 128, i + 1;
    }
    UvarintByte(b, i, x, s);
    return 0, 0;
  }

  /** `bReader` */
  class BReader {
    const buf: Buffer
    var pos: nat
    var err: bool

    constructor (data: Buffer)
      ensures buf == data && At0()
    {
      buf, pos, err := data, 0, false;
    }

    ghost predicate At0()
      reads this
    {
      pos == 0 && !err
    }

    ghost function State(): Reader
      reads this
    {
      Reader(pos, err)
    }

    method GetUvarint() returns (v: nat)
      requires pos <= |buf|
      modifies this
      ensures pos <= |buf| && (v, State()) == ReadUvarint(buf, old(State()))
    {
      hide UvarintAt;
      if err {
        return 0;
      }
      var n;
      v, n := UvarintFrom(buf[pos..]);
      if n == 0 {
        err := true;
        return 0;
      }
      pos := pos + n;
    }

    method GetVarint() returns (i: int)
      requires pos <= |buf|
      modifies this
      ensures pos <= |buf| && (i, State()) == ReadVarint(buf, old(State()))
    {
      hide ReadUvarint;
      var u := GetUvarint();
      i := Signed(u);
    }

    method GetByte() returns (b: byte)
      requires pos <= |buf|
      modifies this
      ensures pos <= |buf| && (b, State()) == ReadByte(buf, old(State()))
    {
      if err || pos >= |buf| {
        err := true;
        return 0;
      }
      b := buf[pos];
      pos := pos + 1;
    }

    method GetBool() returns (b: bool)
      requires pos <= |buf|
      modifies this
      ensures pos <= |buf| && (b, State()) == ReadBool(buf, old(State()))
    {
      hide ReadByte;
      var v := GetByte();
      b := v == 1;
    }

    method TakeBytes(n: int) returns (s: Key)
      requires pos <= |buf|
      modifies this
      ensures pos <= |buf| && (s, State()) == Take(buf, old(State()), n)
    {
      if err || n < 0 || pos + n > |buf| {
        err := true;
        return [];
      }
      s := buf[pos..pos + n];
      pos := pos + n;
    }

    method GetStr() returns (s: Key)
      requires pos <= |buf|
      modifies this
      ensures pos <= |buf| && (s, State()) == ReadStr(buf, old(State()))
    {
      hide ReadVarint;
      hide Take;
      var n := GetVarint();
      s := TakeBytes(n);
    }

    method GetLit() returns (l: Literal)
      requires pos <= |buf|
      modifies this
      ensures pos <= |buf| && (l, State()) == ReadLit(buf, old(State()))
    {
      hide ReadVarint;
      hide ReadUvarint;
      hide ReadByte;
      hide ReadStr;
      hide ReadBool;
      var t := GetByte();
      l := Literal(t, 0, 0, [], false);
      if t == T_INT || t == T_TIMESTAMP {
        var i := GetVarint();
        l := l.(i := i);
      } else if t == T_FLOAT {
        var u := GetUvarint();
        l := l.(bits := u);
      } else if t == T_STRING {
        var s := GetStr();
        l := l.(s := s);
      } else if t == T_BOOL {
        var b := GetBool();
        l := l.(b := b);
      }
    }

    /** `decodeExpr`: the operands are read before an unknown operator is noticed. */
    method GetExpr() returns (e: Expr, failed: bool)
      requires pos <= |buf|
      modifies this
      ensures pos <= |buf| && Parsed(e, failed, State()) == DecExpr(buf, old(State()))
      decreases |buf| - pos, 0
    {
      hide ReadVarint;
      hide ReadStr;
      hide ReadLit;
      hide DecExprs;
      ghost var start := pos;
      var t := GetByte();
      assert t != 0 ==> start < pos;
      if t == 1 {
        var l := GetLit();
        return Lit(l), false;
      } else if t == 2 {
        var s := GetStr();
        return Ident(s), false;
      } else if t == 3 {
        var op := GetByte();
        var l, _ := GetExpr();
        var x, _ := GetExpr();
        if op == 0 || op > |BINARY_OPS| {
          return Nil, true;
        }
        return Binary(BINARY_OPS[op - 1], l, x), false;
      } else if t == 4 {
        var op := GetByte();
        var x, _ := GetExpr();
        if op == 0 || op > |UNARY_OPS| {
          return Nil, true;
        }
        return Unary(UNARY_OPS[op - 1], x), false;
      } else if t == 5 {
        var fn := GetStr();
        var n := GetVarint();
        var es := GetExprs(n);
        return Call(fn, es), false;
      } else if t == 6 {
        var x, _ := GetExpr();
        var ty := GetByte();
        return Cast(x, ty), false;
      }
      return Nil, true;
    }

    /** The loops that read a number of expressions and drop their errors. */
    method GetExprs(n: int) returns (es: seq<Expr>)
      requires pos <= |buf|
      modifies this
      ensures pos <= |buf| && (es, State()) == DecExprs(buf, old(State()), n)
      decreases |buf| - pos, 1
    {
      hide DecExpr;
      es := [];
      var i := 0;
      ghost var all, rest := DecExprs(buf, State(), n), DecExprs(buf, State(), n);
      assert es + rest.0 == rest.0;
      while i < n
        invariant old(pos) <= pos <= |buf| && 0 <= i && (i <= n || n < 0)
        invariant rest == DecExprs(buf, State(), n - i) && all == (es + rest.0, rest.1)
      {
        var e, _ := GetExpr();
        rest := DecExprs(buf, State(), n - i - 1);
        assert es + ([e] + rest.0) == es + [e] + rest.0;
        es := es + [e];
        i := i + 1;
      }
      assert rest.0 == [];
      assert es + rest.0 == es;
    }
  }
}
