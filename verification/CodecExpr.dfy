/**
 Expressions in the binary statement codec.
 */
module CodecExpr {
  import opened Bytes
  import opened Endian
  import opened CodecPrims

  const T_INT: byte := 1
  const T_FLOAT: byte := 2
  const T_STRING: byte := 3
  const T_BOOL: byte := 4
  const T_TIMESTAMP: byte := 5

  /** `Literal`: a type and a field for each kind of value. */
  datatype Literal = Literal(typ: byte, i: int, bits: nat, s: Key, b: bool)

  datatype Expr =
    | Nil
    | Lit(lit: Literal)
    | Ident(name: Key)
    | Binary(op: string, left: Expr, right: Expr)
    | Unary(uop: string, arg: Expr)
    | Call(fn: Key, args: seq<Expr>)
    | Cast(expr: Expr, typ: byte)

  const BINARY_OPS: seq<string> := ["+", "-", "*", "/", "=", "<", ">", "<=", ">=", "<>", "AND", "OR"]
  const UNARY_OPS: seq<string> := ["NOT", "-", "+"]

  /** `opIndex` plus one: 0 for an operator that is not listed. */
  function OpCode(list: seq<string>, op: string): (c: nat)
    ensures c <= |list|
    ensures c > 0 ==> list[c - 1] == op && op !in list[..c - 1]
    ensures c == 0 <==> op !in list
  {
    if list == [] then 0
    else if list[|list| - 1] == op && OpCode(list[..|list| - 1], op) == 0 then |list|
    else OpCode(list[..|list| - 1], op)
  }

  // ----- Writing -----

  function LitFields(l: Literal): Buffer {
    if l.typ == T_INT || l.typ == T_TIMESTAMP then Varint(l.i)
    else if l.typ == T_FLOAT then Uvarint(l.bits)
    else if l.typ == T_STRING then Str(l.s)
    else if l.typ == T_BOOL then Bool(l.b)
    else []
  }

  function EncExpr(e: Expr): Buffer {
    match e
    case Nil => []
    case Lit(l) => [1] + ([l.typ] + LitFields(l))
    case Ident(name) => [2] + Str(name)
    case Binary(op, l, r) => [3] + ([OpCode(BINARY_OPS, op)] + (EncExpr(l) + EncExpr(r)))
    case Unary(op, x) => [4] + ([OpCode(UNARY_OPS, op)] + EncExpr(x))
    case Call(fn, args) => [5] + (Str(fn) + (Uvarint(|args|) + EncExprs(args)))
    case Cast(x, t) => [6] + (EncExpr(x) + [t])
  }

  function EncExprs(es: seq<Expr>): Buffer {
    if es == [] then [] else EncExpr(es[0]) + EncExprs(es[1..])
  }

  // ----- Reading -----

  function ReadLit(buf: Buffer, r: Reader): (Literal, Reader)
    requires r.pos <= |buf|
  {
    var (t, r1) := ReadByte(buf, r);
    var zero := Literal(t, 0, 0, [], false);
    if t == T_INT || t == T_TIMESTAMP then var (i, r2) := ReadVarint(buf, r1); (zero.(i := i), r2)
    else if t == T_FLOAT then var (u, r2) := ReadUvarint(buf, r1); (zero.(bits := u), r2)
    else if t == T_STRING then var (s, r2) := ReadStr(buf, r1); (zero.(s := s), r2)
    else if t == T_BOOL then var (b, r2) := ReadBool(buf, r1); (zero.(b := b), r2)
    else (zero, r1)
  }

  /** An expression, `Nil` with the flag set where `decodeExpr` returns an error. */
  datatype Parsed = Parsed(e: Expr, failed: bool, r: Reader)

  function DecExpr(buf: Buffer, r: Reader): (p: Parsed)
    requires r.pos <= |buf|
    ensures Forward(buf, r, p.r) && (p.failed ==> p.e == Nil)
    decreases |buf| - r.pos, 0
  {
    var (t, r1) := ReadByte(buf, r);
    if r1.err then Parsed(Nil, true, r1)
    else if t == 1 then var (l, r2) := ReadLit(buf, r1); Parsed(Lit(l), false, r2)
    else if t == 2 then var (s, r2) := ReadStr(buf, r1); Parsed(Ident(s), false, r2)
    else if t == 3 then
      var (op, r2) := ReadByte(buf, r1);
      var l := DecExpr(buf, r2);
      var x := DecExpr(buf, l.r);
      if op == 0 || op > |BINARY_OPS| then Parsed(Nil, true, x.r) else Parsed(Binary(BINARY_OPS[op - 1], l.e, x.e), false, x.r)
    else if t == 4 then
      var (op, r2) := ReadByte(buf, r1);
      var x := DecExpr(buf, r2);
      if op == 0 || op > |UNARY_OPS| then Parsed(Nil, true, x.r) else Parsed(Unary(UNARY_OPS[op - 1], x.e), false, x.r)
    else if t == 5 then
      var (fn, r2) := ReadStr(buf, r1);
      var (n, r3) := ReadVarint(buf, r2);
      var (es, r4) := DecExprs(buf, r3, n);
      Parsed(Call(fn, es), false, r4)
    else if t == 6 then
      var x := DecExpr(buf, r1);
      var (ty, r2) := ReadByte(buf, x.r);
      Parsed(Cast(x.e, ty), false, r2)
    else Parsed(Nil, true, r1)
  }

  function DecExprs(buf: Buffer, r: Reader, n: int): (p: (seq<Expr>, Reader))
    requires r.pos <= |buf|
    ensures Forward(buf, r, p.1)
    decreases |buf| - r.pos, if n > 0 then n else 0
  {
    if n <= 0 then ([], r)
    else
      var e := DecExpr(buf, r);
      var (es, r1) := DecExprs(buf, e.r, n - 1);
      ([e.e] + es, r1)
  }

  // ----- Which expressions survive -----

  /** Only the field of the literal's type is used, and it fits its width. */
  predicate LitOK(l: Literal) {
    && Int64(l.i) && l.bits < TWO_64 && Int64(|l.s|)
    && (l.typ != T_INT && l.typ != T_TIMESTAMP ==> l.i == 0)
    && (l.typ != T_FLOAT ==> l.bits == 0)
    && (l.typ != T_STRING ==> l.s == [])
    && (l.typ != T_BOOL ==> !l.b)
  }

  /** What the parser can produce and the writer accepts. */
  predicate Encodable(e: Expr) {
    match e
    case Nil => false
    case Lit(l) => LitOK(l)
    case Ident(name) => Int64(|name|)
    case Binary(_, l, r) => Encodable(l) && Encodable(r)
    case Unary(_, x) => Encodable(x)
    case Call(fn, args) => Int64(|fn|) && Int64(|args|) && forall i :: 0 <= i < |args| ==> Encodable(args[i])
    case Cast(x, _) => Encodable(x)
  }

  /** Every operator is in its table. */
  predicate OpsListed(e: Expr) {
    match e
    case Nil => true
    case Lit(_) => true
    case Ident(_) => true
    case Binary(op, l, r) => op in BINARY_OPS && OpsListed(l) && OpsListed(r)
    case Unary(op, x) => op in UNARY_OPS && OpsListed(x)
    case Call(_, args) => forall i :: 0 <= i < |args| ==> OpsListed(args[i])
    case Cast(x, _) => OpsListed(x)
  }

  lemma ReadsLit(buf: Buffer, pos: nat, l: Literal)
    requires LitOK(l) && At(buf, pos, [l.typ] + LitFields(l))
    ensures ReadLit(buf, Reader(pos, false)) == (l, Reader(pos + 1 + |LitFields(l)|, false))
  {
    AtConcat(buf, pos, [l.typ], LitFields(l));
    ReadsByte(buf, pos, l.typ);
    if l.typ == T_INT || l.typ == T_TIMESTAMP {
      ReadsVarint(buf, pos + 1, l.i);
    } else if l.typ == T_FLOAT {
      ReadsUvarint(buf, pos + 1, l.bits);
    } else if l.typ == T_STRING {
      ReadsStr(buf, pos + 1, l.s);
    } else if l.typ == T_BOOL {
      ReadsBool(buf, pos + 1, l.b);
    }
  }

  /** What reading the bytes of an expression gives: the expression itself when its operators are listed. */
  function Survives(e: Expr): Expr {
    match e
    case Binary(op, l, r) => if op in BINARY_OPS then Binary(op, Survives(l), Survives(r)) else Nil
    case Unary(op, x) => if op in UNARY_OPS then Unary(op, Survives(x)) else Nil
    case Call(fn, args) => Call(fn, seq(|args|, i requires 0 <= i < |args| => Survives(args[i])))
    case Cast(x, t) => Cast(Survives(x), t)
    case _ => e
  }

  lemma {:induction false} SurvivesIff(e: Expr)
    ensures Survives(e) == e <==> OpsListed(e)
  {
    match e
    case Binary(_, l, r) => SurvivesIff(l); SurvivesIff(r);
    case Unary(_, x) => SurvivesIff(x);
    case Call(_, args) =>
      forall i | 0 <= i < |args| ensures Survives(args[i]) == args[i] <==> OpsListed(args[i]) {
        SurvivesIff(args[i]);
      }
      if Survives(e) == e {
        forall i | 0 <= i < |args| ensures OpsListed(args[i]) {
          assert Survives(e).args[i] == args[i];
        }
      }
    case Cast(x, _) => SurvivesIff(x);
    case _ =>
  }

  /** Reading at a position gives what survives of an expression and ends behind it. */
  ghost predicate ReadsBack(buf: Buffer, pos: nat, e: Expr) {
    && pos <= |buf|
    && DecExpr(buf, Reader(pos, false)) == Parsed(Survives(e), Survives(e) == Nil, Reader(pos + |EncExpr(e)|, false))
  }

  ghost predicate AllReadBack(buf: Buffer, pos: nat, es: seq<Expr>) {
    && pos <= |buf|
    && DecExprs(buf, Reader(pos, false), |es|) == (Survivors(es), Reader(pos + |EncExprs(es)|, false))
  }

  lemma LitReads(buf: Buffer, pos: nat, l: Literal)
    requires LitOK(l) && At(buf, pos, EncExpr(Lit(l)))
    ensures ReadsBack(buf, pos, Lit(l))
  {
    AtConcat(buf, pos, [1], [l.typ] + LitFields(l));
    ReadsByte(buf, pos, 1);
    ReadsLit(buf, pos + 1, l);
  }

  lemma IdentReads(buf: Buffer, pos: nat, name: Key)
    requires Int64(|name|) && At(buf, pos, EncExpr(Ident(name)))
    ensures ReadsBack(buf, pos, Ident(name))
  {
    AtConcat(buf, pos, [2], Str(name));
    ReadsByte(buf, pos, 2);
    ReadsStr(buf, pos + 1, name);
  }

  /** The fields in front of the operands of an operator. */
  lemma OperatorReads(buf: Buffer, pos: nat, kind: byte, code: byte, rest: Buffer)
    requires At(buf, pos, [kind] + ([code] + rest))
    ensures GetsByte(buf, pos, kind) && GetsByte(buf, pos + 1, code) && At(buf, pos + 2, rest)
  {
    ByteThen(buf, pos, kind, [code] + rest);
    ByteThen(buf, pos + 1, code, rest);
  }

  lemma BinaryReads(buf: Buffer, pos: nat, op: string, l: Expr, r: Expr)
    requires At(buf, pos, EncExpr(Binary(op, l, r)))
    requires ReadsBack(buf, pos + 2, l) && ReadsBack(buf, pos + 2 + |EncExpr(l)|, r)
    ensures ReadsBack(buf, pos, Binary(op, l, r))
  {
    OperatorReads(buf, pos, 3, OpCode(BINARY_OPS, op), EncExpr(l) + EncExpr(r));
  }

  lemma UnaryReads(buf: Buffer, pos: nat, op: string, x: Expr)
    requires At(buf, pos, EncExpr(Unary(op, x))) && ReadsBack(buf, pos + 2, x)
    ensures ReadsBack(buf, pos, Unary(op, x))
  {
    OperatorReads(buf, pos, 4, OpCode(UNARY_OPS, op), EncExpr(x));
  }

  /** The fields in front of the arguments of a call. */
  lemma CallHead(buf: Buffer, pos: nat, fn: Key, n: nat, rest: Buffer)
    requires Int64(|fn|) && Int64(n) && At(buf, pos, [5] + (Str(fn) + (Uvarint(n) + rest)))
    ensures GetsByte(buf, pos, 5) && GetsStr(buf, pos + 1, fn) && GetsCount(buf, pos + 1 + |Str(fn)|, n)
    ensures At(buf, pos + 1 + |Str(fn)| + |Uvarint(n)|, rest)
  {
    ByteThen(buf, pos, 5, Str(fn) + (Uvarint(n) + rest));
    StrThen(buf, pos + 1, fn, Uvarint(n) + rest);
    CountThen(buf, pos + 1 + |Str(fn)|, n, rest);
  }

  lemma CallReads(buf: Buffer, pos: nat, fn: Key, args: seq<Expr>)
    requires Int64(|fn|) && Int64(|args|) && At(buf, pos, EncExpr(Call(fn, args)))
    requires AllReadBack(buf, pos + 1 + |Str(fn)| + |Uvarint(|args|)|, args)
    ensures ReadsBack(buf, pos, Call(fn, args))
  {
    CallHead(buf, pos, fn, |args|, EncExprs(args));
    assert Survives(Call(fn, args)).args == Survivors(args);
  }

  lemma CastReads(buf: Buffer, pos: nat, x: Expr, t: byte)
    requires At(buf, pos, EncExpr(Cast(x, t))) && ReadsBack(buf, pos + 1, x)
    ensures ReadsBack(buf, pos, Cast(x, t))
  {
    CastAt(buf, pos, x, t);
    ByteThen(buf, pos, 6, EncExpr(x) + [t]);
    ReadsByte(buf, pos + 1 + |EncExpr(x)|, t);
  }

  /** Where the operands of an expression stand. */
  lemma BinaryAt(buf: Buffer, pos: nat, op: string, l: Expr, r: Expr)
    requires At(buf, pos, EncExpr(Binary(op, l, r)))
    ensures At(buf, pos + 2, EncExpr(l)) && At(buf, pos + 2 + |EncExpr(l)|, EncExpr(r))
  {
    hide At;
    hide Peek;
    OperatorReads(buf, pos, 3, OpCode(BINARY_OPS, op), EncExpr(l) + EncExpr(r));
    AtConcat(buf, pos + 2, EncExpr(l), EncExpr(r));
  }

  lemma UnaryAt(buf: Buffer, pos: nat, op: string, x: Expr)
    requires At(buf, pos, EncExpr(Unary(op, x)))
    ensures At(buf, pos + 2, EncExpr(x))
  {
    hide At;
    hide Peek;
    OperatorReads(buf, pos, 4, OpCode(UNARY_OPS, op), EncExpr(x));
  }

  lemma CastAt(buf: Buffer, pos: nat, x: Expr, t: byte)
    requires At(buf, pos, EncExpr(Cast(x, t)))
    ensures At(buf, pos + 1, EncExpr(x)) && At(buf, pos + 1 + |EncExpr(x)|, [t])
  {
    hide At;
    hide Peek;
    AtConcat(buf, pos, [6], EncExpr(x) + [t]);
    AtConcat(buf, pos + 1, EncExpr(x), [t]);
  }

  /** Reading what was written, whatever follows; an unlisted operator loses its expression silently. */
  lemma {:induction false} ExprRoundTrip(buf: Buffer, pos: nat, e: Expr)
    requires Encodable(e) && At(buf, pos, EncExpr(e))
    ensures ReadsBack(buf, pos, e)
    decreases e, 2, 0
  {
    hide DecExpr;
    hide EncExpr;
    hide At;
    match e
    case Lit(l) => LitReads(buf, pos, l);
    case Ident(name) => IdentReads(buf, pos, name);
    case Binary(_, _, _) => BinaryRoundTrip(buf, pos, e);
    case Unary(op, x) =>
      UnaryAt(buf, pos, op, x);
      ExprRoundTrip(buf, pos + 2, x);
      UnaryReads(buf, pos, op, x);
    case Call(_, _) => CallRoundTrip(buf, pos, e);
    case Cast(x, t) =>
      CastAt(buf, pos, x, t);
      ExprRoundTrip(buf, pos + 1, x);
      CastReads(buf, pos, x, t);
  }

  lemma {:induction false} BinaryRoundTrip(buf: Buffer, pos: nat, e: Expr)
    requires e.Binary? && Encodable(e) && At(buf, pos, EncExpr(e))
    ensures ReadsBack(buf, pos, e)
    decreases e, 1, 1
  {
    hide DecExpr;
    hide EncExpr;
    hide At;
    LeftRoundTrip(buf, pos, e);
    RightRoundTrip(buf, pos, e);
    BinaryReads(buf, pos, e.op, e.left, e.right);
  }

  lemma {:induction false} LeftRoundTrip(buf: Buffer, pos: nat, e: Expr)
    requires e.Binary? && Encodable(e) && At(buf, pos, EncExpr(e))
    ensures ReadsBack(buf, pos + 2, e.left)
    decreases e, 1, 0
  {
    hide DecExpr;
    hide EncExpr;
    hide At;
    BinaryAt(buf, pos, e.op, e.left, e.right);
    ExprRoundTrip(buf, pos + 2, e.left);
  }

  lemma {:induction false} RightRoundTrip(buf: Buffer, pos: nat, e: Expr)
    requires e.Binary? && Encodable(e) && At(buf, pos, EncExpr(e))
    ensures ReadsBack(buf, pos + 2 + |EncExpr(e.left)|, e.right)
    decreases e, 1, 0
  {
    hide DecExpr;
    hide EncExpr;
    hide At;
    BinaryAt(buf, pos, e.op, e.left, e.right);
    ExprRoundTrip(buf, pos + 2 + |EncExpr(e.left)|, e.right);
  }

  lemma EncCall(fn: Key, args: seq<Expr>)
    ensures EncExpr(Call(fn, args)) == [5] + (Str(fn) + (Uvarint(|args|) + EncExprs(args)))
  {
  }

  lemma {:induction false} CallRoundTrip(buf: Buffer, pos: nat, e: Expr)
    requires e.Call? && Encodable(e) && At(buf, pos, EncExpr(e))
    ensures ReadsBack(buf, pos, e)
    decreases e, 1, 0
  {
    hide DecExpr;
    hide EncExpr;
    hide At;
    EncCall(e.fn, e.args);
    CallHead(buf, pos, e.fn, |e.args|, EncExprs(e.args));
    ExprsRoundTrip(buf, pos + 1 + |Str(e.fn)| + |Uvarint(|e.args|)|, e.args, e);
    CallReads(buf, pos, e.fn, e.args);
  }

  function Survivors(es: seq<Expr>): (r: seq<Expr>)
    ensures |r| == |es| && forall i :: 0 <= i < |es| ==> r[i] == Survives(es[i])
  {
    seq(|es|, i requires 0 <= i < |es| => Survives(es[i]))
  }

  lemma ConsReads(buf: Buffer, pos: nat, e: Expr, es: seq<Expr>)
    requires ReadsBack(buf, pos, e) && AllReadBack(buf, pos + |EncExpr(e)|, es)
    ensures AllReadBack(buf, pos, [e] + es)
  {
    assert ([e] + es)[1..] == es;
    assert Survivors([e] + es) == [Survives(e)] + Survivors(es);
  }

  /** A list of expressions, each smaller than `whole`. */
  lemma {:induction false} ExprsRoundTrip(buf: Buffer, pos: nat, es: seq<Expr>, whole: Expr)
    requires (forall i :: 0 <= i < |es| ==> Encodable(es[i]) && es[i] < whole) && At(buf, pos, EncExprs(es))
    ensures AllReadBack(buf, pos, es)
    decreases whole, 0, |es|
  {
    hide DecExpr;
    hide EncExpr;
    if es != [] {
      AtConcat(buf, pos, EncExpr(es[0]), EncExprs(es[1..]));
      ExprRoundTrip(buf, pos, es[0]);
      ExprsRoundTrip(buf, pos + |EncExpr(es[0])|, es[1..], whole);
      ConsReads(buf, pos, es[0], es[1..]);
      assert [es[0]] + es[1..] == es;
    }
  }
}
