/**
 The expression parser: precedence climbing over the lexer's tokens, as the grammar it
 accepts and as the recursive descent that moves one cursor.
 */
module SqlParse {
  import opened Wrappers
  import opened SqlLex
  import opened Lowering

  datatype Type = TypeNull | TypeInt | TypeFloat | TypeString | TypeBool | TypeTimestamp

  /** Expressions; `Stamp` is a literal of type timestamp, kept as its text. */
  datatype Expr =
    | Null
    | Int(n: int)
    | Str(s: string)
    | Bool(b: bool)
    | Stamp(s: string)
    | Ident(name: string)
    | Unary(op: string, x: Expr)
    | Binary(op: string, left: Expr, right: Expr)
    | Call(fn: string, args: seq<Expr>)
    | Cast(x: Expr, typ: Type)

  function TypeFromKeyword(w: string): Type {
    var k := Lower(w);
    if k in ["int", "int64", "integer"] then TypeInt
    else if k in ["float", "double", "real"] then TypeFloat
    else if k in ["string", "text", "varchar"] then TypeString
    else if k in ["bool", "boolean"] then TypeBool
    else if k == "timestamp" then TypeTimestamp
    else TypeNull
  }

  // ----- The grammar -----

  /** The last token, and only the last, is the end. */
  predicate Closed(toks: seq<Token>) {
    toks != [] && toks[|toks| - 1] == End && forall i :: 0 <= i < |toks| - 1 ==> toks[i] != End
  }

  /** `isKeyword`: no word outside ASCII is equal to a keyword, in lower case or under folding. */
  predicate Keyword(t: Token, kw: string) {
    t.Word? && Lower(t.text) == kw
  }

  const COMPARISONS: seq<string> := ["=", "==", "<>", "!=", "<", "<=", ">", ">="]

  function Canonical(op: string): string {
    if op == "==" then "=" else if op == "!=" then "<>" else op
  }

  /** The operator of a level at a position and the tokens it takes, none if there is no such operator. */
  function OpAt(level: nat, toks: seq<Token>, pos: nat): (r: (string, nat))
    requires Closed(toks) && pos < |toks|
    ensures pos + r.1 < |toks|
  {
    var t := toks[pos];
    if level == 1 then if Keyword(t, "or") then ("OR", 1) else ("", 0)
    else if level == 2 then if Keyword(t, "and") then ("AND", 1) else ("", 0)
    else if level == 3 then
      if t.Op? && t.text in COMPARISONS then (Canonical(t.text), 1)
      else if Keyword(t, "not") && Keyword(toks[pos + 1], "like") then ("NOT LIKE", 2)
      else if Keyword(t, "like") then ("LIKE", 1)
      else ("", 0)
    else if level == 4 then if t == Op("+") || t == Op("-") then (t.text, 1) else ("", 0)
    else if t == Op("*") || t == Star then ("*", 1)
    else if t == Op("/") then ("/", 1)
    else ("", 0)
  }

  /** An expression and the position behind it. */
  type Parse = Option<(Expr, nat)>

  predicate Ahead(p: Parse, pos: nat, toks: seq<Token>) {
    p.Some? ==> pos < p.value.1 < |toks|
  }

  /** Levels 1 to 5 are OR, AND, comparison, sums and products; 6 is a unary expression. */
  function ParseLevel(level: nat, toks: seq<Token>, pos: nat): (p: Parse)
    requires 1 <= level <= 6 && Closed(toks) && pos < |toks|
    ensures Ahead(p, pos, toks)
    decreases |toks| - pos, 2, 10 - level
  {
    if level == 6 then ParseUnary(toks, pos)
    else
      var l := ParseLevel(level + 1, toks, pos);
      if l.None? then None else ParseTail(level, l.value.0, toks, l.value.1)
  }

  /** The operators of a level and their right operands, folded to the left. */
  function ParseTail(level: nat, left: Expr, toks: seq<Token>, pos: nat): (p: Parse)
    requires 1 <= level <= 5 && Closed(toks) && pos < |toks|
    ensures p.Some? ==> pos <= p.value.1 < |toks|
    decreases |toks| - pos, 1, 0
  {
    var (op, n) := OpAt(level, toks, pos);
    if n == 0 then Some((left, pos))
    else
      var r := ParseLevel(level + 1, toks, pos + n);
      if r.None? then None else ParseTail(level, Binary(op, left, r.value.0), toks, r.value.1)
  }

  function Wrapped(op: string, p: Parse): Parse {
    if p.None? then None else Some((Unary(op, p.value.0), p.value.1))
  }

  function ParseUnary(toks: seq<Token>, pos: nat): (p: Parse)
    requires Closed(toks) && pos < |toks|
    ensures Ahead(p, pos, toks)
    decreases |toks| - pos, 1, 1
  {
    var t := toks[pos];
    if t == Op("-") || t == Op("+") then Wrapped(t.text, ParseUnary(toks, pos + 1))
    else if Keyword(t, "not") then Wrapped("NOT", ParseUnary(toks, pos + 1))
    else ParsePrimary(toks, pos)
  }

  function ParsePrimary(toks: seq<Token>, pos: nat): (p: Parse)
    requires Closed(toks) && pos < |toks|
    ensures Ahead(p, pos, toks)
    decreases |toks| - pos, 1, 0
  {
    match toks[pos]
    case Number(v) => Some((Int(v), pos + 1))
    case Text(s) => Some((Str(s), pos + 1))
    case Star => Some((Ident("*"), pos + 1))
    case LParen =>
      var e := ParseLevel(1, toks, pos + 1);
      if e.None? || toks[e.value.1] != RParen then None else Some((e.value.0, e.value.1 + 1))
    case Word(w) =>
      if Lower(w) == "null" then Some((Null, pos + 1))
      else if Lower(w) == "true" || Lower(w) == "false" then Some((Bool(Lower(w) == "true"), pos + 1))
      else if Lower(w) == "cast" then ParseCast(toks, pos + 1)
      else if toks[pos + 1] == LParen then
        var a := ParseArgs(toks, pos + 2);
        if a.None? then None else Some((Call(Lower(w), a.value.0), a.value.1))
      else Some((Ident(Lower(w)), pos + 1))
    case _ => None
  }

  /** What follows the word CAST; AS may be missing. */
  function ParseCast(toks: seq<Token>, pos: nat): (p: Parse)
    requires Closed(toks) && pos < |toks|
    ensures Ahead(p, pos, toks)
    decreases |toks| - pos, 0, 0
  {
    if toks[pos] != LParen then None
    else
      var e := ParseLevel(1, toks, pos + 1);
      if e.None? then None
      else
        var q := if Keyword(toks[e.value.1], "as") then e.value.1 + 1 else e.value.1;
        if !toks[q].Word? || toks[q + 1] != RParen then None
        else Some((Cast(e.value.0, TypeFromKeyword(toks[q].text)), q + 2))
  }

  type ArgParse = Option<(seq<Expr>, nat)>

  /** The arguments of a call and its closing parenthesis. */
  function ParseArgs(toks: seq<Token>, pos: nat): (p: ArgParse)
    requires Closed(toks) && pos < |toks|
    ensures p.Some? ==> pos < p.value.1 < |toks|
    decreases |toks| - pos, 3, 1
  {
    if toks[pos] == RParen then Some(([], pos + 1)) else ParseArgList(toks, pos)
  }

  function ParseArgList(toks: seq<Token>, pos: nat): (p: ArgParse)
    requires Closed(toks) && pos < |toks|
    ensures p.Some? ==> pos < p.value.1 < |toks|
    decreases |toks| - pos, 3, 0
  {
    var e := ParseLevel(1, toks, pos);
    if e.None? then None
    else if toks[e.value.1] == RParen then Some(([e.value.0], e.value.1 + 1))
    else if toks[e.value.1] != Comma then None
    else
      var a := ParseArgList(toks, e.value.1 + 1);
      if a.None? then None else Some(([e.value.0] + a.value.0, a.value.1))
  }

  /** A text that is one expression. */
  function ParseText(src: string): Option<Expr> {
    TokensLexed(src);
    var toks := Tokens(src);
    if toks.None? then None
    else
      var p := ParseLevel(1, toks.value, 0);
      if p.None? || toks.value[p.value.1] != End then None else Some(p.value.0)
  }

  // ----- The parser -----

  class Parser {
    const toks: seq<Token>
    var pos: nat

    constructor (ts: seq<Token>)
      requires Closed(ts)
      ensures toks == ts && Valid() && pos == 0
    {
      toks, pos := ts, 0;
    }

    ghost predicate Valid()
      reads this
    {
      Closed(toks) && pos < |toks|
    }

    /** What a method that reads an expression returns and where it leaves the cursor. */
    ghost predicate Reads(e: Option<Expr>, p: Parse)
      reads this
    {
      if p.None? then e.None? else e == Some(p.value.0) && pos == p.value.1
    }

    function Peek(): Token
      requires Valid()
      reads this
    {
      toks[pos]
    }

    function PeekAt(n: nat): Token
      requires Valid()
      reads this
    {
      if pos + n < |toks| then toks[pos + n] else toks[|toks| - 1]
    }

    method Advance() returns (t: Token)
      requires Valid()
      modifies this
      ensures Valid() && t == toks[old(pos)] && pos == if t == End then old(pos) else old(pos) + 1
    {
      t := toks[pos];
      if pos < |toks| - 1 {
        pos := pos + 1;
      }
    }

    method Expect(kind: Token) returns (ok: bool)
      requires Valid() && kind != End
      modifies this
      ensures Valid() && ok == (toks[old(pos)] == kind) && pos == if ok then old(pos) + 1 else old(pos)
    {
      if Peek() != kind {
        return false;
      }
      var _ := Advance();
      ok := true;
    }

    method IsKeyword(kw: string) returns (r: bool)
      requires Valid()
      ensures r == Keyword(toks[pos], kw)
    {
      r := Peek().Word? && Lower(Peek().text) == kw;
    }

    method AcceptKeyword(kw: string) returns (r: bool)
      requires Valid()
      modifies this
      ensures Valid() && r == Keyword(toks[old(pos)], kw) && pos == if r then old(pos) + 1 else old(pos)
    {
      r := IsKeyword(kw);
      if r {
        var _ := Advance();
      }
    }

    method ParseExpr() returns (e: Option<Expr>)
      requires Valid()
      modifies this
      ensures Valid() && Reads(e, ParseLevel(1, toks, old(pos)))
      decreases |toks| - pos, 10
    {
      e := ParseOr();
    }

    method ParseOr() returns (e: Option<Expr>)
      requires Valid()
      modifies this
      ensures Valid() && Reads(e, ParseLevel(1, toks, old(pos)))
      decreases |toks| - pos, 9
    {
      hide Lower;
      e := ParseAnd();
      if e.None? {
        return;
      }
      ghost var whole := ParseLevel(1, toks, old(pos));
      while true
        invariant Valid() && e.Some? && old(pos) < pos && whole == ParseTail(1, e.value, toks, pos)
        decreases |toks| - pos
      {
        var kw := IsKeyword("or");
        if !kw {
          return;
        }
        var _ := Advance();
        var right := ParseAnd();
        if right.None? {
          return None;
        }
        e := Some(Binary("OR", e.value, right.value));
      }
    }

    method ParseAnd() returns (e: Option<Expr>)
      requires Valid()
      modifies this
      ensures Valid() && Reads(e, ParseLevel(2, toks, old(pos)))
      decreases |toks| - pos, 8
    {
      hide Lower;
      e := ParseComparison();
      if e.None? {
        return;
      }
      ghost var whole := ParseLevel(2, toks, old(pos));
      while true
        invariant Valid() && e.Some? && old(pos) < pos && whole == ParseTail(2, e.value, toks, pos)
        decreases |toks| - pos
      {
        var kw := IsKeyword("and");
        if !kw {
          return;
        }
        var _ := Advance();
        var right := ParseComparison();
        if right.None? {
          return None;
        }
        e := Some(Binary("AND", e.value, right.value));
      }
    }

    method ParseComparison() returns (e: Option<Expr>)
      requires Valid()
      modifies this
      ensures Valid() && Reads(e, ParseLevel(3, toks, old(pos)))
      decreases |toks| - pos, 7
    {
      hide OpAt;
      e := ParseAdditive();
      if e.None? {
        return;
      }
      ghost var whole := ParseLevel(3, toks, old(pos));
      while true
        invariant Valid() && e.Some? && old(pos) < pos && whole == ParseTail(3, e.value, toks, pos)
        decreases |toks| - pos
      {
        var op := ComparisonOp();
        if op == "" {
          return;
        }
        var right := ParseAdditive();
        if right.None? {
          return None;
        }
        e := Some(Binary(op, e.value, right.value));
      }
    }

    /** The head of the loop: the comparison at the cursor, which moves behind it. */
    method ComparisonOp() returns (op: string)
      requires Valid()
      modifies this
      ensures Valid() && op == OpAt(3, toks, old(pos)).0 && pos == old(pos) + OpAt(3, toks, old(pos)).1
      ensures op == "" <==> pos == old(pos)
    {
      hide Lower;
      var t := Peek();
      var isNot := IsKeyword("not");
      var isLike := IsKeyword("like");
      if t.Op? && t.text in COMPARISONS {
        var _ := Advance();
        op := t.text;
        if op == "==" {
          op := "=";
        }
        if op == "!=" {
          op := "<>";
        }
      } else if isNot && PeekAt(1).Word? && Lower(PeekAt(1).text) == "like" {
        var _ := Advance();
        var _ := Advance();
        op := "NOT LIKE";
      } else if isLike {
        var _ := Advance();
        op := "LIKE";
      } else {
        op := "";
      }
    }

    method ParseAdditive() returns (e: Option<Expr>)
      requires Valid()
      modifies this
      ensures Valid() && Reads(e, ParseLevel(4, toks, old(pos)))
      decreases |toks| - pos, 6
    {
      e := ParseMultiplicative();
      if e.None? {
        return;
      }
      ghost var whole := ParseLevel(4, toks, old(pos));
      while true
        invariant Valid() && e.Some? && old(pos) < pos && whole == ParseTail(4, e.value, toks, pos)
        decreases |toks| - pos
      {
        var t := Peek();
        if t != Op("+") && t != Op("-") {
          return;
        }
        var _ := Advance();
        var right := ParseMultiplicative();
        if right.None? {
          return None;
        }
        e := Some(Binary(t.text, e.value, right.value));
      }
    }

    method ParseMultiplicative() returns (e: Option<Expr>)
      requires Valid()
      modifies this
      ensures Valid() && Reads(e, ParseLevel(5, toks, old(pos)))
      decreases |toks| - pos, 5
    {
      e := ParseSigned();
      if e.None? {
        return;
      }
      ghost var whole := ParseLevel(5, toks, old(pos));
      while true
        invariant Valid() && e.Some? && old(pos) < pos && whole == ParseTail(5, e.value, toks, pos)
        decreases |toks| - pos
      {
        var t := Peek();
        var op := "";
        if t == Op("*") || t == Star {
          op := "*";
        } else if t == Op("/") {
          op := "/";
        } else {
          return;
        }
        var _ := Advance();
        var right := ParseSigned();
        if right.None? {
          return None;
        }
        e := Some(Binary(op, e.value, right.value));
      }
    }

    /** `parseUnary` */
    method ParseSigned() returns (e: Option<Expr>)
      requires Valid()
      modifies this
      ensures Valid() && Reads(e, ParseLevel(6, toks, old(pos)))
      decreases |toks| - pos, 4
    {
      assert ParseLevel(6, toks, pos) == ParseUnary(toks, pos);
      var t := Peek();
      if t == Op("-") || t == Op("+") {
        var _ := Advance();
        assert ParseLevel(6, toks, pos) == ParseUnary(toks, pos);
        var x := ParseSigned();
        return if x.None? then None else Some(Unary(t.text, x.value));
      }
      var not := IsKeyword("not");
      if not {
        var _ := Advance();
        assert ParseLevel(6, toks, pos) == ParseUnary(toks, pos);
        var x := ParseSigned();
        return if x.None? then None else Some(Unary("NOT", x.value));
      }
      e := ParseAtom();
    }

    /** `parsePrimary` */
    method ParseAtom() returns (e: Option<Expr>)
      requires Valid()
      modifies this
      ensures Valid() && Reads(e, ParsePrimary(toks, old(pos)))
      decreases |toks| - pos, 3
    {
      var t := Peek();
      match t
      case Number(v) =>
        var _ := Advance();
        return Some(Int(v));
      case Text(s) =>
        var _ := Advance();
        return Some(Str(s));
      case Star =>
        var _ := Advance();
        return Some(Ident("*"));
      case LParen =>
        var _ := Advance();
        e := ParseExpr();
        if e.None? {
          return;
        }
        var ok := Expect(RParen);
        if !ok {
          return None;
        }
      case Word(w) =>
        if Lower(w) == "null" {
          var _ := Advance();
          return Some(Null);
        }
        if Lower(w) == "true" || Lower(w) == "false" {
          var _ := Advance();
          return Some(Bool(Lower(w) == "true"));
        }
        if Lower(w) == "cast" {
          var _ := Advance();
          e := ParseCastBody();
          return;
        }
        if PeekAt(1) == LParen {
          var _ := Advance();
          var _ := Advance();
          var args := ParseCallArgs();
          return if args.None? then None else Some(Call(Lower(w), args.value));
        }
        var _ := Advance();
        return Some(Ident(Lower(w)));
      case _ =>
        return None;
    }

    method ParseCastBody() returns (e: Option<Expr>)
      requires Valid()
      modifies this
      ensures Valid() && Reads(e, ParseCast(toks, old(pos)))
      decreases |toks| - pos, 2
    {
      var ok := Expect(LParen);
      if !ok {
        return None;
      }
      e := ParseExpr();
      if e.None? {
        return;
      }
      var _ := AcceptKeyword("as");
      if !Peek().Word? {
        return None;
      }
      var t := Advance();
      ok := Expect(RParen);
      if !ok {
        return None;
      }
      e := Some(Cast(e.value, TypeFromKeyword(t.text)));
    }

    method ParseCallArgs() returns (args: Option<seq<Expr>>)
      requires Valid()
      modifies this
      ensures Valid()
      ensures var p := ParseArgs(toks, old(pos));
              if p.None? then args.None? else args == Some(p.value.0) && pos == p.value.1
      decreases |toks| - pos, 11
    {
      hide ParseLevel;
      var acc: seq<Expr> := [];
      ghost var whole := ParseArgs(toks, pos);
      if Peek() != RParen {
        assert whole.Some? ==> acc + whole.value.0 == whole.value.0;
        while true
          invariant Valid() && old(pos) <= pos && whole == ArgsAfter(acc, ParseArgList(toks, pos))
          decreases |toks| - pos
        {
          ghost var here := ParseArgList(toks, pos);
          var a := ParseExpr();
          if a.None? {
            return None;
          }
          if Peek() == Comma {
            ArgsAfterOne(acc, a.value, ParseArgList(toks, pos + 1));
            var _ := Advance();
            acc := acc + [a.value];
            continue;
          }
          ArgsAfterOne(acc, a.value, Some(([], pos + 1)));
          acc := acc + [a.value];
          assert acc + [] == acc;
          break;
        }
      }
      var ok := Expect(RParen);
      return if ok then Some(acc) else None;
    }
  }

  /** Arguments read so far in front of the rest. */
  function ArgsAfter(acc: seq<Expr>, p: ArgParse): ArgParse {
    if p.None? then None else Some((acc + p.value.0, p.value.1))
  }

  lemma ArgsAfterOne(acc: seq<Expr>, e: Expr, p: ArgParse)
    ensures ArgsAfter(acc, ArgsAfter([e], p)) == ArgsAfter(acc + [e], p)
  {
    if p.Some? {
      assert acc + ([e] + p.value.0) == acc + [e] + p.value.0;
    }
  }
}
