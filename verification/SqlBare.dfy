/**
 Expressions with the fewest brackets: precedence, associativity and spelling. The tokens
 of an expression whose operands are bracketed only where their operator binds less tightly
 than its place asks for are read as that expression.
 */
module SqlBare {
  import opened Wrappers
  import opened SqlLex
  import opened Lowering
  import opened SqlParse
  import opened SqlCase
  import opened SqlPrint
  import opened SqlRound

  // ----- What a spelling means -----

  predicate Spelled(op: string) {
    BinaryOp(op) || op == "==" || op == "!="
  }

  /** The operator that a spelling stands for. */
  function Sense(op: string): string {
    if op == "==" then "=" else if op == "!=" then "<>" else op
  }

  /** An expression that can be written: names are words, operators may be spelled in any way. */
  predicate Written(e: Expr) {
    match e
    case Null => true
    case Int(n) => 0 <= n <= MAX_INT64
    case Str(_) => true
    case Stamp(_) => false
    case Bool(_) => true
    case Ident(name) => name == "*" || NameOK(name)
    case Unary(op, x) => UnaryOp(op) && Written(x)
    case Binary(op, l, r) => Spelled(op) && Written(l) && Written(r)
    case Call(fn, args) => NameOK(fn) && forall i :: 0 <= i < |args| ==> Written(args[i])
    case Cast(x, _) => Written(x)
  }

  /** What is read of it. */
  function Meaning(e: Expr): Expr {
    match e
    case Unary(op, x) => Unary(op, Meaning(x))
    case Binary(op, l, r) => Binary(Sense(op), Meaning(l), Meaning(r))
    case Call(fn, args) => Call(fn, Meanings(args))
    case Cast(x, t) => Cast(Meaning(x), if t == TypeFloat then TypeNull else t)
    case _ => e
  }

  function Meanings(es: seq<Expr>): seq<Expr> {
    if es == [] then [] else [Meaning(es[0])] + Meanings(es[1..])
  }

  // ----- Brackets -----

  /** How tightly the top of an expression binds: OR, AND, comparisons, sums, products, signs and NOT, and the rest. */
  function Tightness(e: Expr): (k: nat)
    ensures 1 <= k <= 7
  {
    match e
    case Binary(op, _, _) =>
      if op == "OR" then 1
      else if op == "AND" then 2
      else if op == "+" || op == "-" then 4
      else if op == "*" || op == "/" then 5
      else 3
    case Unary(_, _) => 6
    case _ => 7
  }

  function SpelledToks(op: string): (ts: seq<Token>)
    ensures ts != []
  {
    if op == "==" || op == "!=" then [Op(op)] else OpToks(op)
  }

  /** The tokens of an expression where one at least as tight as `lo` is asked for. */
  function Bare(e: Expr, lo: nat): (ts: seq<Token>)
    ensures ts != []
    decreases e, 1
  {
    if Tightness(e) < lo then [LParen] + (Open(e) + [RParen]) else Open(e)
  }

  /**
   The tokens of an expression without brackets around it. A left operand may bind as
   tightly as the operator, a right one has to bind more tightly.
   */
  function Open(e: Expr): (ts: seq<Token>)
    ensures ts != []
    decreases e, 0
  {
    match e
    case Unary(op, x) => OpToks(op) + Bare(x, 6)
    case Binary(op, l, r) => Bare(l, Tightness(e)) + (SpelledToks(op) + Bare(r, Tightness(e) + 1))
    case Call(fn, args) => [Word(fn), LParen] + (BareArgs(args) + [RParen])
    case Cast(x, t) => [Word("cast"), LParen] + (Bare(x, 1) + [Word("as"), Word(TypeName(t)), RParen])
    case _ => Toks(e)
  }

  function BareArgs(es: seq<Expr>): seq<Token> {
    if es == [] then [] else if |es| == 1 then Bare(es[0], 1) else Bare(es[0], 1) + ([Comma] + BareArgs(es[1..]))
  }

  // ----- Reading it back -----

  /** Tokens stand at a position, and what follows them opens no argument list. */
  ghost predicate StandAt(toks: seq<Token>, pos: nat, ts: seq<Token>) {
    && Closed(toks) && Has(toks, pos, ts) && ts != []
    && pos + |ts| < |toks| && toks[pos + |ts|] != LParen
  }

  /** A spelled operator is found at its level, and no operator of a higher one. */
  lemma SpelledFound(toks: seq<Token>, pos: nat, e: Expr)
    requires Closed(toks) && e.Binary? && Spelled(e.op) && Has(toks, pos, SpelledToks(e.op)) && pos < |toks|
    ensures OpAt(Tightness(e), toks, pos) == (Sense(e.op), |SpelledToks(e.op)|)
    ensures Quiet(toks, pos, Tightness(e) + 1) && toks[pos] != LParen
  {
    hide Lower;
    if BinaryOp(e.op) {
      OpFound(toks, pos, e.op);
      assert Tightness(e) == LevelOf(e.op);
    } else {
      HasOne(toks, pos, Op(e.op));
    }
  }

  lemma BinaryStands(toks: seq<Token>, pos: nat, e: Expr)
    requires e.Binary? && StandAt(toks, pos, Open(e)) && Spelled(e.op)
    ensures var k := Tightness(e);
            var ql := pos + |Bare(e.left, k)|;
            var pr := ql + |SpelledToks(e.op)|;
            && StandAt(toks, pos, Bare(e.left, k)) && Has(toks, ql, SpelledToks(e.op)) && StandAt(toks, pr, Bare(e.right, k + 1))
            && pr + |Bare(e.right, k + 1)| == pos + |Open(e)|
            && OpAt(k, toks, ql) == (Sense(e.op), |SpelledToks(e.op)|) && Quiet(toks, ql, k + 1)
  {
    hide Has;
    hide Quiet;
    hide OpAt;
    hide Closed;
    hide Bare;
    hide Spelled;
    hide SpelledToks;
    var k := Tightness(e);
    var l, o, r := Bare(e.left, k), SpelledToks(e.op), Bare(e.right, k + 1);
    HasSplit(toks, pos, l, o + r);
    HasSplit(toks, pos + |l|, o, r);
    SpelledFound(toks, pos + |l|, e);
  }

  /** A binary expression behind which its level goes on. */
  lemma {:induction false} OwnLevel(toks: seq<Token>, pos: nat, e: Expr)
    requires e.Binary? && Written(e) && StandAt(toks, pos, Open(e)) && Quiet(toks, pos + |Open(e)|, Tightness(e) + 1)
    ensures ParseLevel(Tightness(e), toks, pos) == ParseTail(Tightness(e), Meaning(e), toks, pos + |Open(e)|)
    decreases e, 0, 0
  {
    hide Has;
    hide Quiet;
    hide OpAt;
    hide ParseLevel;
    hide Closed;
    hide Bare;
    hide Open;
    hide Tightness;
    hide SpelledToks;
    var k := Tightness(e);
    TightBinary(e);
    BinaryStands(toks, pos, e);
    LevelRead(toks, pos, e.left, k);
    ExprRead(toks, pos + |Bare(e.left, k)| + |SpelledToks(e.op)|, e.right, k + 1);
  }

  lemma TightBinary(e: Expr)
    requires e.Binary?
    ensures 1 <= Tightness(e) <= 5
  {
  }

  /** What is read where a level begins, if no tighter operator follows. */
  lemma {:induction false} LevelRead(toks: seq<Token>, pos: nat, e: Expr, k: nat)
    requires 1 <= k <= 5 && Written(e) && StandAt(toks, pos, Bare(e, k)) && Quiet(toks, pos + |Bare(e, k)|, k + 1)
    ensures ParseLevel(k, toks, pos) == ParseTail(k, Meaning(e), toks, pos + |Bare(e, k)|)
    decreases e, 2
  {
    hide Has;
    hide Quiet;
    hide OpAt;
    hide Closed;
    hide ParseTail;
    hide Written;
    hide Meaning;
    if Tightness(e) == k {
      OwnLevel(toks, pos, e);
    } else {
      assert Bare(e, k) == Bare(e, k + 1);
      ExprRead(toks, pos, e, k + 1);
    }
  }

  /** An expression read as a whole, if no operator follows that could go on with it. */
  lemma {:induction false} ExprRead(toks: seq<Token>, pos: nat, e: Expr, lo: nat)
    requires 1 <= lo <= 6 && Written(e) && StandAt(toks, pos, Bare(e, lo)) && Quiet(toks, pos + |Bare(e, lo)|, lo)
    ensures ParseLevel(lo, toks, pos) == Some((Meaning(e), pos + |Bare(e, lo)|))
    decreases e, 1
  {
    hide Has;
    hide OpAt;
    hide Closed;
    hide ParseLevel;
    hide ParseTail;
    hide ParsePrimary;
    hide Written;
    hide Meaning;
    var q := pos + |Bare(e, lo)|;
    if Tightness(e) >= lo {
      OpenRead(toks, pos, e);
      Climb(toks, pos, lo, if Tightness(e) == 7 then 6 else Tightness(e), Meaning(e), q);
    } else {
      HasFirst(toks, pos, LParen, Open(e) + [RParen]);
      HasSplit(toks, pos + 1, Open(e), [RParen]);
      HasOne(toks, q - 1, RParen);
      EndingQuiet(toks, q - 1);
      OpenRead(toks, pos + 1, e);
      Climb(toks, pos + 1, 1, Tightness(e), Meaning(e), q - 1);
      Enclosed(toks, pos, Meaning(e), q - 1);
      FromPrimary(toks, pos, lo, Meaning(e), q);
    }
  }

  lemma {:induction false} OpenRead(toks: seq<Token>, pos: nat, e: Expr)
    requires Written(e) && StandAt(toks, pos, Open(e)) && Quiet(toks, pos + |Open(e)|, Tightness(e))
    ensures ParseLevel(if Tightness(e) == 7 then 6 else Tightness(e), toks, pos) == Some((Meaning(e), pos + |Open(e)|))
    decreases e, 0, 2
  {
    hide Has;
    hide ParseLevel;
    hide ParsePrimary;
    hide OpAt;
    hide Open;
    hide Written;
    hide Meaning;
    var q := pos + |Open(e)|;
    if e.Binary? {
      TightBinary(e);
      OwnLevel(toks, pos, e);
    } else if e.Unary? {
      SignedRead(toks, pos, e);
    } else {
      PrimaryRead(toks, pos, e);
      FromPrimary(toks, pos, 6, Meaning(e), q);
    }
  }

  lemma {:induction false} PrimaryRead(toks: seq<Token>, pos: nat, e: Expr)
    requires Written(e) && StandAt(toks, pos, Open(e)) && !e.Unary? && !e.Binary?
    ensures ParsePrimary(toks, pos) == Some((Meaning(e), pos + |Open(e)|)) && Unsigned(toks[pos])
    decreases e, 0, 1
  {
    hide Has;
    hide Closed;
    hide ParsePrimary;
    hide Toks;
    hide Written;
    if e.Call? {
      CallRead(toks, pos, e);
    } else if e.Cast? {
      CastRead(toks, pos, e);
    } else {
      AtomRead(toks, pos, e);
    }
  }

  lemma {:induction false} SignedRead(toks: seq<Token>, pos: nat, e: Expr)
    requires e.Unary? && Written(e) && StandAt(toks, pos, Open(e)) && Quiet(toks, pos + |Open(e)|, 6)
    ensures ParseLevel(6, toks, pos) == Some((Meaning(e), pos + |Open(e)|))
    decreases e, 0, 0
  {
    hide Has;
    hide Closed;
    hide Bare;
    hide Lower;
    hide OpAt;
    hide ParsePrimary;
    var t := OpToks(e.op)[0];
    assert OpToks(e.op) == [t];
    HasFirst(toks, pos, t, Bare(e.x, 6));
    ExprRead(toks, pos + 1, e.x, 6);
    LowerLiterals();
  }

  lemma AtomRead(toks: seq<Token>, pos: nat, e: Expr)
    requires Written(e) && StandAt(toks, pos, Toks(e)) && !e.Unary? && !e.Binary? && !e.Call? && !e.Cast?
    ensures ParsePrimary(toks, pos) == Some((e, pos + |Toks(e)|)) && Unsigned(toks[pos])
  {
    hide ParsePrimary;
    hide Has;
    hide Lower;
    assert Produced(e) && Back(e) == e;
    AtomBack(toks, pos, e);
    FirstUnsigned(e);
    assert Toks(e) == [Toks(e)[0]];
    HasOne(toks, pos, Toks(e)[0]);
  }

  lemma {:induction false} CastRead(toks: seq<Token>, pos: nat, e: Expr)
    requires e.Cast? && Written(e) && StandAt(toks, pos, Open(e))
    ensures ParsePrimary(toks, pos) == Some((Meaning(e), pos + |Open(e)|)) && Unsigned(toks[pos])
    decreases e, 0, 0
  {
    hide Bare;
    hide TypeName;
    hide ParseLevel;
    hide ParsePrimary;
    hide TypeFromKeyword;
    hide Lower;
    hide Has;
    var ts := Bare(e.x, 1);
    var q := pos + 2 + |ts|;
    var ending := [Word("as"), Word(TypeName(e.typ)), RParen];
    HasSplit(toks, pos, [Word("cast"), LParen], ts + ending);
    HasSplit(toks, pos + 2, ts, ending);
    ThreeAt(toks, q, Word("as"), Word(TypeName(e.typ)), RParen);
    TwoAt(toks, pos, Word("cast"), LParen);
    LowerLiterals();
    EndingQuiet(toks, q);
    ExprRead(toks, pos + 2, e.x, 1);
    TypeBack(e.typ);
    CastStep(toks, pos, Meaning(e.x), q, e.typ);
  }

  /** A cast may leave out the word AS. */
  lemma {:induction false} ShortCastRead(toks: seq<Token>, pos: nat, x: Expr, w: string)
    requires Closed(toks) && Written(x) && Lower(w) !in ["or", "and", "not", "like", "as"]
    requires Has(toks, pos, [Word("cast"), LParen] + (Bare(x, 1) + [Word(w), RParen]))
    ensures pos < |toks| && ParsePrimary(toks, pos) == Some((Cast(Meaning(x), TypeFromKeyword(w)), pos + 4 + |Bare(x, 1)|))
  {
    hide Bare;
    hide Written;
    hide Meaning;
    hide ParseLevel;
    hide TypeFromKeyword;
    hide Lower;
    hide Has;
    hide OpAt;
    var q := pos + 2 + |Bare(x, 1)|;
    HasSplit(toks, pos, [Word("cast"), LParen], Bare(x, 1) + [Word(w), RParen]);
    HasSplit(toks, pos + 2, Bare(x, 1), [Word(w), RParen]);
    TwoAt(toks, pos, Word("cast"), LParen);
    TwoAt(toks, q, Word(w), RParen);
    LowerLiterals();
    EndingQuiet(toks, q);
    ExprRead(toks, pos + 2, x, 1);
    assert ParseCast(toks, pos + 1) == Some((Cast(Meaning(x), TypeFromKeyword(w)), q + 2));
  }

  /** The words for the types, in any case; FLOAT64, which the printer writes, is not one of them. */
  lemma TypeWords()
    ensures TypeFromKeyword("INT") == TypeInt && TypeFromKeyword("INT64") == TypeInt && TypeFromKeyword("INTEGER") == TypeInt
    ensures TypeFromKeyword("FLOAT") == TypeFloat && TypeFromKeyword("DOUBLE") == TypeFloat && TypeFromKeyword("REAL") == TypeFloat
    ensures TypeFromKeyword("STRING") == TypeString && TypeFromKeyword("TEXT") == TypeString && TypeFromKeyword("VARCHAR") == TypeString
    ensures TypeFromKeyword("BOOL") == TypeBool && TypeFromKeyword("BOOLEAN") == TypeBool && TypeFromKeyword("TIMESTAMP") == TypeTimestamp
    ensures TypeFromKeyword("FLOAT64") == TypeNull
  {
    hide TypeFromKeyword;
    NumberWords();
    OtherWords();
  }

  lemma NumberWords()
    ensures TypeFromKeyword("INT") == TypeInt && TypeFromKeyword("INT64") == TypeInt && TypeFromKeyword("INTEGER") == TypeInt
    ensures TypeFromKeyword("FLOAT") == TypeFloat && TypeFromKeyword("DOUBLE") == TypeFloat && TypeFromKeyword("REAL") == TypeFloat
    ensures TypeFromKeyword("FLOAT64") == TypeNull
  {
    hide Lower;
    LowerIs("INT", "int");
    LowerIs("INT64", "int64");
    LowerIs("INTEGER", "integer");
    LowerIs("FLOAT", "float");
    LowerIs("DOUBLE", "double");
    LowerIs("REAL", "real");
    LowerIs("FLOAT64", "float64");
  }

  lemma OtherWords()
    ensures TypeFromKeyword("STRING") == TypeString && TypeFromKeyword("TEXT") == TypeString && TypeFromKeyword("VARCHAR") == TypeString
    ensures TypeFromKeyword("BOOL") == TypeBool && TypeFromKeyword("BOOLEAN") == TypeBool && TypeFromKeyword("TIMESTAMP") == TypeTimestamp
  {
    hide Lower;
    LowerIs("STRING", "string");
    LowerIs("TEXT", "text");
    LowerIs("VARCHAR", "varchar");
    LowerIs("BOOL", "bool");
    LowerIs("BOOLEAN", "boolean");
    LowerIs("TIMESTAMP", "timestamp");
  }

  lemma TwoAt(toks: seq<Token>, pos: nat, a: Token, b: Token)
    requires Has(toks, pos, [a, b])
    ensures pos + 1 < |toks| && toks[pos] == a && toks[pos + 1] == b
  {
    assert toks[pos + 0] == Item([a, b], 0) && toks[pos + 1] == Item([a, b], 1);
  }

  lemma ThreeAt(toks: seq<Token>, pos: nat, a: Token, b: Token, c: Token)
    requires Has(toks, pos, [a, b, c])
    ensures pos + 2 < |toks| && toks[pos] == a && toks[pos + 1] == b && toks[pos + 2] == c
  {
    assert toks[pos + 0] == Item([a, b, c], 0) && toks[pos + 1] == Item([a, b, c], 1) && toks[pos + 2] == Item([a, b, c], 2);
  }

  lemma {:induction false} CallRead(toks: seq<Token>, pos: nat, e: Expr)
    requires e.Call? && Written(e) && StandAt(toks, pos, Open(e))
    ensures ParsePrimary(toks, pos) == Some((Meaning(e), pos + |Open(e)|)) && Unsigned(toks[pos])
    decreases e, 0, 0
  {
    hide Lower;
    hide IsWord;
    hide ParseLevel;
    hide ParsePrimary;
    hide BareArgs;
    hide Has;
    var ts := BareArgs(e.args);
    var q := pos + 2 + |ts|;
    HasSplit(toks, pos, [Word(e.fn), LParen], ts + [RParen]);
    TwoAt(toks, pos, Word(e.fn), LParen);
    HasSplit(toks, pos + 2, ts, [RParen]);
    HasOne(toks, q, RParen);
    ArgsRead(toks, pos + 2, e.args, e);
    CallStep(toks, pos, e.fn, Meanings(e.args), q + 1);
  }

  lemma {:induction false} ArgsRead(toks: seq<Token>, pos: nat, es: seq<Expr>, whole: Expr)
    requires Closed(toks) && (forall i :: 0 <= i < |es| ==> Written(es[i]) && es[i] < whole) && Has(toks, pos, BareArgs(es))
    requires pos + |BareArgs(es)| < |toks| && toks[pos + |BareArgs(es)|] == RParen
    ensures ParseArgs(toks, pos) == Some((Meanings(es), pos + |BareArgs(es)| + 1))
    decreases whole, -1, |es| + 1
  {
    hide ParseLevel;
    if es != [] {
      hide BareArgs;
      ArgListRead(toks, pos, es, whole);
      ArgsOpen(toks, pos, es);
    }
  }

  /** Arguments do not begin with a closing parenthesis. */
  lemma {:induction false} ArgsOpen(toks: seq<Token>, pos: nat, es: seq<Expr>)
    requires es != [] && Has(toks, pos, BareArgs(es))
    ensures pos < |toks| && toks[pos] != RParen
  {
    assert BareArgs(es)[0] == Bare(es[0], 1)[0];
    OpensExpr(es[0], 1);
    assert toks[pos + 0] == Item(BareArgs(es), 0);
  }

  lemma {:induction false} OpensExpr(e: Expr, lo: nat)
    ensures Bare(e, lo)[0] != RParen && Open(e)[0] != RParen
    decreases e
  {
    if e.Binary? {
      OpensExpr(e.left, Tightness(e));
    }
  }

  lemma {:induction false} ArgListRead(toks: seq<Token>, pos: nat, es: seq<Expr>, whole: Expr)
    requires Closed(toks) && es != [] && (forall i :: 0 <= i < |es| ==> Written(es[i]) && es[i] < whole)
    requires Has(toks, pos, BareArgs(es)) && pos + |BareArgs(es)| < |toks| && toks[pos + |BareArgs(es)|] == RParen
    ensures ParseArgList(toks, pos) == Some((Meanings(es), pos + |BareArgs(es)| + 1))
    decreases whole, -1, |es|
  {
    hide ParseLevel;
    hide Has;
    hide Bare;
    var ts := Bare(es[0], 1);
    var q := pos + |ts|;
    if |es| > 1 {
      HasSplit(toks, pos, ts, [Comma] + BareArgs(es[1..]));
      HasFirst(toks, q, Comma, BareArgs(es[1..]));
    }
    EndingQuiet(toks, q);
    ExprRead(toks, pos, es[0], 1);
    if |es| > 1 {
      ArgListRead(toks, q + 1, es[1..], whole);
    } else {
      assert Meanings(es) == [Meaning(es[0])];
    }
  }

  // ----- Texts -----

  /** A token as it stands in a text: the quote around a quoted one, and the blanks behind it. */
  datatype Piece = Piece(tok: Token, quote: char, gap: string)

  predicate AllBlank(s: string) {
    forall i :: 0 <= i < |s| ==> s[i] == ' ' || s[i] == '\t' || s[i] == '\r' || s[i] == '\n'
  }

  /** A token that the lexer can give, with blanks behind it. */
  predicate PieceOK(p: Piece) {
    && p.gap != "" && AllBlank(p.gap) && (p.quote == '\'' || p.quote == '"')
    && match p.tok
       case End => false
       case Word(w) => IsWord(w)
       case Number(v) => v <= MAX_INT64
       case Op(op) => op in ["+", "-", "/", "=", "<", ">", "==", "!=", "<=", ">=", "<>"]
       case _ => true
  }

  function TokenText(p: Piece): string {
    match p.tok
    case End => ""
    case Word(w) => w
    case Text(s) => [p.quote] + (Escaped(s, p.quote) + [p.quote])
    case Number(v) => Digits(v)
    case Op(op) => op
    case LParen => "("
    case RParen => ")"
    case Comma => ","
    case Star => "*"
    case Semicolon => ";"
    case Dot => "."
  }

  function Spell(ps: seq<Piece>): string {
    if ps == [] then "" else TokenText(ps[0]) + (ps[0].gap + Spell(ps[1..]))
  }

  function PieceToks(ps: seq<Piece>): (ts: seq<Token>)
    ensures |ts| == |ps| && forall i :: 0 <= i < |ps| ==> ts[i] == ps[i].tok
  {
    if ps == [] then [] else [ps[0].tok] + PieceToks(ps[1..])
  }

  lemma {:induction false} LexGap(gap: string, x: string)
    requires AllBlank(gap)
    ensures Tokens(gap + x) == Tokens(x)
    decreases |gap|
  {
    hide Next;
    if gap == "" {
      assert gap + x == x;
    } else {
      assert gap + x == [gap[0]] + (gap[1..] + x);
      LexGap(gap[1..], x);
      LexBlank(gap[0], gap[1..] + x);
    }
  }

  lemma LexMark(c: char, t: Token, x: string)
    requires x != "" && Blank(x[0]) && (c, t) in [('(', LParen), (')', RParen), (',', Comma), ('*', Star), (';', Semicolon), ('.', Dot)]
    ensures Tokens([c] + x) == Cat([t], Tokens(x))
  {
    OneToken([c] + x, t, 1, x);
  }

  /** One piece of a text gives its token. */
  lemma LexPiece(p: Piece, x: string)
    requires PieceOK(p) && x != "" && Blank(x[0])
    ensures Tokens(TokenText(p) + x) == Cat([p.tok], Tokens(x))
  {
    hide Tokens;
    match p.tok
    case Word(w) => LexWord(w, x);
    case Number(v) => LexNumber(v, x);
    case Text(s) =>
      assert TokenText(p) + x == [p.quote] + (Escaped(s, p.quote) + ([p.quote] + x));
      LexText(s, x, p.quote);
    case Op(op) =>
      if |op| == 1 {
        assert op == [op[0]];
        LexOneChar(op[0], x);
      } else {
        LexTwoChars(op, x);
      }
    case LParen => LexMark('(', LParen, x);
    case RParen => LexMark(')', RParen, x);
    case Comma => LexMark(',', Comma, x);
    case Star => LexMark('*', Star, x);
    case Semicolon => LexMark(';', Semicolon, x);
    case Dot => LexMark('.', Dot, x);
  }

  /** A text of tokens with blanks between them gives these tokens. */
  lemma {:induction false} SpellLexes(ps: seq<Piece>)
    requires forall i :: 0 <= i < |ps| ==> PieceOK(ps[i])
    ensures Tokens(Spell(ps)) == Some(PieceToks(ps) + [End])
    decreases |ps|
  {
    hide Tokens;
    hide TokenText;
    if ps == [] {
      NoTokens();
      assert PieceToks(ps) + [End] == [End];
    } else {
      var x := ps[0].gap + Spell(ps[1..]);
      assert PieceOK(ps[0]);
      SpellLexes(ps[1..]);
      LexGap(ps[0].gap, Spell(ps[1..]));
      assert x[0] == ps[0].gap[0];
      LexPiece(ps[0], x);
      assert [ps[0].tok] + (PieceToks(ps[1..]) + [End]) == PieceToks(ps) + [End];
    }
  }

  /** An expression written out: any blanks, either quote, words in any case, and no bracket too many. */
  ghost predicate Writes(lead: string, ps: seq<Piece>, e: Expr) {
    && AllBlank(lead) && (forall i :: 0 <= i < |ps| ==> PieceOK(ps[i]))
    && AllAlike(Bare(e, 1), PieceToks(ps))
  }

  /** Such a text is read as the expression. */
  lemma {:induction false} BareReads(e: Expr, lead: string, ps: seq<Piece>)
    requires Written(e) && Writes(lead, ps, e)
    ensures ParseText(lead + Spell(ps)) == Some(Meaning(e))
  {
    hide Tokens;
    hide ParseLevel;
    hide Spell;
    hide Bare;
    hide Written;
    hide Meaning;
    hide Lower;
    hide OpAt;
    var src := lead + Spell(ps);
    LexGap(lead, Spell(ps));
    SpellLexes(ps);
    TokensLexed(src);
    var ts := Bare(e, 1);
    var toks, plain := PieceToks(ps) + [End], ts + [End];
    assert Tokens(src) == Some(toks);
    assert AllAlike(plain, toks);
    AlikeBack(plain, toks);
    ClosedAlike(toks, plain);
    forall i: nat | i < |ts| ensures plain[0 + i] == Item(ts, i) {
    }
    EndingQuiet(plain, |ts|);
    ExprRead(plain, 0, e, 1);
    LevelAlike(1, plain, toks, 0);
  }

  lemma AlikeBack(x: seq<Token>, y: seq<Token>)
    requires AllAlike(x, y)
    ensures AllAlike(y, x)
  {
    hide Lower;
    forall i | 0 <= i < |y| ensures Alike(y[i], x[i]) {
      assert Alike(x[i], y[i]);
    }
  }

  /** Two operators in a row: the tighter one first, and of two of a level the left one. */
  lemma {:induction false} TwoOperators(a: Expr, op: string, b: Expr, also: string, c: Expr, lead: string, ps: seq<Piece>)
    requires Written(a) && Written(b) && Written(c) && Spelled(op) && Spelled(also)
    requires Tightness(a) > 5 && Tightness(b) > 5 && Tightness(c) > 5
    requires AllBlank(lead) && forall i :: 0 <= i < |ps| ==> PieceOK(ps[i])
    requires AllAlike(Open(a) + (SpelledToks(op) + (Open(b) + (SpelledToks(also) + Open(c)))), PieceToks(ps))
    ensures ParseText(lead + Spell(ps)) == Some(
      if Tightness(Binary(op, a, b)) >= Tightness(Binary(also, b, c))
      then Binary(Sense(also), Binary(Sense(op), Meaning(a), Meaning(b)), Meaning(c))
      else Binary(Sense(op), Meaning(a), Binary(Sense(also), Meaning(b), Meaning(c))))
  {
    hide Open;
    hide SpelledToks;
    hide ParseText;
    hide Spell;
    hide AllAlike;
    hide PieceOK;
    var left, right := Binary(op, a, b), Binary(also, b, c);
    var e := if Tightness(left) >= Tightness(right) then Binary(also, left, c) else Binary(op, a, right);
    TwoTokens(a, op, b, also, c);
    BareReads(e, lead, ps);
  }

  lemma {:induction false} TwoTokens(a: Expr, op: string, b: Expr, also: string, c: Expr)
    requires Tightness(a) > 5 && Tightness(b) > 5 && Tightness(c) > 5
    ensures Bare(if Tightness(Binary(op, a, b)) >= Tightness(Binary(also, b, c))
                 then Binary(also, Binary(op, a, b), c) else Binary(op, a, Binary(also, b, c)), 1)
            == Open(a) + (SpelledToks(op) + (Open(b) + (SpelledToks(also) + Open(c))))
  {
    var left, right := Binary(op, a, b), Binary(also, b, c);
    SameTightness(op, a, b, a, right);
    SameTightness(also, b, c, left, c);
    hide Tightness;
    hide SpelledToks;
    OpenBinary(op, a, b);
    OpenBinary(also, b, c);
    if Tightness(left) >= Tightness(right) {
      OpenBinary(also, left, c);
      BareOpen(Binary(also, left, c), 1);
      assert (Open(a) + (SpelledToks(op) + Open(b))) + (SpelledToks(also) + Open(c))
          == Open(a) + (SpelledToks(op) + (Open(b) + (SpelledToks(also) + Open(c))));
    } else {
      OpenBinary(op, a, right);
      BareOpen(Binary(op, a, right), 1);
    }
  }

  lemma SameTightness(op: string, a: Expr, b: Expr, c: Expr, d: Expr)
    ensures Tightness(Binary(op, a, b)) == Tightness(Binary(op, c, d)) <= 5
  {
  }

  lemma BareOpen(e: Expr, lo: nat)
    requires Tightness(e) >= lo
    ensures Bare(e, lo) == Open(e)
  {
  }

  lemma OpenBinary(op: string, l: Expr, r: Expr)
    requires Tightness(l) >= Tightness(Binary(op, l, r)) && Tightness(r) > Tightness(Binary(op, l, r))
    ensures Open(Binary(op, l, r)) == Open(l) + (SpelledToks(op) + Open(r))
  {
  }
}
