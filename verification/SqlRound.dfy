/**
 Printing and parsing are inverse: what comes back from the text of an expression, exactly
 when it is the expression, and what every text can be parsed to.
 */
module SqlRound {
  import opened Wrappers
  import opened SqlLex
  import opened Lowering
  import opened SqlParse
  import opened SqlPrint

  /** What parsing the text of an expression gives: `float64` is not a type name the parser knows. */
  function Back(e: Expr): Expr {
    match e
    case Unary(op, x) => Unary(op, Back(x))
    case Binary(op, l, r) => Binary(op, Back(l), Back(r))
    case Call(fn, args) => Call(fn, BackAll(args))
    case Cast(x, t) => Cast(Back(x), if t == TypeFloat then TypeNull else t)
    case _ => e
  }

  function BackAll(es: seq<Expr>): (r: seq<Expr>)
    ensures |r| == |es|
  {
    if es == [] then [] else [Back(es[0])] + BackAll(es[1..])
  }

  predicate NoFloatCast(e: Expr) {
    match e
    case Unary(_, x) => NoFloatCast(x)
    case Binary(_, l, r) => NoFloatCast(l) && NoFloatCast(r)
    case Call(_, args) => NoFloatCasts(args)
    case Cast(x, t) => NoFloatCast(x) && t != TypeFloat
    case _ => true
  }

  predicate NoFloatCasts(es: seq<Expr>) {
    es == [] || (NoFloatCast(es[0]) && NoFloatCasts(es[1..]))
  }

  lemma {:induction false} BackIff(e: Expr)
    ensures Back(e) == e <==> NoFloatCast(e)
    decreases e, 1
  {
    match e
    case Unary(_, x) => BackIff(x);
    case Binary(_, l, r) => BackIff(l); BackIff(r);
    case Call(_, args) => BackAllIff(args, e);
    case Cast(x, _) => BackIff(x);
    case _ =>
  }

  lemma {:induction false} BackAllIff(es: seq<Expr>, whole: Expr)
    requires forall i :: 0 <= i < |es| ==> es[i] < whole
    ensures BackAll(es) == es <==> NoFloatCasts(es)
    decreases whole, 0, |es|
  {
    if es != [] {
      BackIff(es[0]);
      BackAllIff(es[1..], whole);
      assert es == [es[0]] + es[1..];
      assert BackAll(es)[0] == Back(es[0]) && BackAll(es)[1..] == BackAll(es[1..]);
    }
  }

  // ----- Tokens at a position -----

  function Item(ts: seq<Token>, i: nat): Token
    requires i < |ts|
  {
    ts[i]
  }

  ghost predicate Has(toks: seq<Token>, pos: nat, ts: seq<Token>) {
    pos + |ts| <= |toks| && forall i: nat {:trigger Item(ts, i)} :: i < |ts| ==> toks[pos + i] == Item(ts, i)
  }

  lemma HasSplit(toks: seq<Token>, pos: nat, a: seq<Token>, b: seq<Token>)
    requires Has(toks, pos, a + b)
    ensures Has(toks, pos, a) && Has(toks, pos + |a|, b)
  {
    forall i: nat | i < |a| ensures toks[pos + i] == Item(a, i) {
      assert Item(a + b, i) == Item(a, i);
    }
    forall i: nat | i < |b| ensures toks[pos + |a| + i] == Item(b, i) {
      assert Item(a + b, |a| + i) == Item(b, i);
    }
  }

  lemma HasFirst(toks: seq<Token>, pos: nat, t: Token, b: seq<Token>)
    requires Has(toks, pos, [t] + b)
    ensures pos < |toks| && toks[pos] == t && Has(toks, pos + 1, b)
  {
    HasSplit(toks, pos, [t], b);
    assert Item([t], 0) == t;
  }

  lemma HasOne(toks: seq<Token>, pos: nat, t: Token)
    requires Has(toks, pos, [t])
    ensures pos < |toks| && toks[pos] == t
  {
    assert toks[pos + 0] == Item([t], 0);
  }

  // ----- Where the levels begin and stop -----

  /** No operator of a level or a higher one. */
  predicate Quiet(toks: seq<Token>, pos: nat, level: nat)
    requires Closed(toks) && pos < |toks|
  {
    forall l :: level <= l <= 5 ==> OpAt(l, toks, pos).1 == 0
  }

  /** The tokens that end an expression: any word that is no operator is one of them. */
  predicate Ending(t: Token) {
    t == RParen || t == Comma || t == End || (t.Word? && Lower(t.text) !in ["or", "and", "not", "like"])
  }

  lemma EndingQuiet(toks: seq<Token>, pos: nat)
    requires Closed(toks) && pos < |toks| && Ending(toks[pos])
    ensures Quiet(toks, pos, 1) && toks[pos] != LParen
  {
    hide Lower;
  }

  /** Not a sign and not the word NOT. */
  predicate Unsigned(t: Token) {
    t != Op("-") && t != Op("+") && !Keyword(t, "not")
  }

  /** A level that finds no operator hands on what the level above it found. */
  lemma {:induction false} Climb(toks: seq<Token>, pos: nat, lo: nat, hi: nat, e: Expr, q: nat)
    requires 1 <= lo <= hi <= 6 && Closed(toks) && pos < |toks| && q < |toks|
    requires ParseLevel(hi, toks, pos) == Some((e, q)) && Quiet(toks, q, lo)
    ensures ParseLevel(lo, toks, pos) == Some((e, q))
    decreases hi - lo
  {
    hide OpAt;
    if lo < hi {
      Climb(toks, pos, lo + 1, hi, e, q);
      assert ParseTail(lo, e, toks, q) == Some((e, q));
    }
  }

  lemma FromPrimary(toks: seq<Token>, pos: nat, lo: nat, e: Expr, q: nat)
    requires 1 <= lo <= 6 && Closed(toks) && pos < |toks| && q < |toks|
    requires ParsePrimary(toks, pos) == Some((e, q)) && Unsigned(toks[pos]) && Quiet(toks, q, lo)
    ensures ParseLevel(lo, toks, pos) == Some((e, q))
  {
    hide OpAt;
    hide ParsePrimary;
    assert ParseUnary(toks, pos) == Some((e, q));
    assert ParseLevel(6, toks, pos) == Some((e, q));
    Climb(toks, pos, lo, 6, e, q);
  }

  /** The level of a binary operator. */
  function LevelOf(op: string): (k: nat)
    ensures 1 <= k <= 5
  {
    if op == "OR" then 1
    else if op == "AND" then 2
    else if op == "+" || op == "-" then 4
    else if op == "*" || op == "/" then 5
    else 3
  }

  /** A printed operator is found at its level and at no higher one. */
  lemma OpFound(toks: seq<Token>, pos: nat, op: string)
    requires Closed(toks) && BinaryOp(op) && Has(toks, pos, OpToks(op)) && pos < |toks|
    ensures OpAt(LevelOf(op), toks, pos) == (op, |OpToks(op)|) && Quiet(toks, pos, LevelOf(op) + 1)
    ensures toks[pos] != LParen
  {
    hide Lower;
    LowerLiterals();
    assert toks[pos + 0] == Item(OpToks(op), 0);
    if op == "NOT LIKE" {
      assert toks[pos + 1] == Item(OpToks(op), 1);
    }
  }

  /** The first token of a printed expression is no sign. */
  lemma FirstUnsigned(e: Expr)
    requires Produced(e)
    ensures Unsigned(Toks(e)[0])
  {
    hide Lower;
    LowerLiterals();
  }

  // ----- Parsing the tokens of a printed expression -----

  /** The tokens of an expression stand at a position, and what follows opens no argument list. */
  ghost predicate Stands(toks: seq<Token>, pos: nat, e: Expr) {
    && Closed(toks) && Produced(e) && Has(toks, pos, Toks(e))
    && pos + |Toks(e)| < |toks| && toks[pos + |Toks(e)|] != LParen
  }

  ghost predicate ReadBack(toks: seq<Token>, pos: nat, e: Expr)
    requires Closed(toks)
  {
    pos < |toks| && ParsePrimary(toks, pos) == Some((Back(e), pos + |Toks(e)|))
  }

  /** An expression read as a whole, up to a token that ends it. */
  lemma WholeBack(toks: seq<Token>, pos: nat, lo: nat, e: Expr)
    requires 1 <= lo <= 6 && Stands(toks, pos, e) && ReadBack(toks, pos, e) && Quiet(toks, pos + |Toks(e)|, lo)
    ensures ParseLevel(lo, toks, pos) == Some((Back(e), pos + |Toks(e)|))
  {
    hide ParsePrimary;
    hide ParseLevel;
    hide OpAt;
    FirstUnsigned(e);
    assert toks[pos + 0] == Item(Toks(e), 0);
    FromPrimary(toks, pos, lo, Back(e), pos + |Toks(e)|);
  }

  /** What a parenthesis encloses. */
  lemma Enclosed(toks: seq<Token>, pos: nat, e: Expr, q: nat)
    requires Closed(toks) && pos + 1 < |toks| && q < |toks|
    requires toks[pos] == LParen && toks[q] == RParen && ParseLevel(1, toks, pos + 1) == Some((e, q))
    ensures ParsePrimary(toks, pos) == Some((e, q + 1))
  {
    hide ParseLevel;
  }

  lemma {:induction false} PrimaryBack(toks: seq<Token>, pos: nat, e: Expr)
    requires Stands(toks, pos, e)
    ensures ReadBack(toks, pos, e)
    decreases e, 2
  {
    hide ParseLevel;
    match e
    case Unary(_, _) => UnaryBack(toks, pos, e);
    case Binary(_, _, _) => BinaryBack(toks, pos, e);
    case Call(_, _) => CallBack(toks, pos, e);
    case Cast(_, _) => CastBack(toks, pos, e);
    case _ => AtomBack(toks, pos, e);
  }

  lemma AtomBack(toks: seq<Token>, pos: nat, e: Expr)
    requires Stands(toks, pos, e) && !e.Unary? && !e.Binary? && !e.Call? && !e.Cast?
    ensures ReadBack(toks, pos, e)
  {
    hide Lower;
    hide IsWord;
    hide Print;
    hide ParseLevel;
    hide ParseCast;
    hide ParseArgs;
    assert toks[pos + 0] == Item(Toks(e), 0);
    LowerLiterals();
  }

  lemma {:induction false} UnaryBack(toks: seq<Token>, pos: nat, e: Expr)
    requires e.Unary? && Stands(toks, pos, e)
    ensures ReadBack(toks, pos, e)
    decreases e, 1
  {
    hide ParseLevel;
    hide ParsePrimary;
    hide Has;
    var q := pos + 2 + |Toks(e.x)|;
    HasFirst(toks, pos, LParen, OpToks(e.op) + (Toks(e.x) + [RParen]));
    assert OpToks(e.op) == [OpToks(e.op)[0]];
    HasFirst(toks, pos + 1, OpToks(e.op)[0], Toks(e.x) + [RParen]);
    HasSplit(toks, pos + 2, Toks(e.x), [RParen]);
    HasOne(toks, q, RParen);
    PrimaryBack(toks, pos + 2, e.x);
    EndingQuiet(toks, q);
    SignedBack(toks, pos + 1, e.op, e.x);
    Climb(toks, pos + 1, 1, 6, Back(e), q);
    Enclosed(toks, pos, Back(e), q);
  }

  lemma SignedBack(toks: seq<Token>, pos: nat, op: string, x: Expr)
    requires UnaryOp(op) && Stands(toks, pos + 1, x) && ReadBack(toks, pos + 1, x) && toks[pos] == OpToks(op)[0]
    ensures ParseLevel(6, toks, pos) == Some((Unary(op, Back(x)), pos + 1 + |Toks(x)|))
  {
    hide Lower;
    hide Print;
    hide Produced;
    hide Toks;
    hide ParsePrimary;
    FirstUnsigned(x);
    assert toks[pos + 1 + 0] == Item(Toks(x), 0);
    LowerLiterals();
    assert ParseUnary(toks, pos + 1) == ParsePrimary(toks, pos + 1);
  }

  /** Where the parts of a printed binary expression stand. */
  lemma BinaryAt(toks: seq<Token>, pos: nat, e: Expr)
    requires e.Binary? && Has(toks, pos, Toks(e))
    ensures var ql := pos + 1 + |Toks(e.left)|;
            var pr := ql + |OpToks(e.op)|;
            var q := pr + |Toks(e.right)|;
            && q + 1 == pos + |Toks(e)|
            && q < |toks| && toks[pos] == LParen && toks[q] == RParen
            && Has(toks, pos + 1, Toks(e.left)) && Has(toks, ql, OpToks(e.op)) && Has(toks, pr, Toks(e.right))
  {
    hide OpToks;
    hide Has;
    var ql := pos + 1 + |Toks(e.left)|;
    var pr := ql + |OpToks(e.op)|;
    HasFirst(toks, pos, LParen, Toks(e.left) + (OpToks(e.op) + (Toks(e.right) + [RParen])));
    HasSplit(toks, pos + 1, Toks(e.left), OpToks(e.op) + (Toks(e.right) + [RParen]));
    HasSplit(toks, ql, OpToks(e.op), Toks(e.right) + [RParen]);
    HasSplit(toks, pr, Toks(e.right), [RParen]);
    HasOne(toks, pr + |Toks(e.right)|, RParen);
  }

  lemma {:induction false} BinaryBack(toks: seq<Token>, pos: nat, e: Expr)
    requires e.Binary? && Stands(toks, pos, e)
    ensures ReadBack(toks, pos, e)
    decreases e, 1
  {
    hide Toks;
    hide Print;
    hide ParseLevel;
    hide ParsePrimary;
    hide OpAt;
    hide OpToks;
    hide Has;
    var ql := pos + 1 + |Toks(e.left)|;
    var pr := ql + |OpToks(e.op)|;
    var q := pr + |Toks(e.right)|;
    var k := LevelOf(e.op);
    BinaryAt(toks, pos, e);
    OpFound(toks, ql, e.op);
    PrimaryBack(toks, pos + 1, e.left);
    WholeBack(toks, pos + 1, k + 1, e.left);
    EndingQuiet(toks, q);
    PrimaryBack(toks, pr, e.right);
    WholeBack(toks, pr, k + 1, e.right);
    SomeToks(e.op);
    OneOperator(toks, pos + 1, k, e.op, Back(e.left), ql, Back(e.right), q);
    Climb(toks, pos + 1, 1, k, Back(e), q);
    Enclosed(toks, pos, Back(e), q);
  }

  lemma SomeToks(op: string)
    ensures |OpToks(op)| > 0
  {
  }

  /** A level that finds one operator between two operands. */
  lemma OneOperator(toks: seq<Token>, pos: nat, k: nat, op: string, l: Expr, ql: nat, r: Expr, q: nat)
    requires 1 <= k <= 5 && Closed(toks) && pos < |toks| && ql < |toks| && q < |toks|
    requires ParseLevel(k + 1, toks, pos) == Some((l, ql))
    requires OpAt(k, toks, ql).0 == op && OpAt(k, toks, ql).1 > 0
    requires ParseLevel(k + 1, toks, ql + OpAt(k, toks, ql).1) == Some((r, q)) && OpAt(k, toks, q).1 == 0
    ensures ParseLevel(k, toks, pos) == Some((Binary(op, l, r), q))
  {
    hide OpAt;
    assert ParseTail(k, Binary(op, l, r), toks, q) == Some((Binary(op, l, r), q));
    assert ParseTail(k, l, toks, ql) == Some((Binary(op, l, r), q));
  }

  /** Where the parts of a printed cast stand. */
  lemma CastAt(toks: seq<Token>, pos: nat, e: Expr)
    requires e.Cast? && Has(toks, pos, Toks(e))
    ensures var q := pos + 2 + |Toks(e.x)|;
            && q + 3 == pos + |Toks(e)| && q + 2 < |toks|
            && toks[pos] == Word("cast") && toks[pos + 1] == LParen && Has(toks, pos + 2, Toks(e.x))
            && toks[q] == Word("as") && toks[q + 1] == Word(TypeName(e.typ)) && toks[q + 2] == RParen
  {
    hide TypeName;
    var q := pos + 2 + |Toks(e.x)|;
    var ending := [Word("as"), Word(TypeName(e.typ)), RParen];
    HasSplit(toks, pos, [Word("cast"), LParen], Toks(e.x) + ending);
    HasSplit(toks, pos + 2, Toks(e.x), ending);
    assert toks[pos + 0] == Item([Word("cast"), LParen], 0) && toks[pos + 1] == Item([Word("cast"), LParen], 1);
    assert toks[q + 0] == Item(ending, 0) && toks[q + 1] == Item(ending, 1) && toks[q + 2] == Item(ending, 2);
  }

  lemma {:induction false} CastBack(toks: seq<Token>, pos: nat, e: Expr)
    requires e.Cast? && Stands(toks, pos, e)
    ensures ReadBack(toks, pos, e)
    decreases e, 1
  {
    hide Lower;
    hide IsWord;
    hide Print;
    hide Has;
    hide Toks;
    hide TypeName;
    hide ParseLevel;
    hide ParsePrimary;
    hide TypeFromKeyword;
    var q := pos + 2 + |Toks(e.x)|;
    CastAt(toks, pos, e);
    PrimaryBack(toks, pos + 2, e.x);
    LowerLiterals();
    EndingQuiet(toks, q);
    WholeBack(toks, pos + 2, 1, e.x);
    TypeBack(e.typ);
    CastStep(toks, pos, Back(e.x), q, e.typ);
  }

  lemma TypeBack(t: Type)
    ensures TypeFromKeyword(TypeName(t)) == if t == TypeFloat then TypeNull else t
  {
    hide Lower;
    LowerLiterals();
  }

  lemma CastStep(toks: seq<Token>, pos: nat, x: Expr, q: nat, t: Type)
    requires Closed(toks) && pos + 2 < |toks| && q + 2 < |toks|
    requires toks[pos] == Word("cast") && toks[pos + 1] == LParen && ParseLevel(1, toks, pos + 2) == Some((x, q))
    requires toks[q] == Word("as") && toks[q + 1] == Word(TypeName(t)) && toks[q + 2] == RParen
    ensures ParsePrimary(toks, pos) == Some((Cast(x, TypeFromKeyword(TypeName(t))), q + 3))
  {
    hide Lower;
    hide ParseLevel;
    hide TypeFromKeyword;
    LowerLiterals();
    assert ParseCast(toks, pos + 1) == Some((Cast(x, TypeFromKeyword(TypeName(t))), q + 3));
  }

  lemma {:induction false} CallBack(toks: seq<Token>, pos: nat, e: Expr)
    requires e.Call? && Stands(toks, pos, e)
    ensures ReadBack(toks, pos, e)
    decreases e, 1
  {
    hide Lower;
    hide IsWord;
    hide ParseLevel;
    hide ParsePrimary;
    hide ArgToks;
    var head := [Word(e.fn), LParen];
    HasSplit(toks, pos, head, ArgToks(e.args) + [RParen]);
    assert toks[pos + 0] == Item(head, 0) && toks[pos + 1] == Item(head, 1);
    var q := pos + 2 + |ArgToks(e.args)|;
    HasSplit(toks, pos + 2, ArgToks(e.args), [RParen]);
    HasOne(toks, q, RParen);
    ArgsBack(toks, pos + 2, e.args, e);
    CallStep(toks, pos, e.fn, BackAll(e.args), q + 1);
  }

  lemma CallStep(toks: seq<Token>, pos: nat, fn: string, args: seq<Expr>, q: nat)
    requires Closed(toks) && pos + 2 < |toks| && NameOK(fn)
    requires toks[pos] == Word(fn) && toks[pos + 1] == LParen && ParseArgs(toks, pos + 2) == Some((args, q))
    ensures ParsePrimary(toks, pos) == Some((Call(fn, args), q))
  {
    hide ParseArgs;
  }

  lemma {:induction false} ArgsBack(toks: seq<Token>, pos: nat, es: seq<Expr>, whole: Expr)
    requires Closed(toks) && (forall i :: 0 <= i < |es| ==> Produced(es[i]) && es[i] < whole) && Has(toks, pos, ArgToks(es))
    requires pos + |ArgToks(es)| < |toks| && toks[pos + |ArgToks(es)|] == RParen
    ensures ParseArgs(toks, pos) == Some((BackAll(es), pos + |ArgToks(es)| + 1))
    decreases whole, 0, |es| + 1
  {
    hide ParseLevel;
    hide ArgToks;
    if es == [] {
      NoArgs(toks, pos);
    } else {
      ArgListBack(toks, pos, es, whole);
      ArgsStart(toks, pos, es);
    }
  }

  lemma NoArgs(toks: seq<Token>, pos: nat)
    ensures ArgToks([]) == []
  {
  }

  /** Arguments do not begin with a closing parenthesis. */
  lemma ArgsStart(toks: seq<Token>, pos: nat, es: seq<Expr>)
    requires es != [] && Has(toks, pos, ArgToks(es))
    ensures pos < |toks| && toks[pos] != RParen
  {
    assert ArgToks(es)[0] == Toks(es[0])[0];
    assert toks[pos + 0] == Item(ArgToks(es), 0);
  }

  lemma {:induction false} ArgListBack(toks: seq<Token>, pos: nat, es: seq<Expr>, whole: Expr)
    requires Closed(toks) && es != [] && (forall i :: 0 <= i < |es| ==> Produced(es[i]) && es[i] < whole)
    requires Has(toks, pos, ArgToks(es)) && pos + |ArgToks(es)| < |toks| && toks[pos + |ArgToks(es)|] == RParen
    ensures ParseArgList(toks, pos) == Some((BackAll(es), pos + |ArgToks(es)| + 1))
    decreases whole, 0, |es|
  {
    hide ParseLevel;
    hide ParsePrimary;
    hide Toks;
    var q := pos + |Toks(es[0])|;
    if |es| == 1 {
      PrimaryBack(toks, pos, es[0]);
      EndingQuiet(toks, q);
      WholeBack(toks, pos, 1, es[0]);
      assert BackAll(es) == [Back(es[0])];
    } else {
      HasSplit(toks, pos, Toks(es[0]), [Comma] + ArgToks(es[1..]));
      HasFirst(toks, q, Comma, ArgToks(es[1..]));
      PrimaryBack(toks, pos, es[0]);
      EndingQuiet(toks, q);
      WholeBack(toks, pos, 1, es[0]);
      ArgListBack(toks, q + 1, es[1..], whole);
    }
  }

  // ----- Whole texts -----

  lemma NoTokens()
    ensures Tokens("") == Some([End])
  {
  }

  /** Any expression the parser can produce survives its own text, up to casts to float. */
  lemma PrintThenParse(e: Expr)
    requires Produced(e)
    ensures ParseText(Print(e)) == Some(Back(e))
  {
    hide Toks;
    hide Tokens;
    hide OpAt;
    hide Print;
    hide ParsePrimary;
    hide ParseLevel;
    PrintLexes(e, "");
    assert Print(e) + "" == Print(e);
    NoTokens();
    var toks := Toks(e) + [End];
    assert Tokens(Print(e)) == Some(toks);
    TokensLexed(Print(e));
    forall i: nat | i < |Toks(e)| ensures toks[0 + i] == Item(Toks(e), i) {
    }
    PrimaryBack(toks, 0, e);
    EndingQuiet(toks, |Toks(e)|);
    WholeBack(toks, 0, 1, e);
  }

  // ----- Everything the parser can return -----

  predicate AllLexed(toks: seq<Token>) {
    Closed(toks) && forall i :: 0 <= i < |toks| ==> Lexed(toks[i])
  }

  /** Every word is a word in lower case too. */
  ghost predicate Kept(toks: seq<Token>) {
    forall i :: 0 <= i < |toks| && toks[i].Word? ==> IsWord(Lower(toks[i].text))
  }

  /** An expression made of some tokens. */
  ghost predicate From(e: Expr, toks: seq<Token>) {
    Yielded(e) && (Kept(toks) ==> Produced(e))
  }

  ghost predicate Yields(p: Parse, toks: seq<Token>) {
    p.Some? ==> From(p.value.0, toks)
  }

  /** A word the parser takes as a name is a name it can read again, unless lower case breaks it. */
  lemma NameOf(w: string)
    requires IsWord(w) && Lower(w) !in RESERVED
    ensures NameOK(Lower(w)) || Broken(Lower(w))
    ensures IsWord(Lower(w)) ==> NameOK(Lower(w))
  {
    hide Lower;
    hide WordChar;
    var l := Lower(w);
    LowerBytes(w, true);
    LowerTwice(w);
    WordLenWord(l, true);
    if WordLen(l, true) < |l| {
      WordLenStops(l, "", true);
    }
  }

  lemma OpAtIs(level: nat, toks: seq<Token>, pos: nat)
    requires Closed(toks) && pos < |toks| && OpAt(level, toks, pos).1 > 0
    ensures BinaryOp(OpAt(level, toks, pos).0)
  {
    hide Lower;
  }

  lemma {:induction false} LevelYields(level: nat, toks: seq<Token>, pos: nat)
    requires 1 <= level <= 6 && AllLexed(toks) && pos < |toks|
    ensures Yields(ParseLevel(level, toks, pos), toks)
    decreases |toks| - pos, 2, 10 - level
  {
    hide From;
    if level == 6 {
      UnaryYields(toks, pos);
    } else {
      LevelYields(level + 1, toks, pos);
      var l := ParseLevel(level + 1, toks, pos);
      if l.Some? {
        TailYields(level, l.value.0, toks, l.value.1);
      }
    }
  }

  lemma {:induction false} TailYields(level: nat, left: Expr, toks: seq<Token>, pos: nat)
    requires 1 <= level <= 5 && AllLexed(toks) && pos < |toks| && From(left, toks)
    ensures Yields(ParseTail(level, left, toks, pos), toks)
    decreases |toks| - pos, 1, 0
  {
    hide OpAt;
    hide BinaryOp;
    var (op, n) := OpAt(level, toks, pos);
    if n > 0 {
      OpAtIs(level, toks, pos);
      LevelYields(level + 1, toks, pos + n);
      var r := ParseLevel(level + 1, toks, pos + n);
      if r.Some? {
        TailYields(level, Binary(op, left, r.value.0), toks, r.value.1);
      }
    }
  }

  lemma {:induction false} UnaryYields(toks: seq<Token>, pos: nat)
    requires AllLexed(toks) && pos < |toks|
    ensures Yields(ParseUnary(toks, pos), toks)
    decreases |toks| - pos, 1, 1
  {
    hide ParsePrimary;
    if Unsigned(toks[pos]) {
      PrimaryYields(toks, pos);
    } else {
      UnaryYields(toks, pos + 1);
    }
  }

  lemma {:induction false} PrimaryYields(toks: seq<Token>, pos: nat)
    requires AllLexed(toks) && pos < |toks| && Unsigned(toks[pos])
    ensures Yields(ParsePrimary(toks, pos), toks)
    decreases |toks| - pos, 1, 0
  {
    hide Lower;
    hide IsWord;
    hide ParseLevel;
    hide ParseCast;
    hide ParseArgs;
    match toks[pos]
    case LParen => LevelYields(1, toks, pos + 1);
    case Word(w) =>
      assert Lexed(toks[pos]);
      if Lower(w) !in RESERVED {
        NameOf(w);
      }
      CastYields(toks, pos + 1);
      if toks[pos + 1] == LParen {
        ArgsYield(toks, pos + 2);
      }
    case _ => assert Lexed(toks[pos]);
  }

  lemma {:induction false} CastYields(toks: seq<Token>, pos: nat)
    requires AllLexed(toks) && pos < |toks|
    ensures Yields(ParseCast(toks, pos), toks)
    decreases |toks| - pos, 0, 0
  {
    hide ParseLevel;
    if toks[pos] == LParen {
      LevelYields(1, toks, pos + 1);
    }
  }

  ghost predicate YieldAll(p: ArgParse, toks: seq<Token>) {
    p.Some? ==> forall i :: 0 <= i < |p.value.0| ==> From(p.value.0[i], toks)
  }

  lemma {:induction false} ArgsYield(toks: seq<Token>, pos: nat)
    requires AllLexed(toks) && pos < |toks|
    ensures YieldAll(ParseArgs(toks, pos), toks)
    decreases |toks| - pos, 3, 1
  {
    if toks[pos] != RParen {
      ArgListYields(toks, pos);
    }
  }

  lemma {:induction false} ArgListYields(toks: seq<Token>, pos: nat)
    requires AllLexed(toks) && pos < |toks|
    ensures YieldAll(ParseArgList(toks, pos), toks)
    decreases |toks| - pos, 3, 0
  {
    hide ParseLevel;
    hide From;
    LevelYields(1, toks, pos);
    var e := ParseLevel(1, toks, pos);
    if e.Some? && toks[e.value.1] == Comma {
      ArgListYields(toks, e.value.1 + 1);
    }
  }

  /** Whatever text is parsed, every name of the expression is a word or broken. */
  lemma ParsedIsYielded(src: string)
    ensures ParseText(src).Some? ==> Yielded(ParseText(src).value)
  {
    hide ParseLevel;
    TokensLexed(src);
    if Tokens(src).Some? {
      LevelYields(1, Tokens(src).value, 0);
    }
  }

  /** The text of an expression with a broken name is no expression. */
  lemma BrokenTextFails(e: Expr)
    requires Yielded(e) && !Produced(e)
    ensures ParseText(Print(e)) == None
  {
    hide Tokens;
    hide Print;
    BrokenFails(e, "");
    assert Print(e) + "" == Print(e);
  }

  /**
   Printing and parsing give back exactly the expressions whose names are lower-case words
   and that have no cast to float.
   */
  lemma PrintParseIff(e: Expr)
    ensures ParseText(Print(e)) == Some(e) <==> Produced(e) && NoFloatCast(e)
  {
    hide ParseText;
    hide Print;
    ParsedIsYielded(Print(e));
    if Produced(e) {
      PrintThenParse(e);
      BackIff(e);
    } else if Yielded(e) {
      BrokenTextFails(e);
    }
  }

  /**
   A condition parsed here, printed, and parsed on another node: it arrives, up to casts to
   float, exactly if its names are words.
   */
  lemma PushedDown(src: string)
    ensures ParseText(src).Some? ==> var e := ParseText(src).value;
              ParseText(Print(e)) == if Produced(e) then Some(Back(e)) else None
  {
    hide ParseText;
    hide Print;
    ParsedIsYielded(src);
    if ParseText(src).Some? {
      var e := ParseText(src).value;
      if Produced(e) {
        PrintThenParse(e);
      } else {
        BrokenTextFails(e);
      }
    }
  }

  // ----- Names outside ASCII -----

  lemma AsciiNext(s: string)
    requires Ascii(s)
    ensures Next(s).Some? && Next(s).value.0.Word? ==> Ascii(Next(s).value.0.text)
  {
    hide Quoted;
    hide NumberLen;
    var w := Blanks(s);
    if w < |s| {
      var u := s[w..];
      assert Ascii(u);
      assert TokenAt(u).Some? && TokenAt(u).value.0.Word? ==> TokenAt(u).value.0.text == u[..WordLen(u, true)];
    }
  }

  lemma {:induction false} AsciiTokens(s: string)
    requires Ascii(s)
    ensures Tokens(s).Some? ==> Kept(Tokens(s).value)
    decreases |s|
  {
    hide Next;
    hide Lower;
    hide IsWord;
    var t := Next(s);
    if t.Some? && t.value.0 != End {
      AsciiTokens(s[t.value.1..]);
      NextLexed(s);
      AsciiNext(s);
      if t.value.0.Word? {
        AsciiWord(t.value.0.text);
      }
    }
  }

  /** A condition in ASCII is always pushed down, up to casts to float. */
  lemma AsciiPushedDown(src: string)
    requires Ascii(src)
    ensures ParseText(src).Some? ==> ParseText(Print(ParseText(src).value)) == Some(Back(ParseText(src).value))
  {
    hide ParseLevel;
    hide Tokens;
    hide Print;
    AsciiTokens(src);
    TokensLexed(src);
    if ParseText(src).Some? {
      LevelYields(1, Tokens(src).value, 0);
      PrintThenParse(ParseText(src).value);
    }
  }

  /** Inside ASCII a word in lower case is a word. */
  lemma AsciiWord(w: string)
    requires IsWord(w) && Ascii(w)
    ensures IsWord(Lower(w))
  {
    hide Lower;
    LowerAscii(w);
  }

  lemma WordTokens(w: string)
    requires IsWord(w)
    ensures Tokens(w) == Some([Word(w), End])
  {
    hide Tokens;
    hide IsWord;
    LexWord(w, "");
    NoTokens();
    assert w + "" == w;
    assert [Word(w)] + [End] == [Word(w), End];
  }

  lemma OneWord(w: string)
    requires IsWord(w) && Lower(w) !in RESERVED
    ensures ParseText(w) == Some(Ident(Lower(w)))
  {
    hide Tokens;
    hide IsWord;
    hide Lower;
    hide ParseLevel;
    WordTokens(w);
    var toks := [Word(w), End];
    EndingQuiet(toks, 1);
    assert ParsePrimary(toks, 0) == Some((Ident(Lower(w)), 1));
    FromPrimary(toks, 0, 1, Ident(Lower(w)), 1);
  }

  /** A column is pushed down by its name exactly if the name in lower case is a word. */
  lemma NamePushedDown(w: string)
    requires IsWord(w) && Lower(w) !in RESERVED
    ensures ParseText(w) == Some(Ident(Lower(w)))
    ensures ParseText(Print(Ident(Lower(w)))) == if IsWord(Lower(w)) then Some(Ident(Lower(w))) else None
  {
    hide ParseText;
    hide Lower;
    OneWord(w);
    NameOf(w);
    LowerTwice(w);
    assert Broken("*") ==> WordLen("*", true) == 0;
    assert Lower(w) != "*";
    PushedDown(w);
  }

  /** U+042A lexes as a word; its lower case, U+044A, does not. */
  lemma CyrillicLost()
    ensures var w := [0xD0 as char, 0xAA as char]; var l := [0xD1 as char, 0x8A as char];
            ParseText(w) == Some(Ident(l)) && ParseText(Print(Ident(l))) == None
  {
    hide ParseText;
    var w, l := [0xD0 as char, 0xAA as char], [0xD1 as char, 0x8A as char];
    assert Lower([]) == [];
    assert FirstLower(w) == (l, 2) && w[2..] == [];
    assert Lower(w) == l + [] == l;
    NamePushedDown(w);
    assert l !in RESERVED;
    assert !WordChar(l[1], false);
  }

  /** A cast to float arrives on the other node as a cast to null. */
  lemma FloatCastLost(x: Expr)
    requires Produced(x)
    ensures ParseText(Print(Cast(x, TypeFloat))) == Some(Cast(Back(x), TypeNull))
  {
    hide ParseText;
    hide Print;
    PrintThenParse(Cast(x, TypeFloat));
  }
}
