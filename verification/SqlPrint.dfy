/**
 Expressions as text: the printer that carries pushed-down conditions to other nodes, and
 the tokens the lexer makes of what it prints.
 */
module SqlPrint {
  import opened Wrappers
  import opened SqlLex
  import opened Lowering
  import opened SqlParse

  function Digits(n: nat): (d: string)
    ensures d != "" && forall i :: 0 <= i < |d| ==> Digit(d[i])
  {
    var last := ('0' as int + n % 10) as char;
    if n < 10 then [last] else Digits(n / 10) + [last]
  }

  /** `%d` */
  function Decimal(n: int): string {
    if n < 0 then "-" + Digits(-n) else Digits(n)
  }

  /** Every quote doubled. */
  function Escaped(s: string, q: char := '\''): string {
    if s == "" then "" else (if s[0] == q then [q, q] else [s[0]]) + Escaped(s[1..], q)
  }

  function TypeName(t: Type): string {
    match t
    case TypeNull => "null"
    case TypeInt => "int64"
    case TypeFloat => "float64"
    case TypeString => "string"
    case TypeBool => "bool"
    case TypeTimestamp => "timestamp"
  }

  /** `ExprString` */
  function Print(e: Expr): string {
    match e
    case Null => "null"
    case Int(n) => Decimal(n)
    case Str(s) => "'" + (Escaped(s) + "'")
    case Stamp(s) => "'" + (Escaped(s) + "'")
    case Bool(b) => if b then "true" else "false"
    case Ident(name) => name
    case Unary(op, x) => "(" + (op + (" " + (Print(x) + ")")))
    case Cast(x, t) => "cast" + ("(" + (Print(x) + (" " + ("as" + (" " + (TypeName(t) + ")"))))))
    case Binary(op, l, r) => "(" + (Print(l) + (" " + (op + (" " + (Print(r) + ")")))))
    case Call(fn, args) => fn + ("(" + (PrintArgs(args) + ")"))
  }

  /** The arguments joined by commas. */
  function PrintArgs(es: seq<Expr>): string {
    if es == [] then "" else if |es| == 1 then Print(es[0]) else Print(es[0]) + ("," + (" " + PrintArgs(es[1..])))
  }

  // ----- The expressions the parser can produce -----

  const RESERVED: seq<string> := ["null", "true", "false", "cast", "not"]

  /** A lower-case word that stands for itself where an operand is expected. */
  predicate NameOK(w: string) {
    IsWord(w) && Lower(w) == w && w !in RESERVED
  }

  const SYMBOLS: seq<string> := ["+", "-", "*", "/", "=", "<", ">", "<=", ">=", "<>"]

  predicate BinaryOp(op: string) {
    op in SYMBOLS || op == "AND" || op == "OR" || op == "LIKE" || op == "NOT LIKE"
  }

  predicate UnaryOp(op: string) {
    op == "NOT" || op == "-" || op == "+"
  }

  /** The expressions whose names are all words. */
  predicate Produced(e: Expr) {
    match e
    case Null => true
    case Int(n) => 0 <= n <= MAX_INT64
    case Str(_) => true
    case Stamp(_) => false
    case Bool(_) => true
    case Ident(name) => name == "*" || NameOK(name)
    case Unary(op, x) => UnaryOp(op) && Produced(x)
    case Binary(op, l, r) => BinaryOp(op) && Produced(l) && Produced(r)
    case Call(fn, args) => NameOK(fn) && forall i :: 0 <= i < |args| ==> Produced(args[i])
    case Cast(x, _) => Produced(x)
  }

  // ----- The tokens of a printed expression -----

  function OpToks(op: string): seq<Token> {
    if op == "*" then [Star]
    else if op == "NOT LIKE" then [Word("NOT"), Word("LIKE")]
    else if op in SYMBOLS then [Op(op)]
    else [Word(op)]
  }

  function Toks(e: Expr): (ts: seq<Token>)
    ensures ts != []
  {
    match e
    case Null => [Word("null")]
    case Int(n) => [Number(if n < 0 then 0 else n)]
    case Str(s) => [Text(s)]
    case Stamp(s) => [Text(s)]
    case Bool(b) => [Word(if b then "true" else "false")]
    case Ident(name) => if name == "*" then [Star] else [Word(name)]
    case Unary(op, x) => [LParen] + (OpToks(op) + (Toks(x) + [RParen]))
    case Cast(x, t) => [Word("cast"), LParen] + (Toks(x) + [Word("as"), Word(TypeName(t)), RParen])
    case Binary(op, l, r) => [LParen] + (Toks(l) + (OpToks(op) + (Toks(r) + [RParen])))
    case Call(fn, args) => [Word(fn), LParen] + (ArgToks(args) + [RParen])
  }

  function ArgToks(es: seq<Expr>): seq<Token> {
    if es == [] then [] else if |es| == 1 then Toks(es[0]) else Toks(es[0]) + ([Comma] + ArgToks(es[1..]))
  }

  // ----- Lexing one printed piece -----

  type Stream = Option<seq<Token>>

  /** Tokens in front of what the rest of the text gives. */
  function Cat(ts: seq<Token>, rest: Stream): Stream {
    if rest.None? then None else Some(ts + rest.value)
  }

  lemma CatCat(a: seq<Token>, b: seq<Token>, rest: Stream)
    ensures Cat(a, Cat(b, rest)) == Cat(a + b, rest)
  {
    if rest.Some? {
      assert a + (b + rest.value) == a + b + rest.value;
    }
  }

  /** A text that ends whatever token stands before it. */
  predicate Ends(x: string) {
    x == "" || Blank(x[0]) || x[0] in "(),"
  }

  /** One token read off the front of a text. */
  lemma OneToken(s: string, t: Token, n: nat, x: string)
    requires s != "" && !Blank(s[0]) && TokenAt(s) == Some((t, n)) && s[n..] == x
    ensures Tokens(s) == Cat([t], Tokens(x))
  {
    assert s[0..] == s;
    assert Blanks(s) == 0;
    assert Next(s) == Some((t, n));
  }

  lemma NextBlank(c: char, x: string)
    requires Blank(c)
    ensures Next([c] + x) == if Next(x).None? then None else Some((Next(x).value.0, 1 + Next(x).value.1))
  {
    hide TokenAt;
    var s := [c] + x;
    assert s[1..] == x;
    assert s[1 + Blanks(x)..] == x[Blanks(x)..];
  }

  lemma LexBlank(c: char, x: string)
    requires Blank(c)
    ensures Tokens([c] + x) == Tokens(x)
  {
    hide Next;
    NextBlank(c, x);
    if Next(x).Some? {
      assert ([c] + x)[1 + Next(x).value.1..] == x[Next(x).value.1..];
    }
  }

  lemma LexSpace(x: string)
    ensures Tokens(" " + x) == Tokens(x)
  {
    hide Tokens;
    LexBlank(' ', x);
  }

  lemma LexSymbol(c: char, t: Token, x: string)
    requires (c, t) in [('(', LParen), (')', RParen), (',', Comma), ('*', Star)]
    ensures Tokens([c] + x) == Cat([t], Tokens(x))
  {
    OneToken([c] + x, t, 1, x);
  }

  lemma {:induction false} WordLenOf(w: string, x: string, first: bool)
    requires (forall i :: 0 <= i < |w| ==> WordChar(w[i], first && i == 0)) && Ends(x) && (w == "" ==> !first)
    ensures WordLen(w + x, first) == |w|
    decreases |w|
  {
    if w == "" {
      assert w + x == x;
    } else {
      assert (w + x)[1..] == w[1..] + x;
      WordLenOf(w[1..], x, false);
    }
  }

  lemma LexWord(w: string, x: string)
    requires IsWord(w) && Ends(x)
    ensures Tokens(w + x) == Cat([Word(w)], Tokens(x))
  {
    hide NumberAt;
    hide Quoted;
    var s := w + x;
    WordLenOf(w, x, true);
    assert s[..|w|] == w && s[|w|..] == x;
    assert s[0] == w[0];
    OneToken(s, Word(w), |w|, x);
  }

  lemma {:induction false} NumberLenOf(d: string, x: string)
    requires (forall i :: 0 <= i < |d| ==> Digit(d[i])) && Ends(x)
    ensures NumberLen(d + x) == (|d|, false)
    decreases |d|
  {
    if d == "" {
      assert d + x == x;
    } else {
      assert (d + x)[1..] == d[1..] + x;
      NumberLenOf(d[1..], x);
    }
  }

  lemma {:induction false} DigitsValueLast(d: string, c: char, acc: nat)
    requires (forall i :: 0 <= i < |d| ==> Digit(d[i])) && Digit(c)
    ensures DigitsValue(d + [c], acc) == 10 * DigitsValue(d, acc) + (c as int - '0' as int)
    decreases |d|
  {
    if d == "" {
      assert (d + [c])[1..] == "";
    } else {
      assert (d + [c])[1..] == d[1..] + [c];
      DigitsValueLast(d[1..], c, 10 * acc + (d[0] as int - '0' as int));
    }
  }

  /** Reading the digits of a number gives the number. */
  lemma {:induction false} DigitsRead(n: nat)
    ensures DigitsValue(Digits(n), 0) == n
  {
    if n >= 10 {
      DigitsRead(n / 10);
      DigitsValueLast(Digits(n / 10), ('0' as int + n % 10) as char, 0);
    } else {
      assert Digits(n)[1..] == "";
    }
  }

  lemma LexNumber(n: nat, x: string)
    requires n <= MAX_INT64 && Ends(x)
    ensures Tokens(Digits(n) + x) == Cat([Number(n)], Tokens(x))
  {
    var d := Digits(n);
    var s := d + x;
    NumberLenOf(d, x);
    DigitsRead(n);
    assert s[..|d|] == d && s[|d|..] == x && s[0] == d[0];
    NumberToken(s, n, |d|);
    OneToken(s, Number(n), |d|, x);
  }

  lemma NumberToken(s: string, n: nat, k: nat)
    requires s != "" && Digit(s[0]) && NumberAt(s) == Some((Number(n), k))
    ensures TokenAt(s) == Some((Number(n), k))
  {
    hide NumberAt;
  }

  lemma QuotedPlain(c: char, u: string, q: char)
    requires c != q
    ensures Quoted([c] + u, q) == After([c], 1, Quoted(u, q))
  {
    assert ([c] + u)[1..] == u;
  }

  lemma QuotedDouble(u: string, q: char)
    ensures Quoted([q, q] + u, q) == After([q], 2, Quoted(u, q))
  {
    assert ([q, q] + u)[2..] == u;
  }

  lemma EscapedStep(s: string, x: string, q: char)
    requires s != ""
    ensures Escaped(s, q) + x == if s[0] == q then [q, q] + (Escaped(s[1..], q) + x) else [s[0]] + (Escaped(s[1..], q) + x)
  {
  }

  /** Reading a quoted text undoes the doubling of its quotes. */
  lemma {:induction false} QuotedBack(s: string, x: string, q: char := '\'')
    requires x == "" || x[0] != q
    ensures Quoted(Escaped(s, q) + ([q] + x), q) == Some((s, |Escaped(s, q)| + 1))
    decreases |s|
  {
    if s == "" {
      assert Escaped(s, q) + ([q] + x) == [q] + x;
    } else {
      QuotedBack(s[1..], x, q);
      QuotedMore(s, x, q);
    }
  }

  lemma QuotedMore(s: string, x: string, q: char)
    requires s != "" && Quoted(Escaped(s[1..], q) + ([q] + x), q) == Some((s[1..], |Escaped(s[1..], q)| + 1))
    ensures Quoted(Escaped(s, q) + ([q] + x), q) == Some((s, |Escaped(s, q)| + 1))
  {
    hide Quoted;
    EscapedStep(s, [q] + x, q);
    EscapedLength(s, q);
    hide Escaped;
    assert s == [s[0]] + s[1..];
    var u := Escaped(s[1..], q) + ([q] + x);
    if s[0] == q {
      QuotedDouble(u, q);
      assert Escaped(s, q) + ([q] + x) == [q, q] + u;
    } else {
      QuotedPlain(s[0], u, q);
      assert Escaped(s, q) + ([q] + x) == [s[0]] + u;
    }
  }

  lemma EscapedLength(s: string, q: char)
    requires s != ""
    ensures |Escaped(s, q)| == |Escaped(s[1..], q)| + if s[0] == q then 2 else 1
  {
  }

  lemma LexText(s: string, x: string, q: char := '\'')
    requires (q == '\'' || q == '"') && (x == "" || x[0] != q)
    ensures Tokens([q] + (Escaped(s, q) + ([q] + x))) == Cat([Text(s)], Tokens(x))
  {
    hide Quoted;
    var t := [q] + (Escaped(s, q) + ([q] + x));
    QuotedBack(s, x, q);
    assert t[1..] == Escaped(s, q) + ([q] + x);
    assert t[|Escaped(s, q)| + 2..] == x;
    OneToken(t, Text(s), |Escaped(s, q)| + 2, x);
  }

  lemma LexOneChar(c: char, x: string)
    requires c in "+-/=<>" && x != "" && Blank(x[0])
    ensures Tokens([c] + x) == Cat([Op([c])], Tokens(x))
  {
    hide NumberAt;
    hide Quoted;
    hide WordLen;
    hide Tokens;
    var s := [c] + x;
    assert s[0] == c && s[1] == x[0];
    assert s[..2][1] == x[0];
    assert forall o :: o in TWO_CHAR_OPS ==> !Blank(o[1]);
    assert s[..2] !in TWO_CHAR_OPS;
    assert s[1..] == x;
    OneToken(s, Op([c]), 1, x);
  }

  lemma LexTwoChars(op: string, x: string)
    requires op in TWO_CHAR_OPS
    ensures Tokens(op + x) == Cat([Op(op)], Tokens(x))
  {
    hide NumberAt;
    hide Quoted;
    hide WordLen;
    hide Tokens;
    var s := op + x;
    assert s[..2] == op && s[0] == op[0] && s[2..] == x;
    OneToken(s, Op(op), 2, x);
  }

  lemma LexOp(op: string, x: string)
    requires op in SYMBOLS
    ensures Tokens(op + (" " + x)) == Cat(OpToks(op), Tokens(" " + x))
  {
    hide Tokens;
    if op == "*" {
      LexSymbol('*', Star, " " + x);
    } else if |op| == 1 {
      assert op == [op[0]];
      LexOneChar(op[0], " " + x);
    } else {
      LexTwoChars(op, " " + x);
    }
  }

  lemma LexOperator(op: string, x: string)
    requires BinaryOp(op) || UnaryOp(op)
    ensures Tokens(op + (" " + x)) == Cat(OpToks(op), Tokens(x))
  {
    hide Tokens;
    LexSpace(x);
    if op in SYMBOLS {
      LexOp(op, x);
    } else if op == "NOT LIKE" {
      assert op + (" " + x) == "NOT" + (" " + ("LIKE" + (" " + x)));
      LexWord("LIKE", " " + x);
      LexSpace("LIKE" + (" " + x));
      LexWord("NOT", " " + ("LIKE" + (" " + x)));
      CatCat([Word("NOT")], [Word("LIKE")], Tokens(x));
      assert [Word("NOT")] + [Word("LIKE")] == OpToks(op);
    } else {
      LexWord(op, " " + x);
    }
  }

  // ----- Lexing a printed expression -----

  /** Whatever follows, a printed expression gives its tokens. */
  ghost predicate Lexes(e: Expr, x: string) {
    Tokens(Print(e) + x) == Cat(Toks(e), Tokens(x))
  }

  lemma {:induction false} PrintLexes(e: Expr, x: string)
    requires Produced(e) && Ends(x)
    ensures Lexes(e, x)
    decreases e, 2
  {
    hide Tokens;
    match e
    case Null => LexWord("null", x);
    case Bool(b) => LexWord(if b then "true" else "false", x);
    case Int(n) => LexNumber(n, x);
    case Str(s) =>
      assert Print(e) + x == "'" + (Escaped(s) + ("'" + x));
      LexText(s, x);
    case Ident(name) => if name == "*" { LexSymbol('*', Star, x); } else { LexWord(name, x); }
    case Unary(_, _) => UnaryLexes(e, x);
    case Binary(_, _, _) => BinaryLexes(e, x);
    case Call(_, _) => CallLexes(e, x);
    case Cast(_, _) => CastLexes(e, x);
  }

  lemma {:induction false} UnaryLexes(e: Expr, x: string)
    requires e.Unary? && Produced(e) && Ends(x)
    ensures Lexes(e, x)
    decreases e, 1
  {
    hide Tokens;
    hide OpToks;
    var x1 := ")" + x;
    var x2 := Print(e.x) + x1;
    assert Print(e) + x == "(" + (e.op + (" " + x2));
    LexSymbol(')', RParen, x);
    PrintLexes(e.x, x1);
    LexOperator(e.op, x2);
    LexSymbol('(', LParen, e.op + (" " + x2));
    var r := Tokens(x);
    CatCat(Toks(e.x), [RParen], r);
    CatCat(OpToks(e.op), Toks(e.x) + [RParen], r);
    CatCat([LParen], OpToks(e.op) + (Toks(e.x) + [RParen]), r);
  }

  lemma {:induction false} BinaryLexes(e: Expr, x: string)
    requires e.Binary? && Produced(e) && Ends(x)
    ensures Lexes(e, x)
    decreases e, 1
  {
    hide Tokens;
    hide OpToks;
    var x1 := ")" + x;
    var x2 := Print(e.right) + x1;
    var x3 := e.op + (" " + x2);
    var x4 := Print(e.left) + (" " + x3);
    assert Print(e) + x == "(" + x4;
    LexSymbol(')', RParen, x);
    PrintLexes(e.right, x1);
    LexOperator(e.op, x2);
    LexSpace(x3);
    PrintLexes(e.left, " " + x3);
    LexSymbol('(', LParen, x4);
    var r := Tokens(x);
    var t1 := Toks(e.right) + [RParen];
    CatCat(Toks(e.right), [RParen], r);
    CatCat(OpToks(e.op), t1, r);
    CatCat(Toks(e.left), OpToks(e.op) + t1, r);
    CatCat([LParen], Toks(e.left) + (OpToks(e.op) + t1), r);
  }

  lemma {:induction false} CastLexes(e: Expr, x: string)
    requires e.Cast? && Produced(e) && Ends(x)
    ensures Lexes(e, x)
    decreases e, 1
  {
    hide Tokens;
    hide Print;
    hide Toks;
    hide TypeName;
    NameOfType(e.typ);
    var x1 := TypeName(e.typ) + (")" + x);
    var x2 := " " + ("as" + (" " + x1));
    CastText(e, x);
    LexSymbol(')', RParen, x);
    LexWord(TypeName(e.typ), ")" + x);
    LexSpace(x1);
    LexWord("as", " " + x1);
    LexSpace("as" + (" " + x1));
    PrintLexes(e.x, x2);
    LexSymbol('(', LParen, Print(e.x) + x2);
    LexWord("cast", "(" + (Print(e.x) + x2));
    var r := Tokens(x);
    var t1 := [Word(TypeName(e.typ)), RParen];
    var t2 := [Word("as"), Word(TypeName(e.typ)), RParen];
    CatCat([Word(TypeName(e.typ))], [RParen], r);
    assert [Word(TypeName(e.typ))] + [RParen] == t1;
    CatCat([Word("as")], t1, r);
    assert [Word("as")] + t1 == t2;
    CatCat(Toks(e.x), t2, r);
    CatCat([LParen], Toks(e.x) + t2, r);
    CatCat([Word("cast")], [LParen] + (Toks(e.x) + t2), r);
    CastToks(e);
  }

  lemma NameOfType(t: Type)
    ensures IsWord(TypeName(t))
  {
  }

  lemma CastText(e: Expr, x: string)
    requires e.Cast?
    ensures Print(e) + x == "cast" + ("(" + (Print(e.x) + (" " + ("as" + (" " + (TypeName(e.typ) + (")" + x)))))))
  {
  }

  lemma CastToks(e: Expr)
    requires e.Cast?
    ensures [Word("cast")] + ([LParen] + (Toks(e.x) + [Word("as"), Word(TypeName(e.typ)), RParen])) == Toks(e)
  {
  }

  lemma {:induction false} CallLexes(e: Expr, x: string)
    requires e.Call? && Produced(e) && Ends(x)
    ensures Lexes(e, x)
    decreases e, 1
  {
    hide Tokens;
    hide ArgToks;
    var x1 := ")" + x;
    assert Print(e) + x == e.fn + ("(" + (PrintArgs(e.args) + x1));
    LexSymbol(')', RParen, x);
    ArgsLex(e.args, x1, e);
    LexSymbol('(', LParen, PrintArgs(e.args) + x1);
    LexWord(e.fn, "(" + (PrintArgs(e.args) + x1));
    var r := Tokens(x);
    CatCat(ArgToks(e.args), [RParen], r);
    CatCat([LParen], ArgToks(e.args) + [RParen], r);
    CatCat([Word(e.fn)], [LParen] + (ArgToks(e.args) + [RParen]), r);
    assert [Word(e.fn)] + ([LParen] + (ArgToks(e.args) + [RParen])) == Toks(e);
  }

  lemma {:induction false} ArgsLex(es: seq<Expr>, x: string, whole: Expr)
    requires Ends(x) && forall i :: 0 <= i < |es| ==> Produced(es[i]) && es[i] < whole
    ensures Tokens(PrintArgs(es) + x) == Cat(ArgToks(es), Tokens(x))
    decreases whole, 0, |es|
  {
    hide Tokens;
    hide Print;
    hide Toks;
    if es == [] {
      assert PrintArgs(es) + x == x;
      assert Tokens(x).Some? ==> [] + Tokens(x).value == Tokens(x).value;
    } else if |es| == 1 {
      PrintLexes(es[0], x);
    } else {
      var x1 := PrintArgs(es[1..]) + x;
      assert PrintArgs(es) + x == Print(es[0]) + ("," + (" " + x1));
      ArgsLex(es[1..], x, whole);
      LexSpace(x1);
      LexSymbol(',', Comma, " " + x1);
      PrintLexes(es[0], "," + (" " + x1));
      CatCat([Comma], ArgToks(es[1..]), Tokens(x));
      CatCat(Toks(es[0]), [Comma] + ArgToks(es[1..]), Tokens(x));
    }
  }

  // ----- Names that are not words -----

  /**
   Not a word, because of a byte outside ASCII that is no letter. Lower case can put such
   a byte into a name, as in U+042A, whose lower case ends in the byte 8A.
   */
  predicate Broken(w: string) {
    WordLen(w, true) < |w| && w[WordLen(w, true)] as int >= 0x80
  }

  /** The expressions whose names are words or broken. */
  predicate Yielded(e: Expr) {
    match e
    case Null => true
    case Int(n) => 0 <= n <= MAX_INT64
    case Str(_) => true
    case Stamp(_) => false
    case Bool(_) => true
    case Ident(name) => name == "*" || NameOK(name) || Broken(name)
    case Unary(op, x) => UnaryOp(op) && Yielded(x)
    case Binary(op, l, r) => BinaryOp(op) && Yielded(l) && Yielded(r)
    case Call(fn, args) => (NameOK(fn) || Broken(fn)) && forall i :: 0 <= i < |args| ==> Yielded(args[i])
    case Cast(x, _) => Yielded(x)
  }

  lemma {:induction false} WordLenStops(s: string, x: string, first: bool)
    requires WordLen(s, first) < |s|
    ensures WordLen(s + x, first) == WordLen(s, first) && !WordChar(s[WordLen(s, first)], first && WordLen(s, first) == 0)
    decreases |s|
  {
    assert (s + x)[0] == s[0];
    if WordChar(s[0], first) {
      assert (s + x)[1..] == s[1..] + x;
      WordLenStops(s[1..], x, false);
    }
  }

  /** No token begins with a byte outside ASCII that is no letter. */
  lemma NoToken(s: string)
    requires s != "" && s[0] as int >= 0x80 && !WordChar(s[0], true)
    ensures Tokens(s) == None
  {
    hide NumberAt;
    hide Quoted;
    assert s[0..] == s && Blanks(s) == 0;
    assert TokenAt(s) == None;
  }

  lemma LexBroken(w: string, x: string)
    requires Broken(w)
    ensures Tokens(w + x) == None
  {
    hide NumberAt;
    hide Quoted;
    hide Tokens;
    var k, s := WordLen(w, true), w + x;
    WordLenStops(w, x, true);
    assert s[k..][0] == w[k];
    NoToken(s[k..]);
    if k > 0 {
      WordLenWord(w, true);
      assert s[0] == w[0] && WordChar(w[0], true);
      OneToken(s, Word(s[..k]), k, s[k..]);
    } else {
      assert s[0..] == s;
    }
  }

  /** The text of an expression with a broken name has no tokens, whatever follows. */
  lemma {:induction false} BrokenFails(e: Expr, x: string)
    requires Yielded(e) && !Produced(e) && Ends(x)
    ensures Tokens(Print(e) + x) == None
    decreases e, 2
  {
    hide Tokens;
    hide Broken;
    match e
    case Ident(name) => LexBroken(name, x);
    case Unary(op, y) =>
      var x1 := Print(y) + (")" + x);
      assert Print(e) + x == "(" + (op + (" " + x1));
      BrokenFails(y, ")" + x);
      LexOperator(op, x1);
      LexSymbol('(', LParen, op + (" " + x1));
    case Cast(y, t) =>
      var x1 := " " + ("as" + (" " + (TypeName(t) + (")" + x))));
      CastText(e, x);
      BrokenFails(y, x1);
      LexSymbol('(', LParen, Print(y) + x1);
      LexWord("cast", "(" + (Print(y) + x1));
    case Binary(_, _, _) => BrokenBinary(e, x);
    case Call(fn, args) =>
      var x1 := PrintArgs(args) + (")" + x);
      assert Print(e) + x == fn + ("(" + x1);
      if Broken(fn) {
        LexBroken(fn, "(" + x1);
      } else {
        BrokenArgs(args, ")" + x, e);
        LexSymbol('(', LParen, x1);
        LexWord(fn, "(" + x1);
      }
  }

  lemma {:induction false} BrokenBinary(e: Expr, x: string)
    requires e.Binary? && Yielded(e) && !Produced(e) && Ends(x)
    ensures Tokens(Print(e) + x) == None
    decreases e, 1
  {
    hide Tokens;
    hide Broken;
    var x1 := Print(e.right) + (")" + x);
    var x2 := e.op + (" " + x1);
    var x3 := Print(e.left) + (" " + x2);
    assert Print(e) + x == "(" + x3;
    if Produced(e.left) {
      BrokenFails(e.right, ")" + x);
      LexOperator(e.op, x1);
      LexSpace(x2);
      PrintLexes(e.left, " " + x2);
    } else {
      BrokenFails(e.left, " " + x2);
    }
    LexSymbol('(', LParen, x3);
  }

  lemma {:induction false} BrokenArgs(es: seq<Expr>, x: string, whole: Expr)
    requires Ends(x) && (forall i :: 0 <= i < |es| ==> Yielded(es[i]) && es[i] < whole) && exists i :: 0 <= i < |es| && !Produced(es[i])
    ensures Tokens(PrintArgs(es) + x) == None
    decreases whole, 0, |es|
  {
    hide Tokens;
    hide Print;
    hide Produced;
    hide Yielded;
    if |es| == 1 {
      BrokenFails(es[0], x);
    } else {
      var x1 := PrintArgs(es[1..]) + x;
      assert PrintArgs(es) + x == Print(es[0]) + ("," + (" " + x1));
      if Produced(es[0]) {
        var i :| 0 <= i < |es| && !Produced(es[i]);
        assert es[1..][i - 1] == es[i];
        BrokenArgs(es[1..], x, whole);
        LexSpace(x1);
        LexSymbol(',', Comma, " " + x1);
        PrintLexes(es[0], "," + (" " + x1));
      } else {
        BrokenFails(es[0], "," + (" " + x1));
      }
    }
  }
}
