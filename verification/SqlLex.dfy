/**
 The SQL lexer: what the text in front of the cursor is read as, and the loops that read it.
 */
module SqlLex {
  import opened Wrappers

  /** A token; the value of a number is its integer. */
  datatype Token = End | Word(text: string) | Text(text: string) | Number(value: nat) | Op(text: string)
    | LParen | RParen | Comma | Star | Semicolon | Dot

  const MAX_INT64: nat := 0x7FFF_FFFF_FFFF_FFFF

  predicate Blank(c: char) {
    c == ' ' || c == '\t' || c == '\n' || c == '\r'
  }

  predicate Digit(c: char) {
    '0' <= c <= '9'
  }

  /** `unicode.IsLetter` of a single byte. */
  predicate Letter(c: char) {
    || 'a' <= c <= 'z' || 'A' <= c <= 'Z'
    || c as int == 0xAA || c as int == 0xB5 || c as int == 0xBA
    || (0xC0 <= c as int <= 0xFF && c as int != 0xD7 && c as int != 0xF7)
  }

  predicate WordChar(c: char, first: bool) {
    c == '_' || Letter(c) || (!first && Digit(c))
  }

  // ----- What the lexer reads -----

  function Blanks(s: string): (n: nat)
    ensures n <= |s| && (n < |s| ==> !Blank(s[n]))
  {
    if s == "" || !Blank(s[0]) then 0 else 1 + Blanks(s[1..])
  }

  function WordLen(s: string, first: bool): (n: nat)
    ensures n <= |s|
  {
    if s == "" || !WordChar(s[0], first) then 0 else 1 + WordLen(s[1..], false)
  }

  /** How far a number reaches, and whether it has a point or an exponent. */
  function NumberLen(s: string): (r: (nat, bool))
    ensures r.0 <= |s|
    decreases |s|
  {
    if s == "" then (0, false)
    else if Digit(s[0]) then var (n, f) := NumberLen(s[1..]); (1 + n, f)
    else if s[0] == '.' then (1 + NumberLen(s[1..]).0, true)
    else if s[0] == 'e' || s[0] == 'E' then
      var k := if |s| > 1 && (s[1] == '+' || s[1] == '-') then 2 else 1;
      (k + NumberLen(s[k..]).0, true)
    else (0, false)
  }

  /** `strconv.ParseInt` of digits, without its bound. */
  function DigitsValue(s: string, acc: nat): nat {
    if s == "" || !Digit(s[0]) then acc else DigitsValue(s[1..], 10 * acc + (s[0] as int - '0' as int))
  }

  /** What follows an opening quote: the text up to the closing one, a doubled quote standing for one. */
  function Quoted(s: string, q: char): (r: Option<(string, nat)>)
    ensures r.Some? ==> 0 < r.value.1 <= |s|
    decreases |s|
  {
    if s == "" then None
    else if s[0] != q then
      var r := Quoted(s[1..], q);
      if r.None? then None else Some(([s[0]] + r.value.0, 1 + r.value.1))
    else if |s| > 1 && s[1] == q then
      var r := Quoted(s[2..], q);
      if r.None? then None else Some(([q] + r.value.0, 2 + r.value.1))
    else Some(("", 1))
  }

  function NumberAt(s: string): (r: Option<(Token, nat)>)
    requires s != "" && Digit(s[0])
    ensures r.Some? ==> 0 < r.value.1 <= |s|
  {
    var (n, isFloat) := NumberLen(s);
    var v := DigitsValue(s[..n], 0);
    if isFloat || v > MAX_INT64 then None else Some((Number(v), n))
  }

  const TWO_CHAR_OPS: seq<string> := ["==", ">=", "<=", "<>", "!="]

  /** The token a text without leading blanks begins with, and its length. */
  function TokenAt(s: string): (r: Option<(Token, nat)>)
    requires s != ""
    ensures r.Some? ==> 0 < r.value.1 <= |s| && r.value.0 != End
  {
    var c := s[0];
    if c == ',' then Some((Comma, 1))
    else if c == '(' then Some((LParen, 1))
    else if c == ')' then Some((RParen, 1))
    else if c == '*' then Some((Star, 1))
    else if c == ';' then Some((Semicolon, 1))
    else if c == '.' then if |s| > 1 && Digit(s[1]) then None else Some((Dot, 1))
    else if c == '\'' || c == '"' then
      var r := Quoted(s[1..], c);
      if r.None? then None else Some((Text(r.value.0), 1 + r.value.1))
    else if Digit(c) then NumberAt(s)
    else if WordChar(c, true) then Some((Word(s[..WordLen(s, true)]), WordLen(s, true)))
    else if |s| > 1 && s[..2] in TWO_CHAR_OPS then Some((Op(s[..2]), 2))
    else if c in "+-*/=<>" then Some((Op([c]), 1))
    else None
  }

  /** One token of a text, and how much of the text it took. */
  function Next(s: string): (r: Option<(Token, nat)>)
    ensures r.Some? ==> r.value.1 <= |s| && (r.value.0 != End ==> r.value.1 > 0)
  {
    var w := Blanks(s);
    if w == |s| then Some((End, w))
    else
      var r := TokenAt(s[w..]);
      if r.None? then None else Some((r.value.0, w + r.value.1))
  }

  /** All tokens, the end included. */
  function Tokens(s: string): (r: Option<seq<Token>>)
    decreases |s|
  {
    var t := Next(s);
    if t.None? then None
    else if t.value.0 == End then Some([End])
    else
      var r := Tokens(s[t.value.1..]);
      if r.None? then None else Some([t.value.0] + r.value)
  }

  // ----- What every token of a text is -----

  predicate IsWord(w: string) {
    w != "" && WordChar(w[0], true) && forall i :: 0 < i < |w| ==> WordChar(w[i], false)
  }

  predicate Lexed(t: Token) {
    match t
    case Word(w) => IsWord(w)
    case Number(v) => v <= MAX_INT64
    case _ => true
  }

  lemma {:induction false} WordLenWord(s: string, first: bool)
    ensures forall i :: 0 <= i < WordLen(s, first) ==> WordChar(s[i], first && i == 0)
    decreases |s|
  {
    if s != "" && WordChar(s[0], first) {
      WordLenWord(s[1..], false);
      forall i | 0 <= i < WordLen(s, first) ensures WordChar(s[i], first && i == 0) {
        if i > 0 {
          assert s[i] == s[1..][i - 1];
        }
      }
    }
  }

  lemma NextLexed(s: string)
    ensures Next(s).Some? ==> Lexed(Next(s).value.0)
    ensures Lexed(End)
  {
    hide Quoted;
    WordLenWord(s[Blanks(s)..], true);
  }

  /** Words look like words, numbers fit 64 bits, and the end comes last and only last. */
  lemma {:induction false} TokensLexed(s: string)
    ensures Tokens(s).Some? ==> var ts := Tokens(s).value;
            ts != [] && ts[|ts| - 1] == End && (forall i :: 0 <= i < |ts| ==> Lexed(ts[i])) && forall i :: 0 <= i < |ts| - 1 ==> ts[i] != End
    decreases |s|
  {
    hide Next;
    hide Lexed;
    NextLexed(s);
    var t := Next(s);
    if t.Some? && t.value.0 != End {
      TokensLexed(s[t.value.1..]);
    }
  }

  // ----- The lexer -----

  /** A text read in part, and what is still to be read of it. */
  function After(text: string, n: nat, rest: Option<(string, nat)>): Option<(string, nat)> {
    if rest.None? then None else Some((text + rest.value.0, n + rest.value.1))
  }

  lemma AfterNothing(r: Option<(string, nat)>)
    ensures After("", 0, r) == r
  {
    assert r.Some? ==> "" + r.value.0 == r.value.0;
  }

  lemma AfterLast(text: string, n: nat)
    ensures After(text, n, None) == None && After(text, n, Some(("", 1))) == Some((text, n + 1))
  {
    assert text + "" == text;
  }

  /** One character of a quoted text. */
  lemma QuotedStep(s: string, q: char)
    ensures s == "" ==> Quoted(s, q) == None
    ensures s != "" && s[0] != q ==> Quoted(s, q) == After([s[0]], 1, Quoted(s[1..], q))
    ensures s != "" && s[0] == q && |s| > 1 && s[1] == q ==> Quoted(s, q) == After([q], 2, Quoted(s[2..], q))
    ensures s != "" && s[0] == q && !(|s| > 1 && s[1] == q) ==> Quoted(s, q) == Some(("", 1))
  {
  }

  lemma AfterOne(text: string, n: nat, c: char, k: nat, rest: Option<(string, nat)>)
    ensures After(text, n, After([c], k, rest)) == After(text + [c], n + k, rest)
  {
    if rest.Some? {
      assert text + ([c] + rest.value.0) == text + [c] + rest.value.0;
    }
  }

  class Lexer {
    const src: string
    var pos: nat

    constructor (text: string)
      ensures src == text && pos == 0
    {
      src, pos := text, 0;
    }

    /** `next` */
    method GetToken() returns (t: Option<Token>)
      requires pos <= |src|
      modifies this
      ensures pos <= |src|
      ensures var r := Next(old(src[pos..]));
              if r.None? then t.None? else t == Some(r.value.0) && pos == old(pos) + r.value.1
    {
      hide TokenAt;
      SkipBlanks();
      if pos >= |src| {
        return Some(End);
      }
      t := ReadToken();
    }

    method SkipBlanks()
      requires pos <= |src|
      modifies this
      ensures pos == old(pos) + Blanks(old(src[pos..]))
    {
      while pos < |src| && Blank(src[pos])
        invariant old(pos) <= pos <= |src|
        invariant pos + Blanks(src[pos..]) == old(pos) + Blanks(old(src[pos..]))
      {
        assert src[pos..][1..] == src[pos + 1..];
        pos := pos + 1;
      }
    }

    method ReadToken() returns (t: Option<Token>)
      requires pos < |src|
      modifies this
      ensures pos <= |src|
      ensures var r := TokenAt(old(src[pos..]));
              if r.None? then t.None? else t == Some(r.value.0) && pos == old(pos) + r.value.1
    {
      hide NumberAt;
      hide Quoted;
      ghost var s := src[pos..];
      var c := src[pos];
      if c == ',' {
        pos := pos + 1;
        return Some(Comma);
      } else if c == '(' {
        pos := pos + 1;
        return Some(LParen);
      } else if c == ')' {
        pos := pos + 1;
        return Some(RParen);
      } else if c == '*' {
        pos := pos + 1;
        return Some(Star);
      } else if c == ';' {
        pos := pos + 1;
        return Some(Semicolon);
      } else if c == '.' {
        if pos + 1 < |src| && Digit(src[pos + 1]) {
          assert s[1] == src[pos + 1];
          return None;
        }
        pos := pos + 1;
        return Some(Dot);
      } else if c == '\'' || c == '"' {
        t := LexString();
      } else if Digit(c) {
        t := LexNumber();
      } else if WordChar(c, true) {
        t := LexIdent();
      } else {
        t := LexOp();
      }
    }

    method LexOp() returns (t: Option<Token>)
      requires pos < |src|
      modifies this
      ensures pos <= |src|
      ensures var s, n := old(src[pos..]), old(|src| - pos);
              if n > 1 && s[..2] in TWO_CHAR_OPS then t == Some(Op(s[..2])) && pos == old(pos) + 2
              else if s[0] in "+-*/=<>" then t == Some(Op([s[0]])) && pos == old(pos) + 1
              else t.None?
    {
      ghost var s := src[pos..];
      if pos + 1 < |src| {
        var two := src[pos..pos + 2];
        assert two == s[..2];
        if two in TWO_CHAR_OPS {
          pos := pos + 2;
          return Some(Op(two));
        }
      }
      if src[pos] in "+-*/=<>" {
        pos := pos + 1;
        return Some(Op([src[pos - 1]]));
      }
      return None;
    }

    method LexIdent() returns (t: Option<Token>)
      requires pos < |src|
      modifies this
      ensures pos == old(pos) + WordLen(old(src[pos..]), true)
      ensures t == Some(Word(old(src[pos..])[..WordLen(old(src[pos..]), true)]))
    {
      var start := pos;
      while pos < |src| && WordChar(src[pos], pos == start)
        invariant start <= pos <= |src|
        invariant pos + WordLen(src[pos..], pos == start) == start + WordLen(src[start..], true)
      {
        assert src[pos..][1..] == src[pos + 1..];
        pos := pos + 1;
      }
      assert src[start..pos] == src[start..][..pos - start];
      t := Some(Word(src[start..pos]));
    }

    method LexString() returns (t: Option<Token>)
      requires pos < |src|
      modifies this
      ensures pos <= |src|
      ensures var s := old(src[pos..]);
              var r := Quoted(s[1..], s[0]);
              if r.None? then t.None? else t == Some(Text(r.value.0)) && pos == old(pos) + 1 + r.value.1
    {
      hide Quoted;
      hide After;
      var quote := src[pos];
      ghost var start := pos + 1;
      assert src[pos..][1..] == src[start..];
      pos := pos + 1;
      var sb := "";
      ghost var r := Quoted(src[start..], quote);
      AfterNothing(r);
      while pos < |src|
        invariant start <= pos <= |src| && r == After(sb, pos - start, Quoted(src[pos..], quote))
      {
        QuotedStep(src[pos..], quote);
        AfterLast(sb, pos - start);
        var c := src[pos];
        assert src[pos..][1..] == src[pos + 1..];
        if c == quote {
          if pos + 1 < |src| && src[pos + 1] == quote {
            assert src[pos..][2..] == src[pos + 2..];
            AfterOne(sb, pos - start, quote, 2, Quoted(src[pos + 2..], quote));
            sb := sb + [quote];
            pos := pos + 2;
            continue;
          }
          pos := pos + 1;
          return Some(Text(sb));
        }
        AfterOne(sb, pos - start, c, 1, Quoted(src[pos + 1..], quote));
        sb := sb + [c];
        pos := pos + 1;
      }
      QuotedStep(src[pos..], quote);
      AfterLast(sb, pos - start);
      return None;
    }

    method LexNumber() returns (t: Option<Token>)
      requires pos < |src| && Digit(src[pos])
      modifies this
      ensures pos <= |src|
      ensures var r := NumberAt(old(src[pos..]));
              if r.None? then t.None? else t == Some(r.value.0) && pos == old(pos) + r.value.1
    {
      hide NumberLen;
      hide DigitsValue;
      var start := pos;
      var isFloat := false;
      while pos < |src|
        invariant start <= pos <= |src|
        invariant NumberLen(src[start..]) == (pos - start + NumberLen(src[pos..]).0, isFloat || NumberLen(src[pos..]).1)
      {
        NumberStep(src, pos);
        var c := src[pos];
        if Digit(c) {
          pos := pos + 1;
        } else if c == '.' {
          isFloat := true;
          pos := pos + 1;
        } else if c == 'e' || c == 'E' {
          isFloat := true;
          pos := pos + 1;
          if pos < |src| && (src[pos] == '+' || src[pos] == '-') {
            pos := pos + 1;
          }
        } else {
          break;
        }
      }
      NumberStep(src, pos);
      assert src[start..pos] == src[start..][..pos - start];
      var v := DigitsValue(src[start..pos], 0);
      if isFloat || v > MAX_INT64 {
        return None;
      }
      t := Some(Number(v));
    }
  }

  /** One step of the scan over a number, which a sign behind an exponent lengthens. */
  lemma NumberStep(src: string, pos: nat)
    requires pos <= |src|
    ensures pos == |src| ==> NumberLen(src[pos..]) == (0, false)
    ensures pos < |src| ==>
              var c, n := src[pos], NumberLen(src[pos..]);
              if Digit(c) then n == (1 + NumberLen(src[pos + 1..]).0, NumberLen(src[pos + 1..]).1)
              else if c == '.' then n == (1 + NumberLen(src[pos + 1..]).0, true)
              else if c == 'e' || c == 'E' then
                if pos + 1 < |src| && (src[pos + 1] == '+' || src[pos + 1] == '-') then n == (2 + NumberLen(src[pos + 2..]).0, true)
                else n == (1 + NumberLen(src[pos + 1..]).0, true)
              else n == (0, false)
  {
    if pos < |src| {
      assert src[pos..][1..] == src[pos + 1..];
      assert pos + 1 < |src| ==> src[pos..][2..] == src[pos + 2..];
    }
  }

  /** `tokenize` */
  method Tokenize(src: string) returns (out: Option<seq<Token>>)
    ensures out == Tokens(src)
  {
    hide Next;
    var l := new Lexer(src);
    var acc: seq<Token> := [];
    assert src[0..] == src;
    assert Tokens(src).Some? ==> acc + Tokens(src).value == Tokens(src).value;
    while true
      invariant l.src == src && l.pos <= |src|
      invariant Tokens(src) == if Tokens(src[l.pos..]).None? then None else Some(acc + Tokens(src[l.pos..]).value)
      decreases |src| - l.pos
    {
      ghost var s := src[l.pos..];
      var t := l.GetToken();
      if t.None? {
        return None;
      }
      assert t.value != End ==> s[Next(s).value.1..] == src[l.pos..];
      assert t.value != End && Tokens(src[l.pos..]).Some?
          ==> acc + ([t.value] + Tokens(src[l.pos..]).value) == acc + [t.value] + Tokens(src[l.pos..]).value;
      acc := acc + [t.value];
      if t.value == End {
        return Some(acc);
      }
    }
  }
}
