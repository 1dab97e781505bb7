/**
 Lower case as Go has it: names are byte strings, and a byte string is lowered rune by
 rune, although the lexer took its bytes one at a time.
 */
module Lowering {
  import opened SqlLex

  function LowerChar(c: char): char {
    if 'A' <= c <= 'Z' then (c as int + 32) as char else c
  }

  predicate Ascii(s: string) {
    forall i :: 0 <= i < |s| ==> s[i] as int < 0x80
  }

  // ----- Runes -----

  predicate Continues(c: char) {
    0x80 <= c as int <= 0xBF
  }

  /** `utf8.DecodeRuneInString`: the bytes of the first rune, zero if none begins here. */
  function RuneLen(s: string): (n: nat)
    requires s != ""
    ensures n <= |s|
  {
    var b := s[0] as int;
    if b < 0x80 then 1
    else if 0xC2 <= b <= 0xDF && |s| > 1 && Continues(s[1]) then 2
    else if 0xE0 <= b <= 0xEF && |s| > 2 && Continues(s[1]) && Continues(s[2])
      && (b == 0xE0 ==> s[1] as int >= 0xA0) && (b == 0xED ==> s[1] as int < 0xA0) then 3
    else if 0xF0 <= b <= 0xF4 && |s| > 3 && Continues(s[1]) && Continues(s[2]) && Continues(s[3])
      && (b == 0xF0 ==> s[1] as int >= 0x90) && (b == 0xF4 ==> s[1] as int < 0x90) then 4
    else 0
  }

  /** U+FFFD, which replaces every byte that begins no rune. */
  const REPLACEMENT: string := [0xEF as char, 0xBF as char, 0xBD as char]

  /**
   `unicode.ToLower` of the runes a word can hold: its bytes are all letters on their own,
   so those behind the first are AA, B5 or BA.
   */
  function LowerRune(u: string): (r: string)
    requires u != "" && RuneLen(u) == |u|
    ensures r != "" && RuneLen(r) == |r|
    ensures |u| == 1 ==> r == [LowerChar(u[0])]
    ensures |u| > 1 ==> forall i :: 0 <= i < |r| ==> r[i] as int >= 0x80
  {
    if |u| == 1 then [LowerChar(u[0])]
    else if |u| == 2 then LowerTwo(u[0] as int, u[1] as int)
    else if |u| == 3 && u[0] as int == 0xE1 && u[1] as int == 0xBA && (u[2] as int == 0xAA || u[2] as int == 0xBA) then
      [u[0], u[1], (u[2] as int + 1) as char]
    else u
  }

  function LowerTwo(a: int, b: int): (r: string)
    requires 0xC2 <= a <= 0xDF && 0x80 <= b <= 0xBF
    ensures |r| == 2 || |r| == 3
    ensures RuneLen(r) == |r| && forall i :: 0 <= i < |r| ==> r[i] as int >= 0x80
  {
    if (b == 0xAA && a in {0xC4, 0xC5, 0xC7, 0xC8, 0xCF, 0xD1, 0xD2, 0xD3, 0xD4})
      || (b == 0xBA && a in {0xC7, 0xCF, 0xD1, 0xD2, 0xD3})
      || (b == 0xB5 && a == 0xC6)
    then [a as char, (b + 1) as char]
    else if a == 0xC8 && b == 0xBA then [0xE2 as char, 0xB1 as char, 0xA5 as char]
    else if a == 0xCE && b == 0xAA then [0xCF as char, 0x8A as char]
    else if a == 0xD0 && b == 0xAA then [0xD1 as char, 0x8A as char]
    else if a == 0xD4 && b == 0xB5 then [0xD5 as char, 0xA5 as char]
    else if a == 0xD4 && b == 0xBA then [0xD5 as char, 0xAA as char]
    else [a as char, b as char]
  }

  // ----- Words -----

  function FirstLower(s: string): (r: (string, nat))
    requires s != ""
    ensures r.0 != "" && RuneLen(r.0) == |r.0| && 0 < r.1 <= |s|
  {
    var n := RuneLen(s);
    if n == 0 then (REPLACEMENT, 1) else (LowerRune(s[..n]), n)
  }

  /** `strings.ToLower` */
  function Lower(s: string): (r: string)
    ensures s != "" ==> r != ""
  {
    if s == "" then "" else FirstLower(s).0 + Lower(s[FirstLower(s).1..])
  }

  /** Inside ASCII lower case is taken byte by byte. */
  lemma {:induction false} LowerAscii(s: string)
    requires Ascii(s)
    ensures |Lower(s)| == |s| && forall i :: 0 <= i < |s| ==> Lower(s)[i] == LowerChar(s[i])
    decreases |s|
  {
    if s != "" {
      LowerAscii(s[1..]);
      assert FirstLower(s) == ([LowerChar(s[0])], 1);
    }
  }

  /** Every byte is outside ASCII or may stand in a word. */
  predicate HighOrWord(s: string, first: bool) {
    forall i :: 0 <= i < |s| ==> s[i] as int >= 0x80 || WordChar(s[i], first && i == 0)
  }

  lemma {:induction false} LowerBytes(s: string, first: bool)
    requires HighOrWord(s, first)
    ensures HighOrWord(Lower(s), first)
    decreases |s|
  {
    if s != "" {
      var (l, n) := FirstLower(s);
      forall i | 0 <= i < |s[n..]| ensures s[n..][i] as int >= 0x80 || WordChar(s[n..][i], false) {
        assert s[n..][i] == s[n + i];
      }
      LowerBytes(s[n..], false);
      assert HighOrWord(l, first);
    }
  }

  lemma RunePrefix(u: string, x: string)
    requires u != "" && RuneLen(u) == |u|
    ensures RuneLen(u + x) == |u|
  {
    forall i | 0 <= i < |u| ensures (u + x)[i] == u[i] {
    }
  }

  lemma LoweredStays(s: string)
    requires s != ""
    ensures LowerRune(FirstLower(s).0) == FirstLower(s).0
  {
  }

  /** What is lower case stays as it is. */
  lemma {:induction false} LowerTwice(s: string)
    ensures Lower(Lower(s)) == Lower(s)
    decreases |s|
  {
    if s != "" {
      var (l, n) := FirstLower(s);
      var rest := Lower(s[n..]);
      LowerTwice(s[n..]);
      LoweredStays(s);
      RunePrefix(l, rest);
      assert (l + rest)[..|l|] == l && (l + rest)[|l|..] == rest;
    }
  }

  lemma LowerIs(s: string, l: string)
    requires |l| == |s| && forall i :: 0 <= i < |s| ==> s[i] as int < 0x80 && l[i] == LowerChar(s[i])
    ensures Lower(s) == l
  {
    hide Lower;
    LowerAscii(s);
  }

  /** The words the printer writes, in lower case. */
  lemma LowerLiterals()
    ensures Lower("null") == "null" && Lower("true") == "true" && Lower("false") == "false"
    ensures Lower("cast") == "cast" && Lower("as") == "as"
    ensures Lower("NOT") == "not" && Lower("LIKE") == "like" && Lower("AND") == "and" && Lower("OR") == "or"
    ensures Lower("int64") == "int64" && Lower("float64") == "float64" && Lower("string") == "string"
    ensures Lower("bool") == "bool" && Lower("timestamp") == "timestamp"
  {
    hide Lower;
    LowerIs("null", "null");
    LowerIs("true", "true");
    LowerIs("false", "false");
    LowerIs("cast", "cast");
    LowerIs("as", "as");
    LowerIs("NOT", "not");
    LowerIs("LIKE", "like");
    LowerIs("AND", "and");
    LowerIs("OR", "or");
    LowerIs("int64", "int64");
    LowerIs("float64", "float64");
    LowerIs("string", "string");
    LowerIs("bool", "bool");
    LowerIs("timestamp", "timestamp");
  }
}
