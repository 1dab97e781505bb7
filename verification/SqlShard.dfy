/**
 The SELECT a coordinator sends to a shard: its text, and the statement the shard reads.
 */
module SqlShard {
  import opened Wrappers
  import opened SqlLex
  import opened Lowering
  import opened SqlParse
  import opened SqlPrint
  import opened SqlRound
  import opened SqlSelect

  /** A sort key and its direction. */
  datatype Key = Key(name: string, desc: bool)

  /** ORDER BY with LIMIT. */
  datatype Top = Top(keys: seq<Key>, limit: nat)

  datatype Query = Query(cols: seq<Expr>, table: string, filter: Option<Expr>, group: Option<string>, top: Option<Top>)

  // ----- The text -----

  /** Words of a text, each behind a blank. */
  function Spaced(w: string, x: string): string {
    " " + (w + x)
  }

  function Direction(desc: bool): string {
    if desc then "DESC" else "ASC"
  }

  function KeysText(keys: seq<Key>, x: string): string
    requires keys != []
  {
    var k := keys[0];
    Spaced(k.name, Spaced(Direction(k.desc), if |keys| == 1 then x else "," + KeysText(keys[1..], x)))
  }

  function TopText(q: Query): string
    requires q.top.Some? ==> q.top.value.keys != []
  {
    if q.top.None? then ""
    else Spaced("ORDER", Spaced("BY", KeysText(q.top.value.keys, Spaced("LIMIT", Spaced(Digits(q.top.value.limit), "")))))
  }

  function GroupText(q: Query): string
    requires q.top.Some? ==> q.top.value.keys != []
  {
    if q.group.None? then TopText(q) else Spaced("GROUP", Spaced("BY", Spaced(q.group.value, TopText(q))))
  }

  function FilterText(q: Query): string
    requires q.top.Some? ==> q.top.value.keys != []
  {
    if q.filter.None? then GroupText(q) else Spaced("WHERE", Spaced(Print(q.filter.value), GroupText(q)))
  }

  /** `ShardSQL`, and the text of a scan with a sort order. */
  function ShardText(q: Query): string
    requires q.top.Some? ==> q.top.value.keys != []
  {
    "SELECT" + Spaced(PrintArgs(q.cols), Spaced("FROM", Spaced(q.table, FilterText(q))))
  }

  // ----- Its names -----

  /** A name as the expression parser gives it. */
  predicate Given(w: string) {
    NameOK(w) || Broken(w)
  }

  predicate LowerWord(w: string) {
    IsWord(w) && Lower(w) == w
  }

  /** A query made of what the parser and the catalog give. */
  predicate Sendable(q: Query) {
    && q.cols != [] && (forall i :: 0 <= i < |q.cols| ==> Yielded(q.cols[i]))
    && (LowerWord(q.table) || Broken(q.table))
    && (q.filter.Some? ==> Yielded(q.filter.value))
    && (q.group.Some? ==> Given(q.group.value))
    && (q.top.Some? ==>
          && q.top.value.keys != [] && q.top.value.limit <= MAX_INT64
          && forall i :: 0 <= i < |q.top.value.keys| ==> Given(q.top.value.keys[i].name))
  }

  predicate KeysRead(keys: seq<Key>) {
    forall i :: 0 <= i < |keys| ==> IsWord(keys[i].name)
  }

  predicate TopRead(q: Query) {
    q.top.Some? ==> KeysRead(q.top.value.keys)
  }

  predicate GroupRead(q: Query) {
    (q.group.Some? ==> IsWord(q.group.value)) && TopRead(q)
  }

  predicate FilterRead(q: Query) {
    (q.filter.Some? ==> Produced(q.filter.value)) && GroupRead(q)
  }

  /** Every name is a word. */
  predicate AllRead(q: Query) {
    (forall i :: 0 <= i < |q.cols| ==> Produced(q.cols[i])) && IsWord(q.table) && FilterRead(q)
  }

  // ----- Its tokens -----

  function KeyToks(k: Key): seq<Token> {
    [Word(k.name), Word(Direction(k.desc))]
  }

  function KeysToks(keys: seq<Key>): seq<Token>
    requires keys != []
  {
    if |keys| == 1 then KeyToks(keys[0]) else KeyToks(keys[0]) + ([Comma] + KeysToks(keys[1..]))
  }

  function TopToks(q: Query): seq<Token>
    requires q.top.Some? ==> q.top.value.keys != []
  {
    if q.top.None? then [End]
    else [Word("ORDER"), Word("BY")] + (KeysToks(q.top.value.keys) + [Word("LIMIT"), Number(q.top.value.limit), End])
  }

  function GroupToks(q: Query): seq<Token>
    requires q.top.Some? ==> q.top.value.keys != []
  {
    if q.group.None? then TopToks(q) else [Word("GROUP"), Word("BY"), Word(q.group.value)] + TopToks(q)
  }

  function FilterToks(q: Query): seq<Token>
    requires q.top.Some? ==> q.top.value.keys != []
  {
    if q.filter.None? then GroupToks(q) else [Word("WHERE")] + (Toks(q.filter.value) + GroupToks(q))
  }

  function ShardToks(q: Query): seq<Token>
    requires q.top.Some? ==> q.top.value.keys != []
  {
    [Word("SELECT")] + (ArgToks(q.cols) + ([Word("FROM"), Word(q.table)] + FilterToks(q)))
  }

  /** Tokens, if a condition holds, in front of what the rest gives. */
  function CatIf(ok: bool, ts: seq<Token>, rest: Stream): Stream {
    if ok then Cat(ts, rest) else None
  }

  lemma LexSpaced(w: string, x: string)
    requires IsWord(w) && Ends(x)
    ensures Tokens(Spaced(w, x)) == Cat([Word(w)], Tokens(x))
  {
    hide Tokens;
    LexSpace(w + x);
    LexWord(w, x);
  }

  lemma BrokenNoWord(w: string)
    requires Broken(w)
    ensures !IsWord(w)
  {
    WordLenStops(w, "", true);
  }

  lemma LexName(w: string, x: string)
    requires (IsWord(w) || Broken(w)) && Ends(x)
    ensures Tokens(Spaced(w, x)) == CatIf(IsWord(w), [Word(w)], Tokens(x))
  {
    hide Tokens;
    hide IsWord;
    hide Broken;
    if Broken(w) {
      BrokenNoWord(w);
      LexSpace(w + x);
      LexBroken(w, x);
    } else {
      LexSpaced(w, x);
    }
  }

  lemma DirectionWord(desc: bool)
    ensures IsWord(Direction(desc))
  {
  }

  lemma {:induction false} KeysLex(keys: seq<Key>, x: string)
    requires keys != [] && Ends(x) && forall i :: 0 <= i < |keys| ==> Given(keys[i].name)
    ensures Tokens(KeysText(keys, x)) == CatIf(KeysRead(keys), KeysToks(keys), Tokens(x))
    decreases |keys|
  {
    hide Tokens;
    hide IsWord;
    hide Broken;
    hide Lower;
    var k := keys[0];
    if |keys| == 1 {
      KeyLex(k, x);
      assert KeysRead(keys) <==> IsWord(k.name);
    } else {
      KeysLex(keys[1..], x);
      LexSymbol(',', Comma, KeysText(keys[1..], x));
      KeyLex(k, "," + KeysText(keys[1..], x));
      KeysReadSplit(keys);
      CatCat([Comma], KeysToks(keys[1..]), Tokens(x));
      CatCat(KeyToks(k), [Comma] + KeysToks(keys[1..]), Tokens(x));
    }
  }

  lemma KeyLex(k: Key, x: string)
    requires Ends(x) && Given(k.name)
    ensures Tokens(Spaced(k.name, Spaced(Direction(k.desc), x))) == CatIf(IsWord(k.name), KeyToks(k), Tokens(x))
  {
    hide Tokens;
    hide IsWord;
    hide Broken;
    DirectionWord(k.desc);
    LexSpaced(Direction(k.desc), x);
    LexName(k.name, Spaced(Direction(k.desc), x));
    CatCat([Word(k.name)], [Word(Direction(k.desc))], Tokens(x));
    assert KeyToks(k) == [Word(k.name)] + [Word(Direction(k.desc))];
  }

  lemma KeysReadSplit(keys: seq<Key>)
    requires keys != []
    ensures KeysRead(keys) <==> IsWord(keys[0].name) && KeysRead(keys[1..])
  {
    hide IsWord;
    if KeysRead(keys[1..]) {
      assert forall i :: 0 < i < |keys| ==> keys[i] == keys[1..][i - 1];
    }
  }

  lemma TopLex(q: Query)
    requires Sendable(q)
    ensures Tokens(TopText(q)) == if TopRead(q) then Some(TopToks(q)) else None
  {
    hide Tokens;
    hide IsWord;
    hide Yielded;
    hide Broken;
    hide Lower;
    NoTokens();
    if q.top.Some? {
      var n := q.top.value.limit;
      var x1 := Spaced(Digits(n), "");
      var x2 := Spaced("LIMIT", x1);
      ClauseWords();
      LexSpace(Digits(n) + "");
      LexNumber(n, "");
      assert [Number(n)] + [End] == [Number(n), End];
      LexSpaced("LIMIT", x1);
      assert [Word("LIMIT")] + [Number(n), End] == [Word("LIMIT"), Number(n), End];
      KeysLex(q.top.value.keys, x2);
      LexSpaced("BY", KeysText(q.top.value.keys, x2));
      LexSpaced("ORDER", Spaced("BY", KeysText(q.top.value.keys, x2)));
      var ts := KeysToks(q.top.value.keys) + [Word("LIMIT"), Number(n), End];
      assert [Word("ORDER")] + ([Word("BY")] + ts) == [Word("ORDER"), Word("BY")] + ts;
    }
  }

  lemma ClauseWords()
    ensures IsWord("SELECT") && IsWord("FROM") && IsWord("WHERE") && IsWord("GROUP") && IsWord("BY")
    ensures IsWord("ORDER") && IsWord("LIMIT")
  {
  }

  lemma GroupLex(q: Query)
    requires Sendable(q)
    ensures Tokens(GroupText(q)) == if GroupRead(q) then Some(GroupToks(q)) else None
  {
    hide Tokens;
    hide IsWord;
    hide Yielded;
    hide Broken;
    hide Lower;
    hide TopToks;
    hide TopText;
    TopLex(q);
    TopEnds(q);
    if q.group.Some? {
      var g := q.group.value;
      ClauseWords();
      LexName(g, TopText(q));
      LexSpaced("BY", Spaced(g, TopText(q)));
      LexSpaced("GROUP", Spaced("BY", Spaced(g, TopText(q))));
      hide Spaced;
      CatCat([Word("BY")], [Word(g)], Tokens(TopText(q)));
      CatCat([Word("GROUP")], [Word("BY")] + [Word(g)], Tokens(TopText(q)));
      assert [Word("GROUP")] + ([Word("BY")] + [Word(g)]) == [Word("GROUP"), Word("BY"), Word(g)];
    }
  }

  lemma TopEnds(q: Query)
    requires Sendable(q)
    ensures Ends(TopText(q)) && Ends(GroupText(q)) && Ends(FilterText(q))
  {
    hide Yielded;
    hide Given;
    hide KeysText;
    hide IsWord;
    hide Broken;
    hide Lower;
  }

  lemma FilterLex(q: Query)
    requires Sendable(q)
    ensures Tokens(FilterText(q)) == if FilterRead(q) then Some(FilterToks(q)) else None
  {
    hide Tokens;
    hide IsWord;
    hide Yielded;
    hide Produced;
    hide Broken;
    hide Lower;
    hide GroupToks;
    hide Print;
    hide Toks;
    GroupLex(q);
    TopEnds(q);
    hide GroupText;
    if q.filter.Some? {
      var e := q.filter.value;
      ClauseWords();
      if Produced(e) {
        PrintLexes(e, GroupText(q));
      } else {
        BrokenFails(e, GroupText(q));
      }
      LexSpace(Print(e) + GroupText(q));
      LexSpaced("WHERE", Spaced(Print(e), GroupText(q)));
    }
  }

  lemma ColsLex(es: seq<Expr>, x: string)
    requires (forall i :: 0 <= i < |es| ==> Yielded(es[i])) && Ends(x)
    ensures Tokens(PrintArgs(es) + x) == CatIf(forall i :: 0 <= i < |es| ==> Produced(es[i]), ArgToks(es), Tokens(x))
  {
    hide Tokens;
    hide Yielded;
    hide Produced;
    var whole := Call("", es);
    if forall i :: 0 <= i < |es| ==> Produced(es[i]) {
      ArgsLex(es, x, whole);
    } else {
      BrokenArgs(es, x, whole);
    }
  }

  lemma ShardLex(q: Query)
    requires Sendable(q)
    ensures Tokens(ShardText(q)) == if AllRead(q) then Some(ShardToks(q)) else None
  {
    hide Tokens;
    hide IsWord;
    hide Yielded;
    hide Produced;
    hide Broken;
    hide Lower;
    hide FilterToks;
    hide ArgToks;
    hide PrintArgs;
    FilterLex(q);
    TopEnds(q);
    hide FilterText;
    hide FilterRead;
    ClauseWords();
    var x1 := Spaced(q.table, FilterText(q));
    var x2 := Spaced("FROM", x1);
    LexName(q.table, FilterText(q));
    LexSpaced("FROM", x1);
    CatCat([Word("FROM")], [Word(q.table)], Tokens(FilterText(q)));
    assert [Word("FROM")] + [Word(q.table)] == [Word("FROM"), Word(q.table)];
    ColsLex(q.cols, x2);
    LexSpace(PrintArgs(q.cols) + x2);
    LexWord("SELECT", Spaced(PrintArgs(q.cols), x2));
  }

  // ----- What the shard reads -----

  function ItemsOf(es: seq<Expr>): seq<SelectItem> {
    if es == [] then [] else [SelectItem(Back(es[0]), "")] + ItemsOf(es[1..])
  }

  function OrdersOf(keys: seq<Key>): seq<OrderItem> {
    if keys == [] then [] else [OrderItem(Ident(keys[0].name), keys[0].desc)] + OrdersOf(keys[1..])
  }

  function Meant(q: Query): Select {
    Select(false, ItemsOf(q.cols), q.table,
           if q.filter.Some? then Some(Back(q.filter.value)) else None,
           if q.group.Some? then [Ident(q.group.value)] else [],
           None,
           if q.top.Some? then OrdersOf(q.top.value.keys) else [],
           if q.top.Some? then Some(q.top.value.limit) else None)
  }

  lemma LowerClauses()
    ensures Lower("SELECT") == "select" && Lower("FROM") == "from" && Lower("WHERE") == "where"
    ensures Lower("GROUP") == "group" && Lower("BY") == "by" && Lower("ORDER") == "order" && Lower("LIMIT") == "limit"
    ensures Lower("ASC") == "asc" && Lower("DESC") == "desc"
  {
    hide Lower;
    LowerIs("SELECT", "select");
    LowerIs("FROM", "from");
    LowerIs("WHERE", "where");
    LowerIs("GROUP", "group");
    LowerIs("BY", "by");
    LowerIs("ORDER", "order");
    LowerIs("LIMIT", "limit");
    LowerIs("ASC", "asc");
    LowerIs("DESC", "desc");
  }

  /** What the words between the clauses are to the parser. */
  lemma ClauseKeywords()
    ensures Keyword(Word("SELECT"), "select") && Keyword(Word("FROM"), "from") && Keyword(Word("WHERE"), "where")
    ensures Keyword(Word("GROUP"), "group") && Keyword(Word("BY"), "by") && Keyword(Word("ORDER"), "order")
    ensures Keyword(Word("LIMIT"), "limit") && Keyword(Word("DESC"), "desc") && Keyword(Word("ASC"), "asc")
    ensures !Keyword(Word("FROM"), "as") && !Keyword(Word("ASC"), "desc") && !Keyword(Word("GROUP"), "where")
    ensures !Keyword(Word("ORDER"), "where") && !Keyword(Word("ORDER"), "group") && !Keyword(Word("ORDER"), "having")
    ensures Ending(Word("FROM")) && Ending(Word("GROUP")) && Ending(Word("ORDER")) && Ending(Word("ASC")) && Ending(Word("DESC"))
    ensures Ending(Comma) && Ending(End) && forall kw :: !Keyword(End, kw) && !Keyword(Comma, kw)
  {
    hide Lower;
    LowerClauses();
  }

  /** A printed expression is read up to a token that ends it. */
  lemma WholeAt(toks: seq<Token>, pos: nat, e: Expr)
    requires Closed(toks) && Produced(e) && Has(toks, pos, Toks(e))
    requires pos + |Toks(e)| < |toks| && Ending(toks[pos + |Toks(e)|])
    ensures ParseLevel(1, toks, pos) == Some((Back(e), pos + |Toks(e)|))
  {
    hide Toks;
    hide Has;
    hide Lower;
    hide ParseLevel;
    hide ParsePrimary;
    hide OpAt;
    EndingQuiet(toks, pos + |Toks(e)|);
    PrimaryBack(toks, pos, e);
    WholeBack(toks, pos, 1, e);
  }

  lemma NameAt(toks: seq<Token>, pos: nat, name: string)
    requires Closed(toks) && pos + 1 < |toks| && toks[pos] == Word(name) && NameOK(name) && Ending(toks[pos + 1])
    ensures ParseLevel(1, toks, pos) == Some((Ident(name), pos + 1))
  {
    hide Lower;
    hide IsWord;
    hide ParseLevel;
    EndingQuiet(toks, pos + 1);
    FromPrimary(toks, pos, 1, Ident(name), pos + 1);
  }

  lemma GivenRead(w: string)
    requires Given(w) && IsWord(w)
    ensures NameOK(w)
  {
    hide IsWord;
    hide Broken;
    if Broken(w) {
      BrokenNoWord(w);
    }
  }

  lemma {:induction false} ItemsBack(toks: seq<Token>, pos: nat, es: seq<Expr>)
    requires Closed(toks) && es != [] && (forall i :: 0 <= i < |es| ==> Produced(es[i])) && Has(toks, pos, ArgToks(es))
    requires pos + |ArgToks(es)| < |toks| && toks[pos + |ArgToks(es)|] == Word("FROM")
    ensures ParseItems(toks, pos) == Some((ItemsOf(es), pos + |ArgToks(es)|))
    decreases |es|
  {
    hide ParseLevel;
    hide Toks;
    hide Lower;
    hide Keyword;
    hide Ending;
    hide Produced;
    ClauseKeywords();
    var q := pos + |Toks(es[0])|;
    if |es| == 1 {
      WholeAt(toks, pos, es[0]);
      assert ItemsOf(es) == [SelectItem(Back(es[0]), "")];
    } else {
      HasSplit(toks, pos, Toks(es[0]), [Comma] + ArgToks(es[1..]));
      HasFirst(toks, q, Comma, ArgToks(es[1..]));
      WholeAt(toks, pos, es[0]);
      ItemsBack(toks, q + 1, es[1..]);
    }
  }

  lemma KeyAt(toks: seq<Token>, pos: nat, k: Key)
    requires Closed(toks) && Has(toks, pos, KeyToks(k)) && NameOK(k.name) && pos + 2 < |toks|
    ensures ParseLevel(1, toks, pos) == Some((Ident(k.name), pos + 1))
    ensures ParseDirection(toks, pos + 1) == (k.desc, pos + 2)
  {
    hide Lower;
    hide Keyword;
    hide Ending;
    hide ParseLevel;
    ClauseKeywords();
    assert toks[pos + 0] == Item(KeyToks(k), 0) && toks[pos + 1] == Item(KeyToks(k), 1);
    NameAt(toks, pos, k.name);
  }

  lemma {:induction false} KeysBack(toks: seq<Token>, pos: nat, keys: seq<Key>)
    requires Closed(toks) && keys != [] && (forall i :: 0 <= i < |keys| ==> NameOK(keys[i].name)) && Has(toks, pos, KeysToks(keys))
    requires pos + |KeysToks(keys)| < |toks| && toks[pos + |KeysToks(keys)|] == Word("LIMIT")
    ensures ParseOrders(toks, pos) == Some((OrdersOf(keys), pos + |KeysToks(keys)|))
    decreases |keys|
  {
    hide ParseLevel;
    hide ParseDirection;
    hide Lower;
    hide IsWord;
    if |keys| == 1 {
      KeyAt(toks, pos, keys[0]);
      assert OrdersOf(keys) == [OrderItem(Ident(keys[0].name), keys[0].desc)];
    } else {
      HasSplit(toks, pos, KeyToks(keys[0]), [Comma] + KeysToks(keys[1..]));
      HasFirst(toks, pos + 2, Comma, KeysToks(keys[1..]));
      KeyAt(toks, pos, keys[0]);
      KeysBack(toks, pos + 3, keys[1..]);
    }
  }

  /** The rest of a text stands at the end of the tokens. */
  ghost predicate Rest(toks: seq<Token>, pos: nat, ts: seq<Token>) {
    Closed(toks) && Has(toks, pos, ts) && pos + |ts| == |toks|
  }

  /** Where ORDER BY and LIMIT stand. */
  lemma TopAt(toks: seq<Token>, pos: nat, q: Query)
    requires (q.top.Some? ==> q.top.value.keys != []) && Rest(toks, pos, TopToks(q))
    ensures q.top.None? ==> pos + 1 == |toks| && toks[pos] == End
    ensures q.top.Some? ==>
              var p := pos + 2 + |KeysToks(q.top.value.keys)|;
              && p + 3 == |toks| && toks[pos] == Word("ORDER") && toks[pos + 1] == Word("BY")
              && Has(toks, pos + 2, KeysToks(q.top.value.keys))
              && toks[p] == Word("LIMIT") && toks[p + 1] == Number(q.top.value.limit)
  {
    hide KeysToks;
    if q.top.Some? {
      var keys := q.top.value.keys;
      var head, tail := [Word("ORDER"), Word("BY")], [Word("LIMIT"), Number(q.top.value.limit), End];
      var p := pos + 2 + |KeysToks(keys)|;
      HasSplit(toks, pos, head, KeysToks(keys) + tail);
      HasSplit(toks, pos + 2, KeysToks(keys), tail);
      assert toks[pos + 0] == Item(head, 0) && toks[pos + 1] == Item(head, 1);
      assert toks[p + 0] == Item(tail, 0) && toks[p + 1] == Item(tail, 1);
    } else {
      HasOne(toks, pos, End);
    }
  }

  lemma TopBack(toks: seq<Token>, pos: nat, q: Query)
    requires Sendable(q) && AllRead(q) && Rest(toks, pos, TopToks(q))
    ensures pos < |toks| && (toks[pos] == End || toks[pos] == Word("ORDER"))
    ensures var p: nat := pos + if q.top.Some? then 2 + |KeysToks(q.top.value.keys)| else 0;
            && p < |toks|
            && ParseOrder(toks, pos) == Some((Meant(q).orderBy, p))
            && ParseLimit(toks, p) == Some((Meant(q).limit, |toks| - 1))
  {
    hide Lower;
    hide Keyword;
    hide Ending;
    hide IsWord;
    hide Broken;
    hide Yielded;
    hide Produced;
    hide ParseOrders;
    hide TopToks;
    hide KeysToks;
    hide Has;
    hide ItemsOf;
    hide NameOK;
    ClauseKeywords();
    TopAt(toks, pos, q);
    if q.top.Some? {
      var keys := q.top.value.keys;
      forall i | 0 <= i < |keys| ensures NameOK(keys[i].name) {
        GivenRead(keys[i].name);
      }
      KeysBack(toks, pos + 2, keys);
    }
  }

  /** Where the clauses behind the condition stand. */
  lemma GroupAt(toks: seq<Token>, pos: nat, q: Query)
    requires (q.top.Some? ==> q.top.value.keys != []) && Rest(toks, pos, GroupToks(q))
    ensures var p: nat := pos + if q.group.Some? then 3 else 0; Rest(toks, p, TopToks(q)) && p <= |toks|
    ensures q.group.Some? ==> toks[pos] == Word("GROUP") && toks[pos + 1] == Word("BY") && toks[pos + 2] == Word(q.group.value)
  {
    hide TopToks;
    if q.group.Some? {
      var head := [Word("GROUP"), Word("BY"), Word(q.group.value)];
      HasSplit(toks, pos, head, TopToks(q));
      assert toks[pos + 0] == Item(head, 0) && toks[pos + 1] == Item(head, 1) && toks[pos + 2] == Item(head, 2);
    }
  }

  lemma GroupBack(toks: seq<Token>, pos: nat, q: Query)
    requires Sendable(q) && AllRead(q) && Rest(toks, pos, GroupToks(q))
    ensures pos < |toks| && (toks[pos] == End || toks[pos] == Word("ORDER") || toks[pos] == Word("GROUP"))
    ensures var p: nat := pos + if q.group.Some? then 3 else 0;
            && Rest(toks, p, TopToks(q)) && p < |toks|
            && ParseGroup(toks, pos) == Some((Meant(q).groupBy, p))
            && ParseFilter("having", toks, p) == Some((None, p))
  {
    hide KeysToks;
    hide OrdersOf;
    hide ItemsOf;
    hide Lower;
    hide Keyword;
    hide Ending;
    hide IsWord;
    hide Broken;
    hide Yielded;
    hide Produced;
    hide ParseLevel;
    hide TopToks;
    hide GroupToks;
    hide NameOK;
    hide Has;
    ClauseKeywords();
    GroupAt(toks, pos, q);
    if q.group.Some? {
      TopBack(toks, pos + 3, q);
      GivenRead(q.group.value);
      NameAt(toks, pos + 2, q.group.value);
    } else {
      TopBack(toks, pos, q);
    }
  }

  lemma FilterBack(toks: seq<Token>, pos: nat, q: Query)
    requires Sendable(q) && AllRead(q) && Rest(toks, pos, FilterToks(q))
    ensures var p: nat := pos + if q.filter.Some? then 1 + |Toks(q.filter.value)| else 0;
            Rest(toks, p, GroupToks(q)) && p < |toks| && ParseFilter("where", toks, pos) == Some((Meant(q).filter, p))
  {
    hide TopToks;
    hide KeysToks;
    hide OrdersOf;
    hide ItemsOf;
    hide OpAt;
    hide ParsePrimary;
    hide Lower;
    hide Keyword;
    hide Ending;
    hide IsWord;
    hide Broken;
    hide Yielded;
    hide Produced;
    hide ParseLevel;
    hide GroupToks;
    hide Toks;
    ClauseKeywords();
    if q.filter.Some? {
      var e := q.filter.value;
      HasFirst(toks, pos, Word("WHERE"), Toks(e) + GroupToks(q));
      HasSplit(toks, pos + 1, Toks(e), GroupToks(q));
      GroupBack(toks, pos + 1 + |Toks(e)|, q);
      WholeAt(toks, pos + 1, e);
    } else {
      GroupBack(toks, pos, q);
    }
  }

  /** The first column is not taken for the word DISTINCT. */
  predicate NoDistinct(q: Query)
    requires q.cols != []
  {
    !Keyword(Toks(q.cols[0])[0], "distinct")
  }

  /** Where the columns, the table and the clauses stand. */
  lemma ShardAt(toks: seq<Token>, q: Query)
    requires q.cols != [] && (q.top.Some? ==> q.top.value.keys != []) && Rest(toks, 0, ShardToks(q))
    ensures var p: nat := 1 + |ArgToks(q.cols)|;
            && p + 2 < |toks| && Has(toks, 1, ArgToks(q.cols)) && toks[1] == Toks(q.cols[0])[0]
            && toks[p] == Word("FROM") && toks[p + 1] == Word(q.table) && Rest(toks, p + 2, FilterToks(q))
  {
    hide FilterToks;
    hide ArgToks;
    hide Toks;
    var head := [Word("FROM"), Word(q.table)];
    var p := 1 + |ArgToks(q.cols)|;
    HasFirst(toks, 0, Word("SELECT"), ArgToks(q.cols) + (head + FilterToks(q)));
    HasSplit(toks, 1, ArgToks(q.cols), head + FilterToks(q));
    HasSplit(toks, p, head, FilterToks(q));
    assert toks[p + 0] == Item(head, 0) && toks[p + 1] == Item(head, 1);
    FirstColumn(q.cols);
    assert toks[1 + 0] == Item(ArgToks(q.cols), 0);
    SomeRest(q);
  }

  lemma SomeRest(q: Query)
    requires q.top.Some? ==> q.top.value.keys != []
    ensures |FilterToks(q)| > 0
  {
    hide KeysToks;
    hide Toks;
  }

  lemma ShardBack(toks: seq<Token>, q: Query)
    requires Sendable(q) && AllRead(q) && Rest(toks, 0, ShardToks(q)) && NoDistinct(q)
    ensures ParseSelect(toks, 1) == Some((Meant(q), |toks| - 1))
  {
    hide Lower;
    hide Keyword;
    hide Ending;
    hide IsWord;
    hide Broken;
    hide Yielded;
    hide Produced;
    hide Has;
    hide ParseItems;
    hide ParseFilter;
    hide ParseGroup;
    hide ParseOrder;
    hide ParseLimit;
    hide ShardToks;
    hide FilterToks;
    hide GroupToks;
    hide TopToks;
    hide KeysToks;
    hide ArgToks;
    hide Toks;
    ClauseKeywords();
    ShardAt(toks, q);
    var p: nat := 1 + |ArgToks(q.cols)|;
    ItemsBack(toks, 1, q.cols);
    TableWord(q);
    assert ParseFrom(toks, p) == Some((q.table, p + 2)) && Skip(toks, 1, "distinct") == 1;
    FilterBack(toks, p + 2, q);
    var p3: nat := p + 2 + if q.filter.Some? then 1 + |Toks(q.filter.value)| else 0;
    GroupBack(toks, p3, q);
    TopBack(toks, p3 + if q.group.Some? then 3 else 0, q);
  }

  lemma FirstColumn(es: seq<Expr>)
    requires es != []
    ensures |ArgToks(es)| > 0 && ArgToks(es)[0] == Toks(es[0])[0]
  {
    hide Toks;
  }

  lemma TableWord(q: Query)
    requires Sendable(q) && AllRead(q)
    ensures Lower(q.table) == q.table
  {
    hide Lower;
    hide IsWord;
    hide Broken;
    if Broken(q.table) {
      BrokenNoWord(q.table);
    }
  }

  /** What a shard reads of the text sent to it. */
  lemma ShardTextReads(q: Query)
    requires Sendable(q) && NoDistinct(q)
    ensures ParseSelectText(ShardText(q)) == if AllRead(q) then Some(Meant(q)) else None
  {
    hide Lower;
    hide Tokens;
    hide ShardText;
    hide ShardToks;
    hide AllRead;
    hide IsWord;
    hide Broken;
    hide Yielded;
    hide Meant;
    hide Toks;
    hide ParseSelect;
    ShardLex(q);
    TokensLexed(ShardText(q));
    if AllRead(q) {
      ShardToksAt(q);
      ShardBack(ShardToks(q), q);
      LowerClauses();
    }
  }

  lemma ShardToksAt(q: Query)
    requires q.cols != [] && (q.top.Some? ==> q.top.value.keys != [])
    ensures Has(ShardToks(q), 0, ShardToks(q)) && |ShardToks(q)| > 1 && ShardToks(q)[0] == Word("SELECT")
    ensures ShardToks(q)[1] == Toks(q.cols[0])[0]
  {
    hide FilterToks;
    hide ArgToks;
    hide Toks;
    FirstColumn(q.cols);
    forall i: nat | i < |ShardToks(q)| ensures ShardToks(q)[0 + i] == Item(ShardToks(q), i) {
    }
  }

  /**
   The shard reads the query that was meant exactly if every name is a word and the list
   of columns does not begin with the word DISTINCT.
   */
  lemma ShardTextIff(q: Query)
    requires Sendable(q)
    ensures ParseSelectText(ShardText(q)) == Some(Meant(q)) <==> AllRead(q) && NoDistinct(q)
  {
    hide Lower;
    hide Tokens;
    hide ShardText;
    hide ShardToks;
    hide AllRead;
    hide IsWord;
    hide Broken;
    hide Yielded;
    hide Toks;
    if NoDistinct(q) {
      ShardTextReads(q);
    } else {
      hide ParseItems;
      hide ParseFilter;
      hide ParseGroup;
      hide ParseOrder;
      hide ParseLimit;
      ShardLex(q);
      TokensLexed(ShardText(q));
      ShardToksAt(q);
    }
  }
}
