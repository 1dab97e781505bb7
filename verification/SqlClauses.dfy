/**
 SELECT statements written out: every clause that is there is read as it was meant, every
 one that is not is read as absent.
 */
module SqlClauses {
  import opened Wrappers
  import opened SqlLex
  import opened Lowering
  import opened SqlParse
  import opened SqlPrint
  import opened SqlRound
  import opened SqlBare
  import opened SqlSelect

  // ----- A statement as tokens -----

  predicate LowerName(w: string) {
    w != "" && Lower(w) == w
  }

  /** Any list of items; names are lower-case words or missing. */
  predicate Writable(st: Select) {
    && st.items != [] && (st.from == "" || LowerName(st.from))
    && (forall i :: 0 <= i < |st.items| ==> Written(st.items[i].x) && (st.items[i].alias == "" || LowerName(st.items[i].alias)))
    && (st.filter.Some? ==> Written(st.filter.value)) && (st.having.Some? ==> Written(st.having.value))
    && (forall i :: 0 <= i < |st.groupBy| ==> Written(st.groupBy[i]))
    && (forall i :: 0 <= i < |st.orderBy| ==> Written(st.orderBy[i].x))
  }

  function MeantItems(its: seq<SelectItem>): seq<SelectItem> {
    if its == [] then [] else [its[0].(x := Meaning(its[0].x))] + MeantItems(its[1..])
  }

  function MeantOrders(os: seq<OrderItem>): seq<OrderItem> {
    if os == [] then [] else [os[0].(x := Meaning(os[0].x))] + MeantOrders(os[1..])
  }

  function MeantFilter(f: Option<Expr>): Option<Expr> {
    if f.None? then None else Some(Meaning(f.value))
  }

  function Meant(st: Select): Select {
    st.(items := MeantItems(st.items), filter := MeantFilter(st.filter), groupBy := Meanings(st.groupBy),
        having := MeantFilter(st.having), orderBy := MeantOrders(st.orderBy))
  }

  function ItemToks(it: SelectItem): (ts: seq<Token>)
    ensures ts != [] && ts[0] == Bare(it.x, 1)[0]
  {
    Bare(it.x, 1) + if it.alias == "" then [] else [Word("AS"), Word(it.alias)]
  }

  function ItemsToks(its: seq<SelectItem>): (ts: seq<Token>)
    requires its != []
    ensures ts != [] && ts[0] == Bare(its[0].x, 1)[0]
  {
    if |its| == 1 then ItemToks(its[0]) else ItemToks(its[0]) + ([Comma] + ItemsToks(its[1..]))
  }

  /** An ascending key may say so or not. */
  function OrderToks(o: OrderItem, asc: bool): seq<Token> {
    Bare(o.x, 1) + if o.desc then [Word("DESC")] else if asc then [Word("ASC")] else []
  }

  function OrdersToks(os: seq<OrderItem>, asc: bool): seq<Token>
    requires os != []
  {
    if |os| == 1 then OrderToks(os[0], asc) else OrderToks(os[0], asc) + ([Comma] + OrdersToks(os[1..], asc))
  }

  function FilterToks(kw: string, f: Option<Expr>): seq<Token> {
    if f.None? then [] else [Word(kw)] + Bare(f.value, 1)
  }

  /** The clauses in their order: FROM, WHERE, GROUP BY, HAVING, ORDER BY and LIMIT. */
  function ClauseToks(k: nat, st: Select, asc: bool): seq<Token> {
    if k == 0 then if st.from == "" then [] else [Word("FROM"), Word(st.from)]
    else if k == 1 then FilterToks("WHERE", st.filter)
    else if k == 2 then if st.groupBy == [] then [] else [Word("GROUP"), Word("BY")] + BareArgs(st.groupBy)
    else if k == 3 then FilterToks("HAVING", st.having)
    else if k == 4 then if st.orderBy == [] then [] else [Word("ORDER"), Word("BY")] + OrdersToks(st.orderBy, asc)
    else if st.limit.None? then [] else [Word("LIMIT"), Number(st.limit.value)]
  }

  function TailToks(k: nat, st: Select, asc: bool): seq<Token>
    requires k <= 6
    decreases 6 - k
  {
    if k == 6 then [End] else ClauseToks(k, st, asc) + TailToks(k + 1, st, asc)
  }

  /** What stands behind the word SELECT, the end included. */
  function SelectToks(st: Select, asc: bool): seq<Token>
    requires st.items != []
  {
    (if st.distinct then [Word("DISTINCT")] else []) + (ItemsToks(st.items) + TailToks(0, st, asc))
  }

  // ----- Where a clause ends -----

  const CLAUSES: seq<string> := ["FROM", "WHERE", "GROUP", "HAVING", "ORDER", "LIMIT"]

  /** A token that begins a clause behind the first `k`, or the end. */
  predicate Later(k: nat, t: Token) {
    t == End || exists i :: k <= i < 6 && t == Word(CLAUSES[i])
  }

  lemma LowerWords()
    ensures Lower("FROM") == "from" && Lower("WHERE") == "where" && Lower("GROUP") == "group" && Lower("HAVING") == "having"
    ensures Lower("ORDER") == "order" && Lower("LIMIT") == "limit" && Lower("BY") == "by" && Lower("AS") == "as"
    ensures Lower("ASC") == "asc" && Lower("DESC") == "desc" && Lower("DISTINCT") == "distinct" && Lower("SELECT") == "select"
  {
    hide Lower;
    LowerIs("FROM", "from");
    LowerIs("WHERE", "where");
    LowerIs("GROUP", "group");
    LowerIs("HAVING", "having");
    LowerIs("ORDER", "order");
    LowerIs("LIMIT", "limit");
    LowerIs("BY", "by");
    LowerIs("AS", "as");
    LowerIs("ASC", "asc");
    LowerIs("DESC", "desc");
    LowerIs("DISTINCT", "distinct");
    LowerIs("SELECT", "select");
  }

  const KEYWORDS: seq<string> := ["from", "where", "group", "having", "order", "limit"]

  /** Such a token ends an expression and is none of the words that could stand there before it. */
  lemma LaterIs(k: nat, t: Token)
    requires Later(k, t)
    ensures Ending(t) && t != Comma && !Keyword(t, "as") && !Keyword(t, "asc") && !Keyword(t, "desc")
    ensures forall i :: 0 <= i < 6 && i < k ==> !Keyword(t, KEYWORDS[i])
  {
    hide Lower;
    LowerWords();
  }

  lemma {:induction false} TailFirst(k: nat, st: Select, asc: bool)
    requires k <= 6
    ensures TailToks(k, st, asc) != [] && Later(k, TailToks(k, st, asc)[0])
    decreases 6 - k
  {
    hide Bare;
    hide BareArgs;
    hide OrdersToks;
    if k < 6 {
      TailFirst(k + 1, st, asc);
      var ts := ClauseToks(k, st, asc);
      if ts != [] {
        assert TailToks(k, st, asc)[0] == ts[0];
        assert ts[0] == Word(CLAUSES[k]);
      }
    }
  }

  /** A clause stands at a position and the clauses behind it follow. */
  ghost predicate ClauseAt(toks: seq<Token>, pos: nat, ts: seq<Token>, k: nat) {
    Closed(toks) && Has(toks, pos, ts) && pos + |ts| < |toks| && Later(k, toks[pos + |ts|])
  }

  lemma NextClause(toks: seq<Token>, pos: nat, k: nat, st: Select, asc: bool)
    requires k < 6 && Closed(toks) && Has(toks, pos, TailToks(k, st, asc))
    ensures var ts := ClauseToks(k, st, asc);
            ClauseAt(toks, pos, ts, k + 1) && Has(toks, pos + |ts|, TailToks(k + 1, st, asc))
  {
    hide ClauseToks;
    hide Later;
    var ts := ClauseToks(k, st, asc);
    HasSplit(toks, pos, ts, TailToks(k + 1, st, asc));
    TailFirst(k + 1, st, asc);
    FirstAt(toks, pos + |ts|, TailToks(k + 1, st, asc));
  }

  lemma FirstAt(toks: seq<Token>, pos: nat, ts: seq<Token>)
    requires Has(toks, pos, ts) && ts != []
    ensures pos < |toks| && toks[pos] == ts[0]
  {
    assert toks[pos + 0] == Item(ts, 0);
  }

  // ----- Reading the clauses -----

  /** An expression is read up to a token that ends it. */
  lemma ExprAt(toks: seq<Token>, pos: nat, e: Expr)
    requires Closed(toks) && Written(e) && Has(toks, pos, Bare(e, 1))
    requires pos + |Bare(e, 1)| < |toks| && Ending(toks[pos + |Bare(e, 1)|])
    ensures ParseLevel(1, toks, pos) == Some((Meaning(e), pos + |Bare(e, 1)|))
  {
    hide Bare;
    hide ParseLevel;
    hide Has;
    hide Written;
    hide OpAt;
    hide Ending;
    EndingQuiet(toks, pos + |Bare(e, 1)|);
    ExprRead(toks, pos, e, 1);
  }

  lemma FromRead(toks: seq<Token>, pos: nat, st: Select, asc: bool)
    requires Writable(st) && ClauseAt(toks, pos, ClauseToks(0, st, asc), 1)
    ensures ParseFrom(toks, pos) == Some((st.from, pos + |ClauseToks(0, st, asc)|))
  {
    hide Lower;
    hide Later;
    hide Written;
    LowerWords();
    LaterIs(1, toks[pos + |ClauseToks(0, st, asc)|]);
    if st.from != "" {
      TwoAt(toks, pos, Word("FROM"), Word(st.from));
    } else {
      assert KEYWORDS[0] == "from";
    }
  }

  lemma FilterRead(toks: seq<Token>, pos: nat, k: nat, f: Option<Expr>)
    requires (k == 1 || k == 3) && ClauseAt(toks, pos, FilterToks(CLAUSES[k], f), k + 1) && (f.Some? ==> Written(f.value))
    ensures ParseFilter(KEYWORDS[k], toks, pos) == Some((MeantFilter(f), pos + |FilterToks(CLAUSES[k], f)|))
  {
    hide Lower;
    hide Later;
    hide Ending;
    hide Written;
    hide Meaning;
    hide Bare;
    hide ParseLevel;
    LowerWords();
    LaterIs(k + 1, toks[pos + |FilterToks(CLAUSES[k], f)|]);
    if f.Some? {
      HasFirst(toks, pos, Word(CLAUSES[k]), Bare(f.value, 1));
      ExprAt(toks, pos + 1, f.value);
    }
  }

  lemma {:induction false} ExprsRead(toks: seq<Token>, pos: nat, es: seq<Expr>)
    requires es != [] && (forall i :: 0 <= i < |es| ==> Written(es[i])) && ClauseAt(toks, pos, BareArgs(es), 3)
    ensures ParseExprs(toks, pos) == Some((Meanings(es), pos + |BareArgs(es)|))
    decreases |es|
  {
    hide Lower;
    hide Later;
    hide Ending;
    hide Written;
    hide Meaning;
    hide Bare;
    hide ParseLevel;
    hide Has;
    CommaEnds();
    LaterIs(3, toks[pos + |BareArgs(es)|]);
    var ts := Bare(es[0], 1);
    if |es| > 1 {
      HasSplit(toks, pos, ts, [Comma] + BareArgs(es[1..]));
      HasFirst(toks, pos + |ts|, Comma, BareArgs(es[1..]));
      ExprAt(toks, pos, es[0]);
      ExprsRead(toks, pos + |ts| + 1, es[1..]);
    } else {
      ExprAt(toks, pos, es[0]);
      assert Meanings(es) == [Meaning(es[0])];
    }
  }

  lemma CommaEnds()
    ensures Ending(Comma) && forall kw :: !Keyword(Comma, kw)
  {
    hide Lower;
  }

  lemma ByAt(toks: seq<Token>, pos: nat, kw: string, ts: seq<Token>)
    requires Closed(toks) && Has(toks, pos, [Word(kw), Word("BY")] + ts) && pos + 2 < |toks|
    ensures toks[pos] == Word(kw) && Skip(toks, pos + 1, "by") == pos + 2 && Has(toks, pos + 2, ts)
  {
    hide Lower;
    hide Has;
    LowerWords();
    HasSplit(toks, pos, [Word(kw), Word("BY")], ts);
    TwoAt(toks, pos, Word(kw), Word("BY"));
  }

  lemma GroupRead(toks: seq<Token>, pos: nat, st: Select, asc: bool)
    requires Writable(st) && ClauseAt(toks, pos, ClauseToks(2, st, asc), 3)
    ensures ParseGroup(toks, pos) == Some((Meanings(st.groupBy), pos + |ClauseToks(2, st, asc)|))
  {
    hide Lower;
    hide Later;
    hide Ending;
    hide Written;
    hide Meaning;
    hide BareArgs;
    hide Has;
    hide ParseExprs;
    LowerWords();
    LaterIs(3, toks[pos + |ClauseToks(2, st, asc)|]);
    if st.groupBy != [] {
      ByAt(toks, pos, "GROUP", BareArgs(st.groupBy));
      ExprsRead(toks, pos + 2, st.groupBy);
    } else {
      assert KEYWORDS[2] == "group";
    }
  }

  lemma OrderAt(toks: seq<Token>, pos: nat, o: OrderItem, asc: bool)
    requires Closed(toks) && Written(o.x) && Has(toks, pos, OrderToks(o, asc)) && pos + |OrderToks(o, asc)| < |toks|
    requires var t := toks[pos + |OrderToks(o, asc)|]; Ending(t) && !Keyword(t, "asc") && !Keyword(t, "desc")
    ensures ParseLevel(1, toks, pos) == Some((Meaning(o.x), pos + |Bare(o.x, 1)|))
    ensures ParseDirection(toks, pos + |Bare(o.x, 1)|) == (o.desc, pos + |OrderToks(o, asc)|)
  {
    hide Lower;
    hide Written;
    hide Meaning;
    hide Bare;
    hide ParseLevel;
    hide Has;
    LowerWords();
    var ts := Bare(o.x, 1);
    if o.desc {
      HasSplit(toks, pos, ts, [Word("DESC")]);
      HasOne(toks, pos + |ts|, Word("DESC"));
    } else if asc {
      HasSplit(toks, pos, ts, [Word("ASC")]);
      HasOne(toks, pos + |ts|, Word("ASC"));
    } else {
      assert ts + [] == ts;
    }
    ExprAt(toks, pos, o.x);
  }

  lemma {:induction false} OrdersRead(toks: seq<Token>, pos: nat, os: seq<OrderItem>, asc: bool)
    requires os != [] && (forall i :: 0 <= i < |os| ==> Written(os[i].x)) && ClauseAt(toks, pos, OrdersToks(os, asc), 5)
    ensures ParseOrders(toks, pos) == Some((MeantOrders(os), pos + |OrdersToks(os, asc)|))
    decreases |os|
  {
    hide Lower;
    hide Later;
    hide Ending;
    hide Written;
    hide Meaning;
    hide OrderToks;
    hide ParseLevel;
    hide ParseDirection;
    hide Has;
    hide Keyword;
    CommaEnds();
    LaterIs(5, toks[pos + |OrdersToks(os, asc)|]);
    var ts := OrderToks(os[0], asc);
    if |os| > 1 {
      HasSplit(toks, pos, ts, [Comma] + OrdersToks(os[1..], asc));
      HasFirst(toks, pos + |ts|, Comma, OrdersToks(os[1..], asc));
      OrderAt(toks, pos, os[0], asc);
      OrdersRead(toks, pos + |ts| + 1, os[1..], asc);
    } else {
      OrderAt(toks, pos, os[0], asc);
      assert MeantOrders(os) == [os[0].(x := Meaning(os[0].x))];
    }
  }

  lemma OrderRead(toks: seq<Token>, pos: nat, st: Select, asc: bool)
    requires Writable(st) && ClauseAt(toks, pos, ClauseToks(4, st, asc), 5)
    ensures ParseOrder(toks, pos) == Some((MeantOrders(st.orderBy), pos + |ClauseToks(4, st, asc)|))
  {
    hide Lower;
    hide Later;
    hide Ending;
    hide Written;
    hide Meaning;
    hide OrdersToks;
    hide Has;
    hide ParseOrders;
    LowerWords();
    LaterIs(5, toks[pos + |ClauseToks(4, st, asc)|]);
    if st.orderBy != [] {
      ByAt(toks, pos, "ORDER", OrdersToks(st.orderBy, asc));
      OrdersRead(toks, pos + 2, st.orderBy, asc);
    } else {
      assert KEYWORDS[4] == "order";
    }
  }

  lemma LimitRead(toks: seq<Token>, pos: nat, st: Select, asc: bool)
    requires ClauseAt(toks, pos, ClauseToks(5, st, asc), 6)
    ensures ParseLimit(toks, pos) == Some((st.limit, pos + |ClauseToks(5, st, asc)|))
  {
    hide Lower;
    hide Later;
    LowerWords();
    LaterIs(6, toks[pos + |ClauseToks(5, st, asc)|]);
    if st.limit.Some? {
      TwoAt(toks, pos, Word("LIMIT"), Number(st.limit.value));
    } else {
      assert KEYWORDS[5] == "limit";
    }
  }

  lemma ItemAt(toks: seq<Token>, pos: nat, it: SelectItem)
    requires Closed(toks) && Written(it.x) && (it.alias == "" || LowerName(it.alias)) && Has(toks, pos, ItemToks(it))
    requires pos + |ItemToks(it)| < |toks| && Ending(toks[pos + |ItemToks(it)|]) && !Keyword(toks[pos + |ItemToks(it)|], "as")
    ensures ParseLevel(1, toks, pos) == Some((Meaning(it.x), pos + |Bare(it.x, 1)|))
    ensures ParseAlias(toks, pos + |Bare(it.x, 1)|) == Some((it.alias, pos + |ItemToks(it)|))
  {
    hide Lower;
    hide Written;
    hide Meaning;
    hide Bare;
    hide ParseLevel;
    hide Has;
    LowerWords();
    var ts := Bare(it.x, 1);
    if it.alias != "" {
      HasSplit(toks, pos, ts, [Word("AS"), Word(it.alias)]);
      TwoAt(toks, pos + |ts|, Word("AS"), Word(it.alias));
    } else {
      assert ts + [] == ts;
    }
    ExprAt(toks, pos, it.x);
  }

  /** One turn of the loop over the items. */
  lemma {:induction false} ItemsStep(toks: seq<Token>, pos: nat, x: Expr, p: nat, alias: string, q: nat)
    requires Closed(toks) && pos < |toks| && p < |toks| && q < |toks|
    requires ParseLevel(1, toks, pos) == Some((x, p)) && ParseAlias(toks, p) == Some((alias, q))
    ensures toks[q] != Comma ==> ParseItems(toks, pos) == Some(([SelectItem(x, alias)], q))
    ensures toks[q] == Comma ==> var rest := ParseItems(toks, q + 1);
            rest.Some? ==> ParseItems(toks, pos) == Some(([SelectItem(x, alias)] + rest.value.0, rest.value.1))
  {
    hide ParseLevel;
    hide ParseAlias;
  }

  lemma {:induction false} ItemsSplit(toks: seq<Token>, pos: nat, its: seq<SelectItem>)
    requires its != [] && Has(toks, pos, ItemsToks(its)) && pos + |ItemsToks(its)| < |toks|
    ensures var q := pos + |ItemToks(its[0])|;
            && Has(toks, pos, ItemToks(its[0])) && q < |toks|
            && if |its| == 1 then |ItemsToks(its)| == |ItemToks(its[0])|
               else toks[q] == Comma && Has(toks, q + 1, ItemsToks(its[1..])) && q + 1 + |ItemsToks(its[1..])| == pos + |ItemsToks(its)|
  {
    hide ItemToks;
    hide Has;
    if |its| > 1 {
      HasSplit(toks, pos, ItemToks(its[0]), [Comma] + ItemsToks(its[1..]));
      HasFirst(toks, pos + |ItemToks(its[0])|, Comma, ItemsToks(its[1..]));
    }
  }

  lemma {:induction false} ItemsRead(toks: seq<Token>, pos: nat, its: seq<SelectItem>)
    requires its != [] && ClauseAt(toks, pos, ItemsToks(its), 0)
    requires forall i :: 0 <= i < |its| ==> Written(its[i].x) && (its[i].alias == "" || LowerName(its[i].alias))
    ensures ParseItems(toks, pos) == Some((MeantItems(its), pos + |ItemsToks(its)|))
    decreases |its|
  {
    hide Lower;
    hide Later;
    hide Ending;
    hide Written;
    hide Meaning;
    hide LowerName;
    hide ItemToks;
    hide ParseLevel;
    hide ParseAlias;
    hide Has;
    hide Keyword;
    hide ItemsToks;
    hide Closed;
    hide ParseItems;
    CommaEnds();
    LaterIs(0, toks[pos + |ItemsToks(its)|]);
    ItemsSplit(toks, pos, its);
    var ts := ItemToks(its[0]);
    ItemAt(toks, pos, its[0]);
    ItemsStep(toks, pos, Meaning(its[0].x), pos + |Bare(its[0].x, 1)|, its[0].alias, pos + |ts|);
    if |its| > 1 {
      ItemsRead(toks, pos + |ts| + 1, its[1..]);
    } else {
      assert MeantItems(its) == [its[0].(x := Meaning(its[0].x))];
    }
  }

  // ----- Whole statements -----

  /** The first item is not taken for the word DISTINCT. */
  predicate NotDistinct(st: Select)
    requires st.items != []
  {
    st.distinct || !Keyword(Bare(st.items[0].x, 1)[0], "distinct")
  }

  lemma HeadAt(toks: seq<Token>, pos: nat, st: Select, asc: bool)
    requires st.items != [] && Closed(toks) && Has(toks, pos, SelectToks(st, asc)) && NotDistinct(st)
    ensures pos < |toks| && Keyword(toks[pos], "distinct") == st.distinct
    ensures var p := Skip(toks, pos, "distinct");
            ClauseAt(toks, p, ItemsToks(st.items), 0) && Has(toks, p + |ItemsToks(st.items)|, TailToks(0, st, asc))
  {
    hide Lower;
    hide Later;
    hide ItemsToks;
    hide TailToks;
    hide Has;
    hide Bare;
    LowerWords();
    var ts := ItemsToks(st.items);
    var rest := ts + TailToks(0, st, asc);
    TailFirst(0, st, asc);
    assert rest[0] == Bare(st.items[0].x, 1)[0];
    if st.distinct {
      HasFirst(toks, pos, Word("DISTINCT"), rest);
    } else {
      assert [] + rest == rest;
      FirstAt(toks, pos, rest);
    }
    var p := Skip(toks, pos, "distinct");
    HasSplit(toks, p, ts, TailToks(0, st, asc));
    FirstAt(toks, p + |ts|, TailToks(0, st, asc));
  }

  /** The positions behind the items and behind the first `k` clauses. */
  function Behind(pos: nat, k: nat, st: Select, asc: bool): nat {
    if k == 0 then pos else Behind(pos, k - 1, st, asc) + |ClauseToks(k - 1, st, asc)|
  }

  lemma {:induction false} ClausesAt(toks: seq<Token>, pos: nat, k: nat, st: Select, asc: bool)
    requires k <= 6 && Closed(toks) && Has(toks, pos, TailToks(0, st, asc))
    ensures Has(toks, Behind(pos, k, st, asc), TailToks(k, st, asc))
    ensures forall i :: 0 <= i < k ==> ClauseAt(toks, Behind(pos, i, st, asc), ClauseToks(i, st, asc), i + 1)
    ensures k == 6 ==> Behind(pos, k, st, asc) + 1 == |toks|
  {
    hide ClauseToks;
    hide ClauseAt;
    hide Has;
    if k > 0 {
      ClausesAt(toks, pos, k - 1, st, asc);
      NextClause(toks, Behind(pos, k - 1, st, asc), k - 1, st, asc);
    }
    if k == 6 {
      HasOne(toks, Behind(pos, k, st, asc), End);
    }
  }

  /** The six clauses are read one behind the other, the last up to the end. */
  ghost predicate ClausesRead(toks: seq<Token>, p: nat, st: Select, asc: bool) {
    && Closed(toks) && p <= Behind(p, 1, st, asc) <= Behind(p, 2, st, asc) <= Behind(p, 3, st, asc)
    && Behind(p, 3, st, asc) <= Behind(p, 4, st, asc) <= Behind(p, 5, st, asc) < |toks|
    && ParseFrom(toks, p) == Some((st.from, Behind(p, 1, st, asc)))
    && ParseFilter("where", toks, Behind(p, 1, st, asc)) == Some((MeantFilter(st.filter), Behind(p, 2, st, asc)))
    && ParseGroup(toks, Behind(p, 2, st, asc)) == Some((Meanings(st.groupBy), Behind(p, 3, st, asc)))
    && ParseFilter("having", toks, Behind(p, 3, st, asc)) == Some((MeantFilter(st.having), Behind(p, 4, st, asc)))
    && ParseOrder(toks, Behind(p, 4, st, asc)) == Some((MeantOrders(st.orderBy), Behind(p, 5, st, asc)))
    && ParseLimit(toks, Behind(p, 5, st, asc)) == Some((st.limit, |toks| - 1))
  }

  lemma {:induction false} ClausesBack(toks: seq<Token>, p: nat, st: Select, asc: bool)
    requires Writable(st) && Closed(toks) && Has(toks, p, TailToks(0, st, asc))
    ensures ClausesRead(toks, p, st, asc)
  {
    hide Has;
    hide Closed;
    hide Written;
    hide Later;
    hide ClauseToks;
    hide TailToks;
    hide ParseFrom;
    hide ParseFilter;
    hide ParseGroup;
    hide ParseOrder;
    hide ParseLimit;
    hide MeantOrders;
    hide MeantFilter;
    hide Meanings;
    hide ClauseAt;
    hide FilterToks;
    ClausesAt(toks, p, 6, st, asc);
    BehindSteps(p, st, asc);
    hide Behind;
    FilterClauses(st, asc);
    FromRead(toks, p, st, asc);
    FilterRead(toks, Behind(p, 1, st, asc), 1, st.filter);
    GroupRead(toks, Behind(p, 2, st, asc), st, asc);
    FilterRead(toks, Behind(p, 3, st, asc), 3, st.having);
    OrderRead(toks, Behind(p, 4, st, asc), st, asc);
    LimitRead(toks, Behind(p, 5, st, asc), st, asc);
  }

  /** A statement is read from its tokens, clause by clause. */
  lemma {:induction false} SelectReads(toks: seq<Token>, pos: nat, st: Select, asc: bool)
    requires Writable(st) && NotDistinct(st) && Closed(toks) && Has(toks, pos, SelectToks(st, asc))
    ensures pos < |toks| && ParseSelect(toks, pos) == Some((Meant(st), |toks| - 1))
  {
    hide Lower;
    hide Keyword;
    hide Has;
    hide Closed;
    hide Written;
    hide Later;
    hide SelectToks;
    hide TailToks;
    hide ItemsToks;
    hide ParseItems;
    hide ParseFrom;
    hide ParseFilter;
    hide ParseGroup;
    hide ParseOrder;
    hide ParseLimit;
    hide MeantItems;
    hide MeantOrders;
    hide MeantFilter;
    hide Meanings;
    hide Behind;
    HeadAt(toks, pos, st, asc);
    var p0 := Skip(toks, pos, "distinct");
    ItemsRead(toks, p0, st.items);
    ClausesBack(toks, p0 + |ItemsToks(st.items)|, st, asc);
  }

  lemma BehindSteps(p: nat, st: Select, asc: bool)
    ensures Behind(p, 0, st, asc) == p
    ensures forall k :: 0 <= k < 6 ==> Behind(p, k + 1, st, asc) == Behind(p, k, st, asc) + |ClauseToks(k, st, asc)|
  {
  }

  lemma FilterClauses(st: Select, asc: bool)
    ensures ClauseToks(1, st, asc) == FilterToks(CLAUSES[1], st.filter) && KEYWORDS[1] == "where"
    ensures ClauseToks(3, st, asc) == FilterToks(CLAUSES[3], st.having) && KEYWORDS[3] == "having"
  {
  }

  /** A text of these tokens, with any blanks between them, is read as the statement. */
  lemma {:induction false} SelectTextReads(st: Select, asc: bool, lead: string, ps: seq<Piece>)
    requires Writable(st) && NotDistinct(st)
    requires AllBlank(lead) && forall i :: 0 <= i < |ps| ==> PieceOK(ps[i])
    requires PieceToks(ps) + [End] == [Word("SELECT")] + SelectToks(st, asc)
    ensures ParseSelectText(lead + Spell(ps)) == Some(Meant(st))
  {
    hide Tokens;
    hide Spell;
    hide Lower;
    hide Meant;
    hide ParseSelect;
    hide SelectToks;
    hide Written;
    var src := lead + Spell(ps);
    LexGap(lead, Spell(ps));
    SpellLexes(ps);
    TokensLexed(src);
    var toks := PieceToks(ps) + [End];
    assert Tokens(src) == Some(toks);
    forall i: nat | i < |toks| ensures toks[0 + i] == Item(toks, i) {
    }
    HasFirst(toks, 0, Word("SELECT"), SelectToks(st, asc));
    LowerWords();
    SelectReads(toks, 1, st, asc);
  }
}
