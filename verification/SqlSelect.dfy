/**
 SELECT statements: the parser's clauses, and the text in which a coordinator sends a scan
 with a pushed-down condition to a shard.
 */
module SqlSelect {
  import opened Wrappers
  import opened SqlLex
  import opened Lowering
  import opened SqlParse

  datatype SelectItem = SelectItem(x: Expr, alias: string)

  datatype OrderItem = OrderItem(x: Expr, desc: bool)

  /** `having` is kept apart from `filter`, to which the parser joins it by AND. */
  datatype Select = Select(
    distinct: bool, items: seq<SelectItem>, from: string, filter: Option<Expr>, groupBy: seq<Expr>,
    having: Option<Expr>, orderBy: seq<OrderItem>, limit: Option<nat>)

  // ----- The grammar -----

  /** A clause and the position behind it. */
  type Clause<T> = Option<(T, nat)>

  predicate At(toks: seq<Token>, pos: nat) {
    Closed(toks) && pos < |toks|
  }

  /** The position behind a word that may be there. */
  function Skip(toks: seq<Token>, pos: nat, kw: string): (q: nat)
    requires At(toks, pos)
    ensures pos <= q < |toks|
  {
    if Keyword(toks[pos], kw) then pos + 1 else pos
  }

  function ParseAlias(toks: seq<Token>, pos: nat): (c: Clause<string>)
    requires At(toks, pos)
    ensures c.Some? ==> pos <= c.value.1 < |toks|
  {
    if !Keyword(toks[pos], "as") then Some(("", pos))
    else if !toks[pos + 1].Word? then None
    else Some((Lower(toks[pos + 1].text), pos + 2))
  }

  function ParseItems(toks: seq<Token>, pos: nat): (c: Clause<seq<SelectItem>>)
    requires At(toks, pos)
    ensures c.Some? ==> pos < c.value.1 < |toks|
    decreases |toks| - pos
  {
    var e := ParseLevel(1, toks, pos);
    if e.None? then None
    else
      var a := ParseAlias(toks, e.value.1);
      if a.None? then None
      else
        var item := SelectItem(e.value.0, a.value.0);
        if toks[a.value.1] != Comma then Some(([item], a.value.1))
        else
          var rest := ParseItems(toks, a.value.1 + 1);
          if rest.None? then None else Some(([item] + rest.value.0, rest.value.1))
  }

  function ParseFrom(toks: seq<Token>, pos: nat): (c: Clause<string>)
    requires At(toks, pos)
    ensures c.Some? ==> pos <= c.value.1 < |toks|
  {
    if !Keyword(toks[pos], "from") then Some(("", pos))
    else if !toks[pos + 1].Word? then None
    else Some((Lower(toks[pos + 1].text), pos + 2))
  }

  /** A word with an expression behind it: WHERE or HAVING. */
  function ParseFilter(kw: string, toks: seq<Token>, pos: nat): (c: Clause<Option<Expr>>)
    requires At(toks, pos)
    ensures c.Some? ==> pos <= c.value.1 < |toks|
  {
    if !Keyword(toks[pos], kw) then Some((None, pos))
    else
      var e := ParseLevel(1, toks, pos + 1);
      if e.None? then None else Some((Some(e.value.0), e.value.1))
  }

  function ParseExprs(toks: seq<Token>, pos: nat): (c: Clause<seq<Expr>>)
    requires At(toks, pos)
    ensures c.Some? ==> pos < c.value.1 < |toks|
    decreases |toks| - pos
  {
    var e := ParseLevel(1, toks, pos);
    if e.None? then None
    else if toks[e.value.1] != Comma then Some(([e.value.0], e.value.1))
    else
      var rest := ParseExprs(toks, e.value.1 + 1);
      if rest.None? then None else Some(([e.value.0] + rest.value.0, rest.value.1))
  }

  function ParseGroup(toks: seq<Token>, pos: nat): (c: Clause<seq<Expr>>)
    requires At(toks, pos)
    ensures c.Some? ==> pos <= c.value.1 < |toks|
  {
    if Keyword(toks[pos], "group") then ParseExprs(toks, Skip(toks, pos + 1, "by")) else Some(([], pos))
  }

  /** DESC, ASC or neither. */
  function ParseDirection(toks: seq<Token>, pos: nat): (r: (bool, nat))
    requires At(toks, pos)
    ensures pos <= r.1 < |toks|
  {
    if Keyword(toks[pos], "desc") then (true, pos + 1) else (false, Skip(toks, pos, "asc"))
  }

  function ParseOrders(toks: seq<Token>, pos: nat): (c: Clause<seq<OrderItem>>)
    requires At(toks, pos)
    ensures c.Some? ==> pos < c.value.1 < |toks|
    decreases |toks| - pos
  {
    var e := ParseLevel(1, toks, pos);
    if e.None? then None
    else
      var (desc, q) := ParseDirection(toks, e.value.1);
      var item := OrderItem(e.value.0, desc);
      if toks[q] != Comma then Some(([item], q))
      else
        var rest := ParseOrders(toks, q + 1);
        if rest.None? then None else Some(([item] + rest.value.0, rest.value.1))
  }

  function ParseOrder(toks: seq<Token>, pos: nat): (c: Clause<seq<OrderItem>>)
    requires At(toks, pos)
    ensures c.Some? ==> pos <= c.value.1 < |toks|
  {
    if Keyword(toks[pos], "order") then ParseOrders(toks, Skip(toks, pos + 1, "by")) else Some(([], pos))
  }

  function ParseLimit(toks: seq<Token>, pos: nat): (c: Clause<Option<nat>>)
    requires At(toks, pos)
    ensures c.Some? ==> pos <= c.value.1 < |toks|
  {
    if !Keyword(toks[pos], "limit") then Some((None, pos))
    else if !toks[pos + 1].Number? then None
    else Some((Some(toks[pos + 1].value), pos + 2))
  }

  /** `parseSelect`, behind the word SELECT. */
  function ParseSelect(toks: seq<Token>, pos: nat): (c: Clause<Select>)
    requires At(toks, pos)
    ensures c.Some? ==> pos <= c.value.1 < |toks|
  {
    var distinct := Keyword(toks[pos], "distinct");
    var items := ParseItems(toks, Skip(toks, pos, "distinct"));
    if items.None? then None else
    var from := ParseFrom(toks, items.value.1);
    if from.None? then None else
    var filter := ParseFilter("where", toks, from.value.1);
    if filter.None? then None else
    var group := ParseGroup(toks, filter.value.1);
    if group.None? then None else
    var having := ParseFilter("having", toks, group.value.1);
    if having.None? then None else
    var order := ParseOrder(toks, having.value.1);
    if order.None? then None else
    var limit := ParseLimit(toks, order.value.1);
    if limit.None? then None else
    Some((Select(distinct, items.value.0, from.value.0, filter.value.0, group.value.0, having.value.0, order.value.0,
                 limit.value.0), limit.value.1))
  }

  /** A text that is one SELECT statement. */
  function ParseSelectText(src: string): Option<Select> {
    TokensLexed(src);
    var toks := Tokens(src);
    if toks.None? || !Keyword(toks.value[0], "select") then None
    else
      var c := ParseSelect(toks.value, 1);
      if c.None? || toks.value[c.value.1] != End then None else Some(c.value.0)
  }

  // ----- The parser -----

  /** What a method that reads a clause returns and where it leaves the cursor. */
  ghost predicate ReadsClause<T(!new)>(p: Parser, r: Option<T>, c: Clause<T>)
    reads p
  {
    if c.None? then r.None? else r == Some(c.value.0) && p.pos == c.value.1
  }

  /** What was read so far in front of the rest. */
  function Before<T>(acc: seq<T>, c: Clause<seq<T>>): Clause<seq<T>> {
    if c.None? then None else Some((acc + c.value.0, c.value.1))
  }

  lemma BeforeOne<T>(acc: seq<T>, x: T, c: Clause<seq<T>>)
    ensures Before(acc, Before([x], c)) == Before(acc + [x], c)
  {
    if c.Some? {
      assert acc + ([x] + c.value.0) == acc + [x] + c.value.0;
    }
  }

  lemma BeforeNone<T>(c: Clause<seq<T>>)
    ensures Before([], c) == c
  {
    assert c.Some? ==> [] + c.value.0 == c.value.0;
  }

  method ReadAlias(p: Parser) returns (alias: Option<string>)
    requires p.Valid()
    modifies p
    ensures p.Valid() && ReadsClause(p, alias, ParseAlias(p.toks, old(p.pos)))
  {
    hide Lower;
    var isAs := p.AcceptKeyword("as");
    if !isAs {
      return Some("");
    }
    if !p.Peek().Word? {
      return None;
    }
    var t := p.Advance();
    alias := Some(Lower(t.text));
  }

  method ReadItems(p: Parser) returns (items: Option<seq<SelectItem>>)
    requires p.Valid()
    modifies p
    ensures p.Valid() && ReadsClause(p, items, ParseItems(p.toks, old(p.pos)))
  {
    hide ParseLevel;
    hide ParseAlias;
    var acc := [];
    ghost var whole := ParseItems(p.toks, p.pos);
    BeforeNone(whole);
    while true
      invariant p.Valid() && old(p.pos) <= p.pos && whole == Before(acc, ParseItems(p.toks, p.pos))
      decreases |p.toks| - p.pos
    {
      var e := p.ParseExpr();
      if e.None? {
        return None;
      }
      var alias := ReadAlias(p);
      if alias.None? {
        return None;
      }
      ghost var done := acc;
      acc := acc + [SelectItem(e.value, alias.value)];
      if p.Peek() != Comma {
        return Some(acc);
      }
      BeforeOne(done, SelectItem(e.value, alias.value), ParseItems(p.toks, p.pos + 1));
      var _ := p.Advance();
    }
  }

  method ReadFrom(p: Parser) returns (from: Option<string>)
    requires p.Valid()
    modifies p
    ensures p.Valid() && ReadsClause(p, from, ParseFrom(p.toks, old(p.pos)))
  {
    hide Lower;
    var found := p.AcceptKeyword("from");
    if !found {
      return Some("");
    }
    if !p.Peek().Word? {
      return None;
    }
    var t := p.Advance();
    from := Some(Lower(t.text));
  }

  method ReadFilter(p: Parser, kw: string) returns (filter: Option<Option<Expr>>)
    requires p.Valid()
    modifies p
    ensures p.Valid() && ReadsClause(p, filter, ParseFilter(kw, p.toks, old(p.pos)))
  {
    hide ParseLevel;
    var found := p.AcceptKeyword(kw);
    if !found {
      return Some(None);
    }
    var e := p.ParseExpr();
    filter := if e.None? then None else Some(e);
  }

  method ReadExprs(p: Parser) returns (es: Option<seq<Expr>>)
    requires p.Valid()
    modifies p
    ensures p.Valid() && ReadsClause(p, es, ParseExprs(p.toks, old(p.pos)))
  {
    hide ParseLevel;
    var acc := [];
    ghost var whole := ParseExprs(p.toks, p.pos);
    BeforeNone(whole);
    while true
      invariant p.Valid() && old(p.pos) <= p.pos && whole == Before(acc, ParseExprs(p.toks, p.pos))
      decreases |p.toks| - p.pos
    {
      var e := p.ParseExpr();
      if e.None? {
        return None;
      }
      ghost var done := acc;
      acc := acc + [e.value];
      if p.Peek() != Comma {
        return Some(acc);
      }
      BeforeOne(done, e.value, ParseExprs(p.toks, p.pos + 1));
      var _ := p.Advance();
    }
  }

  method ReadGroup(p: Parser) returns (es: Option<seq<Expr>>)
    requires p.Valid()
    modifies p
    ensures p.Valid() && ReadsClause(p, es, ParseGroup(p.toks, old(p.pos)))
  {
    hide ParseExprs;
    var found := p.AcceptKeyword("group");
    if !found {
      return Some([]);
    }
    var _ := p.AcceptKeyword("by");
    es := ReadExprs(p);
  }

  method ReadDirection(p: Parser) returns (desc: bool)
    requires p.Valid()
    modifies p
    ensures p.Valid() && (desc, p.pos) == ParseDirection(p.toks, old(p.pos))
  {
    desc := p.AcceptKeyword("desc");
    if !desc {
      var _ := p.AcceptKeyword("asc");
    }
  }

  method ReadOrders(p: Parser) returns (os: Option<seq<OrderItem>>)
    requires p.Valid()
    modifies p
    ensures p.Valid() && ReadsClause(p, os, ParseOrders(p.toks, old(p.pos)))
  {
    hide ParseLevel;
    hide ParseDirection;
    var acc := [];
    ghost var whole := ParseOrders(p.toks, p.pos);
    BeforeNone(whole);
    while true
      invariant p.Valid() && old(p.pos) <= p.pos && whole == Before(acc, ParseOrders(p.toks, p.pos))
      decreases |p.toks| - p.pos
    {
      var e := p.ParseExpr();
      if e.None? {
        return None;
      }
      var desc := ReadDirection(p);
      ghost var done := acc;
      acc := acc + [OrderItem(e.value, desc)];
      if p.Peek() != Comma {
        return Some(acc);
      }
      BeforeOne(done, OrderItem(e.value, desc), ParseOrders(p.toks, p.pos + 1));
      var _ := p.Advance();
    }
  }

  method ReadOrder(p: Parser) returns (os: Option<seq<OrderItem>>)
    requires p.Valid()
    modifies p
    ensures p.Valid() && ReadsClause(p, os, ParseOrder(p.toks, old(p.pos)))
  {
    hide ParseOrders;
    var found := p.AcceptKeyword("order");
    if !found {
      return Some([]);
    }
    var _ := p.AcceptKeyword("by");
    os := ReadOrders(p);
  }

  method ReadLimit(p: Parser) returns (limit: Option<Option<nat>>)
    requires p.Valid()
    modifies p
    ensures p.Valid() && ReadsClause(p, limit, ParseLimit(p.toks, old(p.pos)))
  {
    var found := p.AcceptKeyword("limit");
    if !found {
      return Some(None);
    }
    var t := p.Advance();
    limit := if t.Number? then Some(Some(t.value)) else None;
  }

  method ReadSelect(p: Parser) returns (st: Option<Select>)
    requires p.Valid()
    modifies p
    ensures p.Valid() && ReadsClause(p, st, ParseSelect(p.toks, old(p.pos)))
  {
    hide ParseItems;
    hide ParseFrom;
    hide ParseFilter;
    hide ParseGroup;
    hide ParseOrder;
    hide ParseLimit;
    var distinct := p.AcceptKeyword("distinct");
    var items := ReadItems(p);
    if items.None? {
      return None;
    }
    var from := ReadFrom(p);
    if from.None? {
      return None;
    }
    var filter := ReadFilter(p, "where");
    if filter.None? {
      return None;
    }
    var group := ReadGroup(p);
    if group.None? {
      return None;
    }
    var having := ReadFilter(p, "having");
    if having.None? {
      return None;
    }
    var order := ReadOrder(p);
    if order.None? {
      return None;
    }
    var limit := ReadLimit(p);
    if limit.None? {
      return None;
    }
    st := Some(Select(distinct, items.value, from.value, filter.value, group.value, having.value, order.value, limit.value));
  }
}
