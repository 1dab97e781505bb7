/**
 The round trip of the statement codec: decoding what was encoded gives the statements
 back exactly when every operator is in its table.
 */
module CodecTrip {
  import opened Bytes
  import opened Wrappers
  import opened CodecPrims
  import opened CodecExpr
  import opened CodecStmt

  // ----- What can be written -----

  predicate OptOK(e: Expr) {
    e.Nil? || Encodable(e)
  }

  predicate NamesOK(ns: seq<Key>) {
    Int64(|ns|) && forall i :: 0 <= i < |ns| ==> Int64(|ns[i]|)
  }

  predicate ExprsOK(es: seq<Expr>) {
    Int64(|es|) && forall i :: 0 <= i < |es| ==> Encodable(es[i])
  }

  predicate ColumnOK(c: ColumnDef) {
    Int64(|c.name|) && OptOK(c.deflt)
  }

  /** Lengths and numbers fit 64 bits, expressions can be written. */
  predicate StmtOK(s: Stmt) {
    match s
    case CreateTable(name, cols, pk, _, engine, ret) =>
      Int64(|name|) && Int64(|cols|) && (forall i :: 0 <= i < |cols| ==> ColumnOK(cols[i])) && NamesOK(pk) && Int64(|engine|) && Int64(ret)
    case DropTable(name, _) => Int64(|name|)
    case CreateIndex(name, table, cs, _) => Int64(|name|) && Int64(|table|) && NamesOK(cs)
    case DropIndex(name, table, _) => Int64(|name|) && Int64(|table|)
    case Insert(table, cs, rows) =>
      Int64(|table|) && NamesOK(cs) && Int64(|rows|) && forall i :: 0 <= i < |rows| ==> ExprsOK(rows[i])
    case Update(table, sets, w) =>
      Int64(|table|) && Int64(|sets|) && (forall i :: 0 <= i < |sets| ==> Int64(|sets[i].column|) && Encodable(sets[i].value)) && OptOK(w)
    case Delete(table, w) => Int64(|table|) && OptOK(w)
    case CreateDatabase(name) => Int64(|name|)
    case Select(_, items, from, w, gb, ob, _, limit) =>
      && Int64(|items|) && (forall i :: 0 <= i < |items| ==> Encodable(items[i].expr) && Int64(|items[i].alias|))
      && Int64(|from|) && OptOK(w) && ExprsOK(gb)
      && Int64(|ob|) && (forall i :: 0 <= i < |ob| ==> Encodable(ob[i].oexpr)) && Int64(limit)
    case KVPut(table, k, v) => Int64(|table|) && Int64(|k|) && Int64(|v|)
    case KVGet(table, k) => Int64(|table|) && Int64(|k|)
    case KVDelete(table, k) => Int64(|table|) && Int64(|k|)
    case KVScan(table, a, z, _, _) => Int64(|table|) && Int64(|a|) && Int64(|z|)
    case _ => true
  }

  // ----- What is left of a statement -----

  function ColumnLeft(c: ColumnDef): ColumnDef {
    c.(deflt := Survives(c.deflt))
  }

  function ColumnsLeft(cs: seq<ColumnDef>): (r: seq<ColumnDef>)
    ensures |r| == |cs| && forall i :: 0 <= i < |cs| ==> r[i] == ColumnLeft(cs[i])
  {
    seq(|cs|, i requires 0 <= i < |cs| => ColumnLeft(cs[i]))
  }

  function SetsLeft(ss: seq<SetItem>): (r: seq<SetItem>)
    ensures |r| == |ss| && forall i :: 0 <= i < |ss| ==> r[i] == SetItem(ss[i].column, Survives(ss[i].value))
  {
    seq(|ss|, i requires 0 <= i < |ss| => SetItem(ss[i].column, Survives(ss[i].value)))
  }

  function ItemsLeft(its: seq<SelectItem>): (r: seq<SelectItem>)
    ensures |r| == |its| && forall i :: 0 <= i < |its| ==> r[i] == SelectItem(Survives(its[i].expr), its[i].alias)
  {
    seq(|its|, i requires 0 <= i < |its| => SelectItem(Survives(its[i].expr), its[i].alias))
  }

  function OrdersLeft(os: seq<OrderItem>): (r: seq<OrderItem>)
    ensures |r| == |os| && forall i :: 0 <= i < |os| ==> r[i] == OrderItem(Survives(os[i].oexpr), os[i].desc)
  {
    seq(|os|, i requires 0 <= i < |os| => OrderItem(Survives(os[i].oexpr), os[i].desc))
  }

  /** A row with an expression that is lost altogether fails. */
  predicate RowFails(row: seq<Expr>) {
    exists i :: 0 <= i < |row| && Survives(row[i]) == Nil
  }

  function RowsLeft(rows: seq<seq<Expr>>): (r: seq<seq<Expr>>)
    ensures |r| == |rows| && forall i :: 0 <= i < |rows| ==> r[i] == Survivors(rows[i])
  {
    seq(|rows|, i requires 0 <= i < |rows| => Survivors(rows[i]))
  }

  predicate RowsFail(rows: seq<seq<Expr>>) {
    exists i :: 0 <= i < |rows| && RowFails(rows[i])
  }

  predicate Fails(s: Stmt) {
    s.Insert? && RowsFail(s.rows)
  }

  function Left(s: Stmt): Stmt {
    match s
    case CreateTable(name, cols, pk, ine, engine, ret) => CreateTable(name, ColumnsLeft(cols), pk, ine, engine, ret)
    case Insert(table, cs, rows) => Insert(table, cs, RowsLeft(rows))
    case Update(table, sets, w) => Update(table, SetsLeft(sets), Survives(w))
    case Delete(table, w) => Delete(table, Survives(w))
    case Select(d, items, from, w, gb, ob, hl, limit) =>
      Select(d, ItemsLeft(items), from, Survives(w), Survivors(gb), OrdersLeft(ob), hl, limit)
    case _ => s
  }

  // ----- Lists and optional expressions -----

  ghost predicate OptBack(buf: Buffer, pos: nat, e: Expr) {
    pos <= |buf| && DecOpt(buf, Reader(pos, false)) == (Survives(e), Reader(pos + |EncOpt(e)|, false))
  }

  lemma OptTrip(buf: Buffer, pos: nat, e: Expr)
    requires OptOK(e) && At(buf, pos, EncOpt(e))
    ensures OptBack(buf, pos, e)
  {
    hide DecExpr;
    hide ReadBool;
    if e.Nil? {
      ReadsBool(buf, pos, false);
    } else {
      BoolThen(buf, pos, true, EncExpr(e));
      ExprRoundTrip(buf, pos + 1, e);
    }
  }

  lemma OptThen(buf: Buffer, pos: nat, e: Expr, rest: Buffer)
    requires OptOK(e) && At(buf, pos, EncOpt(e) + rest)
    ensures OptBack(buf, pos, e) && At(buf, pos + |EncOpt(e)|, rest)
  {
    hide DecOpt;
    hide EncOpt;
    AtConcat(buf, pos, EncOpt(e), rest);
    OptTrip(buf, pos, e);
  }

  lemma ExprThen(buf: Buffer, pos: nat, e: Expr, rest: Buffer)
    requires Encodable(e) && At(buf, pos, EncExpr(e) + rest)
    ensures ReadsBack(buf, pos, e) && At(buf, pos + |EncExpr(e)|, rest)
  {
    hide DecExpr;
    hide EncExpr;
    AtConcat(buf, pos, EncExpr(e), rest);
    ExprRoundTrip(buf, pos, e);
  }

  ghost predicate NamesBack(buf: Buffer, pos: nat, ns: seq<Key>) {
    pos <= |buf| && DecNames(buf, Reader(pos, false), |ns|) == (ns, Reader(pos + |EncNames(ns)|, false))
  }

  lemma {:induction false} NamesTrip(buf: Buffer, pos: nat, ns: seq<Key>)
    requires NamesOK(ns) && At(buf, pos, EncNames(ns))
    ensures NamesBack(buf, pos, ns)
    decreases |ns|
  {
    hide ReadStr;
    if ns != [] {
      StrThen(buf, pos, ns[0], EncNames(ns[1..]));
      NamesTrip(buf, pos + |Str(ns[0])|, ns[1..]);
      assert ns == [ns[0]] + ns[1..];
    }
  }

  lemma NamesThen(buf: Buffer, pos: nat, ns: seq<Key>, rest: Buffer)
    requires NamesOK(ns) && At(buf, pos, EncNames(ns) + rest)
    ensures NamesBack(buf, pos, ns) && At(buf, pos + |EncNames(ns)|, rest)
  {
    hide DecNames;
    AtConcat(buf, pos, EncNames(ns), rest);
    NamesTrip(buf, pos, ns);
  }

  lemma {:induction false} ExprListTrip(buf: Buffer, pos: nat, es: seq<Expr>)
    requires (forall i :: 0 <= i < |es| ==> Encodable(es[i])) && At(buf, pos, EncExprs(es))
    ensures AllReadBack(buf, pos, es)
    decreases |es|
  {
    hide DecExpr;
    hide EncExpr;
    hide DecExprs;
    hide Survives;
    if es == [] {
      NoExprs(buf, pos);
    } else {
      ExprThen(buf, pos, es[0], EncExprs(es[1..]));
      ExprListTrip(buf, pos + |EncExpr(es[0])|, es[1..]);
      ConsReads(buf, pos, es[0], es[1..]);
      assert [es[0]] + es[1..] == es;
    }
  }

  lemma NoExprs(buf: Buffer, pos: nat)
    requires pos <= |buf|
    ensures AllReadBack(buf, pos, [])
  {
  }

  lemma ExprListThen(buf: Buffer, pos: nat, es: seq<Expr>, rest: Buffer)
    requires ExprsOK(es) && At(buf, pos, EncExprs(es) + rest)
    ensures AllReadBack(buf, pos, es) && At(buf, pos + |EncExprs(es)|, rest)
  {
    hide DecExprs;
    hide EncExprs;
    AtConcat(buf, pos, EncExprs(es), rest);
    ExprListTrip(buf, pos, es);
  }

  ghost predicate ColumnBack(buf: Buffer, pos: nat, c: ColumnDef) {
    pos <= |buf| && DecColumn(buf, Reader(pos, false)) == (ColumnLeft(c), Reader(pos + |EncColumn(c)|, false))
  }

  lemma FlagsThen(buf: Buffer, pos: nat, t: byte, a: bool, b: bool, rest: Buffer)
    requires At(buf, pos, [t] + (Bool(a) + (Bool(b) + rest)))
    ensures GetsByte(buf, pos, t) && GetsBool(buf, pos + 1, a) && GetsBool(buf, pos + 2, b) && At(buf, pos + 3, rest)
  {
    ByteThen(buf, pos, t, Bool(a) + (Bool(b) + rest));
    BoolThen(buf, pos + 1, a, Bool(b) + rest);
    BoolThen(buf, pos + 2, b, rest);
  }

  lemma ColumnTrip(buf: Buffer, pos: nat, c: ColumnDef)
    requires ColumnOK(c) && At(buf, pos, EncColumn(c))
    ensures ColumnBack(buf, pos, c)
  {
    hide ReadStr;
    hide ReadByte;
    hide ReadBool;
    hide DecOpt;
    hide EncOpt;
    StrThen(buf, pos, c.name, [c.typ] + (Bool(c.notNull) + (Bool(c.asPrimary) + EncOpt(c.deflt))));
    FlagsThen(buf, pos + |Str(c.name)|, c.typ, c.notNull, c.asPrimary, EncOpt(c.deflt));
    OptTrip(buf, pos + |Str(c.name)| + 3, c.deflt);
  }

  lemma ColumnThen(buf: Buffer, pos: nat, c: ColumnDef, rest: Buffer)
    requires ColumnOK(c) && At(buf, pos, EncColumn(c) + rest)
    ensures ColumnBack(buf, pos, c) && At(buf, pos + |EncColumn(c)|, rest)
  {
    hide DecColumn;
    hide EncColumn;
    AtConcat(buf, pos, EncColumn(c), rest);
    ColumnTrip(buf, pos, c);
  }

  ghost predicate ColumnsBack(buf: Buffer, pos: nat, cs: seq<ColumnDef>) {
    pos <= |buf| && DecColumns(buf, Reader(pos, false), |cs|) == (ColumnsLeft(cs), Reader(pos + |EncColumns(cs)|, false))
  }

  lemma {:induction false} ColumnsTrip(buf: Buffer, pos: nat, cs: seq<ColumnDef>)
    requires (forall i :: 0 <= i < |cs| ==> ColumnOK(cs[i])) && At(buf, pos, EncColumns(cs))
    ensures ColumnsBack(buf, pos, cs)
    decreases |cs|
  {
    hide DecColumn;
    hide EncColumn;
    hide ColumnLeft;
    if cs != [] {
      ColumnThen(buf, pos, cs[0], EncColumns(cs[1..]));
      ColumnsTrip(buf, pos + |EncColumn(cs[0])|, cs[1..]);
      assert ColumnsLeft(cs) == [ColumnLeft(cs[0])] + ColumnsLeft(cs[1..]);
    }
  }

  ghost predicate SetsBack(buf: Buffer, pos: nat, ss: seq<SetItem>) {
    pos <= |buf| && DecSets(buf, Reader(pos, false), |ss|) == (SetsLeft(ss), Reader(pos + |EncSets(ss)|, false))
  }

  lemma {:induction false} SetsTrip(buf: Buffer, pos: nat, ss: seq<SetItem>)
    requires (forall i :: 0 <= i < |ss| ==> Int64(|ss[i].column|) && Encodable(ss[i].value)) && At(buf, pos, EncSets(ss))
    ensures SetsBack(buf, pos, ss)
    decreases |ss|
  {
    hide ReadStr;
    hide DecExpr;
    hide EncExpr;
    hide Str;
    hide Survives;
    if ss != [] {
      var p := pos + |Str(ss[0].column)|;
      StrThen(buf, pos, ss[0].column, EncExpr(ss[0].value) + EncSets(ss[1..]));
      ExprThen(buf, p, ss[0].value, EncSets(ss[1..]));
      SetsTrip(buf, p + |EncExpr(ss[0].value)|, ss[1..]);
      assert SetsLeft(ss) == [SetItem(ss[0].column, Survives(ss[0].value))] + SetsLeft(ss[1..]);
    }
  }

  ghost predicate ItemsBack(buf: Buffer, pos: nat, its: seq<SelectItem>) {
    pos <= |buf| && DecItems(buf, Reader(pos, false), |its|) == (ItemsLeft(its), Reader(pos + |EncItems(its)|, false))
  }

  lemma {:induction false} ItemsTrip(buf: Buffer, pos: nat, its: seq<SelectItem>)
    requires (forall i :: 0 <= i < |its| ==> Encodable(its[i].expr) && Int64(|its[i].alias|)) && At(buf, pos, EncItems(its))
    ensures ItemsBack(buf, pos, its)
    decreases |its|
  {
    hide ReadStr;
    hide DecExpr;
    hide EncExpr;
    hide Str;
    hide Survives;
    if its != [] {
      var p := pos + |EncExpr(its[0].expr)|;
      ExprThen(buf, pos, its[0].expr, Str(its[0].alias) + EncItems(its[1..]));
      StrThen(buf, p, its[0].alias, EncItems(its[1..]));
      ItemsTrip(buf, p + |Str(its[0].alias)|, its[1..]);
      assert ItemsLeft(its) == [SelectItem(Survives(its[0].expr), its[0].alias)] + ItemsLeft(its[1..]);
    }
  }

  ghost predicate OrdersBack(buf: Buffer, pos: nat, os: seq<OrderItem>) {
    pos <= |buf| && DecOrders(buf, Reader(pos, false), |os|) == (OrdersLeft(os), Reader(pos + |EncOrders(os)|, false))
  }

  lemma {:induction false} OrdersTrip(buf: Buffer, pos: nat, os: seq<OrderItem>)
    requires (forall i :: 0 <= i < |os| ==> Encodable(os[i].oexpr)) && At(buf, pos, EncOrders(os))
    ensures OrdersBack(buf, pos, os)
    decreases |os|
  {
    hide ReadBool;
    hide DecExpr;
    hide EncExpr;
    hide Survives;
    if os != [] {
      var p := pos + |EncExpr(os[0].oexpr)|;
      ExprThen(buf, pos, os[0].oexpr, Bool(os[0].desc) + EncOrders(os[1..]));
      BoolThen(buf, p, os[0].desc, EncOrders(os[1..]));
      OrdersTrip(buf, p + 1, os[1..]);
      assert OrdersLeft(os) == [OrderItem(Survives(os[0].oexpr), os[0].desc)] + OrdersLeft(os[1..]);
    }
  }

  ghost predicate RowBack(buf: Buffer, pos: nat, row: seq<Expr>) {
    && pos <= |buf|
    && var p := DecRow(buf, Reader(pos, false), |row|);
       if RowFails(row) then p.0.None? else p == (Some(Survivors(row)), Reader(pos + |EncExprs(row)|, false))
  }

  lemma {:induction false} RowTrip(buf: Buffer, pos: nat, row: seq<Expr>)
    requires (forall i :: 0 <= i < |row| ==> Encodable(row[i])) && At(buf, pos, EncExprs(row))
    ensures RowBack(buf, pos, row)
    decreases |row|
  {
    hide DecExpr;
    hide EncExpr;
    hide Survives;
    hide RowFails;
    if row != [] {
      ExprThen(buf, pos, row[0], EncExprs(row[1..]));
      RowTrip(buf, pos + |EncExpr(row[0])|, row[1..]);
    } else {
      NothingFails();
    }
    RowCons(row);
  }

  lemma NothingFails()
    ensures !RowFails([]) && !RowsFail([])
  {
  }

  lemma RowCons(row: seq<Expr>)
    ensures row != [] ==> (RowFails(row) <==> Survives(row[0]) == Nil || RowFails(row[1..]))
    ensures row != [] ==> Survivors(row) == [Survives(row[0])] + Survivors(row[1..])
  {
    hide Survives;
    if row != [] && RowFails(row[1..]) {
      var i :| 0 <= i < |row| - 1 && Survives(row[1..][i]) == Nil;
      assert Survives(row[i + 1]) == Nil;
    }
    if row != [] && RowFails(row) {
      var i :| 0 <= i < |row| && Survives(row[i]) == Nil;
      assert i > 0 ==> Survives(row[1..][i - 1]) == Nil;
    }
  }

  ghost predicate RowsBack(buf: Buffer, pos: nat, rows: seq<seq<Expr>>) {
    && pos <= |buf|
    && var p := DecRows(buf, Reader(pos, false), |rows|);
       if RowsFail(rows) then p.0.None? else p == (Some(RowsLeft(rows)), Reader(pos + |EncRows(rows)|, false))
  }

  lemma {:induction false} RowsTrip(buf: Buffer, pos: nat, rows: seq<seq<Expr>>)
    requires (forall i :: 0 <= i < |rows| ==> ExprsOK(rows[i])) && At(buf, pos, EncRows(rows))
    ensures RowsBack(buf, pos, rows)
    decreases |rows|
  {
    hide DecRow;
    hide ReadVarint;
    hide EncExprs;
    hide RowsFail;
    hide RowFails;
    if rows != [] {
      var p := pos + |Uvarint(|rows[0]|)|;
      CountThen(buf, pos, |rows[0]|, EncExprs(rows[0]) + EncRows(rows[1..]));
      AtConcat(buf, p, EncExprs(rows[0]), EncRows(rows[1..]));
      RowTrip(buf, p, rows[0]);
      RowsTrip(buf, p + |EncExprs(rows[0])|, rows[1..]);
    } else {
      NothingFails();
    }
    RowsCons(rows);
  }

  lemma RowsCons(rows: seq<seq<Expr>>)
    ensures rows != [] ==> (RowsFail(rows) <==> RowFails(rows[0]) || RowsFail(rows[1..]))
    ensures rows != [] ==> RowsLeft(rows) == [Survivors(rows[0])] + RowsLeft(rows[1..])
  {
    hide RowFails;
    if rows != [] && RowsFail(rows[1..]) {
      var i :| 0 <= i < |rows| - 1 && RowFails(rows[1..][i]);
      assert RowFails(rows[i + 1]);
    }
    if rows != [] && RowsFail(rows) {
      var i :| 0 <= i < |rows| && RowFails(rows[i]);
      assert i > 0 ==> RowFails(rows[1..][i - 1]);
    }
  }
}
