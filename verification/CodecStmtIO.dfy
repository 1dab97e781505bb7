/**
 Statements through the codec's writer and reader, loop by loop.
 */
module CodecStmtIO {
  import opened Bytes
  import opened Wrappers
  import opened CodecPrims
  import opened CodecExpr
  import opened CodecStmt
  import opened CodecIO

  // ----- What `encodeStmt` does not panic on -----

  predicate OptThere(e: Expr) {
    e.Nil? || NoNil(e)
  }

  predicate AllThere(es: seq<Expr>) {
    forall i :: 0 <= i < |es| ==> NoNil(es[i])
  }

  predicate StmtThere(s: Stmt) {
    match s
    case CreateTable(_, cols, _, _, _, _) => forall i :: 0 <= i < |cols| ==> OptThere(cols[i].deflt)
    case Insert(_, _, rows) => forall i :: 0 <= i < |rows| ==> AllThere(rows[i])
    case Update(_, sets, w) => (forall i :: 0 <= i < |sets| ==> NoNil(sets[i].value)) && OptThere(w)
    case Delete(_, w) => OptThere(w)
    case Select(_, items, _, w, gb, ob, _, _) =>
      && (forall i :: 0 <= i < |items| ==> NoNil(items[i].expr)) && OptThere(w) && AllThere(gb)
      && (forall i :: 0 <= i < |ob| ==> NoNil(ob[i].oexpr))
    case _ => true
  }

  lemma Regroup(a: Buffer, b: Buffer, c: Buffer, d: Buffer)
    ensures a + b + c + d == a + (b + (c + d))
    ensures a + b + (c + d) == a + (b + (c + d))
    ensures a + b + c == a + (b + c)
  {
  }

  // ----- Writing -----

  method PutOpt(w: BWriter, e: Expr)
    requires OptThere(e)
    modifies w
    ensures w.buf == old(w.buf) + EncOpt(e)
  {
    hide EncExpr;
    hide NoNil;
    if e != Nil {
      w.PutBool(true);
      w.PutExpr(e);
    } else {
      w.PutBool(false);
    }
  }

  method PutNames(w: BWriter, xs: seq<Key>)
    modifies w
    ensures w.buf == old(w.buf) + EncNames(xs)
  {
    hide Str;
    ghost var start := w.buf;
    var i := 0;
    while i < |xs|
      invariant 0 <= i <= |xs| && w.buf + EncNames(xs[i..]) == start + EncNames(xs)
    {
      ghost var before := w.buf;
      w.PutStr(xs[i]);
      assert xs[i..][1..] == xs[i + 1..];
      Regroup(before, Str(xs[i]), EncNames(xs[i + 1..]), []);
      i := i + 1;
    }
    assert xs[i..] == [];
  }

  method PutColumn(w: BWriter, c: ColumnDef)
    requires OptThere(c.deflt)
    modifies w
    ensures w.buf == old(w.buf) + EncColumn(c)
  {
    hide Str;
    hide EncOpt;
    w.PutStr(c.name);
    w.PutByte(c.typ);
    w.PutBool(c.notNull);
    w.PutBool(c.asPrimary);
    PutOpt(w, c.deflt);
  }

  method PutColumns(w: BWriter, xs: seq<ColumnDef>)
    requires forall i :: 0 <= i < |xs| ==> OptThere(xs[i].deflt)
    modifies w
    ensures w.buf == old(w.buf) + EncColumns(xs)
  {
    hide EncColumn;
    ghost var start := w.buf;
    var i := 0;
    while i < |xs|
      invariant 0 <= i <= |xs| && w.buf + EncColumns(xs[i..]) == start + EncColumns(xs)
    {
      ghost var before := w.buf;
      PutColumn(w, xs[i]);
      assert xs[i..][1..] == xs[i + 1..];
      Regroup(before, EncColumn(xs[i]), EncColumns(xs[i + 1..]), []);
      i := i + 1;
    }
    assert xs[i..] == [];
  }

  method PutExprList(w: BWriter, xs: seq<Expr>)
    requires AllThere(xs)
    modifies w
    ensures w.buf == old(w.buf) + EncExprs(xs)
  {
    hide EncExpr;
    hide NoNil;
    ghost var start := w.buf;
    var i := 0;
    while i < |xs|
      invariant 0 <= i <= |xs| && w.buf + EncExprs(xs[i..]) == start + EncExprs(xs)
    {
      ghost var before := w.buf;
      w.PutExpr(xs[i]);
      assert xs[i..][1..] == xs[i + 1..];
      Regroup(before, EncExpr(xs[i]), EncExprs(xs[i + 1..]), []);
      i := i + 1;
    }
    assert xs[i..] == [];
  }

  method PutRows(w: BWriter, xs: seq<seq<Expr>>)
    requires forall i :: 0 <= i < |xs| ==> AllThere(xs[i])
    modifies w
    ensures w.buf == old(w.buf) + EncRows(xs)
  {
    hide EncExprs;
    hide AllThere;
    hide Uvarint;
    ghost var start := w.buf;
    var i := 0;
    while i < |xs|
      invariant 0 <= i <= |xs| && w.buf + EncRows(xs[i..]) == start + EncRows(xs)
    {
      ghost var before := w.buf;
      w.PutUvarint(|xs[i]|);
      PutExprList(w, xs[i]);
      assert xs[i..][1..] == xs[i + 1..];
      Regroup(before, Uvarint(|xs[i]|), EncExprs(xs[i]), EncRows(xs[i + 1..]));
      i := i + 1;
    }
    assert xs[i..] == [];
  }

  method PutSets(w: BWriter, xs: seq<SetItem>)
    requires forall i :: 0 <= i < |xs| ==> NoNil(xs[i].value)
    modifies w
    ensures w.buf == old(w.buf) + EncSets(xs)
  {
    hide EncExpr;
    hide NoNil;
    hide Str;
    ghost var start := w.buf;
    var i := 0;
    while i < |xs|
      invariant 0 <= i <= |xs| && w.buf + EncSets(xs[i..]) == start + EncSets(xs)
    {
      ghost var before := w.buf;
      w.PutStr(xs[i].column);
      w.PutExpr(xs[i].value);
      assert xs[i..][1..] == xs[i + 1..];
      Regroup(before, Str(xs[i].column), EncExpr(xs[i].value), EncSets(xs[i + 1..]));
      i := i + 1;
    }
    assert xs[i..] == [];
  }

  method PutItems(w: BWriter, xs: seq<SelectItem>)
    requires forall i :: 0 <= i < |xs| ==> NoNil(xs[i].expr)
    modifies w
    ensures w.buf == old(w.buf) + EncItems(xs)
  {
    hide EncExpr;
    hide NoNil;
    hide Str;
    ghost var start := w.buf;
    var i := 0;
    while i < |xs|
      invariant 0 <= i <= |xs| && w.buf + EncItems(xs[i..]) == start + EncItems(xs)
    {
      ghost var before := w.buf;
      w.PutExpr(xs[i].expr);
      w.PutStr(xs[i].alias);
      assert xs[i..][1..] == xs[i + 1..];
      Regroup(before, EncExpr(xs[i].expr), Str(xs[i].alias), EncItems(xs[i + 1..]));
      i := i + 1;
    }
    assert xs[i..] == [];
  }

  method PutOrders(w: BWriter, xs: seq<OrderItem>)
    requires forall i :: 0 <= i < |xs| ==> NoNil(xs[i].oexpr)
    modifies w
    ensures w.buf == old(w.buf) + EncOrders(xs)
  {
    hide EncExpr;
    hide NoNil;
    ghost var start := w.buf;
    var i := 0;
    while i < |xs|
      invariant 0 <= i <= |xs| && w.buf + EncOrders(xs[i..]) == start + EncOrders(xs)
    {
      ghost var before := w.buf;
      w.PutExpr(xs[i].oexpr);
      w.PutBool(xs[i].desc);
      assert xs[i..][1..] == xs[i + 1..];
      Regroup(before, EncExpr(xs[i].oexpr), Bool(xs[i].desc), EncOrders(xs[i + 1..]));
      i := i + 1;
    }
    assert xs[i..] == [];
  }

  method PutCreateTable(w: BWriter, s: Stmt)
    requires s.CreateTable? && StmtThere(s)
    modifies w
    ensures w.buf == old(w.buf) + EncCreateTable(s)
  {
    hide Str;
    hide EncColumns;
    hide EncNames;
    hide Uvarint;
    hide EncTableTail;
    w.PutStr(s.name);
    w.PutUvarint(|s.cols|);
    PutColumns(w, s.cols);
    PutTableTail(w, TableTail(s.pk, s.ifNotExists, s.engine, s.retention));
  }

  method PutTableTail(w: BWriter, t: TableTail)
    modifies w
    ensures w.buf == old(w.buf) + EncTableTail(t)
  {
    hide Str;
    hide EncNames;
    hide Uvarint;
    hide Varint;
    w.PutUvarint(|t.pk|);
    PutNames(w, t.pk);
    w.PutBool(t.ifNotExists);
    w.PutStr(t.engine);
    w.PutVarint(t.retention);
  }

  /** `encodeSelect` */
  method PutSelect(w: BWriter, s: Stmt)
    requires s.Select? && StmtThere(s)
    modifies w
    ensures w.buf == old(w.buf) + EncSelect(s)
  {
    hide Str;
    hide EncItems;
    hide Uvarint;
    hide EncOpt;
    hide EncSelectTail;
    hide OptThere;
    w.PutBool(s.distinct);
    w.PutUvarint(|s.items|);
    PutItems(w, s.items);
    w.PutStr(s.from);
    PutOpt(w, s.where);
    PutSelectTail(w, SelectTail(s.groupBy, s.orderBy, s.hasLimit, s.limit));
  }

  method PutSelectTail(w: BWriter, t: SelectTail)
    requires AllThere(t.groupBy) && forall i :: 0 <= i < |t.orderBy| ==> NoNil(t.orderBy[i].oexpr)
    modifies w
    ensures w.buf == old(w.buf) + EncSelectTail(t)
  {
    hide EncExprs;
    hide EncOrders;
    hide Uvarint;
    hide Varint;
    hide AllThere;
    w.PutUvarint(|t.groupBy|);
    PutExprList(w, t.groupBy);
    w.PutUvarint(|t.orderBy|);
    PutOrders(w, t.orderBy);
    w.PutBool(t.hasLimit);
    w.PutVarint(t.limit);
  }

  method PutIndex(w: BWriter, s: Stmt)
    requires s.CreateIndex?
    modifies w
    ensures w.buf == old(w.buf) + EncIndex(s)
  {
    hide Str;
    hide Uvarint;
    hide EncNames;
    w.PutStr(s.name);
    w.PutStr(s.table);
    w.PutUvarint(|s.columns|);
    PutNames(w, s.columns);
    w.PutBool(s.ifNotExists);
  }

  method PutInsert(w: BWriter, s: Stmt)
    requires s.Insert? && StmtThere(s)
    modifies w
    ensures w.buf == old(w.buf) + EncInsert(s)
  {
    hide Str;
    hide Uvarint;
    hide EncNames;
    hide EncRows;
    w.PutStr(s.table);
    w.PutUvarint(|s.columns|);
    PutNames(w, s.columns);
    w.PutUvarint(|s.rows|);
    PutRows(w, s.rows);
  }

  method PutUpdate(w: BWriter, s: Stmt)
    requires s.Update? && StmtThere(s)
    modifies w
    ensures w.buf == old(w.buf) + EncUpdate(s)
  {
    hide Str;
    hide Uvarint;
    hide EncSets;
    hide EncOpt;
    w.PutStr(s.table);
    w.PutUvarint(|s.sets|);
    PutSets(w, s.sets);
    PutOpt(w, s.where);
  }

  method PutNamed(w: BWriter, name: Key, flag: bool)
    modifies w
    ensures w.buf == old(w.buf) + (Str(name) + Bool(flag))
  {
    hide Str;
    w.PutStr(name);
    w.PutBool(flag);
  }

  method PutPair(w: BWriter, a: Key, b: Key)
    modifies w
    ensures w.buf == old(w.buf) + (Str(a) + Str(b))
  {
    hide Str;
    w.PutStr(a);
    w.PutStr(b);
  }

  method PutScan(w: BWriter, s: Stmt)
    requires s.KVScan?
    modifies w
    ensures w.buf == old(w.buf) + (Str(s.table) + (Str(s.start) + (Str(s.end) + (Bool(s.hasStart) + Bool(s.hasEnd)))))
  {
    hide Str;
    PutPair(w, s.table, s.start);
    w.PutStr(s.end);
    w.PutBool(s.hasStart);
    w.PutBool(s.hasEnd);
    ScanGroup(old(w.buf), Str(s.table), Str(s.start), Str(s.end), Bool(s.hasStart), Bool(s.hasEnd));
  }

  lemma ScanGroup(x: Buffer, a: Buffer, b: Buffer, c: Buffer, d: Buffer, e: Buffer)
    ensures x + (a + b) + c + d + e == x + (a + (b + (c + (d + e))))
  {
  }

  /** The statements that are a kind and fixed fields. */
  method PutPlain(w: BWriter, s: Stmt)
    requires StmtThere(s) && (s.DropTable? || s.DropIndex? || s.Delete? || s.KVPut? || s.KVGet? || s.KVDelete? || s.KVScan?)
    modifies w
    ensures w.buf == old(w.buf) + EncStmt(s)
  {
    hide Str;
    hide EncOpt;
    hide OptThere;
    ghost var b0 := w.buf;
    match s
    case DropTable(name, b) =>
      w.PutByte(2);
      PutNamed(w, name, b);
      Regroup(b0, [2], Str(name) + Bool(b), []);
    case DropIndex(name, table, b) =>
      w.PutByte(4);
      w.PutStr(name);
      PutNamed(w, table, b);
      Regroup(b0, [4], Str(name), Str(table) + Bool(b));
    case Delete(table, e) =>
      w.PutByte(7);
      w.PutStr(table);
      PutOpt(w, e);
      Regroup(b0, [7], Str(table), EncOpt(e));
    case KVPut(table, k, v) =>
      w.PutByte(13);
      w.PutStr(table);
      PutPair(w, k, v);
      Regroup(b0, [13], Str(table), Str(k) + Str(v));
    case KVGet(table, k) =>
      w.PutByte(14);
      PutPair(w, table, k);
      Regroup(b0, [14], Str(table) + Str(k), []);
    case KVDelete(table, k) =>
      w.PutByte(15);
      PutPair(w, table, k);
      Regroup(b0, [15], Str(table) + Str(k), []);
    case KVScan(table, a, z, ha, hz) =>
      w.PutByte(16);
      PutScan(w, s);
      Regroup(b0, [16], Str(table) + (Str(a) + (Str(z) + (Bool(ha) + Bool(hz)))), []);
  }

  /** `encodeStmt` */
  method PutStmt(w: BWriter, s: Stmt)
    requires StmtThere(s)
    modifies w
    ensures w.buf == old(w.buf) + EncStmt(s)
  {
    hide Str;
    hide EncIndex;
    hide EncInsert;
    hide EncUpdate;
    hide EncOpt;
    hide EncSelect;
    hide EncCreateTable;
    hide OptThere;
    ghost var b0 := w.buf;
    match s
    case CreateTable(_, _, _, _, _, _) =>
      w.PutByte(1);
      PutCreateTable(w, s);
      Regroup(b0, [1], EncCreateTable(s), []);
    case CreateIndex(_, _, _, _) =>
      w.PutByte(3);
      PutIndex(w, s);
      Regroup(b0, [3], EncIndex(s), []);
    case Insert(_, _, _) =>
      w.PutByte(5);
      PutInsert(w, s);
      Regroup(b0, [5], EncInsert(s), []);
    case Update(_, _, _) =>
      w.PutByte(6);
      PutUpdate(w, s);
      Regroup(b0, [6], EncUpdate(s), []);
    case Begin =>
      w.PutByte(8);
    case Commit =>
      w.PutByte(9);
    case Rollback =>
      w.PutByte(10);
    case CreateDatabase(name) =>
      w.PutByte(11);
      w.PutStr(name);
      Regroup(b0, [11], Str(name), []);
    case Select(_, _, _, _, _, _, _, _) =>
      w.PutByte(12);
      PutSelect(w, s);
      Regroup(b0, [12], EncSelect(s), []);
    case _ =>
      PutPlain(w, s);
  }

  /** `EncodeStatements` */
  method EncodeStatements(xs: seq<Stmt>) returns (data: Buffer)
    requires forall i :: 0 <= i < |xs| ==> StmtThere(xs[i])
    ensures data == Encode(xs)
  {
    hide EncStmt;
    hide StmtThere;
    hide Uvarint;
    var w := new BWriter();
    w.PutUvarint(|xs|);
    assert w.buf == Uvarint(|xs|);
    ghost var start := w.buf;
    var i := 0;
    while i < |xs|
      invariant 0 <= i <= |xs| && w.buf + EncStmts(xs[i..]) == start + EncStmts(xs)
    {
      ghost var before := w.buf;
      PutStmt(w, xs[i]);
      assert xs[i..][1..] == xs[i + 1..];
      Regroup(before, EncStmt(xs[i]), EncStmts(xs[i + 1..]), []);
      i := i + 1;
    }
    assert xs[i..] == [];
    assert w.buf + [] == w.buf;
    data := w.buf;
  }

  // ----- Reading -----

  method GetOpt(r: BReader) returns (e: Expr)
    requires r.pos <= |r.buf|
    modifies r
    ensures r.pos <= |r.buf| && (e, r.State()) == DecOpt(r.buf, old(r.State()))
  {
    hide DecExpr;
    hide ReadBool;
    var b := r.GetBool();
    e := Nil;
    if b {
      var got, _ := r.GetExpr();
      e := got;
    }
  }

  method GetNames(r: BReader, n: int) returns (xs: seq<Key>)
    requires r.pos <= |r.buf|
    modifies r
    ensures r.pos <= |r.buf| && (xs, r.State()) == DecNames(r.buf, old(r.State()), n)
  {
    hide ReadStr;
    xs := [];
    var i := 0;
    ghost var all, rest := DecNames(r.buf, r.State(), n), DecNames(r.buf, r.State(), n);
    assert xs + rest.0 == rest.0;
    while i < n
      invariant r.pos <= |r.buf| && 0 <= i && (i <= n || n < 0)
      invariant rest == DecNames(r.buf, r.State(), n - i) && all == (xs + rest.0, rest.1)
    {
      var s := r.GetStr();
      rest := DecNames(r.buf, r.State(), n - i - 1);
      assert xs + ([s] + rest.0) == xs + [s] + rest.0;
      xs := xs + [s];
      i := i + 1;
    }
    assert rest.0 == [];
    assert xs + rest.0 == xs;
  }

  method GetColumn(r: BReader) returns (c: ColumnDef)
    requires r.pos <= |r.buf|
    modifies r
    ensures r.pos <= |r.buf| && (c, r.State()) == DecColumn(r.buf, old(r.State()))
  {
    hide ReadStr;
    hide ReadByte;
    hide ReadBool;
    hide DecOpt;
    var name := r.GetStr();
    var t := r.GetByte();
    var nn := r.GetBool();
    var ap := r.GetBool();
    var d := GetOpt(r);
    c := ColumnDef(name, t, nn, ap, d);
  }

  method GetColumns(r: BReader, n: int) returns (xs: seq<ColumnDef>)
    requires r.pos <= |r.buf|
    modifies r
    ensures r.pos <= |r.buf| && (xs, r.State()) == DecColumns(r.buf, old(r.State()), n)
  {
    hide DecColumn;
    xs := [];
    var i := 0;
    ghost var all, rest := DecColumns(r.buf, r.State(), n), DecColumns(r.buf, r.State(), n);
    assert xs + rest.0 == rest.0;
    while i < n
      invariant r.pos <= |r.buf| && 0 <= i && (i <= n || n < 0)
      invariant rest == DecColumns(r.buf, r.State(), n - i) && all == (xs + rest.0, rest.1)
    {
      var c := GetColumn(r);
      rest := DecColumns(r.buf, r.State(), n - i - 1);
      assert xs + ([c] + rest.0) == xs + [c] + rest.0;
      xs := xs + [c];
      i := i + 1;
    }
    assert rest.0 == [];
    assert xs + rest.0 == xs;
  }

  method GetSets(r: BReader, n: int) returns (xs: seq<SetItem>)
    requires r.pos <= |r.buf|
    modifies r
    ensures r.pos <= |r.buf| && (xs, r.State()) == DecSets(r.buf, old(r.State()), n)
  {
    hide ReadStr;
    hide DecExpr;
    xs := [];
    var i := 0;
    ghost var all, rest := DecSets(r.buf, r.State(), n), DecSets(r.buf, r.State(), n);
    assert xs + rest.0 == rest.0;
    while i < n
      invariant r.pos <= |r.buf| && 0 <= i && (i <= n || n < 0)
      invariant rest == DecSets(r.buf, r.State(), n - i) && all == (xs + rest.0, rest.1)
    {
      var c := r.GetStr();
      var e, _ := r.GetExpr();
      rest := DecSets(r.buf, r.State(), n - i - 1);
      assert xs + ([SetItem(c, e)] + rest.0) == xs + [SetItem(c, e)] + rest.0;
      xs := xs + [SetItem(c, e)];
      i := i + 1;
    }
    assert rest.0 == [];
    assert xs + rest.0 == xs;
  }

  method GetItems(r: BReader, n: int) returns (xs: seq<SelectItem>)
    requires r.pos <= |r.buf|
    modifies r
    ensures r.pos <= |r.buf| && (xs, r.State()) == DecItems(r.buf, old(r.State()), n)
  {
    hide ReadStr;
    hide DecExpr;
    xs := [];
    var i := 0;
    ghost var all, rest := DecItems(r.buf, r.State(), n), DecItems(r.buf, r.State(), n);
    assert xs + rest.0 == rest.0;
    while i < n
      invariant r.pos <= |r.buf| && 0 <= i && (i <= n || n < 0)
      invariant rest == DecItems(r.buf, r.State(), n - i) && all == (xs + rest.0, rest.1)
    {
      var e, _ := r.GetExpr();
      var a := r.GetStr();
      rest := DecItems(r.buf, r.State(), n - i - 1);
      assert xs + ([SelectItem(e, a)] + rest.0) == xs + [SelectItem(e, a)] + rest.0;
      xs := xs + [SelectItem(e, a)];
      i := i + 1;
    }
    assert rest.0 == [];
    assert xs + rest.0 == xs;
  }

  method GetOrders(r: BReader, n: int) returns (xs: seq<OrderItem>)
    requires r.pos <= |r.buf|
    modifies r
    ensures r.pos <= |r.buf| && (xs, r.State()) == DecOrders(r.buf, old(r.State()), n)
  {
    hide ReadBool;
    hide DecExpr;
    xs := [];
    var i := 0;
    ghost var all, rest := DecOrders(r.buf, r.State(), n), DecOrders(r.buf, r.State(), n);
    assert xs + rest.0 == rest.0;
    while i < n
      invariant r.pos <= |r.buf| && 0 <= i && (i <= n || n < 0)
      invariant rest == DecOrders(r.buf, r.State(), n - i) && all == (xs + rest.0, rest.1)
    {
      var e, _ := r.GetExpr();
      var d := r.GetBool();
      rest := DecOrders(r.buf, r.State(), n - i - 1);
      assert xs + ([OrderItem(e, d)] + rest.0) == xs + [OrderItem(e, d)] + rest.0;
      xs := xs + [OrderItem(e, d)];
      i := i + 1;
    }
    assert rest.0 == [];
    assert xs + rest.0 == xs;
  }

  /** What has been read in front of what is still to be read. */
  function Onto<T>(acc: seq<T>, rest: Option<seq<T>>): Option<seq<T>> {
    if rest.None? then None else Some(acc + rest.value)
  }

  method GetRow(r: BReader, n: int) returns (xs: Option<seq<Expr>>)
    requires r.pos <= |r.buf|
    modifies r
    ensures r.pos <= |r.buf| && (xs, r.State()) == DecRow(r.buf, old(r.State()), n)
  {
    hide DecExpr;
    var acc: seq<Expr> := [];
    var i := 0;
    ghost var all, rest := DecRow(r.buf, r.State(), n), DecRow(r.buf, r.State(), n);
    assert rest.0.Some? ==> acc + rest.0.value == rest.0.value;
    while i < n
      invariant r.pos <= |r.buf| && 0 <= i && (i <= n || n < 0)
      invariant rest == DecRow(r.buf, r.State(), n - i) && all == (Onto(acc, rest.0), rest.1)
    {
      var e, failed := r.GetExpr();
      if failed {
        return None;
      }
      rest := DecRow(r.buf, r.State(), n - i - 1);
      assert rest.0.Some? ==> acc + ([e] + rest.0.value) == acc + [e] + rest.0.value;
      acc := acc + [e];
      i := i + 1;
    }
    assert rest.0 == Some([]);
    assert acc + [] == acc;
    xs := Some(acc);
  }

  method GetRows(r: BReader, n: int) returns (xs: Option<seq<seq<Expr>>>)
    requires r.pos <= |r.buf|
    modifies r
    ensures r.pos <= |r.buf| && (xs, r.State()) == DecRows(r.buf, old(r.State()), n)
  {
    hide DecRow;
    hide ReadVarint;
    var acc: seq<seq<Expr>> := [];
    var i := 0;
    ghost var all, rest := DecRows(r.buf, r.State(), n), DecRows(r.buf, r.State(), n);
    assert rest.0.Some? ==> acc + rest.0.value == rest.0.value;
    while i < n
      invariant r.pos <= |r.buf| && 0 <= i && (i <= n || n < 0)
      invariant rest == DecRows(r.buf, r.State(), n - i) && all == (Onto(acc, rest.0), rest.1)
    {
      var k := r.GetVarint();
      var row := GetRow(r, k);
      if row.None? {
        return None;
      }
      rest := DecRows(r.buf, r.State(), n - i - 1);
      assert rest.0.Some? ==> acc + ([row.value] + rest.0.value) == acc + [row.value] + rest.0.value;
      acc := acc + [row.value];
      i := i + 1;
    }
    assert rest.0 == Some([]);
    assert acc + [] == acc;
    xs := Some(acc);
  }

  method GetTableTail(r: BReader) returns (s: TableTail)
    requires r.pos <= |r.buf|
    modifies r
    ensures r.pos <= |r.buf| && (s, r.State()) == DecTableTail(r.buf, old(r.State()))
  {
    hide ReadVarint;
    hide DecNames;
    hide ReadBool;
    hide ReadStr;
    var np := r.GetVarint();
    var pk := GetNames(r, np);
    var ine := r.GetBool();
    var engine := r.GetStr();
    var ret := r.GetVarint();
    s := TableTail(pk, ine, engine, ret);
  }

  method GetCreateTable(r: BReader) returns (s: Stmt)
    requires r.pos <= |r.buf|
    modifies r
    ensures r.pos <= |r.buf| && (s, r.State()) == DecCreateTable(r.buf, old(r.State()))
  {
    hide ReadStr;
    hide ReadVarint;
    hide DecColumns;
    hide DecTableTail;
    var name := r.GetStr();
    var nc := r.GetVarint();
    var cols := GetColumns(r, nc);
    var t := GetTableTail(r);
    s := CreateTable(name, cols, t.pk, t.ifNotExists, t.engine, t.retention);
  }

  method GetSelectTail(r: BReader) returns (s: SelectTail)
    requires r.pos <= |r.buf|
    modifies r
    ensures r.pos <= |r.buf| && (s, r.State()) == DecSelectTail(r.buf, old(r.State()))
  {
    hide ReadVarint;
    hide DecExprs;
    hide DecOrders;
    hide ReadBool;
    var ng := r.GetVarint();
    var gb := r.GetExprs(ng);
    var no := r.GetVarint();
    var ob := GetOrders(r, no);
    var hl := r.GetBool();
    var limit := r.GetVarint();
    s := SelectTail(gb, ob, hl, limit);
  }

  /** `decodeSelect` */
  method GetSelect(r: BReader) returns (s: Stmt)
    requires r.pos <= |r.buf|
    modifies r
    ensures r.pos <= |r.buf| && (s, r.State()) == DecSelect(r.buf, old(r.State()))
  {
    hide ReadBool;
    hide ReadVarint;
    hide DecItems;
    hide ReadStr;
    hide DecOpt;
    hide DecSelectTail;
    var distinct := r.GetBool();
    var ni := r.GetVarint();
    var items := GetItems(r, ni);
    var from := r.GetStr();
    var w := GetOpt(r);
    var t := GetSelectTail(r);
    s := Select(distinct, items, from, w, t.groupBy, t.orderBy, t.hasLimit, t.limit);
  }

  method GetIndex(r: BReader) returns (s: Stmt)
    requires r.pos <= |r.buf|
    modifies r
    ensures r.pos <= |r.buf| && (s, r.State()) == DecIndex(r.buf, old(r.State()))
  {
    hide ReadStr;
    hide ReadVarint;
    hide DecNames;
    hide ReadBool;
    var name := r.GetStr();
    var table := r.GetStr();
    var nc := r.GetVarint();
    var cs := GetNames(r, nc);
    var b := r.GetBool();
    s := CreateIndex(name, table, cs, b);
  }

  method GetInsert(r: BReader) returns (s: Option<Stmt>)
    requires r.pos <= |r.buf|
    modifies r
    ensures r.pos <= |r.buf| && (s, r.State()) == DecInsert(r.buf, old(r.State()))
  {
    hide ReadStr;
    hide ReadVarint;
    hide DecNames;
    hide DecRows;
    var table := r.GetStr();
    var nc := r.GetVarint();
    var cs := GetNames(r, nc);
    var nr := r.GetVarint();
    var rows := GetRows(r, nr);
    s := if rows.None? then None else Some(Insert(table, cs, rows.value));
  }

  method GetUpdate(r: BReader) returns (s: Stmt)
    requires r.pos <= |r.buf|
    modifies r
    ensures r.pos <= |r.buf| && (s, r.State()) == DecUpdate(r.buf, old(r.State()))
  {
    hide ReadStr;
    hide ReadVarint;
    hide DecSets;
    hide DecOpt;
    var table := r.GetStr();
    var ns := r.GetVarint();
    var sets := GetSets(r, ns);
    var w := GetOpt(r);
    s := Update(table, sets, w);
  }

  /** `decodeStmt` */
  method GetStmt(r: BReader) returns (s: Option<Stmt>)
    requires r.pos <= |r.buf|
    modifies r
    ensures r.pos <= |r.buf| && (s, r.State()) == DecStmt(r.buf, old(r.State()))
  {
    hide ReadByte;
    hide DecCreateTable;
    hide DecIndex;
    hide DecInsert;
    hide DecUpdate;
    hide DecSelect;
    hide DecPlain;
    var t := r.GetByte();
    if t == 1 {
      var v := GetCreateTable(r);
      s := Some(v);
    } else if t == 3 {
      var v := GetIndex(r);
      s := Some(v);
    } else if t == 5 {
      s := GetInsert(r);
    } else if t == 6 {
      var v := GetUpdate(r);
      s := Some(v);
    } else if t == 12 {
      var v := GetSelect(r);
      s := Some(v);
    } else {
      s := GetPlain(r, t);
    }
  }

  /** The cases of `decodeStmt` without a list. */
  method GetPlain(r: BReader, t: byte) returns (s: Option<Stmt>)
    requires r.pos <= |r.buf|
    modifies r
    ensures r.pos <= |r.buf| && (s, r.State()) == DecPlain(r.buf, old(r.State()), t)
  {
    hide ReadStr;
    hide ReadBool;
    hide DecOpt;
    match t
    case 8 => return Some(Begin);
    case 9 => return Some(Commit);
    case 10 => return Some(Rollback);
    case 11 =>
      var name := r.GetStr();
      return Some(CreateDatabase(name));
    case 2 =>
      var name := r.GetStr();
      var b := r.GetBool();
      return Some(DropTable(name, b));
    case 4 =>
      var name := r.GetStr();
      var table := r.GetStr();
      var b := r.GetBool();
      return Some(DropIndex(name, table, b));
    case 7 =>
      var table := r.GetStr();
      var w := GetOpt(r);
      return Some(Delete(table, w));
    case 13 =>
      var table := r.GetStr();
      var k := r.GetStr();
      var v := r.GetStr();
      return Some(KVPut(table, k, v));
    case 14 =>
      var table := r.GetStr();
      var k := r.GetStr();
      return Some(KVGet(table, k));
    case 15 =>
      var table := r.GetStr();
      var k := r.GetStr();
      return Some(KVDelete(table, k));
    case 16 =>
      var table := r.GetStr();
      var a := r.GetStr();
      var z := r.GetStr();
      var ha := r.GetBool();
      var hz := r.GetBool();
      return Some(KVScan(table, a, z, ha, hz));
    case _ => return None;
  }

  method GetStmts(r: BReader, n: int) returns (xs: Option<seq<Stmt>>)
    requires r.pos <= |r.buf|
    modifies r
    ensures r.pos <= |r.buf| && (xs, r.State()) == DecStmts(r.buf, old(r.State()), n)
  {
    hide DecStmt;
    var acc: seq<Stmt> := [];
    var i := 0;
    ghost var all, rest := DecStmts(r.buf, r.State(), n), DecStmts(r.buf, r.State(), n);
    assert rest.0.Some? ==> acc + rest.0.value == rest.0.value;
    while i < n
      invariant r.pos <= |r.buf| && 0 <= i && (i <= n || n < 0)
      invariant rest == DecStmts(r.buf, r.State(), n - i) && all == (Onto(acc, rest.0), rest.1)
    {
      var s := GetStmt(r);
      if s.None? {
        return None;
      }
      rest := DecStmts(r.buf, r.State(), n - i - 1);
      assert rest.0.Some? ==> acc + ([s.value] + rest.0.value) == acc + [s.value] + rest.0.value;
      acc := acc + [s.value];
      i := i + 1;
    }
    assert rest.0 == Some([]);
    assert acc + [] == acc;
    xs := Some(acc);
  }

  /** `DecodeStatements` */
  method DecodeStatements(data: Buffer) returns (ss: Option<seq<Stmt>>)
    ensures ss == Decode(data)
  {
    hide ReadVarint;
    hide DecStmts;
    var r := new BReader(data);
    var n := r.GetVarint();
    ss := GetStmts(r, n);
    if ss.None? || r.err {
      return None;
    }
  }
}
