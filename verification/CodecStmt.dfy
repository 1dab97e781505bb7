/**
 Statements in the binary codec that carries them through the raft log: what is written,
 what is read, and exactly when the two agree.
 */
module CodecStmt {
  import opened Bytes
  import opened Wrappers
  import opened CodecPrims
  import opened CodecExpr

  datatype ColumnDef = ColumnDef(name: Key, typ: byte, notNull: bool, asPrimary: bool, deflt: Expr)

  datatype SetItem = SetItem(column: Key, value: Expr)

  datatype SelectItem = SelectItem(expr: Expr, alias: Key)

  datatype OrderItem = OrderItem(oexpr: Expr, desc: bool)

  /** `Nil` stands for an absent WHERE or default. */
  datatype Stmt =
    | CreateTable(name: Key, cols: seq<ColumnDef>, pk: seq<Key>, ifNotExists: bool, engine: Key, retention: int)
    | DropTable(name: Key, ifExists: bool)
    | CreateIndex(name: Key, table: Key, columns: seq<Key>, ifNotExists: bool)
    | DropIndex(name: Key, table: Key, ifExists: bool)
    | Insert(table: Key, columns: seq<Key>, rows: seq<seq<Expr>>)
    | Update(table: Key, sets: seq<SetItem>, where: Expr)
    | Delete(table: Key, where: Expr)
    | Begin
    | Commit
    | Rollback
    | CreateDatabase(name: Key)
    | Select(distinct: bool, items: seq<SelectItem>, from: Key, where: Expr, groupBy: seq<Expr>, orderBy: seq<OrderItem>,
             hasLimit: bool, limit: int)
    | KVPut(table: Key, key: Key, value: Key)
    | KVGet(table: Key, key: Key)
    | KVDelete(table: Key, key: Key)
    | KVScan(table: Key, start: Key, end: Key, hasStart: bool, hasEnd: bool)

  // ----- Writing -----

  function EncOpt(e: Expr): Buffer {
    if e.Nil? then Bool(false) else Bool(true) + EncExpr(e)
  }

  function EncNames(ns: seq<Key>): Buffer {
    if ns == [] then [] else Str(ns[0]) + EncNames(ns[1..])
  }

  function EncColumn(c: ColumnDef): Buffer {
    Str(c.name) + ([c.typ] + (Bool(c.notNull) + (Bool(c.asPrimary) + EncOpt(c.deflt))))
  }

  function EncColumns(cs: seq<ColumnDef>): Buffer {
    if cs == [] then [] else EncColumn(cs[0]) + EncColumns(cs[1..])
  }

  function EncRows(rows: seq<seq<Expr>>): Buffer {
    if rows == [] then [] else Uvarint(|rows[0]|) + (EncExprs(rows[0]) + EncRows(rows[1..]))
  }

  function EncSets(ss: seq<SetItem>): Buffer {
    if ss == [] then [] else Str(ss[0].column) + (EncExpr(ss[0].value) + EncSets(ss[1..]))
  }

  function EncItems(its: seq<SelectItem>): Buffer {
    if its == [] then [] else EncExpr(its[0].expr) + (Str(its[0].alias) + EncItems(its[1..]))
  }

  function EncOrders(os: seq<OrderItem>): Buffer {
    if os == [] then [] else EncExpr(os[0].oexpr) + (Bool(os[0].desc) + EncOrders(os[1..]))
  }

  function EncSelect(s: Stmt): Buffer
    requires s.Select?
  {
    Bool(s.distinct) + (Uvarint(|s.items|) + (EncItems(s.items) + (Str(s.from) + (EncOpt(s.where)
    + EncSelectTail(SelectTail(s.groupBy, s.orderBy, s.hasLimit, s.limit))))))
  }

  /** What follows the WHERE of a SELECT. */
  datatype SelectTail = SelectTail(groupBy: seq<Expr>, orderBy: seq<OrderItem>, hasLimit: bool, limit: int)

  function EncSelectTail(t: SelectTail): Buffer {
    Uvarint(|t.groupBy|) + (EncExprs(t.groupBy) + (Uvarint(|t.orderBy|) + (EncOrders(t.orderBy)
    + (Bool(t.hasLimit) + Varint(t.limit)))))
  }

  function EncCreateTable(s: Stmt): Buffer
    requires s.CreateTable?
  {
    Str(s.name) + (Uvarint(|s.cols|) + (EncColumns(s.cols) + EncTableTail(TableTail(s.pk, s.ifNotExists, s.engine, s.retention))))
  }

  /** What follows the columns of a table. */
  datatype TableTail = TableTail(pk: seq<Key>, ifNotExists: bool, engine: Key, retention: int)

  function EncTableTail(t: TableTail): Buffer {
    Uvarint(|t.pk|) + (EncNames(t.pk) + (Bool(t.ifNotExists) + (Str(t.engine) + Varint(t.retention))))
  }

  function EncIndex(s: Stmt): Buffer
    requires s.CreateIndex?
  {
    Str(s.name) + (Str(s.table) + (Uvarint(|s.columns|) + (EncNames(s.columns) + Bool(s.ifNotExists))))
  }

  function EncInsert(s: Stmt): Buffer
    requires s.Insert?
  {
    Str(s.table) + (Uvarint(|s.columns|) + (EncNames(s.columns) + (Uvarint(|s.rows|) + EncRows(s.rows))))
  }

  function EncUpdate(s: Stmt): Buffer
    requires s.Update?
  {
    Str(s.table) + (Uvarint(|s.sets|) + (EncSets(s.sets) + EncOpt(s.where)))
  }

  function EncStmt(s: Stmt): Buffer {
    match s
    case CreateTable(_, _, _, _, _, _) => [1] + EncCreateTable(s)
    case DropTable(name, b) => [2] + (Str(name) + Bool(b))
    case CreateIndex(_, _, _, _) => [3] + EncIndex(s)
    case DropIndex(name, table, b) => [4] + (Str(name) + (Str(table) + Bool(b)))
    case Insert(_, _, _) => [5] + EncInsert(s)
    case Update(_, _, _) => [6] + EncUpdate(s)
    case Delete(table, w) => [7] + (Str(table) + EncOpt(w))
    case Begin => [8]
    case Commit => [9]
    case Rollback => [10]
    case CreateDatabase(name) => [11] + Str(name)
    case Select(_, _, _, _, _, _, _, _) => [12] + EncSelect(s)
    case KVPut(table, k, v) => [13] + (Str(table) + (Str(k) + Str(v)))
    case KVGet(table, k) => [14] + (Str(table) + Str(k))
    case KVDelete(table, k) => [15] + (Str(table) + Str(k))
    case KVScan(table, a, z, ha, hz) => [16] + (Str(table) + (Str(a) + (Str(z) + (Bool(ha) + Bool(hz)))))
  }

  function EncStmts(ss: seq<Stmt>): Buffer {
    if ss == [] then [] else EncStmt(ss[0]) + EncStmts(ss[1..])
  }

  function Encode(ss: seq<Stmt>): Buffer {
    Uvarint(|ss|) + EncStmts(ss)
  }

  // ----- Reading -----

  function DecOpt(buf: Buffer, r: Reader): (p: (Expr, Reader))
    requires r.pos <= |buf|
    ensures Forward(buf, r, p.1)
  {
    var (b, r1) := ReadBool(buf, r);
    if b then var p := DecExpr(buf, r1); (p.e, p.r) else (Nil, r1)
  }

  function DecNames(buf: Buffer, r: Reader, n: int): (p: (seq<Key>, Reader))
    requires r.pos <= |buf|
    ensures Forward(buf, r, p.1)
    decreases if n > 0 then n else 0
  {
    if n <= 0 then ([], r)
    else
      var (s, r1) := ReadStr(buf, r);
      var (ss, r2) := DecNames(buf, r1, n - 1);
      ([s] + ss, r2)
  }

  function DecColumn(buf: Buffer, r: Reader): (p: (ColumnDef, Reader))
    requires r.pos <= |buf|
    ensures Forward(buf, r, p.1)
  {
    var (name, r1) := ReadStr(buf, r);
    var (t, r2) := ReadByte(buf, r1);
    var (nn, r3) := ReadBool(buf, r2);
    var (ap, r4) := ReadBool(buf, r3);
    var (d, r5) := DecOpt(buf, r4);
    (ColumnDef(name, t, nn, ap, d), r5)
  }

  function DecColumns(buf: Buffer, r: Reader, n: int): (p: (seq<ColumnDef>, Reader))
    requires r.pos <= |buf|
    ensures Forward(buf, r, p.1)
    decreases if n > 0 then n else 0
  {
    if n <= 0 then ([], r)
    else
      var (c, r1) := DecColumn(buf, r);
      var (cs, r2) := DecColumns(buf, r1, n - 1);
      ([c] + cs, r2)
  }

  /** One row of an INSERT; an expression that fails fails the statement. */
  function DecRow(buf: Buffer, r: Reader, n: int): (p: (Option<seq<Expr>>, Reader))
    requires r.pos <= |buf|
    ensures Forward(buf, r, p.1)
    decreases if n > 0 then n else 0
  {
    if n <= 0 then (Some([]), r)
    else
      var e := DecExpr(buf, r);
      if e.failed then (None, e.r)
      else
        var (es, r1) := DecRow(buf, e.r, n - 1);
        (if es.None? then None else Some([e.e] + es.value), r1)
  }

  function DecRows(buf: Buffer, r: Reader, n: int): (p: (Option<seq<seq<Expr>>>, Reader))
    requires r.pos <= |buf|
    ensures Forward(buf, r, p.1)
    decreases if n > 0 then n else 0
  {
    if n <= 0 then (Some([]), r)
    else
      var (k, r1) := ReadVarint(buf, r);
      var (row, r2) := DecRow(buf, r1, k);
      if row.None? then (None, r2)
      else
        var (rows, r3) := DecRows(buf, r2, n - 1);
        (if rows.None? then None else Some([row.value] + rows.value), r3)
  }

  function DecSets(buf: Buffer, r: Reader, n: int): (p: (seq<SetItem>, Reader))
    requires r.pos <= |buf|
    ensures Forward(buf, r, p.1)
    decreases if n > 0 then n else 0
  {
    if n <= 0 then ([], r)
    else
      var (c, r1) := ReadStr(buf, r);
      var e := DecExpr(buf, r1);
      var (ss, r2) := DecSets(buf, e.r, n - 1);
      ([SetItem(c, e.e)] + ss, r2)
  }

  function DecItems(buf: Buffer, r: Reader, n: int): (p: (seq<SelectItem>, Reader))
    requires r.pos <= |buf|
    ensures Forward(buf, r, p.1)
    decreases if n > 0 then n else 0
  {
    if n <= 0 then ([], r)
    else
      var e := DecExpr(buf, r);
      var (a, r1) := ReadStr(buf, e.r);
      var (its, r2) := DecItems(buf, r1, n - 1);
      ([SelectItem(e.e, a)] + its, r2)
  }

  function DecOrders(buf: Buffer, r: Reader, n: int): (p: (seq<OrderItem>, Reader))
    requires r.pos <= |buf|
    ensures Forward(buf, r, p.1)
    decreases if n > 0 then n else 0
  {
    if n <= 0 then ([], r)
    else
      var e := DecExpr(buf, r);
      var (d, r1) := ReadBool(buf, e.r);
      var (os, r2) := DecOrders(buf, r1, n - 1);
      ([OrderItem(e.e, d)] + os, r2)
  }

  function DecCreateTable(buf: Buffer, r: Reader): (p: (Stmt, Reader))
    requires r.pos <= |buf|
    ensures Forward(buf, r, p.1)
  {
    var (name, r1) := ReadStr(buf, r);
    var (nc, r2) := ReadVarint(buf, r1);
    var (cols, r3) := DecColumns(buf, r2, nc);
    var (t, r4) := DecTableTail(buf, r3);
    (CreateTable(name, cols, t.pk, t.ifNotExists, t.engine, t.retention), r4)
  }

  function DecTableTail(buf: Buffer, r: Reader): (p: (TableTail, Reader))
    requires r.pos <= |buf|
    ensures Forward(buf, r, p.1)
  {
    var (np, r1) := ReadVarint(buf, r);
    var (pk, r2) := DecNames(buf, r1, np);
    var (ine, r3) := ReadBool(buf, r2);
    var (engine, r4) := ReadStr(buf, r3);
    var (ret, r5) := ReadVarint(buf, r4);
    (TableTail(pk, ine, engine, ret), r5)
  }

  function DecSelect(buf: Buffer, r: Reader): (p: (Stmt, Reader))
    requires r.pos <= |buf|
    ensures Forward(buf, r, p.1)
  {
    var (distinct, r1) := ReadBool(buf, r);
    var (ni, r2) := ReadVarint(buf, r1);
    var (items, r3) := DecItems(buf, r2, ni);
    var (from, r4) := ReadStr(buf, r3);
    var (w, r5) := DecOpt(buf, r4);
    var (t, r6) := DecSelectTail(buf, r5);
    (Select(distinct, items, from, w, t.groupBy, t.orderBy, t.hasLimit, t.limit), r6)
  }

  function DecSelectTail(buf: Buffer, r: Reader): (p: (SelectTail, Reader))
    requires r.pos <= |buf|
    ensures Forward(buf, r, p.1)
  {
    var (ng, r1) := ReadVarint(buf, r);
    var (gb, r2) := DecExprs(buf, r1, ng);
    var (no, r3) := ReadVarint(buf, r2);
    var (ob, r4) := DecOrders(buf, r3, no);
    var (hl, r5) := ReadBool(buf, r4);
    var (limit, r6) := ReadVarint(buf, r5);
    (SelectTail(gb, ob, hl, limit), r6)
  }

  function DecIndex(buf: Buffer, r: Reader): (p: (Stmt, Reader))
    requires r.pos <= |buf|
    ensures Forward(buf, r, p.1)
  {
    var (name, r1) := ReadStr(buf, r);
    var (table, r2) := ReadStr(buf, r1);
    var (nc, r3) := ReadVarint(buf, r2);
    var (cs, r4) := DecNames(buf, r3, nc);
    var (b, r5) := ReadBool(buf, r4);
    (CreateIndex(name, table, cs, b), r5)
  }

  function DecInsert(buf: Buffer, r: Reader): (p: (Option<Stmt>, Reader))
    requires r.pos <= |buf|
    ensures Forward(buf, r, p.1)
  {
    var (table, r1) := ReadStr(buf, r);
    var (nc, r2) := ReadVarint(buf, r1);
    var (cs, r3) := DecNames(buf, r2, nc);
    var (nr, r4) := ReadVarint(buf, r3);
    var (rows, r5) := DecRows(buf, r4, nr);
    (if rows.None? then None else Some(Insert(table, cs, rows.value)), r5)
  }

  function DecUpdate(buf: Buffer, r: Reader): (p: (Stmt, Reader))
    requires r.pos <= |buf|
    ensures Forward(buf, r, p.1)
  {
    var (table, r1) := ReadStr(buf, r);
    var (ns, r2) := ReadVarint(buf, r1);
    var (sets, r3) := DecSets(buf, r2, ns);
    var (w, r4) := DecOpt(buf, r3);
    (Update(table, sets, w), r4)
  }

  /** The statements made of strings, flags and at most one optional expression. */
  function DecPlain(buf: Buffer, r: Reader, t: byte): (p: (Option<Stmt>, Reader))
    requires r.pos <= |buf|
    ensures Forward(buf, r, p.1)
  {
    if t == 8 then (Some(Begin), r)
    else if t == 9 then (Some(Commit), r)
    else if t == 10 then (Some(Rollback), r)
    else if t != 2 && t != 4 && t != 7 && t != 11 && t != 13 && t != 14 && t != 15 && t != 16 then (None, r)
    else
      var (s, r1) := ReadStr(buf, r);
      if t == 11 then (Some(CreateDatabase(s)), r1)
      else if t == 2 then var (b, r2) := ReadBool(buf, r1); (Some(DropTable(s, b)), r2)
      else if t == 7 then var (w, r2) := DecOpt(buf, r1); (Some(Delete(s, w)), r2)
      else
        var (k, r2) := ReadStr(buf, r1);
        if t == 4 then var (b, r3) := ReadBool(buf, r2); (Some(DropIndex(s, k, b)), r3)
        else if t == 14 then (Some(KVGet(s, k)), r2)
        else if t == 15 then (Some(KVDelete(s, k)), r2)
        else
          var (v, r3) := ReadStr(buf, r2);
          if t == 13 then (Some(KVPut(s, k, v)), r3)
          else
            var (ha, r4) := ReadBool(buf, r3);
            var (hz, r5) := ReadBool(buf, r4);
            (Some(KVScan(s, k, v, ha, hz)), r5)
  }

  function DecStmt(buf: Buffer, r: Reader): (p: (Option<Stmt>, Reader))
    requires r.pos <= |buf|
    ensures Forward(buf, r, p.1)
  {
    var (t, r1) := ReadByte(buf, r);
    if t == 1 then var (s, r2) := DecCreateTable(buf, r1); (Some(s), r2)
    else if t == 3 then var (s, r2) := DecIndex(buf, r1); (Some(s), r2)
    else if t == 5 then DecInsert(buf, r1)
    else if t == 6 then var (s, r2) := DecUpdate(buf, r1); (Some(s), r2)
    else if t == 12 then var (s, r2) := DecSelect(buf, r1); (Some(s), r2)
    else DecPlain(buf, r1, t)
  }

  function DecStmts(buf: Buffer, r: Reader, n: int): (p: (Option<seq<Stmt>>, Reader))
    requires r.pos <= |buf|
    decreases if n > 0 then n else 0
  {
    if n <= 0 then (Some([]), r)
    else
      var (s, r1) := DecStmt(buf, r);
      if s.None? then (None, r1)
      else
        var (ss, r2) := DecStmts(buf, r1, n - 1);
        (if ss.None? then None else Some([s.value] + ss.value), r2)
  }

  /** `DecodeStatements`: `None` for its error. */
  function Decode(data: Buffer): Option<seq<Stmt>> {
    var (n, r) := ReadVarint(data, Reader(0, false));
    var (ss, r1) := DecStmts(data, r, n);
    if ss.None? || r1.err then None else ss
  }
}
