/**
 Whole statements and statement lists through the codec: what comes back, and exactly
 when it is what was written.
 */
module CodecRound {
  import opened Bytes
  import opened Wrappers
  import opened CodecPrims
  import opened CodecExpr
  import opened CodecStmt
  import opened CodecTrip

  // ----- One statement -----

  lemma TableTailTrip(buf: Buffer, pos: nat, t: TableTail)
    requires NamesOK(t.pk) && Int64(|t.engine|) && Int64(t.retention) && At(buf, pos, EncTableTail(t))
    ensures DecTableTail(buf, Reader(pos, false)) == (t, Reader(pos + |EncTableTail(t)|, false))
  {
    hide ReadStr;
    hide ReadBool;
    hide ReadVarint;
    hide DecNames;
    hide EncNames;
    hide Str;
    hide Varint;
    var p1 := pos + |Uvarint(|t.pk|)|;
    var p2 := p1 + |EncNames(t.pk)|;
    CountThen(buf, pos, |t.pk|, EncNames(t.pk) + (Bool(t.ifNotExists) + (Str(t.engine) + Varint(t.retention))));
    NamesThen(buf, p1, t.pk, Bool(t.ifNotExists) + (Str(t.engine) + Varint(t.retention)));
    BoolThen(buf, p2, t.ifNotExists, Str(t.engine) + Varint(t.retention));
    StrThen(buf, p2 + 1, t.engine, Varint(t.retention));
    ReadsVarint(buf, p2 + 1 + |Str(t.engine)|, t.retention);
  }

  lemma CreateTableTrip(buf: Buffer, pos: nat, s: Stmt)
    requires s.CreateTable? && StmtOK(s) && At(buf, pos, EncCreateTable(s))
    ensures DecCreateTable(buf, Reader(pos, false)) == (Left(s), Reader(pos + |EncCreateTable(s)|, false))
  {
    hide ReadStr;
    hide ReadVarint;
    hide DecColumns;
    hide EncColumns;
    hide DecTableTail;
    hide EncTableTail;
    hide Str;
    var t := TableTail(s.pk, s.ifNotExists, s.engine, s.retention);
    var p1 := pos + |Str(s.name)|;
    var p2 := p1 + |Uvarint(|s.cols|)|;
    StrThen(buf, pos, s.name, Uvarint(|s.cols|) + (EncColumns(s.cols) + EncTableTail(t)));
    CountThen(buf, p1, |s.cols|, EncColumns(s.cols) + EncTableTail(t));
    AtConcat(buf, p2, EncColumns(s.cols), EncTableTail(t));
    ColumnsTrip(buf, p2, s.cols);
    TableTailTrip(buf, p2 + |EncColumns(s.cols)|, t);
  }

  lemma SelectTailTrip(buf: Buffer, pos: nat, t: SelectTail)
    requires ExprsOK(t.groupBy) && Int64(|t.orderBy|) && Int64(t.limit) && At(buf, pos, EncSelectTail(t))
    requires forall i :: 0 <= i < |t.orderBy| ==> Encodable(t.orderBy[i].oexpr)
    ensures DecSelectTail(buf, Reader(pos, false))
         == (SelectTail(Survivors(t.groupBy), OrdersLeft(t.orderBy), t.hasLimit, t.limit), Reader(pos + |EncSelectTail(t)|, false))
  {
    hide ReadBool;
    hide ReadVarint;
    hide DecExprs;
    hide EncExprs;
    hide DecOrders;
    hide EncOrders;
    hide Varint;
    hide Survivors;
    hide OrdersLeft;
    var last := Bool(t.hasLimit) + Varint(t.limit);
    var p1 := pos + |Uvarint(|t.groupBy|)|;
    var p2 := p1 + |EncExprs(t.groupBy)|;
    var p3 := p2 + |Uvarint(|t.orderBy|)|;
    var p4 := p3 + |EncOrders(t.orderBy)|;
    CountThen(buf, pos, |t.groupBy|, EncExprs(t.groupBy) + (Uvarint(|t.orderBy|) + (EncOrders(t.orderBy) + last)));
    ExprListThen(buf, p1, t.groupBy, Uvarint(|t.orderBy|) + (EncOrders(t.orderBy) + last));
    CountThen(buf, p2, |t.orderBy|, EncOrders(t.orderBy) + last);
    AtConcat(buf, p3, EncOrders(t.orderBy), last);
    OrdersTrip(buf, p3, t.orderBy);
    BoolThen(buf, p4, t.hasLimit, Varint(t.limit));
    ReadsVarint(buf, p4 + 1, t.limit);
  }

  lemma SelectTrip(buf: Buffer, pos: nat, s: Stmt)
    requires s.Select? && StmtOK(s) && At(buf, pos, EncSelect(s))
    ensures DecSelect(buf, Reader(pos, false)) == (Left(s), Reader(pos + |EncSelect(s)|, false))
  {
    hide ReadStr;
    hide ReadBool;
    hide ReadVarint;
    hide DecItems;
    hide EncItems;
    hide DecOpt;
    hide EncOpt;
    hide DecSelectTail;
    hide EncSelectTail;
    hide Str;
    hide Survives;
    var t := SelectTail(s.groupBy, s.orderBy, s.hasLimit, s.limit);
    var p1 := pos + 1 + |Uvarint(|s.items|)|;
    var p2 := p1 + |EncItems(s.items)|;
    var p3 := p2 + |Str(s.from)|;
    BoolThen(buf, pos, s.distinct, Uvarint(|s.items|) + (EncItems(s.items) + (Str(s.from) + (EncOpt(s.where) + EncSelectTail(t)))));
    CountThen(buf, pos + 1, |s.items|, EncItems(s.items) + (Str(s.from) + (EncOpt(s.where) + EncSelectTail(t))));
    AtConcat(buf, p1, EncItems(s.items), Str(s.from) + (EncOpt(s.where) + EncSelectTail(t)));
    ItemsTrip(buf, p1, s.items);
    StrThen(buf, p2, s.from, EncOpt(s.where) + EncSelectTail(t));
    OptThen(buf, p3, s.where, EncSelectTail(t));
    SelectTailTrip(buf, p3 + |EncOpt(s.where)|, t);
  }

  /** A table name and the columns listed after it. */
  lemma TableColumns(buf: Buffer, pos: nat, table: Key, cs: seq<Key>, rest: Buffer)
    requires Int64(|table|) && NamesOK(cs) && At(buf, pos, Str(table) + (Uvarint(|cs|) + (EncNames(cs) + rest)))
    ensures GetsStr(buf, pos, table) && GetsCount(buf, pos + |Str(table)|, |cs|)
    ensures NamesBack(buf, pos + |Str(table)| + |Uvarint(|cs|)|, cs)
    ensures At(buf, pos + |Str(table)| + |Uvarint(|cs|)| + |EncNames(cs)|, rest)
  {
    hide ReadStr;
    hide ReadVarint;
    hide DecNames;
    hide EncNames;
    hide Str;
    StrThen(buf, pos, table, Uvarint(|cs|) + (EncNames(cs) + rest));
    CountThen(buf, pos + |Str(table)|, |cs|, EncNames(cs) + rest);
    NamesThen(buf, pos + |Str(table)| + |Uvarint(|cs|)|, cs, rest);
  }

  lemma IndexTrip(buf: Buffer, pos: nat, s: Stmt)
    requires s.CreateIndex? && StmtOK(s) && At(buf, pos, EncIndex(s))
    ensures DecIndex(buf, Reader(pos, false)) == (s, Reader(pos + |EncIndex(s)|, false))
  {
    hide ReadStr;
    hide ReadVarint;
    hide ReadBool;
    hide DecNames;
    hide EncNames;
    hide Str;
    var p1 := pos + |Str(s.name)|;
    StrThen(buf, pos, s.name, Str(s.table) + (Uvarint(|s.columns|) + (EncNames(s.columns) + Bool(s.ifNotExists))));
    TableColumns(buf, p1, s.table, s.columns, Bool(s.ifNotExists));
    ReadsBool(buf, p1 + |Str(s.table)| + |Uvarint(|s.columns|)| + |EncNames(s.columns)|, s.ifNotExists);
  }

  lemma InsertTrip(buf: Buffer, pos: nat, s: Stmt)
    requires s.Insert? && StmtOK(s) && At(buf, pos, EncInsert(s))
    ensures var p := DecInsert(buf, Reader(pos, false));
            if RowsFail(s.rows) then p.0.None? else p == (Some(Left(s)), Reader(pos + |EncInsert(s)|, false))
  {
    hide ReadStr;
    hide ReadVarint;
    hide DecNames;
    hide EncNames;
    hide DecRows;
    hide EncRows;
    hide Str;
    hide RowsFail;
    var p1 := pos + |Str(s.table)| + |Uvarint(|s.columns|)| + |EncNames(s.columns)|;
    TableColumns(buf, pos, s.table, s.columns, Uvarint(|s.rows|) + EncRows(s.rows));
    CountThen(buf, p1, |s.rows|, EncRows(s.rows));
    RowsTrip(buf, p1 + |Uvarint(|s.rows|)|, s.rows);
  }

  lemma UpdateTrip(buf: Buffer, pos: nat, s: Stmt)
    requires s.Update? && StmtOK(s) && At(buf, pos, EncUpdate(s))
    ensures DecUpdate(buf, Reader(pos, false)) == (Left(s), Reader(pos + |EncUpdate(s)|, false))
  {
    hide ReadStr;
    hide ReadVarint;
    hide DecSets;
    hide EncSets;
    hide DecOpt;
    hide EncOpt;
    hide Str;
    hide Survives;
    var p1 := pos + |Str(s.table)|;
    var p2 := p1 + |Uvarint(|s.sets|)|;
    StrThen(buf, pos, s.table, Uvarint(|s.sets|) + (EncSets(s.sets) + EncOpt(s.where)));
    CountThen(buf, p1, |s.sets|, EncSets(s.sets) + EncOpt(s.where));
    AtConcat(buf, p2, EncSets(s.sets), EncOpt(s.where));
    SetsTrip(buf, p2, s.sets);
    OptTrip(buf, p2 + |EncSets(s.sets)|, s.where);
  }

  /** Two strings and what follows them. */
  lemma TwoStrs(buf: Buffer, pos: nat, a: Key, b: Key, rest: Buffer)
    requires Int64(|a|) && Int64(|b|) && At(buf, pos, Str(a) + (Str(b) + rest))
    ensures GetsStr(buf, pos, a) && GetsStr(buf, pos + |Str(a)|, b) && At(buf, pos + |Str(a)| + |Str(b)|, rest)
  {
    hide ReadStr;
    hide Str;
    StrThen(buf, pos, a, Str(b) + rest);
    StrThen(buf, pos + |Str(a)|, b, rest);
  }

  ghost predicate PlainBack(buf: Buffer, pos: nat, s: Stmt, t: byte, n: nat) {
    pos <= |buf| && DecPlain(buf, Reader(pos, false), t) == (Some(s), Reader(pos + n, false))
  }

  lemma DropsBack(buf: Buffer, pos: nat, s: Stmt)
    requires StmtOK(s)
    ensures s.DropTable? && At(buf, pos, Str(s.name) + Bool(s.ifExists)) ==> PlainBack(buf, pos, s, 2, |Str(s.name)| + 1)
    ensures s.DropIndex? && At(buf, pos, Str(s.name) + (Str(s.table) + Bool(s.ifExists)))
        ==> PlainBack(buf, pos, s, 4, |Str(s.name)| + |Str(s.table)| + 1)
  {
    hide ReadStr;
    hide ReadBool;
    hide Str;
    if s.DropTable? && At(buf, pos, Str(s.name) + Bool(s.ifExists)) {
      StrThen(buf, pos, s.name, Bool(s.ifExists));
      ReadsBool(buf, pos + |Str(s.name)|, s.ifExists);
    }
    if s.DropIndex? && At(buf, pos, Str(s.name) + (Str(s.table) + Bool(s.ifExists))) {
      TwoStrs(buf, pos, s.name, s.table, Bool(s.ifExists));
      ReadsBool(buf, pos + |Str(s.name)| + |Str(s.table)|, s.ifExists);
    }
  }

  lemma DeleteBack(buf: Buffer, pos: nat, s: Stmt)
    requires s.Delete? && StmtOK(s) && At(buf, pos, Str(s.table) + EncOpt(s.where))
    ensures PlainBack(buf, pos, Left(s), 7, |Str(s.table)| + |EncOpt(s.where)|)
  {
    hide ReadStr;
    hide DecOpt;
    hide EncOpt;
    hide Str;
    hide Survives;
    StrThen(buf, pos, s.table, EncOpt(s.where));
    OptTrip(buf, pos + |Str(s.table)|, s.where);
  }

  lemma KVBack(buf: Buffer, pos: nat, s: Stmt)
    requires StmtOK(s)
    ensures s.KVGet? && At(buf, pos, Str(s.table) + Str(s.key)) ==> PlainBack(buf, pos, s, 14, |Str(s.table)| + |Str(s.key)|)
    ensures s.KVDelete? && At(buf, pos, Str(s.table) + Str(s.key)) ==> PlainBack(buf, pos, s, 15, |Str(s.table)| + |Str(s.key)|)
    ensures s.KVPut? && At(buf, pos, Str(s.table) + (Str(s.key) + Str(s.value)))
        ==> PlainBack(buf, pos, s, 13, |Str(s.table)| + |Str(s.key)| + |Str(s.value)|)
  {
    hide ReadStr;
    hide Str;
    if (s.KVGet? || s.KVDelete?) && At(buf, pos, Str(s.table) + Str(s.key)) {
      StrThen(buf, pos, s.table, Str(s.key));
      ReadsStr(buf, pos + |Str(s.table)|, s.key);
    }
    if s.KVPut? && At(buf, pos, Str(s.table) + (Str(s.key) + Str(s.value))) {
      TwoStrs(buf, pos, s.table, s.key, Str(s.value));
      ReadsStr(buf, pos + |Str(s.table)| + |Str(s.key)|, s.value);
    }
  }

  lemma ScanBack(buf: Buffer, pos: nat, s: Stmt)
    requires s.KVScan? && StmtOK(s) && At(buf, pos, Str(s.table) + (Str(s.start) + (Str(s.end) + (Bool(s.hasStart) + Bool(s.hasEnd)))))
    ensures PlainBack(buf, pos, s, 16, |Str(s.table)| + |Str(s.start)| + |Str(s.end)| + 2)
  {
    hide ReadStr;
    hide ReadBool;
    hide Str;
    var p := pos + |Str(s.table)| + |Str(s.start)|;
    TwoStrs(buf, pos, s.table, s.start, Str(s.end) + (Bool(s.hasStart) + Bool(s.hasEnd)));
    StrThen(buf, p, s.end, Bool(s.hasStart) + Bool(s.hasEnd));
    BoolThen(buf, p + |Str(s.end)|, s.hasStart, Bool(s.hasEnd));
    ReadsBool(buf, p + |Str(s.end)| + 1, s.hasEnd);
  }

  ghost predicate StmtBack(buf: Buffer, pos: nat, s: Stmt) {
    && pos <= |buf|
    && var p := DecStmt(buf, Reader(pos, false));
       if Fails(s) then p.0.None? else p == (Some(Left(s)), Reader(pos + |EncStmt(s)|, false))
  }

  /** The statements whose fields are lists. */
  predicate Listy(s: Stmt) {
    s.CreateTable? || s.CreateIndex? || s.Insert? || s.Update? || s.Select?
  }

  lemma ListyTrip(buf: Buffer, pos: nat, s: Stmt)
    requires StmtOK(s) && Listy(s) && At(buf, pos, EncStmt(s))
    ensures StmtBack(buf, pos, s)
  {
    hide DecCreateTable;
    hide EncCreateTable;
    hide DecSelect;
    hide EncSelect;
    hide DecIndex;
    hide DecInsert;
    hide DecUpdate;
    hide EncIndex;
    hide EncInsert;
    hide EncUpdate;
    hide ReadByte;
    hide RowsFail;
    match s
    case CreateTable(_, _, _, _, _, _) => ByteThen(buf, pos, 1, EncCreateTable(s)); CreateTableTrip(buf, pos + 1, s);
    case CreateIndex(_, _, _, _) => ByteThen(buf, pos, 3, EncIndex(s)); IndexTrip(buf, pos + 1, s);
    case Insert(_, _, _) => ByteThen(buf, pos, 5, EncInsert(s)); InsertTrip(buf, pos + 1, s);
    case Update(_, _, _) => ByteThen(buf, pos, 6, EncUpdate(s)); UpdateTrip(buf, pos + 1, s);
    case Select(_, _, _, _, _, _, _, _) => ByteThen(buf, pos, 12, EncSelect(s)); SelectTrip(buf, pos + 1, s);
  }

  lemma PlainTrip(buf: Buffer, pos: nat, s: Stmt)
    requires StmtOK(s) && !Listy(s) && !KV(s) && At(buf, pos, EncStmt(s))
    ensures StmtBack(buf, pos, s)
  {
    hide DecPlain;
    hide ReadByte;
    hide ReadStr;
    hide Str;
    hide EncOpt;
    hide Survives;
    match s
    case DropTable(name, b) => ByteThen(buf, pos, 2, Str(name) + Bool(b)); DropsBack(buf, pos + 1, s);
    case DropIndex(name, table, b) => ByteThen(buf, pos, 4, Str(name) + (Str(table) + Bool(b))); DropsBack(buf, pos + 1, s);
    case Delete(table, w) => ByteThen(buf, pos, 7, Str(table) + EncOpt(w)); DeleteBack(buf, pos + 1, s);
    case Begin => ReadsByte(buf, pos, 8); MarksBack(buf, pos + 1);
    case Commit => ReadsByte(buf, pos, 9); MarksBack(buf, pos + 1);
    case Rollback => ReadsByte(buf, pos, 10); MarksBack(buf, pos + 1);
    case CreateDatabase(name) => ByteThen(buf, pos, 11, Str(name)); DatabaseBack(buf, pos + 1, name);
  }

  /** The key-value statements. */
  predicate KV(s: Stmt) {
    s.KVPut? || s.KVGet? || s.KVDelete? || s.KVScan?
  }

  lemma KVTrip(buf: Buffer, pos: nat, s: Stmt)
    requires StmtOK(s) && KV(s) && At(buf, pos, EncStmt(s))
    ensures StmtBack(buf, pos, s)
  {
    hide DecPlain;
    hide ReadByte;
    hide ReadStr;
    hide Str;
    match s
    case KVPut(table, k, v) => ByteThen(buf, pos, 13, Str(table) + (Str(k) + Str(v))); KVBack(buf, pos + 1, s);
    case KVGet(table, k) => ByteThen(buf, pos, 14, Str(table) + Str(k)); KVBack(buf, pos + 1, s);
    case KVDelete(table, k) => ByteThen(buf, pos, 15, Str(table) + Str(k)); KVBack(buf, pos + 1, s);
    case KVScan(table, a, z, ha, hz) =>
      ByteThen(buf, pos, 16, Str(table) + (Str(a) + (Str(z) + (Bool(ha) + Bool(hz))))); ScanBack(buf, pos + 1, s);
  }

  lemma MarksBack(buf: Buffer, pos: nat)
    ensures pos <= |buf| ==> PlainBack(buf, pos, Begin, 8, 0) && PlainBack(buf, pos, Commit, 9, 0) && PlainBack(buf, pos, Rollback, 10, 0)
  {
  }

  lemma DatabaseBack(buf: Buffer, pos: nat, name: Key)
    requires Int64(|name|) && At(buf, pos, Str(name))
    ensures PlainBack(buf, pos, CreateDatabase(name), 11, |Str(name)|)
  {
    hide ReadStr;
    hide Str;
    ReadsStr(buf, pos, name);
  }

  /** One statement, whatever follows it. */
  lemma StmtTrip(buf: Buffer, pos: nat, s: Stmt)
    requires StmtOK(s) && At(buf, pos, EncStmt(s))
    ensures StmtBack(buf, pos, s)
  {
    hide EncStmt;
    hide DecStmt;
    hide StmtOK;
    if Listy(s) {
      ListyTrip(buf, pos, s);
    } else if KV(s) {
      KVTrip(buf, pos, s);
    } else {
      PlainTrip(buf, pos, s);
    }
  }

  // ----- A list of statements -----

  predicate AnyFails(ss: seq<Stmt>) {
    exists i :: 0 <= i < |ss| && Fails(ss[i])
  }

  function AllLeft(ss: seq<Stmt>): (r: seq<Stmt>)
    ensures |r| == |ss| && forall i :: 0 <= i < |ss| ==> r[i] == Left(ss[i])
  {
    seq(|ss|, i requires 0 <= i < |ss| => Left(ss[i]))
  }

  lemma StmtsCons(ss: seq<Stmt>)
    ensures ss != [] ==> (AnyFails(ss) <==> Fails(ss[0]) || AnyFails(ss[1..]))
    ensures ss != [] ==> AllLeft(ss) == [Left(ss[0])] + AllLeft(ss[1..])
  {
    hide Fails;
    hide Left;
    if ss != [] && AnyFails(ss[1..]) {
      var i :| 0 <= i < |ss| - 1 && Fails(ss[1..][i]);
      assert Fails(ss[i + 1]);
    }
    if ss != [] && AnyFails(ss) {
      var i :| 0 <= i < |ss| && Fails(ss[i]);
      assert i > 0 ==> Fails(ss[1..][i - 1]);
    }
  }

  ghost predicate StmtsBack(buf: Buffer, pos: nat, ss: seq<Stmt>) {
    && pos <= |buf|
    && var p := DecStmts(buf, Reader(pos, false), |ss|);
       if AnyFails(ss) then p.0.None? else p == (Some(AllLeft(ss)), Reader(pos + |EncStmts(ss)|, false))
  }

  lemma {:induction false} StmtsTrip(buf: Buffer, pos: nat, ss: seq<Stmt>)
    requires (forall i :: 0 <= i < |ss| ==> StmtOK(ss[i])) && At(buf, pos, EncStmts(ss))
    ensures StmtsBack(buf, pos, ss)
    decreases |ss|
  {
    hide StmtOK;
    hide EncStmt;
    hide DecStmt;
    hide Fails;
    hide AnyFails;
    hide Left;
    if ss != [] {
      AtConcat(buf, pos, EncStmt(ss[0]), EncStmts(ss[1..]));
      StmtTrip(buf, pos, ss[0]);
      StmtsTrip(buf, pos + |EncStmt(ss[0])|, ss[1..]);
    } else {
      NoneFails();
    }
    StmtsCons(ss);
  }

  lemma NoneFails()
    ensures !AnyFails([])
  {
  }

  predicate StmtsOK(ss: seq<Stmt>) {
    Int64(|ss|) && forall i :: 0 <= i < |ss| ==> StmtOK(ss[i])
  }

  /**
   Decoding an encoded list: an INSERT that loses a whole value fails the list; anything
   else comes back with every expression under an unlisted operator gone.
   */
  lemma DecodeEncode(ss: seq<Stmt>)
    requires StmtsOK(ss)
    ensures Decode(Encode(ss)) == if AnyFails(ss) then None else Some(AllLeft(ss))
  {
    hide StmtOK;
    hide EncStmts;
    hide DecStmts;
    hide ReadVarint;
    hide AnyFails;
    var data := Encode(ss);
    assert data[0..|data|] == data;
    AtSlice(data, 0, data);
    CountThen(data, 0, |ss|, EncStmts(ss));
    StmtsTrip(data, |Uvarint(|ss|)|, ss);
  }

  // ----- When nothing is lost -----

  predicate AllListed(es: seq<Expr>) {
    forall i :: 0 <= i < |es| ==> OpsListed(es[i])
  }

  /** Every operator of every expression of a statement is in its table. */
  predicate StmtListed(s: Stmt) {
    match s
    case CreateTable(_, cols, _, _, _, _) => forall i :: 0 <= i < |cols| ==> OpsListed(cols[i].deflt)
    case Insert(_, _, rows) => forall i :: 0 <= i < |rows| ==> AllListed(rows[i])
    case Update(_, sets, w) => (forall i :: 0 <= i < |sets| ==> OpsListed(sets[i].value)) && OpsListed(w)
    case Delete(_, w) => OpsListed(w)
    case Select(_, items, _, w, gb, ob, _, _) =>
      && (forall i :: 0 <= i < |items| ==> OpsListed(items[i].expr)) && OpsListed(w) && AllListed(gb)
      && (forall i :: 0 <= i < |ob| ==> OpsListed(ob[i].oexpr))
    case _ => true
  }

  lemma SurvivorsIff(es: seq<Expr>)
    ensures Survivors(es) == es <==> AllListed(es)
  {
    hide Survives;
    hide OpsListed;
    forall i | 0 <= i < |es| ensures Survivors(es)[i] == es[i] <==> OpsListed(es[i]) {
      SurvivesIff(es[i]);
    }
    if AllListed(es) {
      assert forall i :: 0 <= i < |es| ==> Survivors(es)[i] == es[i];
    }
  }

  lemma ColumnsIff(cs: seq<ColumnDef>)
    ensures ColumnsLeft(cs) == cs <==> forall i :: 0 <= i < |cs| ==> OpsListed(cs[i].deflt)
  {
    hide Survives;
    hide OpsListed;
    forall i | 0 <= i < |cs| ensures ColumnsLeft(cs)[i] == cs[i] <==> OpsListed(cs[i].deflt) {
      SurvivesIff(cs[i].deflt);
    }
  }

  lemma SetsIff(ss: seq<SetItem>)
    ensures SetsLeft(ss) == ss <==> forall i :: 0 <= i < |ss| ==> OpsListed(ss[i].value)
  {
    hide Survives;
    hide OpsListed;
    forall i | 0 <= i < |ss| ensures SetsLeft(ss)[i] == ss[i] <==> OpsListed(ss[i].value) {
      SurvivesIff(ss[i].value);
    }
  }

  lemma ItemsIff(its: seq<SelectItem>)
    ensures ItemsLeft(its) == its <==> forall i :: 0 <= i < |its| ==> OpsListed(its[i].expr)
  {
    hide Survives;
    hide OpsListed;
    forall i | 0 <= i < |its| ensures ItemsLeft(its)[i] == its[i] <==> OpsListed(its[i].expr) {
      SurvivesIff(its[i].expr);
    }
  }

  lemma OrdersIff(os: seq<OrderItem>)
    ensures OrdersLeft(os) == os <==> forall i :: 0 <= i < |os| ==> OpsListed(os[i].oexpr)
  {
    hide Survives;
    hide OpsListed;
    forall i | 0 <= i < |os| ensures OrdersLeft(os)[i] == os[i] <==> OpsListed(os[i].oexpr) {
      SurvivesIff(os[i].oexpr);
    }
  }

  /** A row that comes back whole does not fail: no expression that can be written is `Nil`. */
  lemma RowsIff(rows: seq<seq<Expr>>)
    requires forall i :: 0 <= i < |rows| ==> ExprsOK(rows[i])
    ensures RowsLeft(rows) == rows && !RowsFail(rows) <==> forall i :: 0 <= i < |rows| ==> AllListed(rows[i])
  {
    hide AllListed;
    hide RowFails;
    hide ExprsOK;
    forall i | 0 <= i < |rows|
      ensures RowsLeft(rows)[i] == rows[i] <==> AllListed(rows[i])
      ensures RowsLeft(rows)[i] == rows[i] ==> !RowFails(rows[i])
    {
      SurvivorsIff(rows[i]);
      WholeRow(rows[i]);
    }
  }

  lemma WholeRow(row: seq<Expr>)
    requires ExprsOK(row)
    ensures Survivors(row) == row ==> !RowFails(row)
  {
    hide Survives;
    if Survivors(row) == row {
      forall i | 0 <= i < |row| ensures Survives(row[i]) != Nil {
        assert Survivors(row)[i] == row[i];
        assert Encodable(row[i]);
      }
    }
  }

  /** A statement comes back whole exactly when all its operators are listed. */
  lemma StmtIff(s: Stmt)
    requires StmtOK(s)
    ensures Left(s) == s && !Fails(s) <==> StmtListed(s)
  {
    hide Survives;
    hide OpsListed;
    hide AllListed;
    hide ColumnsLeft;
    hide SetsLeft;
    hide ItemsLeft;
    hide OrdersLeft;
    hide RowsLeft;
    hide RowsFail;
    match s
    case CreateTable(_, cols, _, _, _, _) => ColumnsIff(cols);
    case Insert(_, _, rows) => RowsIff(rows);
    case Update(_, sets, w) => SetsIff(sets); SurvivesIff(w);
    case Delete(_, w) => SurvivesIff(w);
    case Select(_, items, _, w, gb, ob, _, _) => ItemsIff(items); SurvivesIff(w); SurvivorsIff(gb); OrdersIff(ob);
    case _ =>
  }

  /** The round trip holds exactly when every operator in the list is in its table. */
  lemma RoundTripIff(ss: seq<Stmt>)
    requires StmtsOK(ss)
    ensures Decode(Encode(ss)) == Some(ss) <==> forall i :: 0 <= i < |ss| ==> StmtListed(ss[i])
  {
    hide StmtOK;
    hide StmtListed;
    hide Left;
    hide Fails;
    hide Decode;
    hide Encode;
    DecodeEncode(ss);
    forall i | 0 <= i < |ss| ensures AllLeft(ss)[i] == ss[i] && !Fails(ss[i]) <==> StmtListed(ss[i]) {
      StmtIff(ss[i]);
    }
    if forall i :: 0 <= i < |ss| ==> StmtListed(ss[i]) {
      assert forall i :: 0 <= i < |ss| ==> AllLeft(ss)[i] == ss[i];
      assert AllLeft(ss) == ss;
    }
  }

  /**
   LIKE and NOT LIKE have no code. A DELETE whose condition uses one at the top decodes,
   without an error, as a DELETE of every row.
   */
  lemma LostCondition(table: Key, op: string, a: Expr, b: Expr)
    requires Int64(|table|) && op !in BINARY_OPS && Encodable(a) && Encodable(b)
    ensures Decode(Encode([Delete(table, Binary(op, a, b))])) == Some([Delete(table, Nil)])
    ensures "LIKE" !in BINARY_OPS && "NOT LIKE" !in BINARY_OPS
  {
    hide Decode;
    hide Encode;
    var s := Delete(table, Binary(op, a, b));
    DecodeEncode([s]);
    assert !Fails(s) && Left(s) == Delete(table, Nil);
    assert AllLeft([s]) == [Left(s)];
  }
}
