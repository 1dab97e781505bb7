/**
 Statements on their way to a shard: encoded by one node, decoded by another.
 */
module CodecWire {
  import opened Wrappers
  import opened CodecExpr
  import opened CodecStmt
  import opened CodecIO
  import opened CodecTrip
  import opened CodecRound
  import opened CodecStmtIO
  import SqlPrint

  // ----- The operators a statement can hold -----

  /** Every operator is one that the parser yields. */
  predicate FromParser(e: Expr) {
    match e
    case Binary(op, l, r) => SqlPrint.BinaryOp(op) && FromParser(l) && FromParser(r)
    case Unary(op, x) => SqlPrint.UnaryOp(op) && FromParser(x)
    case Call(_, args) => forall i :: 0 <= i < |args| ==> FromParser(args[i])
    case Cast(x, _) => FromParser(x)
    case _ => true
  }

  predicate NoLike(e: Expr) {
    match e
    case Binary(op, l, r) => op != "LIKE" && op != "NOT LIKE" && NoLike(l) && NoLike(r)
    case Unary(_, x) => NoLike(x)
    case Call(_, args) => forall i :: 0 <= i < |args| ==> NoLike(args[i])
    case Cast(x, _) => NoLike(x)
    case _ => true
  }

  /** Every expression of a statement meets a condition. */
  ghost predicate Every(s: Stmt, ok: Expr -> bool) {
    match s
    case CreateTable(_, cols, _, _, _, _) => forall i :: 0 <= i < |cols| ==> ok(cols[i].deflt)
    case Insert(_, _, rows) => forall i, j :: 0 <= i < |rows| && 0 <= j < |rows[i]| ==> ok(rows[i][j])
    case Update(_, sets, w) => (forall i :: 0 <= i < |sets| ==> ok(sets[i].value)) && ok(w)
    case Delete(_, w) => ok(w)
    case Select(_, items, _, w, gb, ob, _, _) =>
      && (forall i :: 0 <= i < |items| ==> ok(items[i].expr)) && ok(w)
      && (forall i :: 0 <= i < |gb| ==> ok(gb[i])) && forall i :: 0 <= i < |ob| ==> ok(ob[i].oexpr)
    case _ => true
  }

  ghost predicate AllFrom(ss: seq<Stmt>, ok: Expr -> bool) {
    forall i :: 0 <= i < |ss| ==> Every(ss[i], ok)
  }

  /** Of the operators that the parser yields the tables hold all but LIKE and NOT LIKE. */
  lemma OpsKnown(op: string)
    ensures SqlPrint.BinaryOp(op) ==> (op in BINARY_OPS <==> op != "LIKE" && op != "NOT LIKE")
    ensures SqlPrint.UnaryOp(op) ==> op in UNARY_OPS
  {
  }

  lemma {:induction false} FromParserListed(e: Expr)
    requires FromParser(e)
    ensures OpsListed(e) <==> NoLike(e)
  {
    match e
    case Binary(op, l, r) => OpsKnown(op); FromParserListed(l); FromParserListed(r);
    case Unary(op, x) => OpsKnown(op); FromParserListed(x);
    case Call(_, args) =>
      forall i | 0 <= i < |args| ensures OpsListed(args[i]) <==> NoLike(args[i]) {
        FromParserListed(args[i]);
      }
    case Cast(x, _) => FromParserListed(x);
    case _ =>
  }

  lemma ListedIsEvery(s: Stmt)
    requires Every(s, FromParser)
    ensures StmtListed(s) <==> Every(s, NoLike)
  {
    forall e | FromParser(e) ensures OpsListed(e) <==> NoLike(e) {
      FromParserListed(e);
    }
    hide OpsListed;
    hide FromParser;
    hide NoLike;
    if s.Insert? {
      forall i | 0 <= i < |s.rows| ensures AllListed(s.rows[i]) <==> forall j :: 0 <= j < |s.rows[i]| ==> NoLike(s.rows[i][j]) {
        assert forall j :: 0 <= j < |s.rows[i]| ==> FromParser(s.rows[i][j]);
      }
    }
  }

  lemma {:induction false} EncodableThere(e: Expr)
    requires Encodable(e)
    ensures NoNil(e)
  {
    match e
    case Binary(_, l, r) => EncodableThere(l); EncodableThere(r);
    case Unary(_, x) => EncodableThere(x);
    case Cast(x, _) => EncodableThere(x);
    case Call(_, args) => ListThere(args, e);
    case _ =>
  }

  lemma {:induction false} ListThere(es: seq<Expr>, whole: Expr)
    requires forall i :: 0 <= i < |es| ==> Encodable(es[i]) && es[i] < whole
    ensures AllThere(es)
    decreases whole, 0
  {
    forall i | 0 <= i < |es| ensures NoNil(es[i]) {
      EncodableThere(es[i]);
    }
  }

  lemma OkThere(s: Stmt)
    requires StmtOK(s)
    ensures StmtThere(s)
  {
    forall e | Encodable(e) ensures NoNil(e) {
      EncodableThere(e);
    }
  }

  /**
   `execShardEncCmd` and the decoder on the shard's leader: the list arrives unchanged
   exactly if every operator in it is in the operator tables, and for statements with the
   operators of the parser exactly if none of them is LIKE or NOT LIKE.
   */
  method Forward(ss: seq<Stmt>) returns (back: Option<seq<Stmt>>)
    requires StmtsOK(ss)
    ensures back == if AnyFails(ss) then None else Some(AllLeft(ss))
    ensures back == Some(ss) <==> forall i :: 0 <= i < |ss| ==> StmtListed(ss[i])
    ensures AllFrom(ss, FromParser) ==> (back == Some(ss) <==> AllFrom(ss, NoLike))
  {
    hide StmtOK;
    hide StmtThere;
    forall i | 0 <= i < |ss| && Every(ss[i], FromParser) ensures StmtListed(ss[i]) <==> Every(ss[i], NoLike) {
      ListedIsEvery(ss[i]);
    }
    hide StmtListed;
    hide Every;
    hide Encode;
    hide Decode;
    forall i | 0 <= i < |ss| ensures StmtThere(ss[i]) {
      OkThere(ss[i]);
    }
    DecodeEncode(ss);
    RoundTripIff(ss);
    var data := EncodeStatements(ss);
    back := DecodeStatements(data);
  }
}
