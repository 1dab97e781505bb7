/**
 From a WHERE clause to a range of primary keys: the constraints that AND-connected
 comparisons put on the key columns, and the prefix range they fold into.
 */
module PkRange {
  import opened Bytes
  import opened Wrappers
  import opened PkEncoding

  datatype CmpOp = Eq | Ne | Lt | Le | Gt | Ge

  /**
   A WHERE clause as the planner sees it: conjunctions, comparisons of a key column
   (by position) with a literal on either side, and everything else.
   */
  datatype Where =
    | And(left: Where, right: Where)
    | Cmp(col: nat, op: CmpOp, lit: Option<Value>, flipped: bool)
    | Other(id: nat)

  /** A row: its key columns, and which of the other conditions it satisfies. */
  datatype Row = Row(pk: seq<Value>, others: set<nat>)

  function Flip(op: CmpOp): CmpOp {
    match op
    case Lt => Gt
    case Le => Ge
    case Gt => Lt
    case Ge => Le
    case Eq => Eq
    case Ne => Ne
  }

  /** `Eval` of a comparison between values of one type. */
  predicate Holds(op: CmpOp, l: Value, r: Value) {
    match op
    case Eq => l == r
    case Ne => l != r
    case Lt => LessV(l, r)
    case Le => !LessV(r, l)
    case Gt => LessV(r, l)
    case Ge => !LessV(l, r)
  }

  /** The row passes the clause: it evaluates to true. A comparison with NULL does not. */
  predicate Passes(e: Where, row: Row) {
    match e
    case And(l, r) => Passes(l, row) && Passes(r, row)
    case Cmp(col, op, lit, flipped) =>
      lit.Some? && col < |row.pk| && if flipped then Holds(op, lit.value, row.pk[col]) else Holds(op, row.pk[col], lit.value)
    case Other(id) => id in row.others
  }

  ghost predicate WellTyped(e: Where, types: seq<Type>) {
    match e
    case And(l, r) => WellTyped(l, types) && WellTyped(r, types)
    case Cmp(col, _, lit, _) => col < |types| && (lit.Some? ==> HasType(lit.value, types[col]))
    case Other(_) => true
  }

  // ----- Constraints -----

  datatype Limit = Limit(v: Value, strict: bool)

  datatype Con = Con(eq: Option<Value>, lo: Option<Limit>, up: Option<Limit>)

  predicate Above(v: Value, l: Limit) {
    if l.strict then LessV(l.v, v) else !LessV(v, l.v)
  }

  predicate Below(v: Value, u: Limit) {
    if u.strict then LessV(v, u.v) else !LessV(u.v, v)
  }

  predicate MeetsCon(c: Con, v: Value) {
    && (c.eq.Some? ==> v == c.eq.value)
    && (c.lo.Some? ==> Above(v, c.lo.value))
    && (c.up.Some? ==> Below(v, c.up.value))
  }

  type Cons = map<nat, Con>

  ghost predicate Meets(cons: Cons, pk: seq<Value>) {
    forall p :: p in cons && p < |pk| ==> MeetsCon(cons[p], pk[p])
  }

  predicate ConTyped(c: Con, t: Type) {
    && (c.eq.Some? ==> HasType(c.eq.value, t))
    && (c.lo.Some? ==> HasType(c.lo.value.v, t))
    && (c.up.Some? ==> HasType(c.up.value.v, t))
  }

  ghost predicate ConsTyped(cons: Cons, types: seq<Type>) {
    forall p :: p in cons ==> p < |types| && ConTyped(cons[p], types[p])
  }

  /** A key of all columns. */
  ghost predicate FullKey(pk: seq<Value>, types: seq<Type>) {
    Typed(pk, types) && |pk| == |types|
  }

  const NO_CON := Con(None, None, None)

  function ConAt(cons: Cons, p: nat): Con {
    if p in cons then cons[p] else NO_CON
  }

  /** The tighter of a lower limit and a new one. */
  function Raised(lo: Option<Limit>, v: Value, strict: bool): Limit {
    if lo.None? || LessV(lo.value.v, v) then Limit(v, strict)
    else if lo.value.v == v && strict then Limit(v, true)
    else lo.value
  }

  function Lowered(up: Option<Limit>, v: Value, strict: bool): Limit {
    if up.None? || LessV(v, up.value.v) then Limit(v, strict)
    else if up.value.v == v && strict then Limit(v, true)
    else up.value
  }

  /** What one comparison `column op literal` adds to the column's constraint. */
  function Narrowed(c: Con, op: CmpOp, v: Value): Con {
    match op
    case Eq => c.(eq := Some(v))
    case Gt => c.(lo := Some(Raised(c.lo, v, true)))
    case Ge => c.(lo := Some(Raised(c.lo, v, false)))
    case Lt => c.(up := Some(Lowered(c.up, v, true)))
    case Le => c.(up := Some(Lowered(c.up, v, false)))
    case Ne => c
  }

  lemma RaisedMeets(lo: Option<Limit>, v: Value, strict: bool, x: Value, t: Type)
    requires HasType(v, t) && HasType(x, t) && (lo.Some? ==> HasType(lo.value.v, t))
    ensures Above(x, Raised(lo, v, strict)) <==> (lo.Some? ==> Above(x, lo.value)) && Above(x, Limit(v, strict))
  {
    if lo.Some? {
      TotalV(x, v, t);
      TotalV(lo.value.v, v, t);
      TotalV(lo.value.v, x, t);
      Transitives(lo.value.v, v, x);
    }
  }

  lemma LoweredMeets(up: Option<Limit>, v: Value, strict: bool, x: Value, t: Type)
    requires HasType(v, t) && HasType(x, t) && (up.Some? ==> HasType(up.value.v, t))
    ensures Below(x, Lowered(up, v, strict)) <==> (up.Some? ==> Below(x, up.value)) && Below(x, Limit(v, strict))
  {
    if up.Some? {
      TotalV(x, v, t);
      TotalV(up.value.v, v, t);
      TotalV(up.value.v, x, t);
      Transitives(up.value.v, v, x);
    }
  }

  /** Except that a second equality replaces the first, narrowing adds exactly the comparison. */
  lemma NarrowedMeets(c: Con, op: CmpOp, v: Value, x: Value, t: Type)
    requires ConTyped(c, t) && HasType(v, t) && HasType(x, t)
    ensures MeetsCon(c, x) && Holds(op, x, v) ==> MeetsCon(Narrowed(c, op, v), x)
    ensures op != Ne && (op == Eq ==> c.eq.None?) && MeetsCon(Narrowed(c, op, v), x) ==> MeetsCon(c, x) && Holds(op, x, v)
  {
    match op
    case Gt => RaisedMeets(c.lo, v, true, x, t);
    case Ge => RaisedMeets(c.lo, v, false, x, t);
    case Lt => LoweredMeets(c.up, v, true, x, t);
    case Le => LoweredMeets(c.up, v, false, x, t);
    case Eq =>
    case Ne =>
  }

  lemma Transitives(a: Value, b: Value, c: Value)
    ensures LessV(a, b) && LessV(b, c) ==> LessV(a, c)
    ensures LessV(c, b) && LessV(b, a) ==> LessV(c, a)
    ensures LessV(b, a) && LessV(a, c) ==> LessV(b, c)
    ensures LessV(c, a) && LessV(a, b) ==> LessV(c, b)
  {
    Order();
  }

  // ----- Reading the clause -----

  /** What reading `e` made of the constraints. */
  ghost predicate Reads(e: Where, cons0: Cons, cons: Cons, types: seq<Type>) {
    && ConsTyped(cons, types)
    && forall row: Row :: FullKey(row.pk, types) && Passes(e, row) && Meets(cons0, row.pk) ==> Meets(cons, row.pk)
  }

  /** The comparison as if the column stood on the left. */
  function OpOf(e: Where): CmpOp
    requires e.Cmp?
  {
    if e.flipped then Flip(e.op) else e.op
  }

  /** The constraints a clause adds: comparisons with NULL and anything else add none. */
  function ConsOf(e: Where, cons0: Cons): Cons {
    match e
    case And(l, r) => ConsOf(r, ConsOf(l, cons0))
    case Cmp(col, _, lit, _) => if lit.None? then cons0 else cons0[col := Narrowed(ConAt(cons0, col), OpOf(e), lit.value)]
    case Other(_) => cons0
  }

  /** Every leaf is a comparison of a key column with a literal that is not NULL. */
  predicate Consumed(e: Where) {
    match e
    case And(l, r) => Consumed(l) && Consumed(r)
    case Cmp(_, _, lit, _) => lit.Some?
    case Other(_) => false
  }

  /** `visit`: walks the conjunction and narrows the constraints. */
  method Visit(e: Where, cons0: Cons, exact0: bool) returns (cons: Cons, exact: bool)
    ensures cons == ConsOf(e, cons0)
    ensures exact <==> exact0 && Consumed(e)
    decreases e
  {
    cons, exact := cons0, exact0;
    match e
    case And(l, r) =>
      cons, exact := Visit(l, cons0, exact0);
      cons, exact := Visit(r, cons, exact);
    case Cmp(col, op, lit, flipped) =>
      if lit.None? {
        exact := false;
        return;
      }
      cons := cons0[col := Narrowed(ConAt(cons0, col), if flipped then Flip(op) else op, lit.value)];
    case Other(_) =>
      exact := false;
  }

  /** The constraints lose no row that passes. */
  lemma {:induction false} VisitReads(e: Where, cons0: Cons, types: seq<Type>)
    requires WellTyped(e, types) && ConsTyped(cons0, types)
    ensures Reads(e, cons0, ConsOf(e, cons0), types)
    decreases e
  {
    match e
    case And(l, r) =>
      var cons1 := ConsOf(l, cons0);
      VisitReads(l, cons0, types);
      VisitReads(r, cons1, types);
    case Cmp(_, _, lit, _) =>
      if lit.Some? {
        ReadsOne(e, cons0, ConsOf(e, cons0), types);
      }
    case Other(_) =>
  }

  // ----- What a clause says of each column -----

  predicate Mentioned(e: Where, p: nat) {
    match e
    case And(l, r) => Mentioned(l, p) || Mentioned(r, p)
    case Cmp(col, _, lit, _) => col == p && lit.Some?
    case Other(_) => false
  }

  /** The literal a column is last set equal to. */
  function PinOf(e: Where, p: nat): Option<Value> {
    match e
    case And(l, r) => if PinOf(r, p).Some? then PinOf(r, p) else PinOf(l, p)
    case Cmp(col, op, lit, _) => if col == p && op.Eq? then lit else None
    case Other(_) => None
  }

  predicate HasLower(e: Where, p: nat) {
    match e
    case And(l, r) => HasLower(l, p) || HasLower(r, p)
    case Cmp(col, _, lit, _) => col == p && lit.Some? && (OpOf(e).Gt? || OpOf(e).Ge?)
    case Other(_) => false
  }

  predicate HasUpper(e: Where, p: nat) {
    match e
    case And(l, r) => HasUpper(l, p) || HasUpper(r, p)
    case Cmp(col, _, lit, _) => col == p && lit.Some? && (OpOf(e).Lt? || OpOf(e).Le?)
    case Other(_) => false
  }

  /** The constraint of a column is what the clause says of it. */
  lemma {:induction false} ConsOfSays(e: Where, cons0: Cons, p: nat)
    ensures var c0, c := ConAt(cons0, p), ConAt(ConsOf(e, cons0), p);
            && (p in ConsOf(e, cons0) <==> p in cons0 || Mentioned(e, p))
            && c.eq == (if PinOf(e, p).Some? then PinOf(e, p) else c0.eq)
            && (c.lo.Some? <==> c0.lo.Some? || HasLower(e, p))
            && (c.up.Some? <==> c0.up.Some? || HasUpper(e, p))
    decreases e
  {
    match e
    case And(l, r) =>
      ConsOfSays(l, cons0, p);
      ConsOfSays(r, ConsOf(l, cons0), p);
    case Cmp(_, _, _, _) =>
    case Other(_) =>
  }

  lemma FlipHolds(op: CmpOp, l: Value, r: Value)
    ensures Holds(op, l, r) <==> Holds(Flip(op), r, l)
  {
  }

  lemma ReadsOne(e: Where, cons0: Cons, cons: Cons, types: seq<Type>)
    requires e.Cmp? && e.lit.Some? && WellTyped(e, types) && ConsTyped(cons0, types)
    requires cons == cons0[e.col := Narrowed(ConAt(cons0, e.col), OpOf(e), e.lit.value)]
    ensures Reads(e, cons0, cons, types)
  {
    var op, v, p := OpOf(e), e.lit.value, e.col;
    NarrowedTyped(ConAt(cons0, p), op, v, types[p]);
    forall row: Row | FullKey(row.pk, types) && Passes(e, row) && Meets(cons0, row.pk) ensures Meets(cons, row.pk) {
      FlipHolds(e.op, v, row.pk[p]);
      NarrowedMeets(ConAt(cons0, p), op, v, row.pk[p], types[p]);
    }
  }

  lemma NarrowedTyped(c: Con, op: CmpOp, v: Value, t: Type)
    requires ConTyped(c, t) && HasType(v, t)
    ensures ConTyped(Narrowed(c, op, v), t)
  {
  }

  // ----- Folding constraints into a range -----

  datatype PkBound = PkBound(prefix: seq<Value>, incl: bool)

  datatype Range = Range(lower: Option<PkBound>, upper: Option<PkBound>)

  /** `pkBoundBytes`. */
  function BoundBytes(b: PkBound, isUpper: bool, types: seq<Type>): Key
    requires Typed(b.prefix, types)
  {
    var enc := EncodeKey(b.prefix, types);
    if isUpper == b.incl then enc + [GUARD] else enc
  }

  ghost predicate RangeTyped(r: Range, types: seq<Type>) {
    && (r.lower.Some? ==> Typed(r.lower.value.prefix, types))
    && (r.upper.Some? ==> Typed(r.upper.value.prefix, types))
  }

  /** `PKRangeBytes`: the encoded bounds of a range, none on a side that is open. */
  function RangeBytes(r: Option<Range>, types: seq<Type>): (Option<Key>, Option<Key>)
    requires r.Some? ==> RangeTyped(r.value, types)
  {
    if r.None? then (None, None)
    else (if r.value.lower.None? then None else Some(BoundBytes(r.value.lower.value, false, types)),
          if r.value.upper.None? then None else Some(BoundBytes(r.value.upper.value, true, types)))
  }

  /** The encoded key lies within the encoded bounds. */
  ghost predicate InRange(r: Option<Range>, pk: seq<Value>, types: seq<Type>)
    requires (r.Some? ==> RangeTyped(r.value, types)) && Typed(pk, types)
  {
    var (lo, hi) := RangeBytes(r, types);
    InWindow(EncodeKey(pk, types), lo, hi)
  }

  ghost predicate AboveBound(pk: seq<Value>, b: PkBound) {
    |b.prefix| <= |pk| && if b.incl then !LexLess(pk[..|b.prefix|], b.prefix) else LexLess(b.prefix, pk[..|b.prefix|])
  }

  ghost predicate BelowBound(pk: seq<Value>, b: PkBound) {
    |b.prefix| <= |pk| && if b.incl then !LexLess(b.prefix, pk[..|b.prefix|]) else LexLess(pk[..|b.prefix|], b.prefix)
  }

  /** What the encoded bounds say about the values. */
  lemma InRangeIs(r: Range, pk: seq<Value>, types: seq<Type>)
    requires RangeTyped(r, types) && FullKey(pk, types)
    ensures InRange(Some(r), pk, types) <==>
            (r.lower.Some? ==> AboveBound(pk, r.lower.value)) && (r.upper.Some? ==> BelowBound(pk, r.upper.value))
  {
    if r.lower.Some? {
      AtBound(pk, r.lower.value.prefix, types);
    }
    if r.upper.Some? {
      AtBound(pk, r.upper.value.prefix, types);
    }
  }

  // ----- Comparing with a prefix and one more value -----

  lemma {:induction false} LexSnoc(a: seq<Value>, x: Value, b: seq<Value>, y: Value)
    requires |a| == |b|
    ensures LexLess(a + [x], b + [y]) <==> LexLess(a, b) || (a == b && LessV(x, y))
  {
    if a == [] {
      assert (a + [x])[1..] == [] && a + [x] == [x] && b + [y] == [y];
    } else {
      assert (a + [x])[1..] == a[1..] + [x] && (b + [y])[1..] == b[1..] + [y];
      LexSnoc(a[1..], x, b[1..], y);
      assert a == [a[0]] + a[1..] && b == [b[0]] + b[1..];
    }
  }

  /** The key agrees with an equality prefix. */
  predicate Agrees(pk: seq<Value>, prefix: seq<Value>) {
    |prefix| <= |pk| && pk[..|prefix|] == prefix
  }

  lemma SnocAt(pk: seq<Value>, prefix: seq<Value>, v: Value, types: seq<Type>)
    requires FullKey(pk, types) && Typed(prefix + [v], types)
    ensures var n := |prefix|;
            && Typed(prefix, types) && HasType(v, types[n])
            && (LexLess(pk[..n + 1], prefix + [v]) <==> LexLess(pk[..n], prefix) || (Agrees(pk, prefix) && LessV(pk[n], v)))
            && (LexLess(prefix + [v], pk[..n + 1]) <==> LexLess(prefix, pk[..n]) || (Agrees(pk, prefix) && LessV(v, pk[n])))
            && (Agrees(pk, prefix + [v]) <==> Agrees(pk, prefix) && pk[n] == v)
  {
    SnocTyped(prefix, v, types);
    hide Typed;
    hide HasType;
    hide LexLess;
    hide LessV;
    hide Agrees;
    SnocSame(pk, prefix, v);
    SnocLess(pk, prefix, v);
  }

  lemma SnocLess(pk: seq<Value>, prefix: seq<Value>, v: Value)
    requires |prefix| < |pk|
    ensures var n := |prefix|;
            && (LexLess(pk[..n + 1], prefix + [v]) <==> LexLess(pk[..n], prefix) || (Agrees(pk, prefix) && LessV(pk[n], v)))
            && (LexLess(prefix + [v], pk[..n + 1]) <==> LexLess(prefix, pk[..n]) || (Agrees(pk, prefix) && LessV(v, pk[n])))
  {
    hide LexLess;
    hide LessV;
    var n := |prefix|;
    assert pk[..n + 1] == pk[..n] + [pk[n]];
    LexSnoc(pk[..n], pk[n], prefix, v);
    LexSnoc(prefix, v, pk[..n], pk[n]);
  }

  lemma SnocTyped(prefix: seq<Value>, v: Value, types: seq<Type>)
    requires Typed(prefix + [v], types)
    ensures Typed(prefix, types) && |prefix| < |types| && HasType(v, types[|prefix|])
  {
    hide HasType;
    assert (prefix + [v])[|prefix|] == v && forall i :: 0 <= i < |prefix| ==> (prefix + [v])[i] == prefix[i];
  }

  lemma SnocSame(pk: seq<Value>, prefix: seq<Value>, v: Value)
    requires |prefix| < |pk|
    ensures Agrees(pk, prefix + [v]) <==> Agrees(pk, prefix) && pk[|prefix|] == v
  {
    var n := |prefix|;
    assert pk[..n + 1] == pk[..n] + [pk[n]];
    assert pk[..n + 1] == prefix + [v] ==> pk[..n + 1][..n] == prefix && pk[..n + 1][n] == v;
  }

  /** The columns before `n` are pinned to `prefix`. */
  ghost predicate Pinned(cons: Cons, prefix: seq<Value>, n: nat) {
    |prefix| == n && forall i :: 0 <= i < n ==> i in cons && cons[i].eq == Some(prefix[i])
  }

  lemma PinnedAgrees(cons: Cons, prefix: seq<Value>, pk: seq<Value>)
    requires Pinned(cons, prefix, |prefix|) && |prefix| <= |pk| && Meets(cons, pk)
    ensures Agrees(pk, prefix)
  {
    forall i | 0 <= i < |prefix| ensures pk[i] == prefix[i] {
      assert MeetsCon(cons[i], pk[i]);
    }
  }

  /** No constraint at or after column `n`, and only equalities before. */
  ghost predicate OnlyPins(cons: Cons, n: nat) {
    forall p :: p in cons ==> p < n && cons[p].lo.None? && cons[p].up.None?
  }

  lemma AgreesMeets(cons: Cons, prefix: seq<Value>, pk: seq<Value>)
    requires Pinned(cons, prefix, |prefix|) && OnlyPins(cons, |prefix|) && Agrees(pk, prefix)
    ensures Meets(cons, pk)
  {
    forall p | p in cons && p < |pk| ensures MeetsCon(cons[p], pk[p]) {
      assert pk[..|prefix|][p] == prefix[p];
    }
  }

  // ----- The range of pinned columns, and of pinned columns with a limited one -----

  function PinRange(prefix: seq<Value>): Range {
    Range(Some(PkBound(prefix, true)), Some(PkBound(prefix, true)))
  }

  lemma PinRangeIs(prefix: seq<Value>, pk: seq<Value>, types: seq<Type>)
    requires FullKey(pk, types) && Typed(prefix, types)
    ensures RangeTyped(PinRange(prefix), types)
    ensures InRange(Some(PinRange(prefix)), pk, types) <==> Agrees(pk, prefix)
  {
    InRangeIs(PinRange(prefix), pk, types);
    LexTotal(pk[..|prefix|], prefix, types);
  }

  function LimitRange(prefix: seq<Value>, c: Con): Range {
    Range(if c.lo.None? then None else Some(PkBound(prefix + [c.lo.value.v], !c.lo.value.strict)),
          if c.up.None? then None else Some(PkBound(prefix + [c.up.value.v], !c.up.value.strict)))
  }

  /** A range that is open on a side takes in the keys beyond the pinned prefix on that side. */
  ghost predicate Beyond(prefix: seq<Value>, c: Con, pk: seq<Value>) {
    && |prefix| <= |pk|
    && ((c.up.None? && LexLess(prefix, pk[..|prefix|])) || (c.lo.None? && LexLess(pk[..|prefix|], prefix)))
  }

  lemma TypedSnoc(prefix: seq<Value>, v: Value, types: seq<Type>)
    requires Typed(prefix, types) && |prefix| < |types| && HasType(v, types[|prefix|])
    ensures Typed(prefix + [v], types)
  {
  }

  lemma LimitRangeIs(prefix: seq<Value>, c: Con, pk: seq<Value>, types: seq<Type>)
    requires FullKey(pk, types) && Typed(prefix, types) && |prefix| < |types| && ConTyped(c, types[|prefix|])
    requires c.eq.None?
    ensures RangeTyped(LimitRange(prefix, c), types)
    ensures InRange(Some(LimitRange(prefix, c)), pk, types) <==>
            (Agrees(pk, prefix) && MeetsCon(c, pk[|prefix|])) || Beyond(prefix, c, pk)
  {
    hide LexLess;
    hide LessV;
    hide HasType;
    var r := LimitRange(prefix, c);
    LexTotal(pk[..|prefix|], prefix, types);
    if c.lo.Some? {
      TypedSnoc(prefix, c.lo.value.v, types);
      SnocAt(pk, prefix, c.lo.value.v, types);
    }
    if c.up.Some? {
      TypedSnoc(prefix, c.up.value.v, types);
      SnocAt(pk, prefix, c.up.value.v, types);
    }
    InRangeIs(r, pk, types);
  }

  lemma PinnedSnoc(cons: Cons, prefix: seq<Value>, types: seq<Type>)
    requires ConsTyped(cons, types) && Pinned(cons, prefix, |prefix|) && Typed(prefix, types)
    requires |prefix| in cons && cons[|prefix|].eq.Some?
    ensures Pinned(cons, prefix + [cons[|prefix|].eq.value], |prefix| + 1)
    ensures Typed(prefix + [cons[|prefix|].eq.value], types)
  {
  }

  /** All constrained columns pinned, or some constraint left out of the range. */
  lemma PinFolds(cons: Cons, prefix: seq<Value>, types: seq<Type>)
    requires ConsTyped(cons, types) && Pinned(cons, prefix, |prefix|) && Typed(prefix, types)
    ensures RangeTyped(PinRange(prefix), types)
    ensures forall pk: seq<Value> :: FullKey(pk, types) && Meets(cons, pk) ==> InRange(Some(PinRange(prefix)), pk, types)
    ensures OnlyPins(cons, |prefix|) ==>
              forall pk: seq<Value> :: FullKey(pk, types) ==> (InRange(Some(PinRange(prefix)), pk, types) <==> Meets(cons, pk))
  {
    forall pk: seq<Value> | FullKey(pk, types)
      ensures Meets(cons, pk) ==> InRange(Some(PinRange(prefix)), pk, types)
      ensures OnlyPins(cons, |prefix|) && InRange(Some(PinRange(prefix)), pk, types) ==> Meets(cons, pk)
    {
      PinRangeIs(prefix, pk, types);
      if Meets(cons, pk) {
        PinnedAgrees(cons, prefix, pk);
      }
      if OnlyPins(cons, |prefix|) && Agrees(pk, prefix) {
        AgreesMeets(cons, prefix, pk);
      }
    }
  }

  /** Only equalities before column `n` and nothing after it. */
  ghost predicate PinsThenLimit(cons: Cons, n: nat) {
    forall p :: p in cons ==> p <= n && (p < n ==> cons[p].lo.None? && cons[p].up.None?)
  }

  lemma LimitFolds(cons: Cons, prefix: seq<Value>, types: seq<Type>)
    requires ConsTyped(cons, types) && Pinned(cons, prefix, |prefix|) && Typed(prefix, types)
    requires |prefix| < |types| && |prefix| in cons && cons[|prefix|].eq.None?
    ensures var r, c := LimitRange(prefix, cons[|prefix|]), cons[|prefix|];
            && RangeTyped(r, types)
            && (forall pk: seq<Value> :: FullKey(pk, types) && Meets(cons, pk) ==> InRange(Some(r), pk, types) && !Beyond(prefix, c, pk))
            && (PinsThenLimit(cons, |prefix|) ==>
                  forall pk: seq<Value> :: FullKey(pk, types) ==>
                    (InRange(Some(r), pk, types) <==> Meets(cons, pk) || Beyond(prefix, c, pk)))
  {
    var c := cons[|prefix|];
    var r := LimitRange(prefix, c);
    LimitTyped(prefix, c, types);
    forall pk: seq<Value> | FullKey(pk, types)
      ensures Meets(cons, pk) ==> InRange(Some(r), pk, types) && !Beyond(prefix, c, pk)
      ensures PinsThenLimit(cons, |prefix|) ==> (InRange(Some(r), pk, types) <==> Meets(cons, pk) || Beyond(prefix, c, pk))
    {
      LimitFoldsAt(cons, prefix, pk, types);
    }
  }

  lemma LimitTyped(prefix: seq<Value>, c: Con, types: seq<Type>)
    requires Typed(prefix, types) && |prefix| < |types| && ConTyped(c, types[|prefix|])
    ensures RangeTyped(LimitRange(prefix, c), types)
  {
    if c.lo.Some? {
      TypedSnoc(prefix, c.lo.value.v, types);
    }
    if c.up.Some? {
      TypedSnoc(prefix, c.up.value.v, types);
    }
  }

  lemma LimitFoldsAt(cons: Cons, prefix: seq<Value>, pk: seq<Value>, types: seq<Type>)
    requires ConsTyped(cons, types) && Pinned(cons, prefix, |prefix|) && Typed(prefix, types) && FullKey(pk, types)
    requires |prefix| < |types| && |prefix| in cons && cons[|prefix|].eq.None?
    ensures var r := LimitRange(prefix, cons[|prefix|]);
            && RangeTyped(r, types)
            && (Meets(cons, pk) ==> InRange(Some(r), pk, types))
            && (PinsThenLimit(cons, |prefix|) ==>
                  (InRange(Some(r), pk, types) <==> Meets(cons, pk) || Beyond(prefix, cons[|prefix|], pk)))
            && !(Meets(cons, pk) && Beyond(prefix, cons[|prefix|], pk))
  {
    var n, c := |prefix|, cons[|prefix|];
    LimitRangeIs(prefix, c, pk, types);
    if Meets(cons, pk) {
      PinnedAgrees(cons, prefix, pk);
      LexTotal(prefix, pk[..n], types);
      assert MeetsCon(c, pk[n]);
    }
    if PinsThenLimit(cons, n) && Agrees(pk, prefix) && MeetsCon(c, pk[n]) {
      forall p | p in cons && p < |pk| ensures MeetsCon(cons[p], pk[p]) {
        assert p < n ==> pk[..n][p] == prefix[p];
      }
    }
  }

  method AnyAfter(cons: Cons, i: nat, types: seq<Type>) returns (any: bool)
    requires ConsTyped(cons, types)
    ensures any <==> exists p :: p in cons && p > i
  {
    var j := i + 1;
    while j < |types|
      invariant i < j && forall p :: i < p < j ==> p !in cons
    {
      if j in cons {
        return true;
      }
      j := j + 1;
    }
    return false;
  }

  /** How many columns from `i` on are pinned without a gap. */
  function Pins(cons: Cons, n: nat, i: nat): (k: nat)
    requires i <= n
    ensures i <= k <= n && (forall q :: i <= q < k ==> q in cons && cons[q].eq.Some?)
    ensures k < n ==> !(k in cons && cons[k].eq.Some?)
    decreases n - i
  {
    if i < n && i in cons && cons[i].eq.Some? then Pins(cons, n, i + 1) else i
  }

  /** The values of the columns pinned at the front. */
  function PinsOf(cons: Cons, n: nat): (prefix: seq<Value>)
    ensures Pinned(cons, prefix, Pins(cons, n, 0))
  {
    seq(Pins(cons, n, 0), i requires 0 <= i < Pins(cons, n, 0) => cons[i].eq.value)
  }

  /** The range of a table with `n` key columns: the pinned front and the limits of the column behind it. */
  function FoldedRange(cons: Cons, n: nat): Option<Range> {
    var k: nat, prefix := Pins(cons, n, 0), PinsOf(cons, n);
    if k < n && k in cons then Some(LimitRange(prefix, cons[k]))
    else if k > 0 then Some(PinRange(prefix))
    else None
  }

  /** No constraint is left out of the range. */
  ghost predicate FoldedExact(cons: Cons, n: nat) {
    PinsThenLimit(cons, Pins(cons, n, 0))
  }

  lemma PinsAre(cons: Cons, pre: seq<Value>, n: nat)
    requires Pinned(cons, pre, |pre|) && |pre| <= n
    requires |pre| == n || |pre| !in cons || cons[|pre|].eq.None?
    ensures Pins(cons, n, 0) == |pre| && PinsOf(cons, n) == pre
  {
    PinsFrom(cons, pre, n, 0);
  }

  lemma {:induction false} PinsFrom(cons: Cons, pre: seq<Value>, n: nat, i: nat)
    requires Pinned(cons, pre, |pre|) && i <= |pre| <= n
    requires |pre| == n || |pre| !in cons || cons[|pre|].eq.None?
    ensures Pins(cons, n, i) == |pre|
    decreases |pre| - i
  {
    if i < |pre| {
      PinsFrom(cons, pre, n, i + 1);
    }
  }

  /** The second loop of `PKRangeFromWhere`. */
  method Fold(cons: Cons, exact0: bool, types: seq<Type>) returns (r: Option<Range>, exact: bool)
    requires ConsTyped(cons, types) && types != []
    ensures r == FoldedRange(cons, |types|)
    ensures exact <==> exact0 && FoldedExact(cons, |types|)
  {
    hide LimitRange;
    exact := exact0;
    var pre: seq<Value> := [];
    for i := 0 to |types|
      invariant i < |types| && Pinned(cons, pre, i)
      invariant exact <==> exact0 && forall p :: p in cons && p < i ==> cons[p].lo.None? && cons[p].up.None?
    {
      if i !in cons {
        var any := AnyAfter(cons, i, types);
        if any {
          exact := false;
        }
        PinsAre(cons, pre, |types|);
        return if |pre| > 0 then Some(PinRange(pre)) else None, exact;
      }
      var c := cons[i];
      if c.eq.Some? {
        if c.lo.Some? || c.up.Some? {
          exact := false;
        }
        pre := pre + [c.eq.value];
        if i == |types| - 1 {
          PinsAre(cons, pre, |types|);
          return Some(PinRange(pre)), exact;
        }
      } else {
        var any := AnyAfter(cons, i, types);
        if any {
          exact := false;
        }
        PinsAre(cons, pre, |types|);
        return Some(LimitRange(pre, c)), exact;
      }
    }
  }

  /** The keys beyond the pinned front that the range takes in. */
  ghost predicate Past(cons: Cons, n: nat, pk: seq<Value>) {
    var k := Pins(cons, n, 0);
    k < n && k in cons && Beyond(PinsOf(cons, n), cons[k], pk)
  }

  /**
   The range keeps every key that meets the constraints; with no constraint left out the
   only others are those beyond its open sides.
   */
  lemma FoldedKeeps(cons: Cons, types: seq<Type>)
    requires ConsTyped(cons, types) && cons != map[]
    ensures var r, n := FoldedRange(cons, |types|), |types|;
            && (r.Some? ==> RangeTyped(r.value, types))
            && (forall pk: seq<Value> :: FullKey(pk, types) && Meets(cons, pk) ==> InRange(r, pk, types) && !Past(cons, n, pk))
            && (FoldedExact(cons, n) ==>
                  forall pk: seq<Value> :: FullKey(pk, types) ==> (InRange(r, pk, types) <==> Meets(cons, pk) || Past(cons, n, pk)))
  {
    hide InRange;
    hide LexLess;
    hide LimitRange;
    hide PinRange;
    var k, prefix := Pins(cons, |types|, 0), PinsOf(cons, |types|);
    PinnedTyped(cons, prefix, types);
    if k < |types| && k in cons {
      LimitFolds(cons, prefix, types);
    } else if k > 0 {
      PinFolds(cons, prefix, types);
      assert FoldedExact(cons, |types|) ==> OnlyPins(cons, k);
    } else {
      var p :| p in cons;
      assert !FoldedExact(cons, |types|);
      NoRangeKeeps(types);
    }
  }

  lemma NoRangeKeeps(types: seq<Type>)
    ensures forall pk: seq<Value> :: FullKey(pk, types) ==> InRange(None, pk, types)
  {
  }

  lemma PinnedTyped(cons: Cons, prefix: seq<Value>, types: seq<Type>)
    requires ConsTyped(cons, types) && Pinned(cons, prefix, |prefix|) && |prefix| <= |types|
    ensures Typed(prefix, types)
  {
  }

  // ----- The plan -----

  function PlannedRange(where: Option<Where>, types: seq<Type>): Option<Range> {
    if types == [] || where.None? || ConsOf(where.value, map[]) == map[] then None
    else FoldedRange(ConsOf(where.value, map[]), |types|)
  }

  ghost predicate PlannedExact(where: Option<Where>, types: seq<Type>) {
    types != [] && where.Some? && Consumed(where.value) && FoldedExact(ConsOf(where.value, map[]), |types|)
  }

  /**
   When `exact` is reported: each mentioned column has only pinned columns before it, and a
   pinned column has no limits.
   */
  ghost predicate InKeyOrder(e: Where) {
    forall p: nat :: Mentioned(e, p) ==>
      && (forall q: nat :: q < p ==> PinOf(e, q).Some?)
      && (PinOf(e, p).Some? ==> !HasLower(e, p) && !HasUpper(e, p))
  }

  lemma {:induction false} PinnedMentioned(e: Where, p: nat)
    ensures PinOf(e, p).Some? || HasLower(e, p) || HasUpper(e, p) ==> Mentioned(e, p)
  {
    match e
    case And(l, r) => PinnedMentioned(l, p); PinnedMentioned(r, p);
    case Cmp(_, _, _, _) =>
    case Other(_) =>
  }

  lemma {:induction false} MentionedTyped(e: Where, types: seq<Type>, p: nat)
    requires WellTyped(e, types) && Mentioned(e, p)
    ensures p < |types|
  {
    match e
    case And(l, r) => if Mentioned(l, p) { MentionedTyped(l, types, p); } else { MentionedTyped(r, types, p); }
    case Cmp(_, _, _, _) =>
  }

  lemma PlannedExactIff(e: Where, types: seq<Type>)
    requires WellTyped(e, types)
    ensures PlannedExact(Some(e), types) <==> types != [] && Consumed(e) && InKeyOrder(e)
  {
    var cons, n := ConsOf(e, map[]), |types|;
    var k := Pins(cons, n, 0);
    forall p: nat
      ensures p in cons <==> Mentioned(e, p)
      ensures p in cons ==> cons[p].eq == PinOf(e, p) && (cons[p].lo.Some? <==> HasLower(e, p)) && (cons[p].up.Some? <==> HasUpper(e, p))
      ensures PinOf(e, p).Some? ==> p in cons
      ensures p in cons ==> p < n
    {
      ConsOfSays(e, map[], p);
      PinnedMentioned(e, p);
      if Mentioned(e, p) {
        MentionedTyped(e, types, p);
      }
    }
    if FoldedExact(cons, n) {
      forall p: nat | Mentioned(e, p)
        ensures forall q: nat :: q < p ==> PinOf(e, q).Some?
        ensures PinOf(e, p).Some? ==> !HasLower(e, p) && !HasUpper(e, p)
      {
        assert p in cons && p <= k;
      }
    }
    if InKeyOrder(e) {
      forall p | p in cons ensures p <= k && (p < k ==> cons[p].lo.None? && cons[p].up.None?) {
        assert Mentioned(e, p);
        assert k < p ==> PinOf(e, k).Some?;
      }
    }
  }

  /** `PKRangeFromWhere`. The range always holds every row that passes. */
  method PKRangeFromWhere(where: Option<Where>, types: seq<Type>) returns (r: Option<Range>, exact: bool)
    requires where.Some? ==> WellTyped(where.value, types)
    ensures r == PlannedRange(where, types)
    ensures r.Some? ==> RangeTyped(r.value, types)
    ensures where.Some? ==> forall row: Row :: FullKey(row.pk, types) && Passes(where.value, row) ==> InRange(r, row.pk, types)
    ensures exact <==> types != [] && where.Some? && Consumed(where.value) && InKeyOrder(where.value)
  {
    if where.Some? {
      PlanKeeps(where.value, types);
      PlannedExactIff(where.value, types);
    }
    if |types| == 0 || where.None? {
      return None, false;
    }
    var cons;
    cons, exact := Visit(where.value, map[], true);
    VisitReads(where.value, map[], types);
    if cons == map[] {
      return None, exact;
    }
    r, exact := Fold(cons, exact, types);
  }

  /** What the range of a clause holds: every row that passes, and the keys its constraints do not tell apart. */
  lemma PlanKeeps(e: Where, types: seq<Type>)
    requires WellTyped(e, types)
    ensures var r, cons := PlannedRange(Some(e), types), ConsOf(e, map[]);
            && (r.Some? ==> RangeTyped(r.value, types))
            && (forall row: Row :: FullKey(row.pk, types) && Passes(e, row) ==>
                  InRange(r, row.pk, types) && Meets(cons, row.pk) && !Past(cons, |types|, row.pk))
            && (PlannedExact(Some(e), types) ==>
                  forall pk: seq<Value> :: FullKey(pk, types) ==> (InRange(r, pk, types) <==> Meets(cons, pk) || Past(cons, |types|, pk)))
  {
    hide InRange;
    hide Past;
    hide Meets;
    hide FoldedRange;
    hide FoldedExact;
    hide Consumed;
    var cons := ConsOf(e, map[]);
    VisitReads(e, map[], types);
    PassesMeets(e, types);
    if cons != map[] {
      FoldedKeeps(cons, types);
    } else {
      NoRangeKeeps(types);
      NoConsKeep(types);
    }
  }

  lemma PassesMeets(e: Where, types: seq<Type>)
    requires WellTyped(e, types)
    ensures forall row: Row :: FullKey(row.pk, types) && Passes(e, row) ==> Meets(ConsOf(e, map[]), row.pk)
  {
    VisitReads(e, map[], types);
    forall row: Row | FullKey(row.pk, types) && Passes(e, row) ensures Meets(ConsOf(e, map[]), row.pk) {
      assert Meets(map[], row.pk);
    }
  }

  lemma NoConsKeep(types: seq<Type>)
    ensures forall pk: seq<Value> :: Meets(map[], pk) && !Past(map[], |types|, pk)
  {
  }

  // ----- When every key that meets the constraints passes -----

  predicate MeetsLimits(c: Con, v: Value) {
    (c.lo.Some? ==> Above(v, c.lo.value)) && (c.up.Some? ==> Below(v, c.up.value))
  }

  /**
   Every equality says what the last one on its column says, and every `<>` excludes a
   value the other comparisons exclude as well.
   */
  predicate Consistent(e: Where, whole: Where) {
    match e
    case And(l, r) => Consistent(l, whole) && Consistent(r, whole)
    case Cmp(col, op, lit, _) =>
      lit.Some? ==>
        && (op.Eq? ==> PinOf(whole, col) == lit)
        && (op.Ne? ==> !MeetsCon(ConAt(ConsOf(whole, map[]), col), lit.value))
    case Other(_) => true
  }

  /** Some key of the table meets all constraints. */
  ghost predicate Satisfiable(cons: Cons, types: seq<Type>) {
    exists pk: seq<Value> :: FullKey(pk, types) && Meets(cons, pk)
  }

  ghost predicate Reachable(c: Con, t: Type) {
    exists v :: HasType(v, t) && MeetsCon(c, v)
  }

  ghost function Reached(c: Con, t: Type): (v: Value)
    requires Reachable(c, t)
    ensures HasType(v, t) && MeetsCon(c, v)
  {
    var v :| HasType(v, t) && MeetsCon(c, v);
    v
  }

  /** That is a matter of each column on its own. */
  lemma SatisfiableByColumn(cons: Cons, types: seq<Type>)
    ensures Satisfiable(cons, types) <==> forall p :: 0 <= p < |types| ==> Reachable(ConAt(cons, p), types[p])
  {
    if Satisfiable(cons, types) {
      var pk: seq<Value> :| FullKey(pk, types) && Meets(cons, pk);
      forall p | 0 <= p < |types| ensures Reachable(ConAt(cons, p), types[p]) {
        assert HasType(pk[p], types[p]) && MeetsCon(ConAt(cons, p), pk[p]);
      }
    }
    if forall p :: 0 <= p < |types| ==> Reachable(ConAt(cons, p), types[p]) {
      var pk := seq(|types|, p requires 0 <= p < |types| => Reached(ConAt(cons, p), types[p]));
      assert FullKey(pk, types) && Meets(cons, pk);
    }
  }

  lemma NarrowedLimits(c: Con, op: CmpOp, v: Value, x: Value, t: Type)
    requires ConTyped(c, t) && HasType(v, t) && HasType(x, t) && MeetsLimits(Narrowed(c, op, v), x)
    ensures MeetsLimits(c, x) && (op != Eq && op != Ne ==> Holds(op, x, v))
  {
    NarrowedMeets(c.(eq := None), op, v, x, t);
  }

  /** Later comparisons only tighten the limits of a column. */
  lemma {:induction false} LimitsKept(e: Where, cons0: Cons, types: seq<Type>, p: nat, v: Value)
    requires WellTyped(e, types) && ConsTyped(cons0, types) && p < |types| && HasType(v, types[p])
    requires MeetsLimits(ConAt(ConsOf(e, cons0), p), v)
    ensures MeetsLimits(ConAt(cons0, p), v)
    decreases e
  {
    match e
    case And(l, r) =>
      VisitReads(l, cons0, types);
      LimitsKept(r, ConsOf(l, cons0), types, p, v);
      LimitsKept(l, cons0, types, p, v);
    case Cmp(col, _, lit, _) =>
      if col == p && lit.Some? {
        NarrowedLimits(ConAt(cons0, p), OpOf(e), lit.value, v, types[p]);
      }
    case Other(_) =>
  }

  /** A key that meets the constraints of a clause passes each consistent part of it. */
  lemma {:induction false} PartPasses(e: Where, cons0: Cons, whole: Where, row: Row, types: seq<Type>)
    requires WellTyped(e, types) && ConsTyped(cons0, types) && FullKey(row.pk, types)
    requires Consumed(e) && Consistent(e, whole) && Meets(ConsOf(whole, map[]), row.pk)
    requires forall p :: 0 <= p < |row.pk| ==> MeetsLimits(ConAt(ConsOf(e, cons0), p), row.pk[p])
    ensures Passes(e, row)
    decreases e
  {
    match e
    case And(l, r) =>
      VisitReads(l, cons0, types);
      PartPasses(r, ConsOf(l, cons0), whole, row, types);
      forall p | 0 <= p < |row.pk| ensures MeetsLimits(ConAt(ConsOf(l, cons0), p), row.pk[p]) {
        LimitsKept(r, ConsOf(l, cons0), types, p, row.pk[p]);
      }
      PartPasses(l, cons0, whole, row, types);
    case Cmp(p, op, lit, _) =>
      var x := row.pk[p];
      ConsOfSays(whole, map[], p);
      assert MeetsCon(ConAt(ConsOf(whole, map[]), p), x);
      NarrowedLimits(ConAt(cons0, p), OpOf(e), lit.value, x, types[p]);
      FlipHolds(op, lit.value, x);
  }

  /** If every key that meets the constraints passes, and there is one, the clause is consistent. */
  lemma {:induction false} PartConsistent(e: Where, whole: Where, pk: seq<Value>, types: seq<Type>)
    requires WellTyped(e, types) && FullKey(pk, types) && Meets(ConsOf(whole, map[]), pk)
    requires forall row: Row :: FullKey(row.pk, types) && Meets(ConsOf(whole, map[]), row.pk) ==> Passes(e, row)
    requires forall p :: PinOf(e, p).Some? ==> PinOf(whole, p).Some?
    ensures Consistent(e, whole)
    decreases e
  {
    var cons := ConsOf(whole, map[]);
    match e
    case And(l, r) =>
      PartConsistent(l, whole, pk, types);
      PartConsistent(r, whole, pk, types);
    case Cmp(p, op, lit, _) =>
      ConsOfSays(whole, map[], p);
      if lit.Some? && op.Eq? {
        assert Passes(e, Row(pk, {}));
        assert PinOf(e, p).Some?;
        assert MeetsCon(ConAt(cons, p), pk[p]);
      }
      if lit.Some? && op.Ne? && MeetsCon(ConAt(cons, p), lit.value) {
        var pk' := pk[p := lit.value];
        assert Meets(cons, pk');
        assert !Passes(e, Row(pk', {}));
      }
    case Other(_) =>
  }

  lemma AdmitsIff(e: Where, types: seq<Type>)
    requires WellTyped(e, types) && Consumed(e)
    ensures var cons := ConsOf(e, map[]);
            (forall row: Row :: FullKey(row.pk, types) && Meets(cons, row.pk) ==> Passes(e, row)) <==>
            Consistent(e, e) || !Satisfiable(cons, types)
  {
    var cons := ConsOf(e, map[]);
    if Consistent(e, e) {
      forall row: Row | FullKey(row.pk, types) && Meets(cons, row.pk) ensures Passes(e, row) {
        PartPasses(e, map[], e, row, types);
      }
    } else if Satisfiable(cons, types) {
      var pk: seq<Value> :| FullKey(pk, types) && Meets(cons, pk);
      if forall row: Row :: FullKey(row.pk, types) && Meets(cons, row.pk) ==> Passes(e, row) {
        PartConsistent(e, e, pk, types);
      }
    }
  }

  // ----- When a key lies beyond an open side -----

  predicate Greatest(v: Value) {
    match v
    case IntV(i) => i == TWO_63 - 1
    case StringV(_) => false
    case BoolV(b) => b
    case TimeV(m) => m == TWO_63 - 1
  }

  predicate Least(v: Value) {
    match v
    case IntV(i) => i == -(TWO_63 as int)
    case StringV(s) => s == []
    case BoolV(b) => !b
    case TimeV(m) => m == -(TWO_63 as int)
  }

  function Default(t: Type): (v: Value)
    ensures HasType(v, t)
  {
    match t
    case IntT => IntV(0)
    case StringT => StringV([])
    case BoolT => BoolV(false)
    case TimeT => TimeV(0)
  }

  function Defaults(types: seq<Type>): (vals: seq<Value>)
    ensures FullKey(vals, types)
  {
    seq(|types|, i requires 0 <= i < |types| => Default(types[i]))
  }

  /** A value that is not the greatest of its type has one above it, and one that is not the least has one below it. */
  lemma Neighbours(v: Value, t: Type)
    requires HasType(v, t)
    ensures !Greatest(v) <==> exists x :: HasType(x, t) && LessV(v, x)
    ensures !Least(v) <==> exists x :: HasType(x, t) && LessV(x, v)
  {
    match v
    case IntV(i) =>
      assert !Greatest(v) ==> HasType(IntV(i + 1), t) && LessV(v, IntV(i + 1));
      assert !Least(v) ==> HasType(IntV(i - 1), t) && LessV(IntV(i - 1), v);
    case StringV(s) =>
      PrefixLess(s, s + [1]);
      assert HasType(StringV(s + [1]), t) && LessV(v, StringV(s + [1]));
      assert !Least(v) ==> LessV(StringV([]), v);
    case BoolV(b) =>
      assert LessV(BoolV(b), BoolV(true)) <==> !b;
      assert LessV(BoolV(false), BoolV(b)) <==> b;
    case TimeV(m) =>
      assert !Greatest(v) ==> HasType(TimeV(m + 1), t) && LessV(v, TimeV(m + 1));
      assert !Least(v) ==> HasType(TimeV(m - 1), t) && LessV(TimeV(m - 1), v);
  }

  lemma {:induction false} LexAt(a: seq<Value>, b: seq<Value>, q: nat)
    requires q < |a| == |b| && a[..q] == b[..q] && LessV(a[q], b[q])
    ensures LexLess(a, b)
  {
    if q > 0 {
      assert a[0] == a[..q][0] == b[..q][0] == b[0];
      assert a[1..][..q - 1] == a[..q][1..] && b[1..][..q - 1] == b[..q][1..];
      LexAt(a[1..], b[1..], q - 1);
    }
  }

  lemma {:induction false} LexFrom(a: seq<Value>, b: seq<Value>) returns (q: nat)
    requires |a| == |b| && LexLess(a, b)
    ensures q < |a| && LessV(a[q], b[q])
  {
    if LessV(a[0], b[0]) {
      q := 0;
    } else {
      q := LexFrom(a[1..], b[1..]);
      q := q + 1;
    }
  }

  lemma KeyWith(prefix: seq<Value>, q: nat, x: Value, types: seq<Type>) returns (pk: seq<Value>)
    requires Typed(prefix, types) && q < |prefix| && HasType(x, types[q])
    ensures FullKey(pk, types) && pk[..q] == prefix[..q] && pk[q] == x
  {
    pk := prefix[..q] + [x] + Defaults(types)[q + 1..];
  }

  /** Some key of the table lies above the prefix exactly if some value of it is not the greatest. */
  lemma AboveIff(prefix: seq<Value>, types: seq<Type>)
    requires Typed(prefix, types)
    ensures (exists pk: seq<Value> :: FullKey(pk, types) && LexLess(prefix, pk[..|prefix|])) <==>
            exists q :: 0 <= q < |prefix| && !Greatest(prefix[q])
  {
    hide LessV;
    hide HasType;
    hide LexLess;
    hide Greatest;
    var n := |prefix|;
    if pk: seq<Value> :| FullKey(pk, types) && LexLess(prefix, pk[..n]) {
      var q := LexFrom(prefix, pk[..n]);
      Neighbours(prefix[q], types[q]);
    }
    if q :| 0 <= q < n && !Greatest(prefix[q]) {
      Neighbours(prefix[q], types[q]);
      var x :| HasType(x, types[q]) && LessV(prefix[q], x);
      var pk := KeyWith(prefix, q, x, types);
      assert pk[..n][..q] == prefix[..q];
      LexAt(prefix, pk[..n], q);
    }
  }

  /** ... and below it exactly if some value is not the least. */
  lemma BelowIff(prefix: seq<Value>, types: seq<Type>)
    requires Typed(prefix, types)
    ensures (exists pk: seq<Value> :: FullKey(pk, types) && LexLess(pk[..|prefix|], prefix)) <==>
            exists q :: 0 <= q < |prefix| && !Least(prefix[q])
  {
    hide LessV;
    hide HasType;
    hide LexLess;
    hide Least;
    var n := |prefix|;
    if pk: seq<Value> :| FullKey(pk, types) && LexLess(pk[..n], prefix) {
      var q := LexFrom(pk[..n], prefix);
      Neighbours(prefix[q], types[q]);
    }
    if q :| 0 <= q < n && !Least(prefix[q]) {
      Neighbours(prefix[q], types[q]);
      var x :| HasType(x, types[q]) && LessV(x, prefix[q]);
      var pk := KeyWith(prefix, q, x, types);
      assert pk[..n][..q] == prefix[..q];
      LexAt(pk[..n], prefix, q);
    }
  }

  /**
   Column `n` follows pinned columns, is mentioned but not pinned, and is open on a side on
   which the pinned values leave room.
   */
  predicate OpenAt(e: Where, n: nat) {
    && n > 0 && Mentioned(e, n) && PinOf(e, n).None? && (forall q :: 0 <= q < n ==> PinOf(e, q).Some?)
    && ((!HasUpper(e, n) && exists q :: 0 <= q < n && !Greatest(PinOf(e, q).value))
        || (!HasLower(e, n) && exists q :: 0 <= q < n && !Least(PinOf(e, q).value)))
  }

  ghost predicate OpenSide(e: Where) {
    exists n: nat :: OpenAt(e, n)
  }

  /** The range takes in a key beyond an open side exactly if the clause has one. */
  lemma PastIff(e: Where, types: seq<Type>)
    requires WellTyped(e, types)
    ensures (exists pk: seq<Value> :: FullKey(pk, types) && Past(ConsOf(e, map[]), |types|, pk)) <==> OpenSide(e)
  {
    var cons, n := ConsOf(e, map[]), |types|;
    var k: nat, prefix := Pins(cons, n, 0), PinsOf(cons, n);
    VisitReads(e, map[], types);
    PinnedTyped(cons, prefix, types);
    FrontSays(e, types);
    hide LexLess;
    hide Greatest;
    hide Least;
    hide Pins;
    hide PinsOf;
    hide OpenAt;
    hide Past;
    if pk: seq<Value> :| FullKey(pk, types) && Past(cons, n, pk) {
      PastHasSide(e, types, pk, prefix);
    }
    if m: nat :| OpenAt(e, m) {
      assert m == k;
      OpenHasKey(e, types, prefix);
    }
  }

  /** The pinned front of the constraints, as the clause says it. */
  lemma FrontSays(e: Where, types: seq<Type>)
    requires WellTyped(e, types)
    ensures var cons, n := ConsOf(e, map[]), |types|;
            var k: nat, prefix := Pins(cons, n, 0), PinsOf(cons, n);
            && (forall q :: 0 <= q < k ==> PinOf(e, q) == Some(prefix[q]))
            && (k in cons <==> Mentioned(e, k))
            && (k < n && k in cons ==> PinOf(e, k).None? && (cons[k].lo.Some? <==> HasLower(e, k)) && (cons[k].up.Some? <==> HasUpper(e, k)))
            && forall m: nat :: OpenAt(e, m) ==> m == k < n
  {
    hide Greatest;
    hide Least;
    var cons, n := ConsOf(e, map[]), |types|;
    var k: nat, prefix := Pins(cons, n, 0), PinsOf(cons, n);
    ConsOfSays(e, map[], k);
    forall q | 0 <= q < k ensures PinOf(e, q) == Some(prefix[q]) {
      ConsOfSays(e, map[], q);
      assert cons[q].eq == Some(prefix[q]);
    }
    forall m: nat | OpenAt(e, m) ensures m == k < n {
      MentionedTyped(e, types, m);
      PinnedMentioned(e, k);
      assert k < m ==> PinOf(e, k).Some?;
    }
  }

  /** A key beyond an open side means the clause is open there. */
  lemma PastHasSide(e: Where, types: seq<Type>, pk: seq<Value>, prefix: seq<Value>)
    requires WellTyped(e, types) && Typed(prefix, types) && FullKey(pk, types) && Past(ConsOf(e, map[]), |types|, pk)
    requires prefix == PinsOf(ConsOf(e, map[]), |types|)
    ensures OpenAt(e, |prefix|)
  {
    var cons, k := ConsOf(e, map[]), |prefix|;
    FrontSays(e, types);
    AboveIff(prefix, types);
    BelowIff(prefix, types);
    hide LexLess;
    hide Greatest;
    hide Least;
    hide ConsOf;
    if cons[k].up.None? && LexLess(prefix, pk[..k]) {
      var q :| 0 <= q < k && !Greatest(prefix[q]);
      assert !Greatest(PinOf(e, q).value);
    } else {
      var q :| 0 <= q < k && !Least(prefix[q]);
      assert !Least(PinOf(e, q).value);
    }
  }

  /** A clause open behind its pinned front lets a key in on that side. */
  lemma OpenHasKey(e: Where, types: seq<Type>, prefix: seq<Value>)
    requires WellTyped(e, types) && Typed(prefix, types) && OpenAt(e, |prefix|)
    requires var cons := ConsOf(e, map[]);
             Pins(cons, |types|, 0) == |prefix| < |types| && PinsOf(cons, |types|) == prefix
    ensures exists pk: seq<Value> :: FullKey(pk, types) && Past(ConsOf(e, map[]), |types|, pk)
  {
    var cons, k := ConsOf(e, map[]), |prefix|;
    FrontSays(e, types);
    AboveIff(prefix, types);
    BelowIff(prefix, types);
    hide LexLess;
    hide Greatest;
    hide Least;
    hide Pins;
    hide PinsOf;
    if !HasUpper(e, k) && exists q :: 0 <= q < k && !Greatest(PinOf(e, q).value) {
      var q :| 0 <= q < k && !Greatest(PinOf(e, q).value);
      assert !Greatest(prefix[q]);
      var pk: seq<Value> :| FullKey(pk, types) && LexLess(prefix, pk[..k]);
      assert Past(cons, |types|, pk);
    } else {
      var q :| 0 <= q < k && !Least(PinOf(e, q).value);
      assert !Least(prefix[q]);
      var pk: seq<Value> :| FullKey(pk, types) && LexLess(pk[..k], prefix);
      assert Past(cons, |types|, pk);
    }
  }

  // ----- When the range is exactly the rows that pass -----

  ghost predicate RangeExact(e: Where, types: seq<Type>)
    requires WellTyped(e, types)
  {
    PlanKeeps(e, types);
    forall row: Row :: FullKey(row.pk, types) ==> (InRange(PlannedRange(Some(e), types), row.pk, types) <==> Passes(e, row))
  }

  /**
   Where `exact` is reported, the range is exactly the rows that pass if and only if no
   side is open beyond pinned values, and the equalities and `<>` of the clause are
   consistent or nothing can pass.
   */
  lemma RangeExactIff(e: Where, types: seq<Type>)
    requires WellTyped(e, types) && PlannedExact(Some(e), types)
    ensures RangeExact(e, types) <==> !OpenSide(e) && (Consistent(e, e) || !Satisfiable(ConsOf(e, map[]), types))
  {
    hide InRange;
    hide Past;
    hide Meets;
    hide PlannedRange;
    PlanKeeps(e, types);
    AdmitsIff(e, types);
    PastIff(e, types);
    var cons, n, r := ConsOf(e, map[]), |types|, PlannedRange(Some(e), types);
    if RangeExact(e, types) {
      forall row: Row | FullKey(row.pk, types) && Meets(cons, row.pk) ensures Passes(e, row) {
        assert InRange(r, row.pk, types);
      }
      forall pk: seq<Value> | FullKey(pk, types) ensures !Past(cons, n, pk) {
        assert InRange(r, pk, types) <==> Passes(e, Row(pk, {}));
      }
    }
  }

  // ----- Plain clauses -----

  /** Only the five range comparisons with non-null literals on key columns. */
  predicate Plain(e: Where) {
    match e
    case And(l, r) => Plain(l) && Plain(r)
    case Cmp(_, op, lit, _) => op != Ne && lit.Some?
    case Other(_) => false
  }

  function EqCount(e: Where, p: nat): (n: nat)
    ensures n == 0 ==> PinOf(e, p).None?
  {
    match e
    case And(l, r) => EqCount(l, p) + EqCount(r, p)
    case Cmp(col, op, lit, _) => if col == p && op.Eq? && lit.Some? then 1 else 0
    case Other(_) => 0
  }

  /** All key columns of the clause have at most one equality. */
  ghost predicate SingleEqs(e: Where) {
    forall p :: EqCount(e, p) <= 1
  }

  lemma {:induction false} SingleConsistent(e: Where, whole: Where)
    requires Plain(e) && SingleEqs(e) && forall p :: PinOf(e, p).Some? ==> PinOf(whole, p) == PinOf(e, p)
    ensures Consistent(e, whole)
    decreases e
  {
    match e
    case And(l, r) =>
      forall p
        ensures EqCount(l, p) <= 1 && EqCount(r, p) <= 1
        ensures PinOf(l, p).Some? ==> PinOf(whole, p) == PinOf(l, p)
        ensures PinOf(r, p).Some? ==> PinOf(whole, p) == PinOf(r, p)
      {
        assert EqCount(e, p) <= 1;
      }
      SingleConsistent(l, whole);
      SingleConsistent(r, whole);
    case Cmp(p, _, _, _) => assert PinOf(e, p).Some? ==> PinOf(whole, p) == PinOf(e, p);
  }

  /**
   For a clause of plain comparisons with at most one equality per column, the range is
   exact where `exact` is reported if and only if no side is open beyond pinned values.
   */
  lemma PlainExactIff(e: Where, types: seq<Type>)
    requires WellTyped(e, types) && PlannedExact(Some(e), types) && Plain(e) && SingleEqs(e)
    ensures RangeExact(e, types) <==> !OpenSide(e)
  {
    SingleConsistent(e, e);
    RangeExactIff(e, types);
  }

  // ----- Where `exact` says too much -----

  /** `a = 5 AND b >= 5` is reported exact, but its range has no upper bound and holds `(6, 0)`. */
  lemma OpenRangeLeaks()
    ensures var types := [IntT, IntT];
            var e := And(Cmp(0, Eq, Some(IntV(5)), false), Cmp(1, Ge, Some(IntV(5)), false));
            var pk := [IntV(6), IntV(0)];
            && WellTyped(e, types) && Plain(e) && SingleEqs(e) && FullKey(pk, types) && PlannedExact(Some(e), types)
            && PlannedRange(Some(e), types) == Some(Range(Some(PkBound([IntV(5), IntV(5)], true)), None))
            && InRange(PlannedRange(Some(e), types), pk, types) && !Passes(e, Row(pk, {}))
  {
    var e := And(Cmp(0, Eq, Some(IntV(5)), false), Cmp(1, Ge, Some(IntV(5)), false));
    var c := Con(None, Some(Limit(IntV(5), false)), None);
    OpenClause(e, c);
    PinThenLimitPlan(e, IntV(5), c);
    FrontOpen(c, [IntV(6), IntV(0)], [IntT, IntT]);
    OpenLimit(c);
    hide *;
  }

  lemma OpenClause(e: Where, c: Con)
    requires e == And(Cmp(0, Eq, Some(IntV(5)), false), Cmp(1, Ge, Some(IntV(5)), false))
    requires c == Con(None, Some(Limit(IntV(5), false)), None)
    ensures WellTyped(e, [IntT, IntT]) && Plain(e) && SingleEqs(e) && Consumed(e)
    ensures ConsOf(e, map[]) == map[0 := Con(Some(IntV(5)), None, None), 1 := c]
    ensures !Passes(e, Row([IntV(6), IntV(0)], {}))
  {
  }

  lemma OpenLimit(c: Con)
    requires c == Con(None, Some(Limit(IntV(5), false)), None)
    ensures LimitRange([IntV(5)], c) == Range(Some(PkBound([IntV(5), IntV(5)], true)), None)
  {
    assert [IntV(5)] + [IntV(5)] == [IntV(5), IntV(5)];
  }

  /** The plan of a clause that pins the first of two columns and limits the second. */
  lemma PinThenLimitPlan(e: Where, v: Value, c: Con)
    requires ConsOf(e, map[]) == map[0 := Con(Some(v), None, None), 1 := c] && c.eq.None? && Consumed(e)
    ensures PlannedExact(Some(e), [IntT, IntT]) && PlannedRange(Some(e), [IntT, IntT]) == Some(LimitRange([v], c))
  {
    hide ConsOf;
    hide LimitRange;
    var cons := ConsOf(e, map[]);
    PinsAre(cons, [v], 2);
    assert 0 in cons;
    assert |[IntT, IntT]| == 2;
  }

  lemma FrontOpen(c: Con, pk: seq<Value>, types: seq<Type>)
    requires c == Con(None, Some(Limit(IntV(5), false)), None) && pk == [IntV(6), IntV(0)] && types == [IntT, IntT]
    ensures FullKey(pk, types) && RangeTyped(LimitRange([IntV(5)], c), types)
    ensures InRange(Some(LimitRange([IntV(5)], c)), pk, types)
  {
    LimitRangeIs([IntV(5)], c, pk, types);
    assert pk[..1] == [IntV(6)];
  }

  /** A second equality on a column replaces the first, and `<>` leaves no trace: both are reported exact. */
  lemma ExactNeedsPlain()
    ensures var twice := And(Cmp(0, Eq, Some(IntV(1)), false), Cmp(0, Eq, Some(IntV(2)), false));
            && WellTyped(twice, [IntT]) && PlannedExact(Some(twice), [IntT])
            && PlannedRange(Some(twice), [IntT]) == Some(PinRange([IntV(2)]))
            && InRange(Some(PinRange([IntV(2)])), [IntV(2)], [IntT]) && !Passes(twice, Row([IntV(2)], {}))
    ensures var unequal := Cmp(0, Ne, Some(IntV(1)), false);
            && WellTyped(unequal, [IntT]) && PlannedExact(Some(unequal), [IntT])
            && PlannedRange(Some(unequal), [IntT]) == Some(Range(None, None))
            && InRange(Some(Range(None, None)), [IntV(1)], [IntT]) && !Passes(unequal, Row([IntV(1)], {}))
  {
    var twice := And(Cmp(0, Eq, Some(IntV(1)), false), Cmp(0, Eq, Some(IntV(2)), false));
    var unequal := Cmp(0, Ne, Some(IntV(1)), false);
    OneColumnPlan(twice, Con(Some(IntV(2)), None, None));
    OneColumnPlan(unequal, NO_CON);
    PinRangeIs([IntV(2)], [IntV(2)], [IntT]);
    hide PlannedRange;
    hide PlannedExact;
  }

  /** The plan of a clause on the only key column, without limits. */
  lemma OneColumnPlan(e: Where, c: Con)
    requires ConsOf(e, map[]) == map[0 := c] && c.lo.None? && c.up.None? && Consumed(e)
    ensures PlannedExact(Some(e), [IntT])
    ensures PlannedRange(Some(e), [IntT]) == Some(if c.eq.Some? then PinRange([c.eq.value]) else Range(None, None))
  {
    hide ConsOf;
    var cons := ConsOf(e, map[]);
    assert 0 in cons;
    PinsAre(cons, if c.eq.Some? then [c.eq.value] else [], 1);
  }
}
