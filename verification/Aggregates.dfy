/**
 Aggregates over the values of a column, and over partial aggregates of shards: the
 merge of the partials is the aggregate of all rows. Sums are exact.
 */
module Aggregates {
  import opened Bytes
  import opened Wrappers

  datatype Value = Null | IntV(i: int) | FloatV(f: real) | StringV(s: Key) | BoolV(b: bool)

  type Row = seq<Value>

  predicate Numeric(v: Value) {
    v.IntV? || v.FloatV?
  }

  function AsReal(v: Value): real {
    match v
    case IntV(i) => i as real
    case FloatV(f) => f
    case _ => 0.0
  }

  /** `Compare(a, b) < 0` for values other than NULL; numbers are compared as numbers. */
  predicate LessV(a: Value, b: Value) {
    if Numeric(a) && Numeric(b) then AsReal(a) < AsReal(b)
    else match (a, b)
      case (StringV(x), StringV(y)) => Less(x, y)
      case (BoolV(x), BoolV(y)) => !x && y
      case _ => false
  }

  datatype Kind = Count | Sum | Min | Max

  // ----- What an aggregate is -----

  function CountOf(vals: seq<Value>): nat {
    if vals == [] then 0 else CountOf(vals[..|vals| - 1]) + if vals[|vals| - 1].Null? then 0 else 1
  }

  function Total(vals: seq<Value>): real {
    if vals == [] then 0.0 else Total(vals[..|vals| - 1]) + AsReal(vals[|vals| - 1])
  }

  predicate AnyValue(vals: seq<Value>) {
    exists i :: 0 <= i < |vals| && !vals[i].Null?
  }

  predicate AllInts(vals: seq<Value>) {
    forall i :: 0 <= i < |vals| && !vals[i].Null? ==> vals[i].IntV?
  }

  function SumOf(vals: seq<Value>): Value {
    if !AnyValue(vals) then Null
    else if AllInts(vals) then IntV(Total(vals).Floor)
    else FloatV(Total(vals))
  }

  /** `a` replaces `b` as the best value. */
  predicate Better(kind: Kind, a: Value, b: Value) {
    if kind.Min? then LessV(a, b) else LessV(b, a)
  }

  function Best(kind: Kind, vals: seq<Value>): Value {
    if vals == [] then Null
    else
      var best, v := Best(kind, vals[..|vals| - 1]), vals[|vals| - 1];
      if v.Null? then best
      else if best.Null? || Better(kind, v, best) then v
      else best
  }

  /** An aggregate of a column, as `evalAggregateCall` defines it. */
  function Agg(kind: Kind, vals: seq<Value>): Value {
    match kind
    case Count => IntV(CountOf(vals))
    case Sum => SumOf(vals)
    case _ => Best(kind, vals)
  }

  function AvgOf(vals: seq<Value>): Value {
    if CountOf(vals) == 0 then Null else FloatV(Total(vals) / CountOf(vals) as real)
  }

  /** The sum of the counts in a list of partial results. */
  function Counted(vals: seq<Value>): int {
    if vals == [] then 0 else Counted(vals[..|vals| - 1]) + if vals[|vals| - 1].IntV? then vals[|vals| - 1].i else 0
  }

  /** How partial results of a kind combine. */
  function Combined(kind: Kind, partials: seq<Value>): Value {
    if kind.Count? then IntV(Counted(partials)) else Agg(kind, partials)
  }

  // ----- What the aggregates mean -----

  /** One value is below another: numbers by size, strings by bytes, false before true. */
  ghost predicate Below(a: Value, b: Value) {
    match (a, b)
    case (IntV(x), IntV(y)) => x < y
    case (IntV(x), FloatV(y)) => x as real < y
    case (FloatV(x), IntV(y)) => x < y as real
    case (FloatV(x), FloatV(y)) => x < y
    case (StringV(x), StringV(y)) => exists i :: Differ(x, y, i)
    case (BoolV(x), BoolV(y)) => x == false && y == true
    case _ => false
  }

  /** The value at `i` is the first least, or the first greatest, of a column. */
  ghost predicate Extreme(kind: Kind, vals: seq<Value>, i: int) {
    && 0 <= i < |vals| && !vals[i].Null?
    && (forall j :: 0 <= j < |vals| && !vals[j].Null? ==> if kind.Min? then !Below(vals[j], vals[i]) else !Below(vals[i], vals[j]))
    && (forall j :: 0 <= j < i && !vals[j].Null? ==> if kind.Min? then Below(vals[i], vals[j]) else Below(vals[j], vals[i]))
  }

  ghost predicate IsBest(kind: Kind, vals: seq<Value>, best: Value) {
    if best.Null? then forall i :: 0 <= i < |vals| ==> vals[i].Null?
    else exists i :: Extreme(kind, vals, i) && best == vals[i]
  }

  /** The positions of a column that hold a value. */
  ghost function Held(vals: seq<Value>): set<int> {
    set i | 0 <= i < |vals| && !vals[i].Null?
  }

  /** The numbers of a column added up. */
  ghost function Plus(vals: seq<Value>): real {
    if vals == [] then 0.0
    else
      var rest := Plus(vals[1..]);
      match vals[0]
      case IntV(i) => i as real + rest
      case FloatV(f) => f + rest
      case _ => rest
  }

  /** NULL for no value, an integer if there are only integers, and otherwise a float. */
  ghost predicate IsSum(vals: seq<Value>, r: Value) {
    if Held(vals) == {} then r.Null?
    else if forall i :: i in Held(vals) ==> vals[i].IntV? then r.IntV? && r.i as real == Plus(vals)
    else r.FloatV? && r.f == Plus(vals)
  }

  lemma {:induction false} CountHolds(vals: seq<Value>)
    ensures CountOf(vals) == |Held(vals)|
  {
    if vals != [] {
      var n := |vals| - 1;
      CountHolds(vals[..n]);
      assert Held(vals) == Held(vals[..n]) + if vals[n].Null? then {} else {n};
    }
  }

  lemma {:induction false} TotalAdds(vals: seq<Value>)
    ensures Total(vals) == Plus(vals)
  {
    if vals != [] {
      assert vals == [vals[0]] + vals[1..];
      TotalAdds(vals[1..]);
      CountConcat([vals[0]], vals[1..]);
      SingleValue(vals[0]);
    }
  }

  lemma SumAdds(vals: seq<Value>)
    ensures IsSum(vals, SumOf(vals))
  {
    TotalAdds(vals);
    hide Plus;
    assert AnyValue(vals) <==> Held(vals) != {} by {
      if i :| 0 <= i < |vals| && !vals[i].Null? {
        assert i in Held(vals);
      }
    }
    if AllInts(vals) {
      IntTotal(vals);
    }
  }

  /** An average times the number of values is their sum. */
  lemma AvgDivides(vals: seq<Value>)
    ensures AvgOf(vals).Null? <==> Held(vals) == {}
    ensures Held(vals) != {} ==> AvgOf(vals).FloatV? && AvgOf(vals).f * |Held(vals)| as real == Plus(vals)
  {
    CountHolds(vals);
    TotalAdds(vals);
    hide Plus;
  }

  /** Within a class the comparison is the order of the values. */
  lemma BelowIsLess(a: Value, b: Value)
    ensures OneClass([a, b]) && !a.Null? && !b.Null? ==> (LessV(a, b) <==> Below(a, b))
  {
    assert [a, b][0] == a && [a, b][1] == b;
    if a.StringV? && b.StringV? {
      LessDiffers(a.s, b.s);
    }
  }

  lemma BelowOrders(a: Value, b: Value, c: Value)
    requires OneClass([a, b, c]) && !a.Null? && !b.Null? && !c.Null?
    ensures Below(a, b) && !Below(c, b) ==> Below(a, c)
    ensures !Below(b, a) && Below(b, c) ==> Below(a, c)
    ensures Below(a, c) ==> !Below(c, a)
  {
    var vs := [a, b, c];
    assert vs[0] == a && vs[1] == b && vs[2] == c;
    Order();
    ClassPairs(a, b, c);
    BelowIsLess(a, b);
    BelowIsLess(b, a);
    BelowIsLess(b, c);
    BelowIsLess(c, b);
    BelowIsLess(a, c);
    BelowIsLess(c, a);
    hide Below;
  }

  lemma ClassPairs(a: Value, b: Value, c: Value)
    requires OneClass([a, b, c])
    ensures OneClass([a, b]) && OneClass([b, a]) && OneClass([b, c]) && OneClass([c, b]) && OneClass([a, c]) && OneClass([c, a])
  {
    OneClassOf([a, b, c], [a, b]);
    OneClassOf([a, b, c], [b, a]);
    OneClassOf([a, b, c], [b, c]);
    OneClassOf([a, b, c], [c, b]);
    OneClassOf([a, b, c], [a, c]);
    OneClassOf([a, b, c], [c, a]);
  }

  /** Among values of one class the minimum is the first least, the maximum the first greatest. */
  lemma {:induction false} BestIs(kind: Kind, vals: seq<Value>)
    requires OneClass(vals) && (kind.Min? || kind.Max?)
    ensures IsBest(kind, vals, Best(kind, vals))
  {
    if vals != [] {
      var n := |vals| - 1;
      assert vals == vals[..n] + [vals[n]];
      OneClassConcat(vals[..n], [vals[n]]);
      BestIs(kind, vals[..n]);
      BestOnce(kind, vals[..n], Best(kind, vals[..n]), vals[n]);
    }
  }

  lemma BestOnce(kind: Kind, vals: seq<Value>, best: Value, v: Value)
    requires OneClass(vals + [v]) && (kind.Min? || kind.Max?) && IsBest(kind, vals, best)
    ensures IsBest(kind, vals + [v], if v.Null? then best else if best.Null? || Better(kind, v, best) then v else best)
  {
    var all, n := vals + [v], |vals|;
    assert all[n] == v && forall i :: 0 <= i < n ==> all[i] == vals[i];
    if best.Null? {
      if !v.Null? {
        BelowSelf(v);
        assert Extreme(kind, all, n);
      }
    } else {
      var i :| Extreme(kind, vals, i) && best == vals[i];
      if v.Null? {
        assert Extreme(kind, all, i);
      } else {
        forall j | 0 <= j < n && !vals[j].Null? ensures OneClass([vals[j], best, v]) {
          OneClassOf(all, [vals[j], best, v]);
        }
        BestNext(kind, vals, i, v);
      }
    }
  }

  lemma BelowSelf(v: Value)
    ensures !Below(v, v)
  {
    if v.StringV? {
      LessDiffers(v.s, v.s);
      LessIrreflexive(v.s);
    }
  }

  lemma BestNext(kind: Kind, vals: seq<Value>, i: int, v: Value)
    requires (kind.Min? || kind.Max?) && !v.Null? && Extreme(kind, vals, i)
    requires forall j :: 0 <= j < |vals| && !vals[j].Null? ==> OneClass([vals[j], vals[i], v])
    ensures Extreme(kind, vals + [v], if Better(kind, v, vals[i]) then |vals| else i)
  {
    var all, n, best := vals + [v], |vals|, vals[i];
    assert all[n] == v && forall j :: 0 <= j < n ==> all[j] == vals[j];
    hide Below;
    hide OneClass;
    ClassPairs(best, best, v);
    BelowIsLess(v, best);
    BelowIsLess(best, v);
    BelowSelf(v);
    forall j | 0 <= j < n && !vals[j].Null?
      ensures kind.Min? && Below(v, best) ==> Below(v, vals[j]) && !Below(vals[j], v)
      ensures kind.Max? && Below(best, v) ==> Below(vals[j], v) && !Below(v, vals[j])
    {
      var w := vals[j];
      OneClassOf([w, best, v], [v, best, w]);
      BelowOrders(v, best, w);
      BelowOrders(w, best, v);
    }
  }

  // ----- The loops -----

  method EvalCount(vals: seq<Value>) returns (r: Value)
    ensures r == Agg(Count, vals) == IntV(|Held(vals)|)
  {
    CountHolds(vals);
    var cnt := 0;
    for i := 0 to |vals|
      invariant cnt == CountOf(vals[..i])
    {
      assert vals[..i + 1][..i] == vals[..i];
      if !vals[i].Null? {
        cnt := cnt + 1;
      }
    }
    assert vals[..|vals|] == vals;
    r := IntV(cnt);
  }

  /** The sum, or an error if a value is not a number. */
  method EvalSum(vals: seq<Value>) returns (r: Option<Value>)
    ensures r.Some? <==> forall i :: 0 <= i < |vals| ==> vals[i].Null? || Numeric(vals[i])
    ensures r.Some? ==> r.value == Agg(Sum, vals) && IsSum(vals, r.value)
  {
    SumAdds(vals);
    hide IsSum;
    var total, isInt, any := 0.0, true, false;
    for i := 0 to |vals|
      invariant forall x :: 0 <= x < i ==> vals[x].Null? || Numeric(vals[x])
      invariant total == Total(vals[..i]) && isInt == AllInts(vals[..i]) && any == AnyValue(vals[..i])
    {
      SnocValues(vals, i);
      if vals[i].Null? {
        continue;
      }
      if !vals[i].IntV? {
        isInt := false;
      }
      if !Numeric(vals[i]) {
        return None;
      }
      total := total + AsReal(vals[i]);
      any := true;
    }
    assert vals[..|vals|] == vals;
    r := Some(if !any then Null else if isInt then IntV(total.Floor) else FloatV(total));
  }

  lemma SnocValues(vals: seq<Value>, i: nat)
    requires i < |vals|
    ensures vals[..i + 1][..i] == vals[..i]
    ensures AllInts(vals[..i + 1]) <==> AllInts(vals[..i]) && (vals[i].Null? || vals[i].IntV?)
    ensures AnyValue(vals[..i + 1]) <==> AnyValue(vals[..i]) || !vals[i].Null?
    ensures Total(vals[..i + 1]) == Total(vals[..i]) + AsReal(vals[i])
  {
    assert vals[..i + 1][..i] == vals[..i] && vals[..i + 1][i] == vals[i];
    assert forall x :: 0 <= x < i ==> vals[..i][x] == vals[x] && vals[..i + 1][x] == vals[x];
  }

  method EvalBest(kind: Kind, vals: seq<Value>) returns (best: Value)
    requires kind.Min? || kind.Max?
    ensures best == Agg(kind, vals) && (OneClass(vals) ==> IsBest(kind, vals, best))
  {
    if OneClass(vals) {
      BestIs(kind, vals);
    }
    hide IsBest;
    best := Null;
    for i := 0 to |vals|
      invariant best == Best(kind, vals[..i])
    {
      assert vals[..i + 1][..i] == vals[..i];
      if !vals[i].Null? && (best.Null? || Better(kind, vals[i], best)) {
        best := vals[i];
      }
    }
    assert vals[..|vals|] == vals;
  }

  /** One column of the rows long enough to have it. */
  function Column(rows: seq<Row>, pos: nat): seq<Value> {
    if rows == [] then []
    else Column(rows[..|rows| - 1], pos) + if pos < |rows[|rows| - 1]| then [rows[|rows| - 1][pos]] else []
  }

  /** `mergeAggSub`: folds one partial column of the shards' rows. */
  method MergeAggSub(kind: Kind, partials: seq<Row>, pos: nat) returns (r: Value)
    requires kind.Sum? ==> forall i :: 0 <= i < |partials| && pos < |partials[i]| ==> partials[i][pos].Null? || Numeric(partials[i][pos])
    ensures r == Combined(kind, Column(partials, pos))
  {
    if kind.Count? {
      var total := 0;
      for i := 0 to |partials|
        invariant total == Counted(Column(partials[..i], pos))
      {
        ColumnSnoc(partials, i, pos);
        if pos < |partials[i]| && partials[i][pos].IntV? {
          total := total + partials[i][pos].i;
        }
      }
      assert partials[..|partials|] == partials;
      return IntV(total);
    }
    var vals: seq<Value> := [];
    for i := 0 to |partials|
      invariant vals == Column(partials[..i], pos)
      invariant kind.Sum? ==> forall x :: 0 <= x < |vals| ==> vals[x].Null? || Numeric(vals[x])
    {
      ColumnSnoc(partials, i, pos);
      if pos < |partials[i]| {
        vals := vals + [partials[i][pos]];
      }
    }
    assert partials[..|partials|] == partials;
    if kind.Sum? {
      var sum := EvalSum(vals);
      r := sum.value;
    } else {
      r := EvalBest(kind, vals);
    }
  }

  lemma ColumnSnoc(rows: seq<Row>, i: nat, pos: nat)
    requires i < |rows|
    ensures Column(rows[..i + 1], pos) == if pos < |rows[i]| then Column(rows[..i], pos) + [rows[i][pos]] else Column(rows[..i], pos)
    ensures pos < |rows[i]| ==> Counted(Column(rows[..i], pos) + [rows[i][pos]]) ==
                                Counted(Column(rows[..i], pos)) + if rows[i][pos].IntV? then rows[i][pos].i else 0
  {
    assert rows[..i + 1][..i] == rows[..i];
    var col := Column(rows[..i], pos);
    if pos < |rows[i]| {
      assert (col + [rows[i][pos]])[..|col|] == col;
    } else {
      assert col + [] == col;
    }
  }

  /** If no row is too short the column has one value of each row, in order. */
  lemma {:induction false} ColumnIs(rows: seq<Row>, pos: nat)
    requires forall i :: 0 <= i < |rows| ==> pos < |rows[i]|
    ensures |Column(rows, pos)| == |rows| && forall i :: 0 <= i < |rows| ==> Column(rows, pos)[i] == rows[i][pos]
  {
    if rows != [] {
      ColumnIs(rows[..|rows| - 1], pos);
    }
  }

  // ----- Concatenation -----

  lemma {:induction false} CountConcat(a: seq<Value>, b: seq<Value>)
    ensures CountOf(a + b) == CountOf(a) + CountOf(b)
    ensures Total(a + b) == Total(a) + Total(b)
    ensures Counted(a + b) == Counted(a) + Counted(b)
  {
    if b == [] {
      assert a + b == a;
    } else {
      assert (a + b)[..|a + b| - 1] == a + b[..|b| - 1];
      CountConcat(a, b[..|b| - 1]);
    }
  }

  lemma KindsConcat(a: seq<Value>, b: seq<Value>)
    ensures AnyValue(a + b) <==> AnyValue(a) || AnyValue(b)
    ensures AllInts(a + b) <==> AllInts(a) && AllInts(b)
  {
    assert forall i :: 0 <= i < |a| ==> (a + b)[i] == a[i];
    assert forall i :: 0 <= i < |b| ==> (a + b)[|a| + i] == b[i];
    assert forall i :: |a| <= i < |a| + |b| ==> (a + b)[i] == b[i - |a|];
  }

  /** Values that `Compare` orders among each other: numbers, strings or booleans; and NULL. */
  predicate OneClass(vals: seq<Value>) {
    || (forall i :: 0 <= i < |vals| ==> vals[i].Null? || Numeric(vals[i]))
    || (forall i :: 0 <= i < |vals| ==> vals[i].Null? || vals[i].StringV?)
    || (forall i :: 0 <= i < |vals| ==> vals[i].Null? || vals[i].BoolV?)
  }

  function Pick(kind: Kind, x: Value, y: Value): Value {
    if y.Null? then x else if x.Null? || Better(kind, y, x) then y else x
  }

  lemma PickAssociates(kind: Kind, x: Value, y: Value, z: Value)
    requires OneClass([x, y, z])
    ensures Pick(kind, Pick(kind, x, y), z) == Pick(kind, x, Pick(kind, y, z))
  {
    Order();
    var vs := [x, y, z];
    assert vs[0] == x && vs[1] == y && vs[2] == z;
  }

  lemma {:induction false} BestAmong(kind: Kind, vals: seq<Value>)
    ensures Best(kind, vals).Null? || Best(kind, vals) in vals
  {
    if vals != [] {
      BestAmong(kind, vals[..|vals| - 1]);
    }
  }

  lemma OneClassOf(vals: seq<Value>, some: seq<Value>)
    requires OneClass(vals) && forall i :: 0 <= i < |some| ==> some[i].Null? || some[i] in vals
    ensures OneClass(some)
  {
  }

  /** Folding the best of `b` after the best of `a`. */
  lemma {:induction false} BestConcat(kind: Kind, a: seq<Value>, b: seq<Value>)
    requires OneClass(a + b)
    ensures Best(kind, a + b) == Pick(kind, Best(kind, a), Best(kind, b))
  {
    if b == [] {
      assert a + b == a;
    } else {
      var n := |b| - 1;
      var init := b[..n];
      assert (a + b)[..|a + b| - 1] == a + init && (a + b)[|a + b| - 1] == b[n];
      OneClassOf(a + b, a + init);
      BestConcat(kind, a, init);
      BestAmong(kind, a);
      BestAmong(kind, init);
      OneClassOf(a + b, [Best(kind, a), Best(kind, init), b[n]]);
      PickAssociates(kind, Best(kind, a), Best(kind, init), b[n]);
    }
  }

  // ----- Merging the partials of shards -----

  function Flat<T>(parts: seq<seq<T>>): seq<T> {
    if parts == [] then [] else Flat(parts[..|parts| - 1]) + parts[|parts| - 1]
  }

  function Partials(kind: Kind, parts: seq<seq<Value>>): (r: seq<Value>)
    ensures |r| == |parts| && forall i :: 0 <= i < |parts| ==> r[i] == Agg(kind, parts[i])
  {
    seq(|parts|, i requires 0 <= i < |parts| => Agg(kind, parts[i]))
  }

  lemma PartialsSnoc(kind: Kind, parts: seq<seq<Value>>)
    requires parts != []
    ensures Partials(kind, parts) == Partials(kind, parts[..|parts| - 1]) + [Agg(kind, parts[|parts| - 1])]
  {
  }

  lemma OneClassConcat(a: seq<Value>, b: seq<Value>)
    requires OneClass(a + b)
    ensures OneClass(a) && OneClass(b)
  {
    OneClassOf(a + b, a);
    OneClassOf(a + b, b);
  }

  function IntSum(vals: seq<Value>): int {
    if vals == [] then 0
    else IntSum(vals[..|vals| - 1]) + if vals[|vals| - 1].IntV? then vals[|vals| - 1].i else 0
  }

  lemma {:induction false} IntTotal(vals: seq<Value>)
    requires AllInts(vals)
    ensures Total(vals) == IntSum(vals) as real
  {
    if vals != [] {
      IntTotal(vals[..|vals| - 1]);
    }
  }

  lemma {:induction false} NoValueTotal(vals: seq<Value>)
    requires !AnyValue(vals)
    ensures Total(vals) == 0.0
  {
    if vals != [] {
      var init := vals[..|vals| - 1];
      assert forall i :: 0 <= i < |init| ==> init[i] == vals[i];
      NoValueTotal(init);
    }
  }

  ghost predicate Summable(vals: seq<Value>) {
    forall i :: 0 <= i < |vals| ==> vals[i].Null? || Numeric(vals[i])
  }

  /** A partial sum carries the total, whether there are values, and whether all are integers. */
  lemma SumIsPartial(vals: seq<Value>)
    requires Summable(vals)
    ensures AsReal(SumOf(vals)) == Total(vals)
    ensures SumOf(vals).Null? <==> !AnyValue(vals)
    ensures SumOf(vals).Null? || SumOf(vals).IntV? <==> AllInts(vals)
  {
    if !AnyValue(vals) {
      NoValueTotal(vals);
    } else if AllInts(vals) {
      IntTotal(vals);
    }
  }

  lemma {:induction false} SumsCombine(parts: seq<seq<Value>>)
    requires Summable(Flat(parts))
    ensures var ps := Partials(Sum, parts);
            && Total(ps) == Total(Flat(parts))
            && (AnyValue(ps) <==> AnyValue(Flat(parts)))
            && (AllInts(ps) <==> AllInts(Flat(parts)))
  {
    if parts != [] {
      var init, last := parts[..|parts| - 1], parts[|parts| - 1];
      SummableParts(Flat(init), last);
      SumsCombine(init);
      SumIsPartial(last);
      PartialsSnoc(Sum, parts);
      CountConcat(Flat(init), last);
      KindsConcat(Flat(init), last);
      CountConcat(Partials(Sum, init), [SumOf(last)]);
      KindsConcat(Partials(Sum, init), [SumOf(last)]);
      SingleValue(SumOf(last));
    }
  }

  lemma SummableParts(a: seq<Value>, b: seq<Value>)
    requires Summable(a + b)
    ensures Summable(a) && Summable(b)
  {
    assert forall i :: 0 <= i < |a| ==> (a + b)[i] == a[i];
    assert forall i :: 0 <= i < |b| ==> (a + b)[|a| + i] == b[i];
  }

  lemma SingleValue(v: Value)
    ensures Total([v]) == AsReal(v)
    ensures AnyValue([v]) <==> !v.Null?
    ensures AllInts([v]) <==> v.Null? || v.IntV?
    ensures Counted([v]) == if v.IntV? then v.i else 0
    ensures forall kind :: Best(kind, [v]) == v
  {
    assert [v][..0] == [] && [v][0] == v;
  }

  /**
   The homomorphism: merging the partial aggregates of shards, some of them empty,
   gives the aggregate of all their rows.
   */
  lemma {:induction false} MergeIsWhole(kind: Kind, parts: seq<seq<Value>>)
    requires OneClass(Flat(parts)) && (kind.Sum? ==> Summable(Flat(parts)))
    ensures Combined(kind, Partials(kind, parts)) == Agg(kind, Flat(parts))
  {
    if kind.Sum? {
      SumsCombine(parts);
    } else if parts != [] {
      var init, last := parts[..|parts| - 1], parts[|parts| - 1];
      OneClassConcat(Flat(init), last);
      MergeIsWhole(kind, init);
      PartialsSnoc(kind, parts);
      SingleValue(Agg(kind, last));
      CountConcat(Flat(init), last);
      CountConcat(Partials(kind, init), [Agg(kind, last)]);
      if !kind.Count? {
        BestConcat(kind, Flat(init), last);
        PartialsClass(kind, parts);
        BestConcat(kind, Partials(kind, init), [Best(kind, last)]);
      }
    }
  }

  lemma {:induction false} PartInFlat(parts: seq<seq<Value>>, i: nat, v: Value)
    requires i < |parts| && v in parts[i]
    ensures v in Flat(parts)
  {
    if i < |parts| - 1 {
      PartInFlat(parts[..|parts| - 1], i, v);
    }
  }

  lemma PartialsClass(kind: Kind, parts: seq<seq<Value>>)
    requires OneClass(Flat(parts)) && (kind.Min? || kind.Max?)
    ensures OneClass(Partials(kind, parts))
  {
    forall i | 0 <= i < |parts| ensures Partials(kind, parts)[i].Null? || Partials(kind, parts)[i] in Flat(parts) {
      BestAmong(kind, parts[i]);
      if Best(kind, parts[i]) in parts[i] {
        PartInFlat(parts, i, Best(kind, parts[i]));
      }
    }
    OneClassOf(Flat(parts), Partials(kind, parts));
  }

  /** The average from a merged sum and a merged count. */
  function AvgFrom(sum: Value, count: Value): Value {
    if sum.Null? || !count.IntV? || count.i == 0 then Null else FloatV(AsReal(sum) / count.i as real)
  }

  lemma {:induction false} CountsValues(vals: seq<Value>)
    ensures CountOf(vals) > 0 <==> AnyValue(vals)
  {
    if vals != [] {
      var init := vals[..|vals| - 1];
      CountsValues(init);
      assert forall i :: 0 <= i < |init| ==> init[i] == vals[i];
      if AnyValue(init) {
        var i :| 0 <= i < |init| && !init[i].Null?;
        assert !vals[i].Null?;
      }
    }
  }

  lemma AvgMerges(parts: seq<seq<Value>>)
    requires Summable(Flat(parts))
    ensures AvgFrom(Combined(Sum, Partials(Sum, parts)), Combined(Count, Partials(Count, parts))) == AvgOf(Flat(parts))
  {
    MergeIsWhole(Sum, parts);
    MergeIsWhole(Count, parts);
    SumIsPartial(Flat(parts));
    CountsValues(Flat(parts));
  }

  // ----- The order of the rows does not matter -----

  /** One SQL type: values that compare equal are equal. */
  ghost predicate OneType(vals: seq<Value>) {
    || (forall i :: 0 <= i < |vals| ==> vals[i].Null? || vals[i].IntV?)
    || (forall i :: 0 <= i < |vals| ==> vals[i].Null? || vals[i].FloatV?)
    || (forall i :: 0 <= i < |vals| ==> vals[i].Null? || vals[i].StringV?)
    || (forall i :: 0 <= i < |vals| ==> vals[i].Null? || vals[i].BoolV?)
  }

  lemma PickCommutes(kind: Kind, x: Value, y: Value)
    requires OneType([x, y])
    ensures Pick(kind, x, y) == Pick(kind, y, x)
  {
    Order();
    assert [x, y][0] == x && [x, y][1] == y;
  }

  lemma OneTypeOf(vals: seq<Value>, some: seq<Value>)
    requires OneType(vals) && forall i :: 0 <= i < |some| ==> some[i].Null? || some[i] in vals
    ensures OneType(some) && OneClass(some)
  {
  }

  /** Aggregates of rows in any order: shards may hold them in whatever arrangement. */
  lemma {:induction false} AnyOrder(kind: Kind, a: seq<Value>, b: seq<Value>)
    requires multiset(a) == multiset(b) && OneType(a)
    ensures Agg(kind, a) == Agg(kind, b)
    ensures Total(a) == Total(b) && CountOf(a) == CountOf(b)
    ensures AnyValue(a) == AnyValue(b) && AllInts(a) == AllInts(b)
    decreases |a|
  {
    if a == [] {
      assert b == [] by {
        assert |multiset(a)| == |multiset(b)|;
      }
    } else {
      var x, init := a[|a| - 1], a[..|a| - 1];
      assert a == init + [x];
      var l, r := SplitAt(b, x, multiset(init));
      OneTypeOf(a, init);
      AnyOrder(kind, init, l + r);
      MovedIn(kind, init, x, l, r, a);
    }
  }

  lemma SplitAt(b: seq<Value>, x: Value, rest: multiset<Value>) returns (l: seq<Value>, r: seq<Value>)
    requires multiset(b) == rest + multiset{x}
    ensures b == l + [x] + r && multiset(l + r) == rest
  {
    assert x in multiset(b);
    var j :| 0 <= j < |b| && b[j] == x;
    l, r := b[..j], b[j + 1..];
    assert b == l + [x] + r;
    SameRest(multiset(l + r), rest, x);
  }

  lemma SameRest(m: multiset<Value>, n: multiset<Value>, x: Value)
    requires m + multiset{x} == n + multiset{x}
    ensures m == n
  {
    forall y ensures m[y] == n[y] {
      assert (m + multiset{x})[y] == m[y] + multiset{x}[y];
      assert (n + multiset{x})[y] == n[y] + multiset{x}[y];
    }
  }

  lemma MovedIn(kind: Kind, init: seq<Value>, x: Value, l: seq<Value>, r: seq<Value>, a: seq<Value>)
    requires OneType(a) && a == init + [x] && multiset(init) == multiset(l + r)
    requires Total(init) == Total(l + r) && CountOf(init) == CountOf(l + r)
    requires AnyValue(init) == AnyValue(l + r) && AllInts(init) == AllInts(l + r)
    requires Agg(kind, init) == Agg(kind, l + r)
    ensures Agg(kind, init + [x]) == Agg(kind, l + [x] + r)
    ensures Total(init + [x]) == Total(l + [x] + r) && CountOf(init + [x]) == CountOf(l + [x] + r)
    ensures AnyValue(init + [x]) == AnyValue(l + [x] + r) && AllInts(init + [x]) == AllInts(l + [x] + r)
  {
    CountConcat(init, [x]);
    CountConcat(l, r);
    CountConcat(l, [x]);
    CountConcat(l + [x], r);
    KindsConcat(init, [x]);
    KindsConcat(l, r);
    KindsConcat(l, [x]);
    KindsConcat(l + [x], r);
    if kind.Min? || kind.Max? {
      BestMovedIn(kind, init, x, l, r, a);
    }
  }

  lemma BestMovedIn(kind: Kind, init: seq<Value>, x: Value, l: seq<Value>, r: seq<Value>, a: seq<Value>)
    requires OneType(a) && a == init + [x] && multiset(init) == multiset(l + r) && (kind.Min? || kind.Max?)
    requires Best(kind, init) == Best(kind, l + r)
    ensures Best(kind, init + [x]) == Best(kind, l + [x] + r)
  {
    hide Best;
    hide Pick;
    forall v ensures v in l + r <==> v in init {
      assert v in multiset(l + r) <==> v in multiset(init);
    }
    assert forall i :: 0 <= i < |l + [x] + r| ==> (l + [x] + r)[i] in a by {
      forall i | 0 <= i < |l + [x] + r| ensures (l + [x] + r)[i] in a {
        assert (l + [x] + r)[i] == x || (l + [x] + r)[i] in l + r;
      }
    }
    OneTypeOf(a, l + [x] + r);
    OneTypeOf(a, l + [x]);
    OneTypeOf(a, l + r);
    OneTypeOf(a, init + [x]);
    BestConcat(kind, init, [x]);
    BestConcat(kind, l + [x], r);
    BestConcat(kind, l, [x]);
    BestConcat(kind, l, r);
    SingleValue(x);
    BestAmong(kind, l);
    BestAmong(kind, r);
    var p, q := Best(kind, l), Best(kind, r);
    OneTypeOf(a, [p, x, q]);
    OneTypeOf(a, [p, q, x]);
    OneTypeOf(a, [x, q]);
    PickAssociates(kind, p, x, q);
    PickAssociates(kind, p, q, x);
    PickCommutes(kind, x, q);
  }
}
