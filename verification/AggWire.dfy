/**
 Partial aggregates on their way to the coordinator: every value travels as its text and
 is read back by the type of its column. NULL has the text of a string, so a shard
 without values can put a value into a minimum or a maximum.
 */
module AggWire {
  import opened Bytes
  import opened Aggregates
  import opened AggPlans
  import opened AggGroups

  datatype ColType = IntT | FloatT | StringT | BoolT

  predicate Typed(t: ColType, v: Value) {
    match t
    case IntT => v.Null? || v.IntV?
    case FloatT => v.Null? || v.FloatV?
    case StringT => v.Null? || v.StringV?
    case BoolT => v.Null? || v.BoolV?
  }

  ghost predicate AllTyped(t: ColType, vals: seq<Value>) {
    forall i :: 0 <= i < |vals| ==> Typed(t, vals[i])
  }

  const TRUE_TEXT: Key := [116, 114, 117, 101]
  const ONE_TEXT: Key := [49]

  /**
   `valueFromString` of `Value.String`: the text of a number is read back as the number,
   that of NULL is no number.
   */
  function Carried(t: ColType, v: Value): Value {
    match t
    case StringT => StringV(Text(v))
    case BoolT => BoolV(Text(v) == TRUE_TEXT || Text(v) == ONE_TEXT)
    case _ => if Numeric(v) then v else Null
  }

  /** What NULL is read back as. */
  function NullRead(t: ColType): Value {
    Carried(t, Null)
  }

  lemma CarriedIs(t: ColType, v: Value)
    requires Typed(t, v)
    ensures Carried(t, v) == if v.Null? then NullRead(t) else v
    ensures NullRead(t) == if t.StringT? then StringV(NULL_TEXT) else if t.BoolT? then BoolV(false) else Null
  {
    if v == BoolV(false) {
      assert Text(v)[0] == 102;
    }
  }

  function CarriedAll(t: ColType, vals: seq<Value>): (r: seq<Value>)
    ensures |r| == |vals| && forall i :: 0 <= i < |vals| ==> r[i] == Carried(t, vals[i])
  {
    seq(|vals|, i requires 0 <= i < |vals| => Carried(t, vals[i]))
  }

  // ----- A minimum or a maximum -----

  ghost predicate SomeNull(vals: seq<Value>) {
    exists i :: 0 <= i < |vals| && vals[i].Null?
  }

  lemma PickSwaps(kind: Kind, t: ColType, x: Value, y: Value, z: Value)
    requires (t.StringT? || t.BoolT?) && Typed(t, x) && Typed(t, y) && Typed(t, z)
    ensures Pick(kind, Pick(kind, x, y), z) == Pick(kind, Pick(kind, x, z), y)
    ensures Pick(kind, Pick(kind, x, y), y) == Pick(kind, x, y)
    ensures Typed(t, Pick(kind, x, y)) && Pick(kind, x, Null) == x
  {
    Order();
  }

  /** What NULL is read back as takes part like a value if there is a NULL. */
  lemma {:induction false} CarriedBest(kind: Kind, t: ColType, vals: seq<Value>)
    requires (t.StringT? || t.BoolT?) && AllTyped(t, vals)
    ensures Typed(t, Best(kind, vals))
    ensures Best(kind, CarriedAll(t, vals)) == if SomeNull(vals) then Pick(kind, Best(kind, vals), NullRead(t)) else Best(kind, vals)
  {
    hide Text;
    hide Carried;
    hide Better;
    if vals == [] {
      assert CarriedAll(t, vals) == [];
    } else {
      hide SomeNull;
      var n := |vals| - 1;
      var init, v := vals[..n], vals[n];
      CarriedBest(kind, t, init);
      CarriedIs(t, v);
      assert CarriedAll(t, vals)[..n] == CarriedAll(t, init);
      SomeNullLast(vals);
      BestLast(kind, vals);
      BestLast(kind, CarriedAll(t, vals));
      hide Best;
      hide Pick;
      PickSwaps(kind, t, Best(kind, init), NullRead(t), v);
      PickSwaps(kind, t, Best(kind, init), v, NullRead(t));
    }
  }

  lemma SomeNullLast(vals: seq<Value>)
    requires vals != []
    ensures SomeNull(vals) <==> SomeNull(vals[..|vals| - 1]) || vals[|vals| - 1].Null?
  {
    assert forall i :: 0 <= i < |vals| - 1 ==> vals[i] == vals[..|vals| - 1][i];
  }

  lemma BestLast(kind: Kind, vals: seq<Value>)
    requires vals != []
    ensures Best(kind, vals) == Pick(kind, Best(kind, vals[..|vals| - 1]), vals[|vals| - 1])
  {
    hide Better;
  }

  lemma PickStays(kind: Kind, t: ColType, b: Value)
    requires (t.StringT? || t.BoolT?) && Typed(t, b)
    ensures Pick(kind, b, NullRead(t)) == b <==> !b.Null? && !Better(kind, NullRead(t), b)
  {
    Order();
    CarriedIs(t, Null);
  }

  /**
   When a minimum or maximum arrives: numbers always; strings and booleans if every shard
   has a value, or if what NULL is read back as does not beat the true result.
   */
  ghost predicate Arrives(kind: Kind, t: ColType, parts: seq<seq<Value>>) {
    || t.IntT? || t.FloatT?
    || (forall s :: 0 <= s < |parts| ==> AnyValue(parts[s]))
    || (AnyValue(Flat(parts)) && !Better(kind, NullRead(t), Agg(kind, Flat(parts))))
  }

  lemma {:induction false} BestNull(kind: Kind, vals: seq<Value>)
    ensures Best(kind, vals).Null? <==> !AnyValue(vals)
  {
    if vals != [] {
      var n := |vals| - 1;
      BestNull(kind, vals[..n]);
      assert AnyValue(vals) <==> AnyValue(vals[..n]) || !vals[n].Null? by {
        assert forall i :: 0 <= i < n ==> vals[i] == vals[..n][i];
      }
    }
  }

  lemma {:induction false} FlatTyped(t: ColType, parts: seq<seq<Value>>)
    requires AllTyped(t, Flat(parts))
    ensures forall s :: 0 <= s < |parts| ==> AllTyped(t, parts[s])
  {
    if parts != [] {
      var n := |parts| - 1;
      var a, b := Flat(parts[..n]), parts[n];
      assert forall i :: 0 <= i < |a| ==> (a + b)[i] == a[i];
      assert forall i :: 0 <= i < |b| ==> (a + b)[|a| + i] == b[i];
      FlatTyped(t, parts[..n]);
    }
  }

  lemma {:induction false} BestTyped(kind: Kind, t: ColType, vals: seq<Value>)
    requires AllTyped(t, vals)
    ensures Typed(t, Best(kind, vals))
  {
    BestAmong(kind, vals);
  }

  lemma BestArrives(kind: Kind, t: ColType, parts: seq<seq<Value>>)
    requires (kind.Min? || kind.Max?) && AllTyped(t, Flat(parts))
    ensures Combined(kind, CarriedAll(t, Partials(kind, parts))) == Agg(kind, Flat(parts)) <==> Arrives(kind, t, parts)
  {
    var ps := Partials(kind, parts);
    FlatTyped(t, parts);
    forall s | 0 <= s < |parts| ensures Typed(t, ps[s]) && (ps[s].Null? <==> !AnyValue(parts[s])) {
      BestTyped(kind, t, parts[s]);
      BestNull(kind, parts[s]);
    }
    MergeIsWhole(kind, parts);
    if t.StringT? || t.BoolT? {
      CarriedBest(kind, t, ps);
      PickStays(kind, t, Best(kind, ps));
      BestNull(kind, Flat(parts));
      assert SomeNull(ps) <==> !forall s :: 0 <= s < |parts| ==> AnyValue(parts[s]);
    } else {
      SameCarried(t, ps);
    }
  }

  /** Numbers and their NULL arrive as they are. */
  lemma SameCarried(t: ColType, vals: seq<Value>)
    requires (t.IntT? || t.FloatT?) && AllTyped(t, vals)
    ensures CarriedAll(t, vals) == vals
  {
    forall i | 0 <= i < |vals| ensures Carried(t, vals[i]) == vals[i] {
      CarriedIs(t, vals[i]);
    }
  }

  // ----- Plans -----

  /** A partial is read back by the type of its column, a count as an integer. */
  ghost predicate SubTyped(sub: Sub, t: ColType, parts: seq<seq<Row>>) {
    match sub.kind
    case Count => t.IntT?
    case Sum => (t.IntT? || t.FloatT?) && AllTyped(t, Inputs(sub.col, Flat(parts)))
    case _ => AllTyped(t, Inputs(sub.col, Flat(parts)))
  }

  function CarriedRow(types: seq<ColType>, row: Row): (r: Row)
    requires |row| == |types|
    ensures |r| == |row| && forall i :: 0 <= i < |row| ==> r[i] == Carried(types[i], row[i])
  {
    seq(|row|, i requires 0 <= i < |row| => Carried(types[i], row[i]))
  }

  /** `rowsFromPayloadTyped` of `payloadOf`. */
  function CarriedRows(types: seq<ColType>, rows: seq<Row>): (r: seq<Row>)
    requires forall s :: 0 <= s < |rows| ==> |rows[s]| == |types|
    ensures |r| == |rows| && forall s :: 0 <= s < |rows| ==> r[s] == CarriedRow(types, rows[s])
  {
    seq(|rows|, s requires 0 <= s < |rows| => CarriedRow(types, rows[s]))
  }

  lemma {:induction false} CarriedColumn(types: seq<ColType>, rows: seq<Row>, i: nat)
    requires i < |types| && forall s :: 0 <= s < |rows| ==> |rows[s]| == |types|
    ensures Column(CarriedRows(types, rows), i) == CarriedAll(types[i], Column(rows, i))
  {
    if rows != [] {
      var n := |rows| - 1;
      CarriedColumn(types, rows[..n], i);
      assert CarriedRows(types, rows)[..n] == CarriedRows(types, rows[..n]);
    }
  }

  /** One merged partial column against the aggregate of all rows. */
  ghost predicate SubArrives(sub: Sub, t: ColType, parts: seq<seq<Row>>) {
    sub.kind.Count? || sub.kind.Sum? || Arrives(sub.kind, t, AllInputs(sub.col, parts))
  }

  lemma SubCarried(sub: Sub, t: ColType, parts: seq<seq<Row>>)
    requires SubTyped(sub, t, parts)
    ensures var vals := AllInputs(sub.col, parts);
            Combined(sub.kind, CarriedAll(t, Partials(sub.kind, vals))) == Agg(sub.kind, Inputs(sub.col, Flat(parts))) <==> SubArrives(sub, t, parts)
    ensures sub.kind.Count? || sub.kind.Sum? ==>
              CarriedAll(t, Partials(sub.kind, AllInputs(sub.col, parts))) == Partials(sub.kind, AllInputs(sub.col, parts))
  {
    var vals := AllInputs(sub.col, parts);
    InputsFlat(sub.col, parts);
    if sub.kind.Min? || sub.kind.Max? {
      BestArrives(sub.kind, t, vals);
    } else {
      if sub.kind.Sum? {
        FlatTyped(t, vals);
        forall s | 0 <= s < |vals| ensures Typed(t, SumOf(vals[s])) {
          SumTyped(t, vals[s]);
        }
        MergeIsWhole(Sum, vals);
      } else {
        CountsMerge(vals);
      }
      SameCarried(t, Partials(sub.kind, vals));
    }
  }

  lemma SumTyped(t: ColType, vals: seq<Value>)
    requires (t.IntT? || t.FloatT?) && AllTyped(t, vals)
    ensures Typed(t, SumOf(vals))
  {
    if t.FloatT? && AnyValue(vals) {
      var i :| 0 <= i < |vals| && !vals[i].Null?;
      assert !vals[i].IntV?;
    }
  }

  lemma {:induction false} CountsMerge(parts: seq<seq<Value>>)
    ensures Counted(Partials(Count, parts)) == CountOf(Flat(parts))
  {
    if parts != [] {
      var n := |parts| - 1;
      CountsMerge(parts[..n]);
      PartialsSnoc(Count, parts);
      CountConcat(Flat(parts[..n]), parts[n]);
      CountConcat(Partials(Count, parts[..n]), [Agg(Count, parts[n])]);
      SingleValue(Agg(Count, parts[n]));
    }
  }

  /** An item arrives if its partials do; averages are made of sums and counts. */
  ghost predicate ItemArrives(item: Item, types: seq<ColType>, idx: seq<nat>, parts: seq<seq<Row>>) {
    item.Call? && |idx| == 1 && idx[0] < |types| ==> SubArrives(Sub(item.kind, item.col), types[idx[0]], parts)
  }

  ghost predicate PlanTyped(p: Plan, types: seq<ColType>, parts: seq<seq<Row>>) {
    |types| == |p.subs| && forall i :: 0 <= i < |p.subs| ==> SubTyped(p.subs[i], types[i], parts)
  }

  lemma PartialColumn(subs: seq<Sub>, types: seq<ColType>, parts: seq<seq<Row>>, i: nat)
    requires |types| == |subs| && i < |subs|
    ensures Column(CarriedRows(types, ShardRows(subs, parts)), i)
         == CarriedAll(types[i], Partials(subs[i].kind, AllInputs(subs[i].col, parts)))
  {
    hide Carried;
    hide Agg;
    hide Column;
    var heads: seq<Row> := seq(|parts|, s => []);
    JoinedEmpty(heads, ShardRows(subs, parts));
    PartialColumnAt(subs, heads, parts, i, 0);
    hide Joined;
    CarriedColumn(types, ShardRows(subs, parts), i);
  }

  lemma CarriedReady(p: Plan, types: seq<ColType>, parts: seq<seq<Row>>)
    requires PlanTyped(p, types, parts)
    ensures PartialsReady(p.subs, CarriedRows(types, ShardRows(p.subs, parts)), 0)
  {
    var partials: seq<Row> := CarriedRows(types, ShardRows(p.subs, parts));
    forall i: nat, s: nat | i < |p.subs| && p.subs[i].kind.Sum? && s < |partials|
      ensures partials[s][i].Null? || Numeric(partials[s][i])
    {
      assert SubTyped(p.subs[i], types[i], parts);
      assert partials[s][i] == Carried(types[i], ShardRows(p.subs, parts)[s][i]);
    }
  }

  lemma ItemCarried(item: Item, p: Plan, idx: seq<nat>, types: seq<ColType>, parts: seq<seq<Row>>, partials: seq<Row>)
    requires Planned(item, p.subs, idx) && PlanTyped(p, types, parts) && partials == CarriedRows(types, ShardRows(p.subs, parts))
    ensures MergedItem(item, p.subs, idx, partials, 0, Null) == ItemOf(item, Flat(parts), Null) <==> ItemArrives(item, types, idx, parts)
  {
    hide Carried;
    hide Agg;
    hide Column;
    match item
    case Call(kind, col) =>
      PartialColumn(p.subs, types, parts, idx[0]);
      SubCarried(p.subs[idx[0]], types[idx[0]], parts);
    case Avg(c) =>
      PartialColumn(p.subs, types, parts, idx[0]);
      PartialColumn(p.subs, types, parts, idx[1]);
      SubCarried(p.subs[idx[0]], types[idx[0]], parts);
      SubCarried(p.subs[idx[1]], types[idx[1]], parts);
      assert SubTyped(p.subs[idx[0]], types[idx[0]], parts);
      AvgItemMerges(c, parts);
    case GroupCol =>
  }

  /**
   The partial rows of the shards as the coordinator reads them, merged: each item is the
   aggregate of all rows exactly if it arrives.
   */
  method MergeCarried(items: seq<Item>, p: Plan, types: seq<ColType>, ghost parts: seq<seq<Row>>, partials: seq<Row>) returns (out: Row)
    requires PlanOK(items, p) && PlanTyped(p, types, parts)
    requires partials == CarriedRows(types, ShardRows(p.subs, parts))
    ensures |out| == |items|
    ensures forall i :: 0 <= i < |items| ==>
              (out[i] == ItemOf(items[i], Flat(parts), Null) <==> ItemArrives(items[i], types, p.idx[i], parts))
  {
    CarriedReady(p, types, parts);
    out := MergeItems(items, p, partials, 0, Null);
    forall i | 0 <= i < |items|
      ensures out[i] == ItemOf(items[i], Flat(parts), Null) <==> ItemArrives(items[i], types, p.idx[i], parts)
    {
      ItemCarried(items[i], p, p.idx[i], types, parts, partials);
    }
  }

  /** A shard without rows turns the least of the strings "a" and "z" into "NULL". */
  lemma EmptyShardWins()
    ensures var parts: seq<seq<Value>> := [[StringV([97]), StringV([122])], []];
            && !Arrives(Min, StringT, parts)
            && Combined(Min, CarriedAll(StringT, Partials(Min, parts))) == StringV(NULL_TEXT)
            && Agg(Min, Flat(parts)) == StringV([97])
  {
    var a, z := StringV([97]), StringV([122]);
    var parts: seq<seq<Value>> := [[a, z], []];
    BytesOrdered();
    hide Less;
    BestOfTwo(Min, a, z);
    BestOfTwo(Min, a, StringV(NULL_TEXT));
    var ps := Partials(Min, parts);
    assert ps == [a, Null];
    CarriedIs(StringT, a);
    CarriedIs(StringT, Null);
    assert CarriedAll(StringT, ps) == [a, StringV(NULL_TEXT)];
    assert parts[..1] == [[a, z]] && parts[..1][..0] == [];
    assert Flat(parts[..1]) == [] + [a, z] == [a, z];
    assert Flat(parts) == [a, z] + [] == [a, z];
    BestArrives(Min, StringT, parts);
  }

  lemma BytesOrdered()
    ensures Less(NULL_TEXT, [97]) && Less([97], [122]) && !Less([122], [97])
  {
  }

  lemma BestOfTwo(kind: Kind, x: Value, y: Value)
    ensures Best(kind, [x, y]) == Pick(kind, x, y)
  {
    BestLast(kind, [x, y]);
    assert [x, y][..1] == [x];
    SingleValue(x);
  }
}
