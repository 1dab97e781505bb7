/**
 Aggregate plans: what shards compute, how the coordinator merges it, and that the
 result is what the statement asks of all rows, grouped or not.
 */
module AggPlans {
  import opened Wrappers
  import opened Aggregates

  /** A select item: an aggregate call (`count(*)` has no column), or the group column. */
  datatype Item = Call(kind: Kind, col: Option<nat>) | Avg(acol: nat) | GroupCol

  /** A partial aggregate a shard computes. */
  datatype Sub = Sub(kind: Kind, col: Option<nat>)

  datatype Plan = Plan(subs: seq<Sub>, idx: seq<seq<nat>>)

  /** The values an aggregate looks at; `count(*)` looks at the rows themselves. */
  function Inputs(col: Option<nat>, rows: seq<Row>): seq<Value> {
    if col.None? then seq(|rows|, i => BoolV(true)) else Column(rows, col.value)
  }

  function SubOf(sub: Sub, rows: seq<Row>): Value {
    Agg(sub.kind, Inputs(sub.col, rows))
  }

  /** What the statement asks of a set of rows. */
  function ItemOf(item: Item, rows: seq<Row>, group: Value): Value {
    match item
    case Call(kind, col) => Agg(kind, Inputs(col, rows))
    case Avg(c) => AvgOf(Column(rows, c))
    case GroupCol => group
  }

  // ----- Planning -----

  /** The partials of an item are in the plan where its index list says. */
  predicate Planned(item: Item, subs: seq<Sub>, idx: seq<nat>) {
    match item
    case Call(kind, col) => |idx| == 1 && idx[0] < |subs| && subs[idx[0]] == Sub(kind, col)
    case Avg(c) =>
      && |idx| == 2 && idx[0] < |subs| && idx[1] < |subs|
      && subs[idx[0]] == Sub(Sum, Some(c)) && subs[idx[1]] == Sub(Count, Some(c))
    case GroupCol => idx == []
  }

  ghost predicate PlanOK(items: seq<Item>, p: Plan) {
    |p.idx| == |items| && forall i :: 0 <= i < |items| ==> Planned(items[i], p.subs, p.idx[i])
  }

  /** `appendAggItem` over the select items. */
  method PlanItems(items: seq<Item>) returns (p: Plan)
    ensures PlanOK(items, p)
  {
    var subs: seq<Sub>, idx: seq<seq<nat>> := [], [];
    for i := 0 to |items|
      invariant |idx| == i && forall x :: 0 <= x < i ==> Planned(items[x], subs, idx[x])
    {
      var n := |subs|;
      match items[i] {
        case Call(kind, col) =>
          subs := subs + [Sub(kind, col)];
          idx := idx + [[n]];
        case Avg(c) =>
          subs := subs + [Sub(Sum, Some(c)), Sub(Count, Some(c))];
          idx := idx + [[n, n + 1]];
        case GroupCol =>
          idx := idx + [[]];
      }
    }
    p := Plan(subs, idx);
  }

  // ----- Shards -----

  function ShardRow(subs: seq<Sub>, rows: seq<Row>): (r: Row)
    ensures |r| == |subs| && forall i :: 0 <= i < |subs| ==> r[i] == SubOf(subs[i], rows)
  {
    seq(|subs|, i requires 0 <= i < |subs| => SubOf(subs[i], rows))
  }

  function ShardRows(subs: seq<Sub>, parts: seq<seq<Row>>): (r: seq<Row>)
    ensures |r| == |parts| && forall s :: 0 <= s < |parts| ==> r[s] == ShardRow(subs, parts[s])
  {
    seq(|parts|, s requires 0 <= s < |parts| => ShardRow(subs, parts[s]))
  }

  function AllInputs(col: Option<nat>, parts: seq<seq<Row>>): (r: seq<seq<Value>>)
    ensures |r| == |parts| && forall s :: 0 <= s < |parts| ==> r[s] == Inputs(col, parts[s])
  {
    seq(|parts|, s requires 0 <= s < |parts| => Inputs(col, parts[s]))
  }

  lemma {:induction false} ColumnConcat(a: seq<Row>, b: seq<Row>, pos: nat)
    ensures Column(a + b, pos) == Column(a, pos) + Column(b, pos)
  {
    if b == [] {
      assert a + b == a;
    } else {
      assert (a + b)[..|a + b| - 1] == a + b[..|b| - 1];
      ColumnConcat(a, b[..|b| - 1], pos);
    }
  }

  lemma {:induction false} InputsFlat(col: Option<nat>, parts: seq<seq<Row>>)
    ensures Inputs(col, Flat(parts)) == Flat(AllInputs(col, parts))
  {
    if parts != [] {
      var init, last := parts[..|parts| - 1], parts[|parts| - 1];
      InputsFlat(col, init);
      assert AllInputs(col, parts)[..|parts| - 1] == AllInputs(col, init);
      if col.Some? {
        ColumnConcat(Flat(init), last, col.value);
      }
    }
  }

  function Joined(heads: seq<Row>, rows: seq<Row>): (r: seq<Row>)
    requires |heads| == |rows|
    ensures |r| == |rows| && forall s :: 0 <= s < |rows| ==> r[s] == heads[s] + rows[s]
  {
    seq(|rows|, s requires 0 <= s < |rows| => heads[s] + rows[s])
  }

  /** One column of the shards' partial rows, at an offset for the columns before the partials. */
  lemma {:induction false} PartialColumnAt(subs: seq<Sub>, heads: seq<Row>, parts: seq<seq<Row>>, i: nat, n: nat)
    requires i < |subs| && |heads| == |parts| && forall s :: 0 <= s < |heads| ==> |heads[s]| == n
    ensures Column(Joined(heads, ShardRows(subs, parts)), n + i) == Partials(subs[i].kind, AllInputs(subs[i].col, parts))
    decreases |parts|
  {
    if parts != [] {
      var m := |parts| - 1;
      PartialColumnAt(subs, heads[..m], parts[..m], i, n);
      var rows := Joined(heads, ShardRows(subs, parts));
      assert rows[..m] == Joined(heads[..m], ShardRows(subs, parts[..m]));
      assert AllInputs(subs[i].col, parts)[..m] == AllInputs(subs[i].col, parts[..m]);
      PartialsSnoc(subs[i].kind, AllInputs(subs[i].col, parts));
      assert rows[m][n + i] == SubOf(subs[i], parts[m]);
    }
  }

  // ----- Merging -----

  /** The rows an item can be asked of: numbers where it adds, one class of values where it compares. */
  ghost predicate ItemReady(item: Item, rows: seq<Row>) {
    match item
    case Call(kind, col) => OneClass(Inputs(col, rows)) && (kind.Sum? ==> Summable(Inputs(col, rows)))
    case Avg(c) => Summable(Column(rows, c))
    case GroupCol => true
  }

  /** Merging one item from partial rows that start with `n` other columns. */
  function MergedItem(item: Item, subs: seq<Sub>, idx: seq<nat>, partials: seq<Row>, n: nat, group: Value): Value
    requires Planned(item, subs, idx)
  {
    match item
    case Call(kind, _) => Combined(kind, Column(partials, n + idx[0]))
    case Avg(_) => AvgFrom(Combined(Sum, Column(partials, n + idx[0])), Combined(Count, Column(partials, n + idx[1])))
    case GroupCol => group
  }

  /** The partial rows hold, for every partial, what each shard computed. */
  ghost predicate HoldsPartials(subs: seq<Sub>, partials: seq<Row>, parts: seq<seq<Row>>, n: nat) {
    forall i :: 0 <= i < |subs| ==> PartialAt(subs[i], partials, parts, n + i)
  }

  ghost predicate PartialAt(sub: Sub, partials: seq<Row>, parts: seq<seq<Row>>, pos: nat) {
    Column(partials, pos) == Partials(sub.kind, AllInputs(sub.col, parts))
  }

  lemma JoinedHolds(subs: seq<Sub>, heads: seq<Row>, parts: seq<seq<Row>>, n: nat)
    requires |heads| == |parts| && forall s :: 0 <= s < |heads| ==> |heads[s]| == n
    ensures HoldsPartials(subs, Joined(heads, ShardRows(subs, parts)), parts, n)
  {
    forall i | 0 <= i < |subs| ensures PartialAt(subs[i], Joined(heads, ShardRows(subs, parts)), parts, n + i) {
      PartialColumnAt(subs, heads, parts, i, n);
    }
  }

  /** Merging the partials of an item is asking it of all rows. */
  lemma MergedItemIs(item: Item, subs: seq<Sub>, idx: seq<nat>, partials: seq<Row>, parts: seq<seq<Row>>, n: nat, group: Value)
    requires Planned(item, subs, idx) && HoldsPartials(subs, partials, parts, n) && ItemReady(item, Flat(parts))
    ensures MergedItem(item, subs, idx, partials, n, group) == ItemOf(item, Flat(parts), group)
  {
    match item
    case Call(kind, col) =>
      assert PartialAt(subs[idx[0]], partials, parts, n + idx[0]);
      SubMerges(kind, col, parts);
    case Avg(c) =>
      assert PartialAt(subs[idx[0]], partials, parts, n + idx[0]) && PartialAt(subs[idx[1]], partials, parts, n + idx[1]);
      AvgItemMerges(c, parts);
    case GroupCol =>
  }

  lemma SubMerges(kind: Kind, col: Option<nat>, parts: seq<seq<Row>>)
    requires OneClass(Inputs(col, Flat(parts))) && (kind.Sum? ==> Summable(Inputs(col, Flat(parts))))
    ensures Combined(kind, Partials(kind, AllInputs(col, parts))) == Agg(kind, Inputs(col, Flat(parts)))
  {
    InputsFlat(col, parts);
    MergeIsWhole(kind, AllInputs(col, parts));
  }

  lemma AvgItemMerges(c: nat, parts: seq<seq<Row>>)
    requires Summable(Column(Flat(parts), c))
    ensures var vals := AllInputs(Some(c), parts);
            AvgFrom(Combined(Sum, Partials(Sum, vals)), Combined(Count, Partials(Count, vals))) == AvgOf(Column(Flat(parts), c))
  {
    InputsFlat(Some(c), parts);
    AvgMerges(AllInputs(Some(c), parts));
  }

  ghost predicate PartialsReady(subs: seq<Sub>, partials: seq<Row>, n: nat) {
    forall i, s :: 0 <= i < |subs| && subs[i].kind.Sum? && 0 <= s < |partials| && n + i < |partials[s]| ==>
      partials[s][n + i].Null? || Numeric(partials[s][n + i])
  }

  lemma JoinedEmpty(heads: seq<Row>, rows: seq<Row>)
    requires |heads| == |rows| && forall s :: 0 <= s < |heads| ==> heads[s] == []
    ensures Joined(heads, rows) == rows
  {
    assert forall s :: 0 <= s < |rows| ==> heads[s] + rows[s] == rows[s];
  }

  /** Partial sums are numbers. */
  lemma SumsReady(subs: seq<Sub>, heads: seq<Row>, parts: seq<seq<Row>>, n: nat)
    requires |heads| == |parts| && forall s :: 0 <= s < |heads| ==> |heads[s]| == n
    ensures PartialsReady(subs, Joined(heads, ShardRows(subs, parts)), n)
  {
    var partials: seq<Row> := Joined(heads, ShardRows(subs, parts));
    forall i: nat, s: nat | i < |subs| && subs[i].kind.Sum? && s < |partials|
      ensures partials[s][n + i].Null? || Numeric(partials[s][n + i])
    {
      assert partials[s][n + i] == SubOf(subs[i], parts[s]);
    }
  }

  /** Merges one item. */
  method MergeItem(item: Item, subs: seq<Sub>, idx: seq<nat>, partials: seq<Row>, n: nat, group: Value) returns (v: Value)
    requires Planned(item, subs, idx) && PartialsReady(subs, partials, n)
    ensures v == MergedItem(item, subs, idx, partials, n, group)
  {
    match item
    case Call(kind, _) => v := MergeAggSub(kind, partials, n + idx[0]);
    case Avg(_) =>
      var sum := MergeAggSub(Sum, partials, n + idx[0]);
      var cnt := MergeAggSub(Count, partials, n + idx[1]);
      if sum.Null? || cnt.i == 0 {
        v := Null;
      } else {
        v := FloatV(AsReal(sum) / cnt.i as real);
      }
    case GroupCol => v := group;
  }

  method MergeItems(items: seq<Item>, p: Plan, partials: seq<Row>, n: nat, group: Value) returns (out: Row)
    requires PlanOK(items, p) && PartialsReady(p.subs, partials, n)
    ensures |out| == |items|
    ensures forall i :: 0 <= i < |items| ==> out[i] == MergedItem(items[i], p.subs, p.idx[i], partials, n, group)
  {
    out := [];
    for i := 0 to |items|
      invariant |out| == i
      invariant forall x :: 0 <= x < i ==> out[x] == MergedItem(items[x], p.subs, p.idx[x], partials, n, group)
    {
      var v := MergeItem(items[i], p.subs, p.idx[i], partials, n, group);
      out := out + [v];
    }
  }

  /** `AggregatePlan.Merge`: one partial row from each shard gives the row of the whole table. */
  method Merge(items: seq<Item>, p: Plan, ghost parts: seq<seq<Row>>, partials: seq<Row>) returns (out: Row)
    requires PlanOK(items, p) && partials == ShardRows(p.subs, parts)
    requires forall i :: 0 <= i < |items| ==> ItemReady(items[i], Flat(parts))
    ensures |out| == |items|
    ensures forall i :: 0 <= i < |items| ==> out[i] == ItemOf(items[i], Flat(parts), Null)
  {
    ghost var heads: seq<Row> := seq(|parts|, s => []);
    JoinedEmpty(heads, partials);
    SumsReady(p.subs, heads, parts, 0);
    out := MergeItems(items, p, partials, 0, Null);
    JoinedHolds(p.subs, heads, parts, 0);
    forall i | 0 <= i < |items| ensures out[i] == ItemOf(items[i], Flat(parts), Null) {
      MergedItemIs(items[i], p.subs, p.idx[i], partials, parts, 0, Null);
    }
  }
}
