/**
 Partial groups on their way to the coordinator: the group value and the partials of every
 row travel as text. The group of NULL comes back as the string NULL, or as false.
 */
module AggGroupWire {
  import opened Wrappers
  import opened Aggregates
  import opened AggPlans
  import opened AggGroups
  import opened AggWire

  // ----- Group values -----

  /** NULL and what it is read back as are not both group values. */
  ghost predicate NullApart(t: ColType, vals: seq<Value>) {
    NullRead(t) == Null || !(Null in vals && NullRead(t) in vals)
  }

  lemma CarriedApart(t: ColType, vals: seq<Value>, v: Value, x: Value)
    requires AllTyped(t, vals) && v in vals && x in vals && NullApart(t, vals)
    ensures Carried(t, v) == Carried(t, x) ==> v == x
  {
    CarriedIs(t, v);
    CarriedIs(t, x);
  }

  lemma {:induction false} CarriedMember(t: ColType, vals: seq<Value>, v: Value)
    requires v in vals
    ensures Carried(t, v) in CarriedAll(t, vals)
  {
    var i :| 0 <= i < |vals| && vals[i] == v;
    assert CarriedAll(t, vals)[i] == Carried(t, v);
  }

  lemma PrefixTyped(t: ColType, vals: seq<Value>, init: seq<Value>)
    requires AllTyped(t, vals) && init <= vals
    ensures AllTyped(t, init) && (NullApart(t, vals) ==> NullApart(t, init))
  {
    assert forall i :: 0 <= i < |init| ==> init[i] == vals[i];
  }

  /** Values that stay apart are first seen in the same order. */
  lemma {:induction false} CarriedSeen(t: ColType, vals: seq<Value>)
    requires AllTyped(t, vals) && NullApart(t, vals)
    ensures FirstSeen(CarriedAll(t, vals)) == CarriedAll(t, FirstSeen(vals))
  {
    hide Carried;
    hide NullApart;
    if vals != [] {
      var n := |vals| - 1;
      var init, x := vals[..n], vals[n];
      PrefixTyped(t, vals, init);
      CarriedSeen(t, init);
      SeenOnce(init);
      var seen := FirstSeen(init);
      assert CarriedAll(t, vals)[..n] == CarriedAll(t, init);
      if x in seen {
        CarriedMember(t, seen, x);
      } else {
        forall i | 0 <= i < |seen| ensures CarriedAll(t, seen)[i] != Carried(t, x) {
          assert seen[i] in init;
          assert seen[i] in vals && x in vals;
          CarriedApart(t, vals, seen[i], x);
        }
        assert CarriedAll(t, seen + [x]) == CarriedAll(t, seen) + [Carried(t, x)];
      }
    }
  }

  /** If NULL meets what it is read back as, there are fewer groups. */
  lemma {:induction false} CarriedFewer(t: ColType, vals: seq<Value>)
    ensures |FirstSeen(CarriedAll(t, vals))| <= |FirstSeen(vals)|
    ensures !NullApart(t, vals) ==> |FirstSeen(CarriedAll(t, vals))| < |FirstSeen(vals)|
  {
    hide Carried;
    if vals != [] {
      var n := |vals| - 1;
      var init, x := vals[..n], vals[n];
      assert vals == init + [x];
      CarriedFewer(t, init);
      SeenOnce(init);
      SeenOnce(CarriedAll(t, init));
      assert CarriedAll(t, vals)[..n] == CarriedAll(t, init);
      if x in init {
        CarriedMember(t, init, x);
      } else if !NullApart(t, vals) && NullApart(t, init) {
        MetLast(t, init, x);
      }
    }
  }

  lemma MetLast(t: ColType, init: seq<Value>, x: Value)
    requires x !in init && NullApart(t, init) && !NullApart(t, init + [x])
    ensures Carried(t, x) in CarriedAll(t, init)
  {
    var other := if x == Null then NullRead(t) else Null;
    assert other in init;
    CarriedMember(t, init, other);
    NullReadTwice(t);
  }

  lemma NullReadTwice(t: ColType)
    ensures Carried(t, NullRead(t)) == NullRead(t)
  {
    CarriedIs(t, NullRead(t));
  }

  /** After the text no two group values print alike. */
  lemma CarriedNoClash(t: ColType, vals: seq<Value>)
    requires !t.FloatT? && AllTyped(t, vals)
    ensures NoClash(CarriedAll(t, vals)) && KeyColumn(CarriedAll(t, vals))
  {
    hide Text;
    var cs := CarriedAll(t, vals);
    forall i | 0 <= i < |cs| ensures Typed(t, cs[i]) && (cs[i].Null? ==> t.IntT?) && !cs[i].FloatV? {
      CarriedIs(t, vals[i]);
    }
    NoClashMeans(cs);
  }

  // ----- The rows of a group -----

  lemma {:induction false} ShardGroupsLong(subs: seq<Sub>, rows: seq<Row>, g: nat, vs: seq<Value>)
    ensures forall r :: r in ShardGroups(subs, rows, g, vs) ==> |r| == 1 + |subs|
  {
    if vs != [] {
      ShardGroupsLong(subs, rows, g, vs[..|vs| - 1]);
    }
  }

  lemma {:induction false} SentLong(subs: seq<Sub>, parts: seq<seq<Row>>, g: nat)
    ensures forall s :: 0 <= s < |Sent(subs, parts, g)| ==> |Sent(subs, parts, g)[s]| == 1 + |subs|
  {
    if parts != [] {
      var last := parts[|parts| - 1];
      SentLong(subs, parts[..|parts| - 1], g);
      ShardGroupsLong(subs, last, g, Groups(last, g));
      var a, b := Sent(subs, parts[..|parts| - 1], g), ShardGroups(subs, last, g, Groups(last, g));
      forall s | 0 <= s < |a + b| ensures |(a + b)[s]| == 1 + |subs| {
        assert s >= |a| ==> b[s - |a|] in b;
      }
    }
  }

  lemma {:induction false} GroupCarried(t: ColType, types: seq<ColType>, rows: seq<Row>, whole: seq<Value>, v: Value)
    requires forall s :: 0 <= s < |rows| ==> |rows[s]| == |[t] + types| && rows[s][0] in whole
    requires AllTyped(t, whole) && NullApart(t, whole) && v in whole
    ensures forall s :: 0 <= s < |GroupRows(rows, 0, v)| ==> |GroupRows(rows, 0, v)[s]| == |[t] + types|
    ensures GroupRows(CarriedRows([t] + types, rows), 0, Carried(t, v)) == CarriedRows([t] + types, GroupRows(rows, 0, v))
  {
    hide Carried;
    hide NullApart;
    if rows != [] {
      var n := |rows| - 1;
      GroupCarried(t, types, rows[..n], whole, v);
      assert CarriedRows([t] + types, rows)[..n] == CarriedRows([t] + types, rows[..n]);
      CarriedApart(t, whole, rows[n][0], v);
      assert CarriedRow([t] + types, rows[n])[0] == Carried(t, rows[n][0]);
    }
  }

  lemma JoinedCarried(t: ColType, types: seq<ColType>, v: Value, rows: seq<Row>)
    requires forall s :: 0 <= s < |rows| ==> |rows[s]| == |types|
    ensures CarriedRows([t] + types, Joined(Heads(v, |rows|), rows)) == Joined(Heads(Carried(t, v), |rows|), CarriedRows(types, rows))
  {
    hide Carried;
    var a := CarriedRows([t] + types, Joined(Heads(v, |rows|), rows));
    var b := Joined(Heads(Carried(t, v), |rows|), CarriedRows(types, rows));
    forall s | 0 <= s < |rows| ensures a[s] == b[s] {
      assert a[s] == CarriedRow([t] + types, [v] + rows[s]);
      assert b[s] == [Carried(t, v)] + CarriedRow(types, rows[s]);
    }
  }

  lemma {:induction false} JoinedColumn(v: Value, rows: seq<Row>, i: nat)
    ensures Column(Joined(Heads(v, |rows|), rows), 1 + i) == Column(rows, i)
  {
    if rows != [] {
      var n := |rows| - 1;
      JoinedColumn(v, rows[..n], i);
      assert Joined(Heads(v, |rows|), rows)[..n] == Joined(Heads(v, n), rows[..n]);
    }
  }

  // ----- Typed rows -----

  lemma {:induction false} GroupTyped(t: ColType, col: Option<nat>, rows: seq<Row>, g: nat, v: Value)
    requires AllTyped(t, Inputs(col, rows))
    ensures AllTyped(t, Inputs(col, GroupRows(rows, g, v)))
  {
    if rows != [] && col.Some? {
      var n := |rows| - 1;
      var init, r := rows[..n], rows[n];
      var a, b := Inputs(col, init), Inputs(col, [r]);
      assert rows == init + [r];
      ColumnConcat(init, [r], col.value);
      assert forall i :: 0 <= i < |a| ==> (a + b)[i] == a[i];
      assert forall i :: 0 <= i < |b| ==> (a + b)[|a| + i] == b[i];
      GroupTyped(t, col, init, g, v);
      var kept := GroupRows(init, g, v);
      if g < |r| && r[g] == v {
        ColumnConcat(kept, [r], col.value);
      } else {
        assert kept + [] == kept;
      }
    } else if rows != [] {
      assert Inputs(col, rows)[0] == BoolV(true);
    }
  }

  lemma GroupPlanTyped(p: Plan, types: seq<ColType>, parts: seq<seq<Row>>, g: nat, v: Value)
    requires PlanTyped(p, types, parts)
    ensures PlanTyped(p, types, PartsOf(parts, g, v))
  {
    PartsAreGroup(parts, g, v);
    forall i | 0 <= i < |p.subs| ensures SubTyped(p.subs[i], types[i], PartsOf(parts, g, v)) {
      assert SubTyped(p.subs[i], types[i], parts);
      if !p.subs[i].kind.Count? {
        GroupTyped(types[i], p.subs[i].col, Flat(parts), g, v);
      }
    }
  }

  // ----- One merged group -----

  /** The row of a group arrives: every item does, and its value is no NULL that is read back as something else. */
  ghost predicate GroupArrives(items: seq<Item>, p: Plan, t: ColType, types: seq<ColType>, parts: seq<seq<Row>>, g: nat, v: Value)
    requires |p.idx| == |items|
  {
    && (GroupCol in items ==> v != Null || NullRead(t) == Null)
    && forall i :: 0 <= i < |items| ==> ItemArrives(items[i], types, p.idx[i], PartsOf(parts, g, v))
  }

  /** The partial rows of a group as the coordinator reads them. */
  ghost function GroupPartials(subs: seq<Sub>, t: ColType, types: seq<ColType>, parts: seq<seq<Row>>, g: nat, v: Value): seq<Row>
    requires |types| == |subs|
  {
    var ps := PartsOf(parts, g, v);
    Joined(Heads(Carried(t, v), |ps|), CarriedRows(types, ShardRows(subs, ps)))
  }

  lemma GroupItem(item: Item, p: Plan, idx: seq<nat>, t: ColType, types: seq<ColType>, parts: seq<seq<Row>>, g: nat, v: Value)
    requires Planned(item, p.subs, idx) && PlanTyped(p, types, parts) && Typed(t, v)
    ensures MergedItem(item, p.subs, idx, GroupPartials(p.subs, t, types, parts, g, v), 1, Carried(t, v))
            == ItemOf(item, GroupRows(Flat(parts), g, v), v) <==>
            (item == GroupCol ==> v != Null || NullRead(t) == Null) && ItemArrives(item, types, idx, PartsOf(parts, g, v))
  {
    hide Carried;
    hide Column;
    hide MergedItem;
    hide ItemOf;
    var ps := PartsOf(parts, g, v);
    var rows := CarriedRows(types, ShardRows(p.subs, ps));
    PartsAreGroup(parts, g, v);
    CarriedIs(t, v);
    SameItem(item, p.subs, idx, rows, Carried(t, v));
    SameAsked(item, GroupRows(Flat(parts), g, v), v);
    if item != GroupCol {
      GroupPlanTyped(p, types, parts, g, v);
      ItemCarried(item, p, idx, types, ps, rows);
    }
  }

  /** Behind a column for the group value an item is merged as without one. */
  lemma SameItem(item: Item, subs: seq<Sub>, idx: seq<nat>, rows: seq<Row>, u: Value)
    requires Planned(item, subs, idx)
    ensures MergedItem(item, subs, idx, Joined(Heads(u, |rows|), rows), 1, u)
            == if item == GroupCol then u else MergedItem(item, subs, idx, rows, 0, Null)
  {
    hide Column;
    match item
    case GroupCol =>
    case Call(_, _) => JoinedColumn(u, rows, idx[0]);
    case Avg(_) =>
      JoinedColumn(u, rows, idx[0]);
      JoinedColumn(u, rows, idx[1]);
  }

  lemma SameAsked(item: Item, rows: seq<Row>, v: Value)
    ensures ItemOf(item, rows, v) == if item == GroupCol then v else ItemOf(item, rows, Null)
  {
  }

  lemma GroupRowIff(items: seq<Item>, p: Plan, t: ColType, types: seq<ColType>, parts: seq<seq<Row>>, g: nat, v: Value, row: Row)
    requires PlanOK(items, p) && PlanTyped(p, types, parts) && Typed(t, v)
    requires MergedFrom(items, p, Bucket(Carried(t, v), GroupPartials(p.subs, t, types, parts, g, v)), row)
    ensures row == GroupRow(items, GroupRows(Flat(parts), g, v), v) <==> GroupArrives(items, p, t, types, parts, g, v)
  {
    hide Carried;
    hide MergedItem;
    hide ItemArrives;
    hide ItemOf;
    hide GroupPartials;
    var want := GroupRow(items, GroupRows(Flat(parts), g, v), v);
    forall i | 0 <= i < |items|
      ensures row[i] == want[i] <==>
              (items[i] == GroupCol ==> v != Null || NullRead(t) == Null) && ItemArrives(items[i], types, p.idx[i], PartsOf(parts, g, v))
    {
      GroupItem(items[i], p, p.idx[i], t, types, parts, g, v);
    }
    if GroupArrives(items, p, t, types, parts, g, v) {
      forall i | 0 <= i < |items| ensures row[i] == want[i] {
        assert items[i] in items;
      }
    }
  }

  // ----- All groups -----

  /** `rowsFromPayloadTyped` of what the shards send, the group value first. */
  ghost function CarriedSent(subs: seq<Sub>, t: ColType, types: seq<ColType>, parts: seq<seq<Row>>, g: nat): seq<Row>
    requires |types| == |subs|
  {
    SentLong(subs, parts, g);
    CarriedRows([t] + types, Sent(subs, parts, g))
  }

  lemma SentTyped(subs: seq<Sub>, t: ColType, parts: seq<seq<Row>>, g: nat)
    requires AllTyped(t, Column(Flat(parts), g))
    ensures var heads := Column(Sent(subs, parts, g), 0);
            && AllTyped(t, heads) && FirstSeen(heads) == Groups(Flat(parts), g)
            && (NullApart(t, heads) <==> NullApart(t, Column(Flat(parts), g)))
  {
    var heads, vals := Column(Sent(subs, parts, g), 0), Column(Flat(parts), g);
    SentGroups(subs, parts, g);
    SeenOnce(heads);
    SeenOnce(vals);
    forall i | 0 <= i < |heads| ensures Typed(t, heads[i]) {
      assert heads[i] in heads;
      assert heads[i] in vals;
    }
  }

  lemma CarriedHeads(subs: seq<Sub>, t: ColType, types: seq<ColType>, parts: seq<seq<Row>>, g: nat)
    requires |types| == |subs|
    ensures Column(CarriedSent(subs, t, types, parts, g), 0) == CarriedAll(t, Column(Sent(subs, parts, g), 0))
  {
    SentLong(subs, parts, g);
    CarriedColumn([t] + types, Sent(subs, parts, g), 0);
  }

  lemma CarriedRowsReady(p: Plan, t: ColType, types: seq<ColType>, parts: seq<seq<Row>>, g: nat)
    requires PlanTyped(p, types, parts)
    ensures forall s :: 0 <= s < |CarriedSent(p.subs, t, types, parts, g)| ==> RowReady(p.subs, CarriedSent(p.subs, t, types, parts, g)[s], 1)
  {
    SentLong(p.subs, parts, g);
    var sent: seq<Row> := Sent(p.subs, parts, g);
    var partials: seq<Row> := CarriedSent(p.subs, t, types, parts, g);
    forall s | 0 <= s < |partials| ensures RowReady(p.subs, partials[s], 1) {
      forall i | 0 <= i < |p.subs| && p.subs[i].kind.Sum? ensures partials[s][1 + i].Null? || Numeric(partials[s][1 + i]) {
        assert SubTyped(p.subs[i], types[i], parts);
        assert partials[s][1 + i] == Carried(([t] + types)[1 + i], sent[s][1 + i]);
      }
    }
  }

  /** The rows with the text of a group value are the partial rows of that group. */
  lemma CarriedGroup(subs: seq<Sub>, t: ColType, types: seq<ColType>, parts: seq<seq<Row>>, g: nat, v: Value)
    requires |types| == |subs| && !t.FloatT? && AllTyped(t, Column(Flat(parts), g)) && NullApart(t, Column(Flat(parts), g))
    requires v in Groups(Flat(parts), g)
    ensures ByText(CarriedSent(subs, t, types, parts, g), Text(Carried(t, v))) == GroupPartials(subs, t, types, parts, g, v)
  {
    hide Text;
    hide Carried;
    var sent, partials := Sent(subs, parts, g), CarriedSent(subs, t, types, parts, g);
    var heads, ps := Column(sent, 0), PartsOf(parts, g, v);
    SentTyped(subs, t, parts, g);
    SentLong(subs, parts, g);
    CarriedHeads(subs, t, types, parts, g);
    CarriedNoClash(t, heads);
    SeenOnce(heads);
    CarriedMember(t, heads, v);
    HeadsIn(partials);
    ByTextIsGroup(partials, CarriedAll(t, heads), Carried(t, v));
    HeadsIn(sent);
    GroupCarried(t, types, sent, heads, v);
    SentOf(subs, parts, g, v);
    JoinedCarried(t, types, v, ShardRows(subs, ps));
  }

  lemma CarriedBucket(order: seq<Bucket>, subs: seq<Sub>, t: ColType, types: seq<ColType>, parts: seq<seq<Row>>, g: nat, n: nat)
    requires |types| == |subs| && !t.FloatT? && AllTyped(t, Column(Flat(parts), g)) && NullApart(t, Column(Flat(parts), g))
    requires Bucketed(order, CarriedSent(subs, t, types, parts, g)) && n < |Groups(Flat(parts), g)|
    ensures |order| == |Groups(Flat(parts), g)|
    ensures var v := Groups(Flat(parts), g)[n]; order[n] == Bucket(Carried(t, v), GroupPartials(subs, t, types, parts, g, v))
  {
    hide Text;
    hide Carried;
    hide GroupPartials;
    var partials, heads := CarriedSent(subs, t, types, parts, g), Column(Sent(subs, parts, g), 0);
    var cs := CarriedAll(t, heads);
    SentTyped(subs, t, parts, g);
    CarriedHeads(subs, t, types, parts, g);
    CarriedNoClash(t, heads);
    TextsSeen(cs);
    CarriedSeen(t, heads);
    var v := Groups(Flat(parts), g)[n];
    assert v in Groups(Flat(parts), g);
    CarriedGroup(subs, t, types, parts, g, v);
    assert BucketAt(order[n], partials, FirstSeen(Texts(Column(partials, 0)))[n]);
    SameText(order[n], partials, cs, Carried(t, v));
  }

  lemma SameText(b: Bucket, partials: seq<Row>, cs: seq<Value>, u: Value)
    requires Column(partials, 0) == cs && NoClash(cs) && u in FirstSeen(cs) && BucketAt(b, partials, Text(u))
    ensures b.gval == u
  {
    hide Text;
    SeenOnce(cs);
    ByTextAmong(partials, Text(u));
    HeadsIn(partials);
    assert b.rows[0] in partials;
    var s :| 0 <= s < |partials| && partials[s] == b.rows[0];
    assert b.gval in cs;
    var i :| 0 <= i < |cs| && cs[i] == b.gval;
    var j :| 0 <= j < |cs| && cs[j] == u;
    assert cs[i] == cs[j];
  }

  lemma TooFewBuckets(order: seq<Bucket>, subs: seq<Sub>, t: ColType, types: seq<ColType>, parts: seq<seq<Row>>, g: nat)
    requires |types| == |subs| && !t.FloatT? && AllTyped(t, Column(Flat(parts), g)) && !NullApart(t, Column(Flat(parts), g))
    requires Bucketed(order, CarriedSent(subs, t, types, parts, g))
    ensures |order| < |Groups(Flat(parts), g)|
  {
    hide Text;
    hide Carried;
    var heads := Column(Sent(subs, parts, g), 0);
    SentTyped(subs, t, parts, g);
    CarriedHeads(subs, t, types, parts, g);
    CarriedNoClash(t, heads);
    TextsSeen(CarriedAll(t, heads));
    CarriedFewer(t, heads);
  }

  /**
   `GroupedPlan.Merge` over what the coordinator reads: the merged groups are the groups of
   all rows, in first-seen order, if and only if NULL and what it is read back as are not
   both group values, and the row of every group arrives.
   */
  method GroupedMergeCarried(items: seq<Item>, p: Plan, t: ColType, types: seq<ColType>, ghost parts: seq<seq<Row>>, g: nat, partials: seq<Row>)
    returns (out: seq<Row>)
    requires PlanOK(items, p) && PlanTyped(p, types, parts) && !t.FloatT? && AllTyped(t, Column(Flat(parts), g))
    requires partials == CarriedSent(p.subs, t, types, parts, g)
    ensures out == Reference(items, Flat(parts), g) <==>
              && NullApart(t, Column(Flat(parts), g))
              && forall v :: v in Groups(Flat(parts), g) ==> GroupArrives(items, p, t, types, parts, g, v)
    ensures !NullApart(t, Column(Flat(parts), g)) ==> |out| < |Reference(items, Flat(parts), g)|
  {
    CarriedHeads(p.subs, t, types, parts, g);
    SentTyped(p.subs, t, parts, g);
    CarriedNoClash(t, Column(Sent(p.subs, parts, g), 0));
    CarriedRowsReady(p, t, types, parts, g);
    var order := Collect(partials);
    out := MergeBuckets(items, p, order, partials);
    if NullApart(t, Column(Flat(parts), g)) {
      GroupsArrive(items, p, t, types, parts, g, order, out);
    } else {
      TooFewBuckets(order, p.subs, t, types, parts, g);
    }
  }

  lemma GroupsArrive(items: seq<Item>, p: Plan, t: ColType, types: seq<ColType>, parts: seq<seq<Row>>, g: nat, order: seq<Bucket>, out: seq<Row>)
    requires PlanOK(items, p) && PlanTyped(p, types, parts) && !t.FloatT? && AllTyped(t, Column(Flat(parts), g))
    requires NullApart(t, Column(Flat(parts), g)) && Bucketed(order, CarriedSent(p.subs, t, types, parts, g))
    requires |out| == |order| && forall i :: 0 <= i < |order| ==> MergedFrom(items, p, order[i], out[i])
    ensures out == Reference(items, Flat(parts), g) <==>
              forall v :: v in Groups(Flat(parts), g) ==> GroupArrives(items, p, t, types, parts, g, v)
  {
    hide Bucketed;
    hide GroupArrives;
    hide MergedFrom;
    hide Carried;
    var vs, want := Groups(Flat(parts), g), Reference(items, Flat(parts), g);
    SeenOnce(Column(Flat(parts), g));
    forall n | 0 <= n < |vs|
      ensures |out| == |vs| && (out[n] == want[n] <==> GroupArrives(items, p, t, types, parts, g, vs[n]))
    {
      CarriedBucket(order, p.subs, t, types, parts, g, n);
      assert vs[n] in vs && vs[n] in Column(Flat(parts), g);
      assert MergedFrom(items, p, order[n], out[n]);
      GroupRowIff(items, p, t, types, parts, g, vs[n], out[n]);
    }
    if vs == [] {
      NoBuckets(order, p.subs, t, types, parts, g);
    } else {
      CarriedBucket(order, p.subs, t, types, parts, g, 0);
    }
    assert |out| == |want|;
    if forall v :: v in vs ==> GroupArrives(items, p, t, types, parts, g, v) {
      forall n | 0 <= n < |vs| ensures out[n] == want[n] {
        assert vs[n] in vs;
      }
    }
  }

  lemma NoBuckets(order: seq<Bucket>, subs: seq<Sub>, t: ColType, types: seq<ColType>, parts: seq<seq<Row>>, g: nat)
    requires |types| == |subs| && AllTyped(t, Column(Flat(parts), g)) && Groups(Flat(parts), g) == []
    requires Bucketed(order, CarriedSent(subs, t, types, parts, g))
    ensures order == []
  {
    SentTyped(subs, t, parts, g);
    CarriedHeads(subs, t, types, parts, g);
    var heads := Column(Sent(subs, parts, g), 0);
    SeenNothing(heads);
    assert Texts(CarriedAll(t, heads)) == [];
  }

  lemma SeenNothing(xs: seq<Value>)
    ensures FirstSeen(xs) == [] ==> xs == []
  {
    SeenOnce(xs);
    if xs != [] {
      assert xs[0] in xs;
    }
  }
}
