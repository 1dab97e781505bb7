/**
 The bucket-array path, the hash path and the two-pass path of GROUP BY: all return the
 groups in first-seen order with the aggregates of row-by-row grouping.
 */
module GroupPaths {
  import opened Wrappers
  import opened Aggregates
  import opened AggGroups
  import opened GroupBy

  const MAX_GROUP_BUCKET: nat := 0x40_0000

  /** A group and its accumulators; pointers to groups are positions in the order of creation. */
  datatype Grp = Grp(gval: Value, accs: seq<Acc>)

  /** The aggregated columns, and the aggregates that read each of them. */
  datatype ColAgg = ColAgg(col: nat, ks: seq<nat>)

  /** Columns of the same length as the group column, which holds 64-bit integers. */
  ghost predicate Aligned(g: NumVec, cols: seq<NumVec>, gas: seq<GroupAgg>) {
    && (forall c :: 0 <= c < |cols| ==> |cols[c].ints| == |g.ints|)
    && (forall k :: 0 <= k < |gas| ==>
          gas[k].aggs != [] && (gas[k].col.Some? ==> gas[k].col.value < |cols|) && (gas[k].col.None? ==> gas[k].aggs[0] == ACount))
    && forall p :: 0 <= p < |g.ints| ==> -0x8000_0000_0000_0000 <= g.ints[p] < 0x8000_0000_0000_0000
  }

  // ----- What grouping means -----

  /** The values of a column at the rows of a group. */
  function PickRows(gv: seq<Value>, av: seq<Value>, g: Value): seq<Value>
    requires |gv| <= |av|
  {
    if gv == [] then []
    else
      var n := |gv| - 1;
      PickRows(gv[..n], av, g) + if gv[n] == g then [av[n]] else []
  }

  function Members(gv: seq<Value>, g: Value): nat {
    if gv == [] then 0 else Members(gv[..|gv| - 1], g) + if gv[|gv| - 1] == g then 1 else 0
  }

  /** The rows where a group and a column have a value each. */
  ghost function Meeting(gv: seq<Value>, av: seq<Value>, g: Value, x: Value): set<int>
    requires |gv| <= |av|
  {
    set p | 0 <= p < |gv| && gv[p] == g && av[p] == x
  }

  /** A group has each value of a column as often as the two meet in a row. */
  lemma {:induction false} PickRowsAre(gv: seq<Value>, av: seq<Value>, g: Value, x: Value)
    requires |gv| <= |av|
    ensures multiset(PickRows(gv, av, g))[x] == |Meeting(gv, av, g, x)|
  {
    hide Meeting;
    if gv == [] {
      NoneMeet(av, g, x);
    } else {
      var n := |gv| - 1;
      PickRowsAre(gv[..n], av, g, x);
      MeetingLast(gv, av, g, x);
      var before := PickRows(gv[..n], av, g);
      assert PickRows(gv, av, g) == if gv[n] == g then before + [av[n]] else before;
    }
  }

  lemma NoneMeet(av: seq<Value>, g: Value, x: Value)
    ensures Meeting([], av, g, x) == {}
  {
  }

  /** A group has as many rows as have its value. */
  lemma {:induction false} MembersAre(gv: seq<Value>, g: Value)
    ensures Members(gv, g) == multiset(gv)[g]
  {
    if gv != [] {
      var n := |gv| - 1;
      MembersAre(gv[..n], g);
      assert gv == gv[..n] + [gv[n]];
    }
  }

  lemma {:induction false} MeetingLast(gv: seq<Value>, av: seq<Value>, g: Value, x: Value)
    requires gv != [] && |gv| <= |av|
    ensures var n := |gv| - 1;
            |Meeting(gv, av, g, x)| == |Meeting(gv[..n], av, g, x)| + if gv[n] == g && av[n] == x then 1 else 0
  {
    var n := |gv| - 1;
    var before := Meeting(gv[..n], av, g, x);
    var now := Meeting(gv, av, g, x);
    forall p ensures p in now <==> p in before || (p == n && gv[n] == g && av[n] == x) {
      if 0 <= p < n {
        assert gv[..n][p] == gv[p];
      }
    }
    assert n !in before;
    hide Meeting;
    if gv[n] == g && av[n] == x {
      assert now == before + {n};
    } else {
      assert now == before;
    }
  }

  /** One aggregate of one group, evaluated row by row over the first `n` rows. */
  ghost function RefValue(ga: GroupAgg, cols: seq<NumVec>, gv: seq<Value>, g: Value): Value
    requires ga.aggs != [] && (ga.col.Some? ==> ga.col.value < |cols| && |gv| <= |cols[ga.col.value].ints|)
  {
    if ga.col.None? then IntV(Members(gv, g)) else Named(ga.aggs[0], PickRows(gv, Values(cols[ga.col.value]), g))
  }

  /** The rows grouping returns: a group per distinct value in first-seen order. */
  ghost predicate IsGrouping(rows: seq<seq<Value>>, g: NumVec, cols: seq<NumVec>, gas: seq<GroupAgg>)
    requires Aligned(g, cols, gas)
  {
    var gs := FirstSeen(Values(g));
    && |rows| == |gs|
    && forall i :: 0 <= i < |rows| ==> IsGroupRow(rows[i], gs[i], g, cols, gas)
  }

  ghost predicate IsGroupRow(row: seq<Value>, v: Value, g: NumVec, cols: seq<NumVec>, gas: seq<GroupAgg>)
    requires Aligned(g, cols, gas)
  {
    && |row| == 1 + |gas| && row[0] == v
    && forall k :: 0 <= k < |gas| ==> row[1 + k] == RefValue(gas[k], cols, Values(g), v)
  }

  // ----- The state of a pass -----

  /** The accumulator of an aggregate for group `v` after the rows `gv`. */
  ghost function AccFor(ga: GroupAgg, cols: seq<NumVec>, gv: seq<Value>, v: Value): Acc
    requires ga.col.Some? ==> ga.col.value < |cols| && |gv| <= |cols[ga.col.value].ints|
  {
    if ga.col.None? then NewAcc(ga.aggs).(cnt := Members(gv, v))
    else AccOf(ga.aggs, PickRows(gv, Values(cols[ga.col.value]), v))
  }

  ghost predicate GrpIs(b: Grp, v: Value, cols: seq<NumVec>, gas: seq<GroupAgg>, gv: seq<Value>)
    requires ColsReach(cols, gas, |gv|)
  {
    && b.gval == v && |b.accs| == |gas|
    && forall k :: 0 <= k < |gas| ==> b.accs[k] == AccFor(gas[k], cols, gv, v)
  }

  /** The groups after the rows `gv`. */
  ghost predicate Built(order: seq<Grp>, cols: seq<NumVec>, gas: seq<GroupAgg>, gv: seq<Value>)
    requires ColsReach(cols, gas, |gv|)
  {
    && |order| == |FirstSeen(gv)|
    && forall i :: 0 <= i < |order| ==> GrpIs(order[i], FirstSeen(gv)[i], cols, gas, gv)
  }

  /** One aggregate takes in row `p`. */
  function Stepped(a: Acc, ga: GroupAgg, cols: seq<NumVec>, p: nat): Acc
    requires ga.col.Some? ==> ga.col.value < |cols| && p < |cols[ga.col.value].ints|
  {
    if ga.col.None? then a.(cnt := a.cnt + 1)
    else if NullAt(cols[ga.col.value], p) then a
    else AddNum(a, cols[ga.col.value].ints[p])
  }

  lemma AccForSnoc(ga: GroupAgg, cols: seq<NumVec>, gv: seq<Value>, x: Value, v: Value)
    requires ga.col.Some? ==> ga.col.value < |cols| && |gv| < |cols[ga.col.value].ints|
    ensures AccFor(ga, cols, gv + [x], v) ==
            if x == v then Stepped(AccFor(ga, cols, gv, v), ga, cols, |gv|) else AccFor(ga, cols, gv, v)
  {
    assert (gv + [x])[..|gv|] == gv;
    if ga.col.Some? {
      var picked := PickRows(gv, Values(cols[ga.col.value]), v);
      var y := Values(cols[ga.col.value])[|gv|];
      if x == v {
        assert (picked + [y])[..|picked|] == picked;
      } else {
        assert picked + [] == picked;
      }
    }
  }

  lemma {:induction false} AccForNone(ga: GroupAgg, cols: seq<NumVec>, gv: seq<Value>, v: Value)
    requires v !in gv && (ga.col.Some? ==> ga.col.value < |cols| && |gv| <= |cols[ga.col.value].ints|)
    ensures AccFor(ga, cols, gv, v) == NewAcc(ga.aggs)
  {
    if gv != [] {
      var n := |gv| - 1;
      assert gv == gv[..n] + [gv[n]];
      AccForNone(ga, cols, gv[..n], v);
      AccForSnoc(ga, cols, gv[..n], gv[n], v);
    }
  }

  ghost predicate ColsReach(cols: seq<NumVec>, gas: seq<GroupAgg>, n: nat) {
    forall k :: 0 <= k < |gas| && gas[k].col.Some? ==> gas[k].col.value < |cols| && n <= |cols[gas[k].col.value].ints|
  }

  ghost predicate SteppedAll(accs0: seq<Acc>, accs: seq<Acc>, cols: seq<NumVec>, gas: seq<GroupAgg>, p: nat)
    requires ColsReach(cols, gas, p + 1)
  {
    |accs0| == |accs| == |gas| && forall k :: 0 <= k < |gas| ==> accs[k] == Stepped(accs0[k], gas[k], cols, p)
  }

  lemma OtherGroup(b: Grp, v: Value, cols: seq<NumVec>, gas: seq<GroupAgg>, gv: seq<Value>, x: Value)
    requires ColsReach(cols, gas, |gv| + 1) && GrpIs(b, v, cols, gas, gv) && v != x
    ensures GrpIs(b, v, cols, gas, gv + [x])
  {
    forall k | 0 <= k < |gas| ensures b.accs[k] == AccFor(gas[k], cols, gv + [x], v) {
      AccForSnoc(gas[k], cols, gv, x, v);
    }
  }

  lemma ThisGroup(b: Grp, cols: seq<NumVec>, gas: seq<GroupAgg>, gv: seq<Value>, x: Value, accs: seq<Acc>)
    requires ColsReach(cols, gas, |gv| + 1) && GrpIs(b, x, cols, gas, gv) && SteppedAll(b.accs, accs, cols, gas, |gv|)
    ensures GrpIs(Grp(x, accs), x, cols, gas, gv + [x])
  {
    forall k | 0 <= k < |gas| ensures accs[k] == AccFor(gas[k], cols, gv + [x], x) {
      AccForSnoc(gas[k], cols, gv, x, x);
    }
  }

  lemma NewGroupIs(v: Value, cols: seq<NumVec>, gas: seq<GroupAgg>, gv: seq<Value>)
    requires ColsReach(cols, gas, |gv|) && v !in gv
    ensures GrpIs(NewGrp(v, gas), v, cols, gas, gv)
  {
    forall k | 0 <= k < |gas| ensures NewAcc(gas[k].aggs) == AccFor(gas[k], cols, gv, v) {
      AccForNone(gas[k], cols, gv, v);
    }
  }

  /** A row of a known group: that group takes it in, the others stay. */
  lemma BuiltKnown(order: seq<Grp>, cols: seq<NumVec>, gas: seq<GroupAgg>, gv: seq<Value>, x: Value, i: nat, accs: seq<Acc>)
    requires ColsReach(cols, gas, |gv| + 1) && Built(order, cols, gas, gv)
    requires i < |order| && order[i].gval == x && SteppedAll(order[i].accs, accs, cols, gas, |gv|)
    ensures Built(order[i := Grp(x, accs)], cols, gas, gv + [x])
  {
    SeenOnce(gv);
    assert (gv + [x])[..|gv|] == gv;
    var seen := FirstSeen(gv);
    assert GrpIs(order[i], seen[i], cols, gas, gv);
    assert x in seen && FirstSeen(gv + [x]) == seen;
    ThisGroup(order[i], cols, gas, gv, x, accs);
    forall j | 0 <= j < |order| && j != i ensures GrpIs(order[j], seen[j], cols, gas, gv + [x]) {
      OtherGroup(order[j], seen[j], cols, gas, gv, x);
    }
  }

  /** A row of a new group. */
  lemma BuiltNew(order: seq<Grp>, cols: seq<NumVec>, gas: seq<GroupAgg>, gv: seq<Value>, x: Value, accs: seq<Acc>)
    requires ColsReach(cols, gas, |gv| + 1) && Built(order, cols, gas, gv)
    requires x !in gv && SteppedAll(NewGrp(x, gas).accs, accs, cols, gas, |gv|)
    ensures Built(order + [Grp(x, accs)], cols, gas, gv + [x])
  {
    SeenOnce(gv);
    assert (gv + [x])[..|gv|] == gv;
    var seen := FirstSeen(gv);
    assert FirstSeen(gv + [x]) == seen + [x];
    NewGroupIs(x, cols, gas, gv);
    ThisGroup(NewGrp(x, gas), cols, gas, gv, x, accs);
    forall j | 0 <= j < |order| ensures GrpIs(order[j], seen[j], cols, gas, gv + [x]) {
      OtherGroup(order[j], seen[j], cols, gas, gv, x);
    }
  }

  function NewGrp(v: Value, gas: seq<GroupAgg>): (b: Grp)
    ensures b.gval == v && |b.accs| == |gas| && forall k :: 0 <= k < |gas| ==> b.accs[k] == NewAcc(gas[k].aggs)
  {
    Grp(v, seq(|gas|, k requires 0 <= k < |gas| => NewAcc(gas[k].aggs)))
  }

  // ----- One row -----

  /** Which aggregates read which column: each aggregate with a column once, the others in `stars`. */
  ghost predicate Split(gas: seq<GroupAgg>, stars: seq<nat>, cas: seq<ColAgg>) {
    && (forall i :: 0 <= i < |stars| ==> stars[i] < |gas| && gas[stars[i]].col.None?)
    && (forall i, j :: 0 <= i < j < |stars| ==> stars[i] != stars[j])
    && (forall c :: 0 <= c < |cas| ==> ReadersOK(gas, cas[c]))
    && (forall c, d :: 0 <= c < d < |cas| ==> cas[c].col != cas[d].col)
    && forall k :: 0 <= k < |gas| ==> if gas[k].col.None? then k in stars else Reads(cas, k)
  }

  ghost predicate Reads(cas: seq<ColAgg>, k: nat) {
    exists c :: 0 <= c < |cas| && k in cas[c].ks
  }

  /** The aggregates of one column, each once. */
  ghost predicate ReadersOK(gas: seq<GroupAgg>, ca: ColAgg) {
    && ca.ks != []
    && (forall i :: 0 <= i < |ca.ks| ==> ca.ks[i] < |gas| && gas[ca.ks[i]].col == Some(ca.col))
    && forall i, j :: 0 <= i < j < |ca.ks| ==> ca.ks[i] != ca.ks[j]
  }

  /** Groups the aggregates by the column they read, so that each column is decoded once. */
  method SplitAggs(gas: seq<GroupAgg>) returns (stars: seq<nat>, cas: seq<ColAgg>)
    ensures Split(gas, stars, cas)
  {
    stars, cas := [], [];
    for k := 0 to |gas|
      invariant SplitUpTo(gas, stars, cas, k)
    {
      if gas[k].col.None? {
        stars := stars + [k];
        continue;
      }
      var c := FindCol(cas, gas[k].col.value);
      ReaderAdded(gas, stars, cas, k, c);
      if c < |cas| {
        cas := cas[c := ColAgg(cas[c].col, cas[c].ks + [k])];
      } else {
        cas := cas + [ColAgg(gas[k].col.value, [k])];
      }
    }
  }

  method FindCol(cas: seq<ColAgg>, col: nat) returns (c: nat)
    ensures c <= |cas| && (c < |cas| ==> cas[c].col == col)
    ensures c == |cas| ==> forall d :: 0 <= d < |cas| ==> cas[d].col != col
  {
    c := 0;
    while c < |cas| && cas[c].col != col
      invariant c <= |cas| && forall d :: 0 <= d < c ==> cas[d].col != col
    {
      c := c + 1;
    }
  }

  ghost predicate SplitUpTo(gas: seq<GroupAgg>, stars: seq<nat>, cas: seq<ColAgg>, n: nat) {
    && n <= |gas|
    && (forall i :: 0 <= i < |stars| ==> stars[i] < n && gas[stars[i]].col.None?)
    && (forall i, j :: 0 <= i < j < |stars| ==> stars[i] != stars[j])
    && (forall c :: 0 <= c < |cas| ==> ReadersUpTo(gas, cas[c], n))
    && (forall c, d :: 0 <= c < d < |cas| ==> cas[c].col != cas[d].col)
    && forall k :: 0 <= k < n ==> if gas[k].col.None? then k in stars else Reads(cas, k)
  }

  ghost predicate ReadersUpTo(gas: seq<GroupAgg>, ca: ColAgg, n: nat) {
    ReadersOK(gas, ca) && forall i :: 0 <= i < |ca.ks| ==> ca.ks[i] < n
  }

  lemma ReaderAdded(gas: seq<GroupAgg>, stars: seq<nat>, cas: seq<ColAgg>, k: nat, c: nat)
    requires SplitUpTo(gas, stars, cas, k) && k < |gas| && gas[k].col.Some? && c <= |cas|
    requires c < |cas| ==> cas[c].col == gas[k].col.value
    requires c == |cas| ==> forall d :: 0 <= d < |cas| ==> cas[d].col != gas[k].col.value
    ensures c < |cas| ==> SplitUpTo(gas, stars, cas[c := ColAgg(cas[c].col, cas[c].ks + [k])], k + 1)
    ensures c == |cas| ==> SplitUpTo(gas, stars, cas + [ColAgg(gas[k].col.value, [k])], k + 1)
  {
    hide Reads;
    if c < |cas| {
      assert ReadersUpTo(gas, cas[c], k);
      ReadsMore(cas, cas[c := ColAgg(cas[c].col, cas[c].ks + [k])], k, c);
    } else {
      ReadsMore(cas, cas + [ColAgg(gas[k].col.value, [k])], k, c);
    }
  }

  lemma ReadsMore(cas: seq<ColAgg>, cas': seq<ColAgg>, k: nat, c: nat)
    requires |cas| <= |cas'| && c < |cas'| && k in cas'[c].ks
    requires forall d, m :: 0 <= d < |cas| && m in cas[d].ks ==> m in cas'[d].ks
    ensures Reads(cas', k) && forall m :: Reads(cas, m) ==> Reads(cas', m)
  {
    forall m | Reads(cas, m) ensures Reads(cas', m) {
      var d :| 0 <= d < |cas| && m in cas[d].ks;
      assert m in cas'[d].ks;
    }
  }

  /** The aggregates in `done` have taken in row `p`. */
  ghost predicate Partly(accs0: seq<Acc>, accs: seq<Acc>, cols: seq<NumVec>, gas: seq<GroupAgg>, p: nat, done: set<nat>)
    requires ColsReach(cols, gas, p + 1)
  {
    && |accs0| == |accs| == |gas|
    && forall k :: 0 <= k < |gas| ==> accs[k] == if k in done then Stepped(accs0[k], gas[k], cols, p) else accs0[k]
  }

  /** The aggregates of a column take in a row, with the short form for a lone sum. */
  method FoldColumn(accs1: seq<Acc>, ca: ColAgg, gas: seq<GroupAgg>, cols: seq<NumVec>, p: nat, ghost accs0: seq<Acc>, ghost done0: set<nat>)
    returns (accs: seq<Acc>)
    requires ColsReach(cols, gas, p + 1) && ReadersOK(gas, ca) && Partly(accs0, accs1, cols, gas, p, done0)
    requires (forall i :: 0 <= i < |ca.ks| ==> ca.ks[i] !in done0) && ca.col < |cols| && p < |cols[ca.col].ints|
    ensures Partly(accs0, accs, cols, gas, p, done0 + set k | k in ca.ks)
  {
    accs := accs1;
    var noNulls := |cols[ca.col].nulls| == 0;
    if !noNulls && NullAt(cols[ca.col], p) {
      return;
    }
    var i := cols[ca.col].ints[p];
    if |ca.ks| == 1 && accs[ca.ks[0]].flags == {ASum} {
      var a := accs[ca.ks[0]];
      accs := accs[ca.ks[0] := a.(sum := a.sum + i as real, any := true)];
      return;
    }
    accs := AddToAll(accs, ca.ks, i);
    PartlyAll(accs0, accs1, accs, ca, gas, cols, p, done0);
  }

  /** The value of a column goes into every aggregate that reads it. */
  method AddToAll(accs0: seq<Acc>, ks: seq<nat>, i: int) returns (accs: seq<Acc>)
    requires (forall j :: 0 <= j < |ks| ==> ks[j] < |accs0|) && forall i, j :: 0 <= i < j < |ks| ==> ks[i] != ks[j]
    ensures |accs| == |accs0| && forall k :: 0 <= k < |accs| ==> accs[k] == if k in ks then AddNum(accs0[k], i) else accs0[k]
  {
    hide AddNum;
    accs := accs0;
    for j := 0 to |ks|
      invariant |accs| == |accs0|
      invariant forall k :: 0 <= k < |accs| ==> accs[k] == if k in ks[..j] then AddNum(accs0[k], i) else accs0[k]
    {
      assert ks[j] !in ks[..j] && ks[..j + 1] == ks[..j] + [ks[j]];
      accs := accs[ks[j] := AddNum(accs[ks[j]], i)];
    }
    assert ks[..|ks|] == ks;
  }

  lemma PartlyAll(accs0: seq<Acc>, accs1: seq<Acc>, accs: seq<Acc>, ca: ColAgg, gas: seq<GroupAgg>, cols: seq<NumVec>, p: nat, done0: set<nat>)
    requires ColsReach(cols, gas, p + 1) && ReadersOK(gas, ca) && Partly(accs0, accs1, cols, gas, p, done0)
    requires (forall i :: 0 <= i < |ca.ks| ==> ca.ks[i] !in done0) && ca.col < |cols| && p < |cols[ca.col].ints|
    requires !NullAt(cols[ca.col], p) && |accs| == |accs1|
    requires forall k :: 0 <= k < |accs| ==> accs[k] == if k in ca.ks then AddNum(accs1[k], cols[ca.col].ints[p]) else accs1[k]
    ensures Partly(accs0, accs, cols, gas, p, done0 + set k | k in ca.ks)
  {
    hide AddNum;
    hide NullAt;
    forall k | 0 <= k < |gas| && k in ca.ks ensures Stepped(accs0[k], gas[k], cols, p) == AddNum(accs0[k], cols[ca.col].ints[p]) {
      var i :| 0 <= i < |ca.ks| && ca.ks[i] == k;
    }
  }

  /** `count(*)` counts the row whatever is requested. */
  method FoldStars(accs0: seq<Acc>, gas: seq<GroupAgg>, cols: seq<NumVec>, stars: seq<nat>, p: nat) returns (accs: seq<Acc>)
    requires ColsReach(cols, gas, p + 1) && |accs0| == |gas|
    requires forall i :: 0 <= i < |stars| ==> stars[i] < |gas| && gas[stars[i]].col.None?
    requires forall i, j :: 0 <= i < j < |stars| ==> stars[i] != stars[j]
    ensures Partly(accs0, accs, cols, gas, p, set k | k in stars)
  {
    accs := accs0;
    for i := 0 to |stars|
      invariant Partly(accs0, accs, cols, gas, p, set k | k in stars[..i])
    {
      var k := stars[i];
      assert k !in stars[..i];
      accs := accs[k := accs[k].(cnt := accs[k].cnt + 1)];
      assert stars[..i + 1] == stars[..i] + [k];
    }
    assert stars[..|stars|] == stars;
  }

  /** After the stars and the first `c` columns. */
  ghost predicate DoneUpTo(gas: seq<GroupAgg>, stars: seq<nat>, cas: seq<ColAgg>, c: nat, done: set<nat>) {
    && c <= |cas|
    && (forall k :: k in stars ==> k in done)
    && (forall k :: k in done ==> k < |gas| && (gas[k].col.None? || OfColumns(gas[k].col.value, cas, c)))
    && forall d, k :: 0 <= d < c && k in cas[d].ks ==> k in done
  }

  ghost predicate OfColumns(col: nat, cas: seq<ColAgg>, c: nat)
    requires c <= |cas|
  {
    exists d :: 0 <= d < c && cas[d].col == col
  }

  lemma ColumnDone(gas: seq<GroupAgg>, stars: seq<nat>, cas: seq<ColAgg>, c: nat, done: set<nat>)
    requires Split(gas, stars, cas) && DoneUpTo(gas, stars, cas, c, done) && c < |cas|
    ensures forall i :: 0 <= i < |cas[c].ks| ==> cas[c].ks[i] !in done
    ensures DoneUpTo(gas, stars, cas, c + 1, done + set k | k in cas[c].ks)
  {
    assert ReadersOK(gas, cas[c]);
    assert OfColumns(cas[c].col, cas, c + 1);
    forall col | OfColumns(col, cas, c) ensures OfColumns(col, cas, c + 1) && col != cas[c].col {
      var d :| 0 <= d < c && cas[d].col == col;
    }
  }

  /** All aggregates of a group take in row `p`. */
  method FoldRow(accs0: seq<Acc>, gas: seq<GroupAgg>, cols: seq<NumVec>, stars: seq<nat>, cas: seq<ColAgg>, p: nat)
    returns (accs: seq<Acc>)
    requires ColsReach(cols, gas, p + 1) && Split(gas, stars, cas) && |accs0| == |gas|
    requires forall c :: 0 <= c < |cas| ==> cas[c].col < |cols| && p < |cols[cas[c].col].ints|
    ensures SteppedAll(accs0, accs, cols, gas, p)
  {
    accs := FoldStars(accs0, gas, cols, stars, p);
    ghost var done := set k | k in stars;
    for c := 0 to |cas|
      invariant Partly(accs0, accs, cols, gas, p, done) && DoneUpTo(gas, stars, cas, c, done)
    {
      ColumnDone(gas, stars, cas, c, done);
      accs := FoldColumn(accs, cas[c], gas, cols, p, accs0, done);
      done := done + set k | k in cas[c].ks;
    }
    AllDone(gas, stars, cas, done);
  }

  lemma AllDone(gas: seq<GroupAgg>, stars: seq<nat>, cas: seq<ColAgg>, done: set<nat>)
    requires Split(gas, stars, cas) && DoneUpTo(gas, stars, cas, |cas|, done)
    ensures forall k :: 0 <= k < |gas| ==> k in done
  {
    forall k | 0 <= k < |gas| ensures k in done {
      assert gas[k].col.Some? ==> Reads(cas, k);
    }
  }
}
