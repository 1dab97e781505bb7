/**
 The GROUP BY paths themselves: a bucket array for small key ranges, a hash map with a
 linear fallback, and two passes over remembered groups.
 */
module GroupRun {
  import opened Endian
  import opened Wrappers
  import opened Aggregates
  import opened AggGroups
  import opened GroupBy
  import opened GroupPaths

  /** The query: group column, aggregated columns, aggregates and how they share columns. */
  datatype Query = Query(g: NumVec, cols: seq<NumVec>, gas: seq<GroupAgg>, stars: seq<nat>, cas: seq<ColAgg>)

  ghost predicate QueryOK(q: Query) {
    && Aligned(q.g, q.cols, q.gas)
    && Split(q.gas, q.stars, q.cas)
    && forall c :: 0 <= c < |q.cas| ==> q.cas[c].col < |q.cols|
  }

  lemma Reach(q: Query, n: nat)
    requires QueryOK(q) && n <= |q.g.ints|
    ensures ColsReach(q.cols, q.gas, n)
    ensures forall c :: 0 <= c < |q.cas| ==> n <= |q.cols[q.cas[c].col].ints|
  {
  }

  /** The groups after the first `n` rows. */
  ghost predicate BuiltTo(order: seq<Grp>, q: Query, n: nat) {
    QueryOK(q) && n <= |q.g.ints| && ColsReach(q.cols, q.gas, n) && Built(order, q.cols, q.gas, Values(q.g)[..n])
  }

  /** The group at `at` has the value of row `n`; a negative position says there is none. */
  ghost predicate Located(order: seq<Grp>, q: Query, n: nat, at: int)
    requires n < |q.g.ints|
  {
    if at < 0 then Values(q.g)[n] !in Values(q.g)[..n] else at < |order| && order[at].gval == Values(q.g)[n]
  }

  /** The known values are the values of the groups. */
  lemma KnownGroups(order: seq<Grp>, q: Query, n: nat, x: Value)
    requires BuiltTo(order, q, n)
    ensures x in Values(q.g)[..n] <==> exists i :: 0 <= i < |order| && order[i].gval == x
    ensures forall i, j :: 0 <= i < j < |order| ==> order[i].gval != order[j].gval
  {
    var gv := Values(q.g)[..n];
    SeenOnce(gv);
    forall i | 0 <= i < |order| ensures order[i].gval == FirstSeen(gv)[i] {
      assert GrpIs(order[i], FirstSeen(gv)[i], q.cols, q.gas, gv);
    }
    if x in gv {
      var i :| 0 <= i < |FirstSeen(gv)| && FirstSeen(gv)[i] == x;
      assert order[i].gval == x;
    }
  }

  /** Row `n` goes to its group, which is created if there is none. */
  method TakeRow(order0: seq<Grp>, q: Query, n: nat, at: int) returns (order: seq<Grp>)
    requires BuiltTo(order0, q, n) && n < |q.g.ints| && Located(order0, q, n, at)
    ensures BuiltTo(order, q, n + 1)
    ensures if at < 0 then |order| == |order0| + 1 && order[|order0|].gval == Values(q.g)[n] else |order| == |order0|
    ensures forall i :: 0 <= i < |order0| ==> order[i].gval == order0[i].gval
  {
    Reach(q, n + 1);
    ghost var gv := Values(q.g)[..n];
    assert Values(q.g)[..n + 1] == gv + [Values(q.g)[n]];
    var x := ValueAt(q.g, n);
    var b := if at < 0 then NewGrp(x, q.gas) else order0[at];
    if at >= 0 {
      assert GrpIs(order0[at], FirstSeen(gv)[at], q.cols, q.gas, gv);
    }
    var accs := FoldRow(b.accs, q.gas, q.cols, q.stars, q.cas, n);
    if at < 0 {
      BuiltNew(order0, q.cols, q.gas, gv, x, accs);
      order := order0 + [Grp(x, accs)];
    } else {
      BuiltKnown(order0, q.cols, q.gas, gv, x, at, accs);
      order := order0[at := Grp(x, accs)];
    }
  }

  lemma NothingBuilt(q: Query)
    requires QueryOK(q)
    ensures BuiltTo([], q, 0)
  {
    assert Values(q.g)[..0] == [];
  }

  // ----- The bucket array -----

  /** The least and greatest non-null keys. */
  method KeyRange(g: NumVec) returns (lo: int, hi: int, none: bool)
    ensures none <==> forall p :: 0 <= p < |g.ints| ==> NullAt(g, p)
    ensures none ==> lo == hi == 0
    ensures forall p :: 0 <= p < |g.ints| && !NullAt(g, p) ==> lo <= g.ints[p] <= hi
    ensures !none ==> lo in g.ints && hi in g.ints
  {
    lo, hi, none := 0, 0, true;
    for p := 0 to |g.ints|
      invariant none <==> forall x :: 0 <= x < p ==> NullAt(g, x)
      invariant none ==> lo == hi == 0
      invariant forall x :: 0 <= x < p && !NullAt(g, x) ==> lo <= g.ints[x] <= hi
      invariant !none ==> lo in g.ints && hi in g.ints
    {
      if NullAt(g, p) {
        continue;
      }
      var x := g.ints[p];
      if none || x < lo {
        lo := x;
      }
      if none || x > hi {
        hi := x;
      }
      none := false;
    }
  }

  /** Slot `b` of the bucket array holds the position of the group of `lo + b`, if there is one. */
  ghost predicate SlotOK(slot: int, order: seq<Grp>, seen: seq<Value>, x: Value) {
    if slot < 0 then x !in seen else slot < |order| && order[slot].gval == x
  }

  ghost predicate Slots(bucket: seq<int>, lo: int, order: seq<Grp>, seen: seq<Value>) {
    forall b :: 0 <= b < |bucket| ==> SlotOK(bucket[b], order, seen, IntV(lo + b))
  }

  lemma SlotsStep(bucket: seq<int>, lo: int, order: seq<Grp>, order': seq<Grp>, seen: seq<Value>, x: Value)
    requires Slots(bucket, lo, order, seen) && |order| <= |order'|
    requires forall i :: 0 <= i < |order| ==> order'[i].gval == order[i].gval
    ensures forall b :: 0 <= b < |bucket| && IntV(lo + b) != x ==> SlotOK(bucket[b], order', seen + [x], IntV(lo + b))
    ensures forall b :: 0 <= b < |bucket| && IntV(lo + b) == x && bucket[b] >= 0 ==> SlotOK(bucket[b], order', seen + [x], IntV(lo + b))
  {
    forall b | 0 <= b < |bucket| && (IntV(lo + b) != x || bucket[b] >= 0) ensures SlotOK(bucket[b], order', seen + [x], IntV(lo + b)) {
      assert SlotOK(bucket[b], order, seen, IntV(lo + b));
    }
  }

  method BucketPath(q: Query, lo: int, hi: int) returns (order: seq<Grp>)
    requires QueryOK(q) && lo <= hi
    requires forall p :: 0 <= p < |q.g.ints| && !NullAt(q.g, p) ==> lo <= q.g.ints[p] <= hi
    ensures BuiltTo(order, q, |q.g.ints|)
  {
    hide FirstSeen;
    hide BuiltTo;
    order := [];
    NothingBuilt(q);
    var bucket := new int[hi - lo + 1](_ => -1);
    var nullGrp := -1;
    for p := 0 to |q.g.ints|
      invariant BuiltTo(order, q, p)
      invariant Slots(bucket[..], lo, order, Values(q.g)[..p])
      invariant SlotOK(nullGrp, order, Values(q.g)[..p], Null)
    {
      ghost var seen, x := Values(q.g)[..p], Values(q.g)[p];
      assert Values(q.g)[..p + 1] == seen + [x];
      var isNull := NullAt(q.g, p);
      var at := if isNull then nullGrp else bucket[q.g.ints[p] - lo];
      if !isNull {
        assert SlotOK(bucket[..][q.g.ints[p] - lo], order, seen, IntV(lo + (q.g.ints[p] - lo)));
      }
      ghost var order0, slots0 := order, bucket[..];
      order := TakeRow(order, q, p, at);
      SlotsStep(slots0, lo, order0, order, seen, x);
      if at < 0 {
        if isNull {
          nullGrp := |order| - 1;
        } else {
          bucket[q.g.ints[p] - lo] := |order| - 1;
        }
      }
    }
  }

  // ----- The hash map -----

  /** The key of a group value: NULL shares the key of zero. */
  function KeyBits(v: Value): nat {
    if v.IntV? then v.i % TWO_64 else 0
  }

  ghost predicate Indexed(idx: map<nat, nat>, order: seq<Grp>) {
    && (forall k :: k in idx ==> idx[k] < |order|)
    && forall i :: 0 <= i < |order| ==> KeyBits(order[i].gval) in idx
  }

  /** Looks a value up by its key, and along the groups if the key is taken by another value. */
  method Lookup(idx: map<nat, nat>, order: seq<Grp>, x: Value) returns (at: int)
    requires Indexed(idx, order)
    ensures -1 <= at < |order|
    ensures at >= 0 ==> order[at].gval == x
    ensures at < 0 ==> forall i :: 0 <= i < |order| ==> order[i].gval != x
  {
    if KeyBits(x) !in idx {
      return -1;
    }
    at := idx[KeyBits(x)];
    if order[at].gval == x {
      return;
    }
    for i := 0 to |order|
      invariant forall j :: 0 <= j < i ==> order[j].gval != x
    {
      if order[i].gval == x {
        return i;
      }
    }
    return -1;
  }

  lemma IndexedStep(idx: map<nat, nat>, order: seq<Grp>, order': seq<Grp>, x: Value)
    requires Indexed(idx, order) && |order'| == |order| + 1 && order'[|order|].gval == x
    requires forall i :: 0 <= i < |order| ==> order'[i].gval == order[i].gval
    ensures Indexed(idx[KeyBits(x) := |order|], order')
  {
  }

  lemma LocatedBy(order: seq<Grp>, q: Query, n: nat, at: int)
    requires BuiltTo(order, q, n) && n < |q.g.ints| && -1 <= at < |order|
    requires at >= 0 ==> order[at].gval == Values(q.g)[n]
    requires at < 0 ==> forall i :: 0 <= i < |order| ==> order[i].gval != Values(q.g)[n]
    ensures Located(order, q, n, at)
  {
    KnownGroups(order, q, n, Values(q.g)[n]);
  }

  method HashPath(q: Query) returns (order: seq<Grp>)
    requires QueryOK(q)
    ensures BuiltTo(order, q, |q.g.ints|)
  {
    order := [];
    NothingBuilt(q);
    var idx: map<nat, nat> := map[];
    for p := 0 to |q.g.ints|
      invariant BuiltTo(order, q, p) && Indexed(idx, order)
    {
      var x := ValueAt(q.g, p);
      var at := Lookup(idx, order, x);
      LocatedBy(order, q, p, at);
      ghost var order0 := order;
      order := TakeRow(order, q, p, at);
      if at < 0 {
        IndexedStep(idx, order0, order, x);
        idx := idx[KeyBits(x) := |order| - 1];
      }
    }
  }

  // ----- Results -----

  lemma {:induction false} PickInts(gv: seq<Value>, av: seq<Value>, v: Value)
    requires |gv| <= |av| && Ints(av)
    ensures Ints(PickRows(gv, av, v))
  {
    if gv != [] {
      PickInts(gv[..|gv| - 1], av, v);
    }
  }

  lemma AccReports(ga: GroupAgg, cols: seq<NumVec>, gv: seq<Value>, v: Value)
    requires ga.aggs != [] && (ga.col.None? ==> ga.aggs[0] == ACount)
    requires ga.col.Some? ==> ga.col.value < |cols| && |gv| <= |cols[ga.col.value].ints|
    ensures Result(AccFor(ga, cols, gv, v), ga.aggs[0]) == RefValue(ga, cols, gv, v)
  {
    if ga.col.Some? {
      PickInts(gv, Values(cols[ga.col.value]), v);
      ResultIs(ga.aggs, PickRows(gv, Values(cols[ga.col.value]), v), ga.aggs[0]);
    }
  }

  method RowOf(b: Grp, q: Query) returns (row: seq<Value>)
    requires QueryOK(q) && GrpIs(b, b.gval, q.cols, q.gas, Values(q.g))
    ensures IsGroupRow(row, b.gval, q.g, q.cols, q.gas)
  {
    row := [b.gval];
    for k := 0 to |q.gas|
      invariant |row| == 1 + k && row[0] == b.gval
      invariant forall m :: 0 <= m < k ==> row[1 + m] == RefValue(q.gas[m], q.cols, Values(q.g), b.gval)
    {
      AccReports(q.gas[k], q.cols, Values(q.g), b.gval);
      row := row + [Result(b.accs[k], q.gas[k].aggs[0])];
    }
  }

  method Rows(order: seq<Grp>, q: Query) returns (rows: seq<seq<Value>>)
    requires BuiltTo(order, q, |q.g.ints|)
    ensures IsGrouping(rows, q.g, q.cols, q.gas)
  {
    rows := [];
    assert Values(q.g)[..|q.g.ints|] == Values(q.g);
    for i := 0 to |order|
      invariant |rows| == i
      invariant forall j :: 0 <= j < i ==> IsGroupRow(rows[j], FirstSeen(Values(q.g))[j], q.g, q.cols, q.gas)
    {
      assert GrpIs(order[i], FirstSeen(Values(q.g))[i], q.cols, q.gas, Values(q.g));
      var row := RowOf(order[i], q);
      rows := rows + [row];
    }
  }

  /**
   The one-pass paths of `ColumnGroupedAggregates`: bucket array if the key range is
   small in wrapping 64-bit arithmetic, hash map otherwise.
   */
  method FastGroups(g: NumVec, cols: seq<NumVec>, gas: seq<GroupAgg>) returns (rows: seq<seq<Value>>)
    requires Aligned(g, cols, gas)
    ensures IsGrouping(rows, g, cols, gas)
  {
    var stars, cas := SplitAggs(gas);
    var q := Query(g, cols, gas, stars, cas);
    SplitCols(q);
    var lo, hi, none := KeyRange(g);
    var order;
    if none || (hi % TWO_64 - lo % TWO_64) % TWO_64 < MAX_GROUP_BUCKET {
      RangeBounds(g, lo, hi, none);
      order := BucketPath(q, lo, hi);
    } else {
      order := HashPath(q);
    }
    rows := Rows(order, q);
  }

  lemma SplitCols(q: Query)
    requires Aligned(q.g, q.cols, q.gas) && Split(q.gas, q.stars, q.cas)
    ensures QueryOK(q)
  {
    forall c | 0 <= c < |q.cas| ensures q.cas[c].col < |q.cols| {
      assert ReadersOK(q.gas, q.cas[c]);
      assert q.gas[q.cas[c].ks[0]].col == Some(q.cas[c].col);
    }
  }

  lemma RangeBounds(g: NumVec, lo: int, hi: int, none: bool)
    requires none ==> lo == hi == 0
    requires !none ==> (exists p :: 0 <= p < |g.ints| && !NullAt(g, p)) && forall p :: 0 <= p < |g.ints| && !NullAt(g, p) ==> lo <= g.ints[p] <= hi
    ensures lo <= hi
  {
  }

  // ----- Two passes -----

  /** The groups in first-seen order of the first `n` rows, nothing accumulated yet. */
  ghost predicate Opened(order: seq<Grp>, q: Query, n: nat) {
    && n <= |q.g.ints|
    && |order| == |FirstSeen(Values(q.g)[..n])|
    && forall i :: 0 <= i < |order| ==> order[i] == NewGrp(FirstSeen(Values(q.g)[..n])[i], q.gas)
  }

  /** `groups` remembers the group of every row. */
  ghost predicate Remembered(groups: seq<nat>, order: seq<Grp>, q: Query, n: nat)
    requires n <= |q.g.ints|
  {
    |groups| == n && forall p :: 0 <= p < n ==> groups[p] < |order| && order[groups[p]].gval == Values(q.g)[p]
  }

  /** Pass 1: resolves the group of each row once. */
  method ResolveGroups(q: Query) returns (order: seq<Grp>, groups: seq<nat>)
    requires QueryOK(q)
    ensures Opened(order, q, |q.g.ints|) && Remembered(groups, order, q, |q.g.ints|)
  {
    hide FirstSeen;
    hide Opened;
    order, groups := [], [];
    NothingOpened(q);
    var idx: map<nat, nat> := map[];
    for p := 0 to |q.g.ints|
      invariant Opened(order, q, p) && Remembered(groups, order, q, p) && Indexed(idx, order)
    {
      var x := ValueAt(q.g, p);
      var at := Lookup(idx, order, x);
      OpenedStep(order, q, p, at);
      if at < 0 {
        IndexedStep(idx, order, order + [NewGrp(x, q.gas)], x);
        StillRemembered(groups, order, NewGrp(x, q.gas), q, p);
        idx := idx[KeyBits(x) := |order|];
        order, at := order + [NewGrp(x, q.gas)], |order|;
      }
      groups := groups + [at];
    }
  }

  lemma NothingOpened(q: Query)
    requires QueryOK(q)
    ensures Opened([], q, 0) && Remembered([], [], q, 0)
  {
    assert Values(q.g)[..0] == [];
  }

  lemma StillRemembered(groups: seq<nat>, order: seq<Grp>, b: Grp, q: Query, n: nat)
    requires n <= |q.g.ints| && Remembered(groups, order, q, n)
    ensures Remembered(groups, order + [b], q, n)
  {
  }

  lemma OpenedStep(order: seq<Grp>, q: Query, n: nat, at: int)
    requires QueryOK(q) && Opened(order, q, n) && n < |q.g.ints| && -1 <= at < |order|
    requires at >= 0 ==> order[at].gval == Values(q.g)[n]
    requires at < 0 ==> forall i :: 0 <= i < |order| ==> order[i].gval != Values(q.g)[n]
    ensures Opened(if at < 0 then order + [NewGrp(Values(q.g)[n], q.gas)] else order, q, n + 1)
  {
    var gv, x := Values(q.g)[..n], Values(q.g)[n];
    assert Values(q.g)[..n + 1] == gv + [x] && (gv + [x])[..n] == gv;
    if at >= 0 {
      assert order[at].gval in FirstSeen(gv);
    } else {
      forall i | 0 <= i < |order| ensures FirstSeen(gv)[i] != x {
        assert order[i].gval == FirstSeen(gv)[i];
      }
    }
  }

  /** In pass 2 the aggregates in `done` have seen all rows, those in `now` the first `p`. */
  ghost predicate Midway(order: seq<Grp>, q: Query, done: set<nat>, now: set<nat>, p: nat) {
    && QueryOK(q) && p <= |q.g.ints|
    && |order| == |FirstSeen(Values(q.g))|
    && forall i :: 0 <= i < |order| ==> order[i].gval == FirstSeen(Values(q.g))[i] && GrpMidway(order[i], q, done, now, p)
  }

  ghost predicate GrpMidway(b: Grp, q: Query, done: set<nat>, now: set<nat>, p: nat)
    requires QueryOK(q) && p <= |q.g.ints|
  {
    && |b.accs| == |q.gas|
    && forall k :: 0 <= k < |q.gas| ==>
         b.accs[k] == if k in done then AccFor(q.gas[k], q.cols, Values(q.g), b.gval)
                      else if k in now then AccFor(q.gas[k], q.cols, Values(q.g)[..p], b.gval)
                      else NewAcc(q.gas[k].aggs)
  }

  ghost predicate TookIn(accs0: seq<Acc>, accs: seq<Acc>, q: Query, now: set<nat>, p: nat)
    requires QueryOK(q) && p < |q.g.ints|
  {
    && |accs0| == |accs| == |q.gas|
    && forall k :: 0 <= k < |q.gas| ==> accs[k] == if k in now then Stepped(accs0[k], q.gas[k], q.cols, p) else accs0[k]
  }

  /** The aggregates `now` of the group of row `p` take the row in. */
  lemma MidwayStep(order: seq<Grp>, q: Query, done: set<nat>, now: set<nat>, p: nat, i: nat, accs: seq<Acc>)
    requires Midway(order, q, done, now, p) && p < |q.g.ints| && i < |order| && order[i].gval == Values(q.g)[p]
    requires done !! now && TookIn(order[i].accs, accs, q, now, p)
    ensures Midway(order[i := Grp(order[i].gval, accs)], q, done, now, p + 1)
  {
    var order' := order[i := Grp(order[i].gval, accs)];
    var gv, x := Values(q.g)[..p], Values(q.g)[p];
    var gv1 := gv + [x];
    assert Values(q.g)[..p + 1] == gv1;
    SeenOnce(Values(q.g));
    forall j | 0 <= j < |order| ensures GrpMidway(order'[j], q, done, now, p + 1) {
      assert GrpMidway(order[j], q, done, now, p);
      assert j != i ==> order[j].gval != x;
      forall k | 0 <= k < |q.gas| && k in now
        ensures AccFor(q.gas[k], q.cols, gv1, order[j].gval) ==
                if j == i then Stepped(AccFor(q.gas[k], q.cols, gv, order[j].gval), q.gas[k], q.cols, p)
                else AccFor(q.gas[k], q.cols, gv, order[j].gval)
      {
        AccForSnoc(q.gas[k], q.cols, gv, x, order[j].gval);
      }
    }
  }

  lemma MidwayStart(order: seq<Grp>, q: Query, done: set<nat>, now: set<nat>)
    requires Midway(order, q, done, {}, 0) && done !! now
    ensures Midway(order, q, done, now, 0)
  {
    assert Values(q.g)[..0] == [];
    forall i | 0 <= i < |order| ensures GrpMidway(order[i], q, done, now, 0) {
      assert GrpMidway(order[i], q, done, {}, 0);
      forall k | 0 <= k < |q.gas| && k in now ensures AccFor(q.gas[k], q.cols, [], order[i].gval) == NewAcc(q.gas[k].aggs) {
        AccForNone(q.gas[k], q.cols, [], order[i].gval);
      }
    }
  }

  lemma MidwayEnd(order: seq<Grp>, q: Query, done: set<nat>, now: set<nat>)
    requires Midway(order, q, done, now, |q.g.ints|)
    ensures Midway(order, q, done + now, {}, 0)
  {
    assert Values(q.g)[..|q.g.ints|] == Values(q.g);
    forall i | 0 <= i < |order| ensures GrpMidway(order[i], q, done + now, {}, 0) {
      assert GrpMidway(order[i], q, done, now, |q.g.ints|);
    }
  }

  ghost predicate SameGroups(order: seq<Grp>, order': seq<Grp>) {
    |order'| == |order| && forall i :: 0 <= i < |order| ==> order'[i].gval == order[i].gval
  }

  /** `count(*)`: every row counts in its group. */
  method StarPass(order0: seq<Grp>, groups: seq<nat>, q: Query, k: nat, ghost done: set<nat>) returns (order: seq<Grp>)
    requires Midway(order0, q, done, {}, 0) && Remembered(groups, order0, q, |q.g.ints|)
    requires k < |q.gas| && q.gas[k].col.None? && k !in done
    ensures Midway(order, q, done + {k}, {}, 0) && SameGroups(order0, order)
  {
    hide AccFor;
    hide NewAcc;
    hide FirstSeen;
    order := order0;
    MidwayStart(order, q, done, {k});
    for p := 0 to |groups|
      invariant Midway(order, q, done, {k}, p) && SameGroups(order0, order)
    {
      var i := groups[p];
      assert GrpMidway(order[i], q, done, {k}, p);
      var accs := order[i].accs[k := order[i].accs[k].(cnt := order[i].accs[k].cnt + 1)];
      MidwayStep(order, q, done, {k}, p, i, accs);
      order := order[i := Grp(order[i].gval, accs)];
    }
    MidwayEnd(order, q, done, {k});
  }

  method ColumnRow(accs0: seq<Acc>, q: Query, c: nat, p: nat) returns (accs: seq<Acc>)
    requires QueryOK(q) && c < |q.cas| && p < |q.g.ints| && |accs0| == |q.gas|
    ensures TookIn(accs0, accs, q, (set k | k in q.cas[c].ks), p)
  {
    assert ReadersOK(q.gas, q.cas[c]);
    accs := accs0;
    var v := q.cols[q.cas[c].col];
    if !NullAt(v, p) {
      accs := AddToAll(accs, q.cas[c].ks, v.ints[p]);
    }
  }

  /** One column: its values go to the groups remembered for their rows. */
  method ColumnPass(order0: seq<Grp>, groups: seq<nat>, q: Query, c: nat, ghost done: set<nat>) returns (order: seq<Grp>)
    requires Midway(order0, q, done, {}, 0) && Remembered(groups, order0, q, |q.g.ints|)
    requires c < |q.cas| && forall i :: 0 <= i < |q.cas[c].ks| ==> q.cas[c].ks[i] !in done
    ensures Midway(order, q, done + (set k | k in q.cas[c].ks), {}, 0) && SameGroups(order0, order)
  {
    ghost var now := set k | k in q.cas[c].ks;
    MidwayStart(order0, q, done, now);
    order := ColumnRows(order0, groups, q, c, done, now);
    MidwayEnd(order, q, done, now);
  }

  method ColumnRows(order0: seq<Grp>, groups: seq<nat>, q: Query, c: nat, ghost done: set<nat>, ghost now: set<nat>) returns (order: seq<Grp>)
    requires Midway(order0, q, done, now, 0) && Remembered(groups, order0, q, |q.g.ints|)
    requires c < |q.cas| && now == (set k | k in q.cas[c].ks) && done !! now
    ensures Midway(order, q, done, now, |q.g.ints|) && SameGroups(order0, order)
  {
    hide AccFor;
    hide NewAcc;
    hide FirstSeen;
    order := order0;
    for p := 0 to |groups|
      invariant Midway(order, q, done, now, p) && SameGroups(order0, order)
    {
      var i := groups[p];
      assert GrpMidway(order[i], q, done, now, p);
      var accs := ColumnRow(order[i].accs, q, c, p);
      MidwayStep(order, q, done, now, p, i, accs);
      order := order[i := Grp(order[i].gval, accs)];
    }
  }

  lemma SameRemembered(groups: seq<nat>, a: seq<Grp>, b: seq<Grp>, q: Query, n: nat)
    requires n <= |q.g.ints| && Remembered(groups, a, q, n) && SameGroups(a, b)
    ensures Remembered(groups, b, q, n)
  {
  }

  /** The two-pass path: groups first, then column by column. */
  method TwoPassGroups(g: NumVec, cols: seq<NumVec>, gas: seq<GroupAgg>) returns (rows: seq<seq<Value>>)
    requires Aligned(g, cols, gas)
    ensures IsGrouping(rows, g, cols, gas)
  {
    hide Midway;
    hide Remembered;
    hide Opened;
    var stars, cas := SplitAggs(gas);
    var q := Query(g, cols, gas, stars, cas);
    SplitCols(q);
    var order, groups := ResolveGroups(q);
    ghost var done: set<nat> := {};
    OpenedMidway(order, q);
    for i := 0 to |stars|
      invariant Midway(order, q, done, {}, 0) && Remembered(groups, order, q, |g.ints|)
      invariant done == set k | k in stars[..i]
    {
      assert stars[i] !in stars[..i];
      ghost var before := order;
      order := StarPass(order, groups, q, stars[i], done);
      SameRemembered(groups, before, order, q, |g.ints|);
      assert stars[..i + 1] == stars[..i] + [stars[i]];
      done := done + {stars[i]};
    }
    assert stars[..|stars|] == stars;
    for c := 0 to |cas|
      invariant Midway(order, q, done, {}, 0) && Remembered(groups, order, q, |g.ints|)
      invariant DoneUpTo(gas, stars, cas, c, done)
    {
      ColumnDone(gas, stars, cas, c, done);
      ghost var before := order;
      order := ColumnPass(order, groups, q, c, done);
      SameRemembered(groups, before, order, q, |g.ints|);
      done := done + set k | k in cas[c].ks;
    }
    AllDone(gas, stars, cas, done);
    MidwayBuilt(order, q, done);
    rows := Rows(order, q);
  }

  lemma OpenedMidway(order: seq<Grp>, q: Query)
    requires QueryOK(q) && Opened(order, q, |q.g.ints|)
    ensures Midway(order, q, {}, {}, 0)
  {
    assert Values(q.g)[..|q.g.ints|] == Values(q.g);
  }

  lemma MidwayBuilt(order: seq<Grp>, q: Query, done: set<nat>)
    requires Midway(order, q, done, {}, 0) && forall k :: 0 <= k < |q.gas| ==> k in done
    ensures BuiltTo(order, q, |q.g.ints|)
  {
    Reach(q, |q.g.ints|);
    assert Values(q.g)[..|q.g.ints|] == Values(q.g);
    forall i | 0 <= i < |order| ensures GrpIs(order[i], FirstSeen(Values(q.g))[i], q.cols, q.gas, Values(q.g)) {
      assert GrpMidway(order[i], q, done, {}, 0);
    }
  }

  /** All paths return the same rows. */
  lemma GroupingUnique(a: seq<seq<Value>>, b: seq<seq<Value>>, g: NumVec, cols: seq<NumVec>, gas: seq<GroupAgg>)
    requires Aligned(g, cols, gas) && IsGrouping(a, g, cols, gas) && IsGrouping(b, g, cols, gas)
    ensures a == b
  {
    forall i | 0 <= i < |a| ensures a[i] == b[i] {
      var v := FirstSeen(Values(g))[i];
      assert IsGroupRow(a[i], v, g, cols, gas) && IsGroupRow(b[i], v, g, cols, gas);
      forall k | 0 <= k < |a[i]| ensures a[i][k] == b[i][k] {
        if k > 0 {
          var m := k - 1;
          assert a[i][1 + m] == RefValue(gas[m], cols, Values(g), v) == b[i][1 + m];
        }
      }
    }
  }
}
