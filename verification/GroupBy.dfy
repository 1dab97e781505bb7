/**
 GROUP BY over columns: accumulators, and what the three ways of resolving a row's
 group have in common.
 */
module GroupBy {
  import opened Wrappers
  import opened Aggregates
  import opened AggGroups

  datatype AggName = ACount | ASum | AMin | AMax | AAvg

  /** An aggregate of the statement; `count(*)` has no column. Only the first name is reported. */
  datatype GroupAgg = GroupAgg(col: Option<nat>, aggs: seq<AggName>)

  /** A decoded integer column with its null bitmap, which may be shorter than the column. */
  datatype NumVec = NumVec(ints: seq<int>, nulls: seq<bool>)

  predicate NullAt(v: NumVec, p: nat) {
    p < |v.nulls| && v.nulls[p]
  }

  function ValueAt(v: NumVec, p: nat): Value
    requires p < |v.ints|
  {
    if NullAt(v, p) then Null else IntV(v.ints[p])
  }

  function Values(v: NumVec): (r: seq<Value>)
    ensures |r| == |v.ints| && forall p :: 0 <= p < |r| ==> r[p] == ValueAt(v, p)
  {
    seq(|v.ints|, p requires 0 <= p < |v.ints| => ValueAt(v, p))
  }

  // ----- Accumulators -----

  /** `colAccum`. */
  datatype Acc = Acc(flags: set<AggName>, cnt: int, sum: real, any: bool, minV: Option<int>, maxV: Option<int>, avgTotal: real, avgN: int)

  function NewAcc(aggs: seq<AggName>): Acc {
    Acc(set a | a in aggs, 0, 0.0, false, None, None, 0.0, 0)
  }

  /** `addNum` for an integer: only the requested aggregates are kept up. */
  function AddNum(a: Acc, i: int): Acc {
    var first := a.minV.None?;
    a.(cnt := if ACount in a.flags then a.cnt + 1 else a.cnt,
       sum := if ASum in a.flags then a.sum + i as real else a.sum,
       any := a.any || ASum in a.flags,
       minV := if !(AMin in a.flags || AMax in a.flags) then a.minV
               else if first || (AMin in a.flags && i < a.minV.value) then Some(i) else a.minV,
       maxV := if !(AMin in a.flags || AMax in a.flags) then a.maxV
               else if first || (AMax in a.flags && a.maxV.Some? && i > a.maxV.value) then Some(i) else a.maxV,
       avgTotal := if AAvg in a.flags then a.avgTotal + i as real else a.avgTotal,
       avgN := if AAvg in a.flags then a.avgN + 1 else a.avgN)
  }

  function Result(a: Acc, name: AggName): Value {
    match name
    case ACount => IntV(a.cnt)
    case ASum => if a.any then IntV(a.sum.Floor) else Null
    case AMin => if a.minV.None? then Null else IntV(a.minV.value)
    case AMax => if a.maxV.None? then Null else IntV(a.maxV.value)
    case AAvg => if a.avgN == 0 then Null else FloatV(a.avgTotal / a.avgN as real)
  }

  /** An accumulator after the non-null values of a list. */
  function AccOf(aggs: seq<AggName>, vals: seq<Value>): Acc {
    if vals == [] then NewAcc(aggs)
    else
      var before, v := AccOf(aggs, vals[..|vals| - 1]), vals[|vals| - 1];
      if v.IntV? then AddNum(before, v.i) else before
  }

  ghost predicate Ints(vals: seq<Value>) {
    forall i :: 0 <= i < |vals| ==> vals[i].Null? || vals[i].IntV?
  }

  /** The aggregate a name stands for. */
  function Named(name: AggName, vals: seq<Value>): Value {
    match name
    case ACount => Agg(Count, vals)
    case ASum => Agg(Sum, vals)
    case AMin => Agg(Min, vals)
    case AMax => Agg(Max, vals)
    case AAvg => AvgOf(vals)
  }

  /** What the accumulator's fields are, for the aggregates it keeps up. */
  lemma {:induction false} AccFields(aggs: seq<AggName>, vals: seq<Value>)
    requires Ints(vals)
    ensures var a := AccOf(aggs, vals);
            && a.flags == (set x | x in aggs)
            && (ACount in aggs ==> a.cnt == CountOf(vals))
            && (ASum in aggs ==> a.sum == Total(vals) && a.any == AnyValue(vals))
            && (AMin in aggs || AMax in aggs ==> (a.minV.None? <==> Best(Min, vals).Null?) && (a.maxV.None? <==> a.minV.None?))
            && (AMin in aggs ==> Best(Min, vals) == if a.minV.None? then Null else IntV(a.minV.value))
            && (AMax in aggs ==> Best(Max, vals) == if a.maxV.None? then Null else IntV(a.maxV.value))
            && (AAvg in aggs ==> a.avgTotal == Total(vals) && a.avgN == CountOf(vals))
  {
    if vals != [] {
      var n := |vals| - 1;
      assert Ints(vals[..n]);
      AccFields(aggs, vals[..n]);
      SnocValues(vals, n);
      assert vals[..n + 1] == vals;
      BestNull(vals[..n]);
    }
  }

  lemma {:induction false} BestNull(vals: seq<Value>)
    requires Ints(vals)
    ensures Best(Min, vals).Null? || Best(Min, vals).IntV?
    ensures Best(Max, vals).Null? || Best(Max, vals).IntV?
    ensures Best(Min, vals).Null? <==> Best(Max, vals).Null?
  {
    if vals != [] {
      assert Ints(vals[..|vals| - 1]);
      BestNull(vals[..|vals| - 1]);
    }
  }

  /** An accumulator reports the aggregate of the values it was given. */
  lemma ResultIs(aggs: seq<AggName>, vals: seq<Value>, name: AggName)
    requires Ints(vals) && name in aggs
    ensures Result(AccOf(aggs, vals), name) == Named(name, vals)
  {
    AccFields(aggs, vals);
    IntTotalOf(vals);
  }

  lemma IntTotalOf(vals: seq<Value>)
    requires Ints(vals)
    ensures AllInts(vals) && Total(vals) == IntSum(vals) as real
  {
    IntTotal(vals);
  }
}
