/**
 The versions of a key over several sources do not depend on the order the sources
 are listed in, and a source with a higher priority goes on top.
 */
module Sources {
  import opened Bytes
  import opened MpartModel
  import opened MergeSpec

  // ----- One more source, newer than all the others -----

  lemma {:induction false} StackWider(runs: seq<Rows>, prios: seq<int>, r: Rows, p: int, s: set<nat>, k: Key)
    requires |runs| == |prios| && Distinct(prios + [p]) && forall i :: i in s ==> i < |runs|
    ensures StackFrom(runs + [r], prios + [p], s, k) == StackFrom(runs, prios, s, k)
  {
    if s != {} {
      var m := Newest(prios, s);
      forall i | i in s ensures (prios + [p])[i] <= (prios + [p])[m] {
        assert (prios + [p])[i] == prios[i];
      }
      NewestIs(prios + [p], s, m);
      StackWider(runs, prios, r, p, s - {m}, k);
    }
  }

  lemma StackAppend(runs: seq<Rows>, prios: seq<int>, r: Rows, p: int, k: Key)
    requires |runs| == |prios| && Distinct(prios + [p]) && forall i :: 0 <= i < |prios| ==> prios[i] < p
    ensures StackOf(runs + [r], prios + [p], k) == Find(r, k) + StackOf(runs, prios, k)
  {
    hide Find;
    hide Distinct;
    hide Newest;
    var n := |runs|;
    var s, s' := Holders(runs, k), Holders(runs + [r], k);
    assert forall i :: 0 <= i < n ==> (runs + [r])[i] == runs[i];
    StackWider(runs, prios, r, p, s, k);
    if Find(r, k) == [] {
      assert s' == s;
    } else {
      assert s' - {n} == s;
      NewestIs(prios + [p], s', n);
    }
  }

  // ----- Two sources change places -----

  function Swap<T>(s: seq<T>, i: nat, j: nat): (r: seq<T>)
    requires i < |s| && j < |s|
    ensures |r| == |s|
  {
    s[i := s[j]][j := s[i]]
  }

  function Other(i: nat, j: nat, x: nat): nat {
    if x == i then j else if x == j then i else x
  }

  ghost function Others(i: nat, j: nat, s: set<nat>): set<nat> {
    set x | x in s :: Other(i, j, x)
  }

  lemma SwapDistinct(prios: seq<int>, i: nat, j: nat)
    requires Distinct(prios) && i < |prios| && j < |prios|
    ensures Distinct(Swap(prios, i, j))
  {
  }

  lemma {:induction false} StackSwapFrom(runs: seq<Rows>, prios: seq<int>, i: nat, j: nat, s: set<nat>, k: Key)
    requires |runs| == |prios| && Distinct(prios) && i < |runs| && j < |runs|
    requires forall x :: x in s ==> x < |runs|
    ensures StackFrom(Swap(runs, i, j), Swap(prios, i, j), Others(i, j, s), k) == StackFrom(runs, prios, s, k)
  {
    var s' := Others(i, j, s);
    if s == {} {
      assert s' == {};
    } else {
      var m := Newest(prios, s);
      var m' := Other(i, j, m);
      assert m' in s';
      SwapDistinct(prios, i, j);
      forall y | y in s' ensures Swap(prios, i, j)[y] <= Swap(prios, i, j)[m'] {
        var x :| x in s && Other(i, j, x) == y;
        assert Swap(prios, i, j)[y] == prios[x];
      }
      NewestIs(Swap(prios, i, j), s', m');
      assert s' - {m'} == Others(i, j, s - {m});
      StackSwapFrom(runs, prios, i, j, s - {m}, k);
    }
  }

  lemma StackSwap(runs: seq<Rows>, prios: seq<int>, i: nat, j: nat, k: Key)
    requires |runs| == |prios| && Distinct(prios) && i < |runs| && j < |runs|
    ensures StackOf(Swap(runs, i, j), Swap(prios, i, j), k) == StackOf(runs, prios, k)
  {
    StackSwapFrom(runs, prios, i, j, Holders(runs, k), k);
    var s, s' := Others(i, j, Holders(runs, k)), Holders(Swap(runs, i, j), k);
    forall y | y in s ensures y in s' {
      var x :| x in Holders(runs, k) && Other(i, j, x) == y;
    }
    forall y | y in s' ensures y in s {
      assert Other(i, j, Other(i, j, y)) == y && Other(i, j, y) in Holders(runs, k);
    }
    assert s == s';
  }

  // ----- A scan is determined by the stacks -----

  lemma KeysHaveStacks(runs: seq<Rows>, prios: seq<int>, k: Key)
    requires |runs| == |prios|
    ensures k in AllKeys(runs) <==> StackOf(runs, prios, k) != []
  {
    if k in AllKeys(runs) {
      var i :| 0 <= i < |runs| && k in KeysOf(runs[i]);
      FindKeys(runs[i], k);
      assert i in Holders(runs, k);
    } else if Holders(runs, k) != {} {
      var i :| i in Holders(runs, k);
      FindKeys(runs[i], k);
    }
    if Holders(runs, k) != {} {
      var m := Newest(prios, Holders(runs, k));
      assert Find(runs[m], k) != [];
    }
  }

  ghost predicate SameStacks(runs: seq<Rows>, prios: seq<int>, runs': seq<Rows>, prios': seq<int>)
    requires |runs| == |prios| && |runs'| == |prios'|
  {
    forall k :: StackOf(runs, prios, k) == StackOf(runs', prios', k)
  }

  lemma SameStacksSameScan(runs: seq<Rows>, prios: seq<int>, runs': seq<Rows>, prios': seq<int>, v: View, rev: bool)
    requires |runs| == |prios| && |runs'| == |prios'| && SameStacks(runs, prios, runs', prios')
    ensures Scan(runs, prios, v, rev) == Scan(runs', prios', v, rev)
  {
    forall k ensures k in AllKeys(runs) <==> k in AllKeys(runs') {
      KeysHaveStacks(runs, prios, k);
      KeysHaveStacks(runs', prios', k);
    }
    assert AllKeys(runs) == AllKeys(runs');
    var ks := InOrder(AllKeys(runs), rev);
    assert forall i :: 0 <= i < |ks| ==> EntryAt(runs, prios, v, ks[i]) == EntryAt(runs', prios', v, ks[i]);
  }
}
