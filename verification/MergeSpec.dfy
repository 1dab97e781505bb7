/**
 What a scan over several sorted sources means: every key once, in order, with the
 newest source deciding whether it is deleted and each column taken from the newest
 live version that has it.
 */
module MergeSpec {
  import opened Bytes
  import opened Versions
  import opened MpartModel

  /** Full rows, one column, or keys only. */
  datatype View = FullRows | Column(c: nat) | KeysOnly

  datatype Entry = Entry(pk: Key, cells: seq<Cell>, del: bool)

  /** The rows of one source in walking order. */
  type Rows = seq<Row>

  predicate Before(a: Key, b: Key, rev: bool) {
    if rev then Less(b, a) else Less(a, b)
  }

  ghost predicate Ordered(run: Rows, rev: bool) {
    forall i, j :: 0 <= i < j < |run| ==> Before(run[i].pk, run[j].pk, rev)
  }

  ghost predicate AllOrdered(runs: seq<Rows>, rev: bool) {
    forall i :: 0 <= i < |runs| ==> Ordered(runs[i], rev)
  }

  ghost predicate Distinct(prios: seq<int>) {
    forall i, j :: 0 <= i < j < |prios| ==> prios[i] != prios[j]
  }

  // ----- The versions of a key over several sources, newest first -----

  ghost function Holders(runs: seq<Rows>, k: Key): set<nat> {
    set i: nat | i < |runs| && Find(runs[i], k) != []
  }

  lemma {:induction false} HasNewest(prios: seq<int>, s: set<nat>) returns (m: nat)
    requires s != {} && forall i :: i in s ==> i < |prios|
    ensures m in s && forall i :: i in s ==> prios[i] <= prios[m]
  {
    var x :| x in s;
    if s == {x} {
      m := x;
    } else {
      var y := HasNewest(prios, s - {x});
      m := if prios[y] < prios[x] then x else y;
      forall i | i in s ensures prios[i] <= prios[m] {
        assert i == x || i in s - {x};
      }
    }
  }

  ghost function Newest(prios: seq<int>, s: set<nat>): (m: nat)
    requires s != {} && forall i :: i in s ==> i < |prios|
    ensures m in s && forall i :: i in s ==> prios[i] <= prios[m]
  {
    assert exists m :: m in s && forall i :: i in s ==> prios[i] <= prios[m] by {
      var m := HasNewest(prios, s);
    }
    var m :| m in s && forall i :: i in s ==> prios[i] <= prios[m];
    m
  }

  ghost function StackFrom(runs: seq<Rows>, prios: seq<int>, s: set<nat>, k: Key): seq<Version>
    requires |runs| == |prios| && forall i :: i in s ==> i < |runs|
  {
    if s == {} then []
    else
      var m := Newest(prios, s);
      Find(runs[m], k) + StackFrom(runs, prios, s - {m}, k)
  }

  ghost function StackOf(runs: seq<Rows>, prios: seq<int>, k: Key): seq<Version>
    requires |runs| == |prios|
  {
    StackFrom(runs, prios, Holders(runs, k), k)
  }

  lemma {:induction false} StackFrame(runs: seq<Rows>, runs': seq<Rows>, prios: seq<int>, s: set<nat>, k: Key)
    requires |runs| == |runs'| == |prios| && forall i :: i in s ==> i < |runs|
    requires forall i :: i in s ==> Find(runs[i], k) == Find(runs'[i], k)
    ensures StackFrom(runs, prios, s, k) == StackFrom(runs', prios, s, k)
  {
    if s != {} {
      StackFrame(runs, runs', prios, s - {Newest(prios, s)}, k);
    }
  }

  lemma NewestIs(prios: seq<int>, s: set<nat>, m: nat)
    requires Distinct(prios) && m in s && forall i :: i in s ==> i < |prios|
    requires forall i :: i in s ==> prios[i] <= prios[m]
    ensures Newest(prios, s) == m
  {
  }

  ghost function KeysOf(run: Rows): set<Key> {
    set i | 0 <= i < |run| :: run[i].pk
  }

  ghost function AllKeys(runs: seq<Rows>): set<Key> {
    set i, k | 0 <= i < |runs| && k in KeysOf(runs[i]) :: k
  }

  lemma {:induction false} FindKeys(run: Rows, k: Key)
    ensures Find(run, k) != [] <==> k in KeysOf(run)
  {
    if run != [] {
      FindKeys(run[1..], k);
      assert KeysOf(run) == {run[0].pk} + KeysOf(run[1..]) by {
        forall x | x in KeysOf(run) ensures x in {run[0].pk} + KeysOf(run[1..]) {
          var i :| 0 <= i < |run| && run[i].pk == x;
          assert i > 0 ==> run[1..][i - 1].pk == x;
        }
        forall x | x in KeysOf(run[1..]) ensures x in KeysOf(run) {
          var i :| 0 <= i < |run[1..]| && run[1..][i].pk == x;
          assert run[i + 1].pk == x;
        }
      }
    }
  }

  // ----- The merged scan -----

  ghost function Merged(v: View, k: Key, vs: seq<Version>): Entry
    requires vs != []
  {
    if vs[0].del then Entry(k, Shown(v, vs[0]), true)
    else match v
      case FullRows => Entry(k, Inherit(vs[0].cells, vs[1..]), false)
      case Column(c) => Entry(k, [InheritCell(CellAt(vs[0], c), vs[1..], c)], false)
      case KeysOnly => Entry(k, [], false)
  }

  /** What a view shows of a single version. */
  function Shown(v: View, ver: Version): seq<Cell> {
    match v
    case FullRows => ver.cells
    case Column(c) => [CellAt(ver, c)]
    case KeysOnly => []
  }

  ghost function InOrder(s: set<Key>, rev: bool): (ks: seq<Key>)
    ensures |ks| == |s|
    ensures forall x :: x in ks <==> x in s
    ensures forall i, j :: 0 <= i < j < |ks| ==> Before(ks[i], ks[j], rev)
  {
    ReverseMembers(Ascending(s));
    if rev then Reverse(Ascending(s)) else Ascending(s)
  }

  ghost function Reverse<T(!new)>(s: seq<T>): (r: seq<T>)
    ensures |r| == |s|
    ensures forall i :: 0 <= i < |s| ==> r[i] == s[|s| - 1 - i]
  {
    seq(|s|, i requires 0 <= i < |s| => s[|s| - 1 - i])
  }

  lemma ReverseMembers<T(!new)>(s: seq<T>)
    ensures forall x :: x in Reverse(s) <==> x in s
  {
    assert forall i :: 0 <= i < |s| ==> s[i] == Reverse(s)[|s| - 1 - i];
  }

  ghost function EntryAt(runs: seq<Rows>, prios: seq<int>, v: View, k: Key): Entry
    requires |runs| == |prios|
  {
    var vs := StackOf(runs, prios, k);
    if vs == [] then Entry(k, [], true) else Merged(v, k, vs)
  }

  /** The whole scan: one entry per key, in walking order. */
  ghost function Scan(runs: seq<Rows>, prios: seq<int>, v: View, rev: bool): seq<Entry>
    requires |runs| == |prios|
  {
    EntriesAt(runs, prios, v, InOrder(AllKeys(runs), rev))
  }

  /** What a walk passes to its callback, which sees what it was given so far and may stop it. */
  ghost function Taken(seen: seq<Entry>, rest: seq<Entry>, stop: seq<Entry> -> bool): seq<Entry>
    decreases rest
  {
    if rest == [] then seen
    else
      var now := seen + [rest[0]];
      if stop(now) then now else Taken(now, rest[1..], stop)
  }

  lemma TakenStep(seen: seq<Entry>, e: Entry, rest: seq<Entry>, stop: seq<Entry> -> bool)
    ensures Taken(seen, [e] + rest, stop) == if stop(seen + [e]) then seen + [e] else Taken(seen + [e], rest, stop)
  {
    assert ([e] + rest)[1..] == rest;
  }

  ghost function EntriesAt(runs: seq<Rows>, prios: seq<int>, v: View, ks: seq<Key>): (r: seq<Entry>)
    requires |runs| == |prios|
    ensures |r| == |ks| && forall i :: 0 <= i < |ks| ==> r[i] == EntryAt(runs, prios, v, ks[i])
  {
    seq(|ks|, i requires 0 <= i < |ks| => EntryAt(runs, prios, v, ks[i]))
  }

  /** Only one sequence lists a set of keys in walking order. */
  lemma {:induction false} InOrderUnique(ks: seq<Key>, s: set<Key>, rev: bool)
    requires forall x :: x in ks <==> x in s
    requires forall i, j :: 0 <= i < j < |ks| ==> Before(ks[i], ks[j], rev)
    ensures ks == InOrder(s, rev)
  {
    if rev {
      ReverseMembers(ks);
      AscendingUnique(Reverse(ks), s);
      assert Reverse(Reverse(ks)) == ks;
    } else {
      AscendingUnique(ks, s);
    }
  }

  // ----- One step of the merge -----

  /** `k` comes first in what is left of the sources. */
  ghost predicate Leads(runs: seq<Rows>, k: Key, rev: bool) {
    forall i :: 0 <= i < |runs| && runs[i] != [] ==> runs[i][0].pk == k || Before(k, runs[i][0].pk, rev)
  }

  ghost function Without(run: Rows, k: Key): Rows {
    if run != [] && run[0].pk == k then run[1..] else run
  }

  ghost function AllWithout(runs: seq<Rows>, k: Key): (r: seq<Rows>)
    ensures |r| == |runs| && forall i :: 0 <= i < |runs| ==> r[i] == Without(runs[i], k)
  {
    seq(|runs|, i requires 0 <= i < |runs| => Without(runs[i], k))
  }

  lemma OrderedTail(run: Rows, rev: bool)
    requires run != [] && Ordered(run, rev)
    ensures Ordered(run[1..], rev)
    ensures forall i :: 0 <= i < |run[1..]| ==> Before(run[0].pk, run[1..][i].pk, rev)
  {
  }

  /** In a source led by `k`, only the head can hold `k`. */
  lemma LedFind(run: Rows, k: Key, rev: bool)
    requires Ordered(run, rev)
    requires run != [] ==> run[0].pk == k || Before(k, run[0].pk, rev)
    ensures Find(run, k) == if run != [] && run[0].pk == k then [run[0].ver] else []
    ensures Find(Without(run, k), k) == []
    ensures KeysOf(Without(run, k)) == KeysOf(run) - {k}
    ensures forall x :: x in KeysOf(run) ==> x == k || Before(k, x, rev)
  {
    Order();
    if run != [] {
      OrderedTail(run, rev);
      FindKeys(run[1..], k);
      FindKeys(run, k);
      assert forall i :: 0 < i < |run| ==> run[i] == run[1..][i - 1];
    }
  }

  lemma WithoutFind(run: Rows, k: Key, x: Key)
    requires x != k
    ensures Find(Without(run, k), x) == Find(run, x)
  {
  }

  lemma WithoutStack(runs: seq<Rows>, prios: seq<int>, k: Key, x: Key)
    requires |runs| == |prios| && x != k
    ensures StackOf(AllWithout(runs, k), prios, x) == StackOf(runs, prios, x)
  {
    var runs' := AllWithout(runs, k);
    forall i | 0 <= i < |runs| ensures Find(runs'[i], x) == Find(runs[i], x) {
      WithoutFind(runs[i], k, x);
    }
    assert Holders(runs', x) == Holders(runs, x);
    StackFrame(runs, runs', prios, Holders(runs, x), x);
  }

  lemma WithoutKeys(runs: seq<Rows>, k: Key, rev: bool)
    requires AllOrdered(runs, rev) && Leads(runs, k, rev)
    ensures AllKeys(AllWithout(runs, k)) == AllKeys(runs) - {k}
    ensures forall x :: x in AllKeys(runs) ==> x == k || Before(k, x, rev)
  {
    var runs' := AllWithout(runs, k);
    forall i | 0 <= i < |runs|
      ensures KeysOf(runs'[i]) == KeysOf(runs[i]) - {k}
      ensures forall x :: x in KeysOf(runs[i]) ==> x == k || Before(k, x, rev)
    {
      LedFind(runs[i], k, rev);
    }
    forall x ensures x in AllKeys(runs') <==> x in AllKeys(runs) - {k} {
      if x in AllKeys(runs') {
        var i :| 0 <= i < |runs| && x in KeysOf(runs'[i]);
        assert x in KeysOf(runs[i]);
      }
      if x in AllKeys(runs) - {k} {
        var i :| 0 <= i < |runs| && x in KeysOf(runs[i]);
        assert x in KeysOf(runs'[i]);
      }
    }
  }

  lemma InOrderFirst(s: set<Key>, k: Key, rev: bool)
    requires k in s && forall x :: x in s ==> x == k || Before(k, x, rev)
    ensures InOrder(s, rev) == [k] + InOrder(s - {k}, rev)
  {
    var ks := [k] + InOrder(s - {k}, rev);
    forall i, j | 0 <= i < j < |ks| ensures Before(ks[i], ks[j], rev) {
      if i == 0 {
        assert ks[j] == InOrder(s - {k}, rev)[j - 1];
        assert ks[j] in s - {k};
      }
    }
    InOrderUnique(ks, s, rev);
  }

  /** The scan starts with the leading key and goes on without it. */
  lemma ScanStep(runs: seq<Rows>, prios: seq<int>, v: View, rev: bool, k: Key)
    requires |runs| == |prios| && AllOrdered(runs, rev) && Leads(runs, k, rev) && k in AllKeys(runs)
    ensures Scan(runs, prios, v, rev) == [EntryAt(runs, prios, v, k)] + Scan(AllWithout(runs, k), prios, v, rev)
  {
    WithoutKeys(runs, k, rev);
    InOrderFirst(AllKeys(runs), k, rev);
    EntriesWithout(runs, prios, v, k, InOrder(AllKeys(runs) - {k}, rev));
    EntriesCons(runs, prios, v, k, InOrder(AllKeys(runs) - {k}, rev));
  }

  lemma EntriesCons(runs: seq<Rows>, prios: seq<int>, v: View, k: Key, ks: seq<Key>)
    requires |runs| == |prios|
    ensures EntriesAt(runs, prios, v, [k] + ks) == [EntryAt(runs, prios, v, k)] + EntriesAt(runs, prios, v, ks)
  {
  }

  lemma EntriesWithout(runs: seq<Rows>, prios: seq<int>, v: View, k: Key, ks: seq<Key>)
    requires |runs| == |prios| && k !in ks
    ensures EntriesAt(AllWithout(runs, k), prios, v, ks) == EntriesAt(runs, prios, v, ks)
  {
    forall i | 0 <= i < |ks| ensures EntryAt(AllWithout(runs, k), prios, v, ks[i]) == EntryAt(runs, prios, v, ks[i]) {
      assert ks[i] in ks;
      WithoutStack(runs, prios, k, ks[i]);
    }
  }

  /** Popping the newest source that leads with `k` takes the top version of `k`. */
  lemma StackPop(runs: seq<Rows>, prios: seq<int>, rev: bool, k: Key, m: nat)
    requires |runs| == |prios| && Distinct(prios) && AllOrdered(runs, rev) && Leads(runs, k, rev)
    requires m < |runs| && runs[m] != [] && runs[m][0].pk == k
    requires forall i :: 0 <= i < |runs| && runs[i] != [] && runs[i][0].pk == k ==> prios[i] <= prios[m]
    ensures StackOf(runs, prios, k) == [runs[m][0].ver] + StackOf(runs[m := runs[m][1..]], prios, k)
  {
    var runs1 := runs[m := runs[m][1..]];
    forall i | 0 <= i < |runs|
      ensures Find(runs[i], k) == if runs[i] != [] && runs[i][0].pk == k then [runs[i][0].ver] else []
    {
      LedFind(runs[i], k, rev);
    }
    LedFind(runs[m], k, rev);
    assert Without(runs[m], k) == runs[m][1..];
    assert Holders(runs1, k) == Holders(runs, k) - {m};
    NewestIs(prios, Holders(runs, k), m);
    StackFrame(runs, runs1, prios, Holders(runs, k) - {m}, k);
  }

  /** Popping one version of the leading key leaves the rest of the merge as it is. */
  lemma PopKeeps(runs: seq<Rows>, rev: bool, k: Key, m: nat)
    requires AllOrdered(runs, rev) && Leads(runs, k, rev)
    requires m < |runs| && runs[m] != [] && runs[m][0].pk == k
    ensures Leads(runs[m := runs[m][1..]], k, rev)
    ensures AllWithout(runs[m := runs[m][1..]], k) == AllWithout(runs, k)
  {
    var runs1 := runs[m := runs[m][1..]];
    Order();
    OrderedTail(runs[m], rev);
    assert Without(runs1[m], k) == Without(runs[m], k);
  }

  ghost function Total(runs: seq<Rows>): nat {
    if runs == [] then 0 else |runs[0]| + Total(runs[1..])
  }

  lemma {:induction false} TotalShrinks(runs: seq<Rows>, m: nat)
    requires m < |runs| && runs[m] != []
    ensures Total(runs[m := runs[m][1..]]) == Total(runs) - 1
  {
    if m > 0 {
      assert runs[m := runs[m][1..]][1..] == runs[1..][m - 1 := runs[1..][m - 1][1..]];
      TotalShrinks(runs[1..], m - 1);
    } else {
      assert runs[m := runs[m][1..]][1..] == runs[1..];
    }
  }

  lemma {:induction false} TotalWithout(runs: seq<Rows>, k: Key)
    ensures Total(AllWithout(runs, k)) <= Total(runs)
  {
    if runs != [] {
      assert AllWithout(runs, k)[1..] == AllWithout(runs[1..], k);
      TotalWithout(runs[1..], k);
    }
  }
}
