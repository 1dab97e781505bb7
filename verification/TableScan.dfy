/**
 A merged scan, with the deleted keys passed over as every caller does, lists the
 visible table: each live key of the window once, in order, with its resolved row.
 */
module TableScan {
  import opened Bytes
  import opened Wrappers
  import opened Versions
  import opened MpartModel
  import opened MergeSpec

  function LiveEntries(es: seq<Entry>): seq<Entry> {
    if es == [] then []
    else if es[|es| - 1].del then LiveEntries(es[..|es| - 1])
    else LiveEntries(es[..|es| - 1]) + [es[|es| - 1]]
  }

  /** The stop decision of a callback that returns at once for deleted keys. */
  function Halting(halt: seq<Entry> -> bool): seq<Entry> -> bool {
    (es: seq<Entry>) => es != [] && !es[|es| - 1].del && halt(LiveEntries(es))
  }

  ghost function Visible(v: View, k: Key, row: seq<Cell>): Entry
    requires v.Column? ==> v.c < |row|
  {
    Entry(k, match v case FullRows => row case Column(c) => [row[c]] case KeysOnly => [], false)
  }

  ghost function KeysWithin(t: Table, lo: Option<Key>, hi: Option<Key>): set<Key> {
    set k | k in t && InWindow(k, lo, hi)
  }

  ghost predicate Wide(t: Table, v: View) {
    v.Column? ==> forall k :: k in t ==> v.c < |t[k]|
  }

  /** The rows of a table inside a window, in walking order. */
  ghost function Listing(t: Table, v: View, rev: bool, lo: Option<Key>, hi: Option<Key>): seq<Entry>
    requires Wide(t, v)
  {
    var ks := InOrder(KeysWithin(t, lo, hi), rev);
    seq(|ks|, i requires 0 <= i < |ks| => assert ks[i] in ks; Visible(v, ks[i], t[ks[i]]))
  }

  lemma LiveStep(es: seq<Entry>, e: Entry)
    ensures LiveEntries(es + [e]) == if e.del then LiveEntries(es) else LiveEntries(es) + [e]
  {
    assert (es + [e])[..|es|] == es;
  }

  lemma {:induction false} LiveConcat(a: seq<Entry>, b: seq<Entry>)
    ensures LiveEntries(a + b) == LiveEntries(a) + LiveEntries(b)
  {
    if b == [] {
      assert a + b == a;
    } else {
      hide LiveEntries;
      LiveConcat(a, b[..|b| - 1]);
      LiveMore(a, b[..|b| - 1], b[|b| - 1]);
      assert b == b[..|b| - 1] + [b[|b| - 1]];
    }
  }

  lemma LiveMore(a: seq<Entry>, b: seq<Entry>, e: Entry)
    requires LiveEntries(a + b) == LiveEntries(a) + LiveEntries(b)
    ensures LiveEntries(a + (b + [e])) == LiveEntries(a) + LiveEntries(b + [e])
  {
    hide LiveEntries;
    LiveStep(b, e);
    LiveStep(a + b, e);
    assert a + (b + [e]) == a + b + [e];
  }

  lemma LiveCons(e: Entry, es: seq<Entry>)
    ensures LiveEntries([e] + es) == (if e.del then [] else [e]) + LiveEntries(es)
  {
    LiveConcat([e], es);
    LiveStep([], e);
    assert [] + [e] == [e];
  }

  /** A walk that stops by its live rows only is a walk over the live rows. */
  lemma {:induction false} TakenLive(seen: seq<Entry>, rest: seq<Entry>, halt: seq<Entry> -> bool)
    ensures LiveEntries(Taken(seen, rest, Halting(halt))) == Taken(LiveEntries(seen), LiveEntries(rest), halt)
    decreases rest
  {
    if rest != [] {
      var e, tail := rest[0], rest[1..];
      assert rest == [e] + tail;
      TakenStep(seen, e, tail, Halting(halt));
      LiveStep(seen, e);
      LiveCons(e, tail);
      TakenLive(seen + [e], tail, halt);
      HaltingAt(seen, e, halt);
      if e.del {
        assert [] + LiveEntries(tail) == LiveEntries(tail);
      } else {
        TakenStep(LiveEntries(seen), e, LiveEntries(tail), halt);
      }
    }
  }

  lemma HaltingAt(seen: seq<Entry>, e: Entry, halt: seq<Entry> -> bool)
    ensures Halting(halt)(seen + [e]) == (!e.del && halt(LiveEntries(seen + [e])))
  {
  }

  ghost function LiveKeys(runs: seq<Rows>, prios: seq<int>, v: View, ks: seq<Key>): seq<Key>
    requires |runs| == |prios|
  {
    if ks == [] then []
    else (if EntryAt(runs, prios, v, ks[0]).del then [] else [ks[0]]) + LiveKeys(runs, prios, v, ks[1..])
  }

  lemma {:induction false} LiveOfEntries(runs: seq<Rows>, prios: seq<int>, v: View, ks: seq<Key>)
    requires |runs| == |prios|
    ensures LiveEntries(EntriesAt(runs, prios, v, ks)) == EntriesAt(runs, prios, v, LiveKeys(runs, prios, v, ks))
  {
    if ks != [] {
      var e := EntryAt(runs, prios, v, ks[0]);
      LiveOfEntries(runs, prios, v, ks[1..]);
      EntriesCons(runs, prios, v, ks[0], ks[1..]);
      assert ks == [ks[0]] + ks[1..];
      LiveCons(e, EntriesAt(runs, prios, v, ks[1..]));
      EntriesCons(runs, prios, v, ks[0], LiveKeys(runs, prios, v, ks[1..]));
    }
  }

  lemma {:induction false} LiveKeysSorted(runs: seq<Rows>, prios: seq<int>, v: View, ks: seq<Key>, rev: bool)
    requires |runs| == |prios| && forall i, j :: 0 <= i < j < |ks| ==> Before(ks[i], ks[j], rev)
    ensures var ls := LiveKeys(runs, prios, v, ks);
            && (forall x :: x in ls <==> x in ks && !EntryAt(runs, prios, v, x).del)
            && forall i, j :: 0 <= i < j < |ls| ==> Before(ls[i], ls[j], rev)
  {
    if ks != [] {
      var k, rest := ks[0], LiveKeys(runs, prios, v, ks[1..]);
      LiveKeysSorted(runs, prios, v, ks[1..], rev);
      assert forall x :: x in ks <==> x == k || x in ks[1..];
      forall j | 0 <= j < |rest| ensures Before(k, rest[j], rev) {
        assert rest[j] in rest;
        assert rest[j] in ks[1..];
      }
    }
  }

  /** `t` holds in the window what the sources' stacks resolve to; outside it they are empty. */
  ghost predicate Holds(runs: seq<Rows>, prios: seq<int>, t: Table, lo: Option<Key>, hi: Option<Key>, w: nat, k: Key)
    requires |runs| == |prios|
  {
    var vs := StackOf(runs, prios, k);
    if InWindow(k, lo, hi)
    then Sound(vs, w) && Resolve(vs, w) == if k in t then Some(t[k]) else None
    else vs == []
  }

  lemma MergedVisible(v: View, k: Key, vs: seq<Version>, w: nat)
    requires Sound(vs, w) && vs != [] && (v.Column? ==> v.c < w)
    ensures Merged(v, k, vs).del == !Alive(vs)
    ensures Alive(vs) ==> Merged(v, k, vs) == Visible(v, k, Resolve(vs, w).value)
  {
    if Alive(vs) {
      InheritIsResolve(vs, w);
      if v.Column? {
        InheritCellIsCol(vs, w, v.c);
      }
    }
  }

  lemma EntryShows(runs: seq<Rows>, prios: seq<int>, t: Table, v: View, lo: Option<Key>, hi: Option<Key>, w: nat, k: Key)
    requires |runs| == |prios| && Holds(runs, prios, t, lo, hi, w, k) && (v.Column? ==> v.c < w)
    ensures !EntryAt(runs, prios, v, k).del <==> k in KeysWithin(t, lo, hi)
    ensures k in KeysWithin(t, lo, hi) ==> |t[k]| == w && EntryAt(runs, prios, v, k) == Visible(v, k, t[k])
    ensures k in KeysWithin(t, lo, hi) ==> StackOf(runs, prios, k) != []
  {
    var vs := StackOf(runs, prios, k);
    if vs != [] && InWindow(k, lo, hi) {
      MergedVisible(v, k, vs, w);
    }
  }

  /** The live entries of the merged scan are the listing of the table. */
  lemma ScanLists(runs: seq<Rows>, prios: seq<int>, t: Table, v: View, rev: bool, lo: Option<Key>, hi: Option<Key>, w: nat)
    requires |runs| == |prios| && (v.Column? ==> v.c < w) && Wide(t, v)
    requires forall k :: Holds(runs, prios, t, lo, hi, w, k)
    requires forall k :: k in AllKeys(runs) <==> StackOf(runs, prios, k) != []
    ensures LiveEntries(Scan(runs, prios, v, rev)) == Listing(t, v, rev, lo, hi)
  {
    hide LiveKeys;
    hide EntriesAt;
    hide Holds;
    hide EntryAt;
    hide StackOf;
    hide KeysWithin;
    hide AllKeys;
    hide InOrder;
    var ks := InOrder(AllKeys(runs), rev);
    var ls := LiveKeys(runs, prios, v, ks);
    LiveOfEntries(runs, prios, v, ks);
    LiveAreWithin(runs, prios, t, v, rev, lo, hi, w);
    InOrderUnique(ls, KeysWithin(t, lo, hi), rev);
    EntriesListed(runs, prios, t, v, rev, lo, hi, w);
  }

  lemma LiveAreWithin(runs: seq<Rows>, prios: seq<int>, t: Table, v: View, rev: bool, lo: Option<Key>, hi: Option<Key>, w: nat)
    requires |runs| == |prios| && (v.Column? ==> v.c < w)
    requires forall k :: Holds(runs, prios, t, lo, hi, w, k)
    requires forall k :: k in AllKeys(runs) <==> StackOf(runs, prios, k) != []
    ensures var ls := LiveKeys(runs, prios, v, InOrder(AllKeys(runs), rev));
            && (forall k :: k in ls <==> k in KeysWithin(t, lo, hi))
            && forall i, j :: 0 <= i < j < |ls| ==> Before(ls[i], ls[j], rev)
  {
    hide LiveKeys;
    hide Holds;
    hide EntryAt;
    hide StackOf;
    hide KeysWithin;
    hide Visible;
    hide AllKeys;
    var ks := InOrder(AllKeys(runs), rev);
    LiveKeysSorted(runs, prios, v, ks, rev);
    forall k ensures k in LiveKeys(runs, prios, v, ks) <==> k in KeysWithin(t, lo, hi) {
      assert Holds(runs, prios, t, lo, hi, w, k);
      EntryShows(runs, prios, t, v, lo, hi, w, k);
    }
  }

  /** The entries of the keys within the window are the listing. */
  lemma EntriesListed(runs: seq<Rows>, prios: seq<int>, t: Table, v: View, rev: bool, lo: Option<Key>, hi: Option<Key>, w: nat)
    requires |runs| == |prios| && (v.Column? ==> v.c < w) && Wide(t, v)
    requires forall k :: Holds(runs, prios, t, lo, hi, w, k)
    ensures EntriesAt(runs, prios, v, InOrder(KeysWithin(t, lo, hi), rev)) == Listing(t, v, rev, lo, hi)
  {
    hide Holds;
    hide EntryAt;
    hide StackOf;
    hide KeysWithin;
    hide Visible;
    var ls := InOrder(KeysWithin(t, lo, hi), rev);
    forall i | 0 <= i < |ls| ensures EntriesAt(runs, prios, v, ls)[i] == Listing(t, v, rev, lo, hi)[i] {
      assert ls[i] in ls;
      assert Holds(runs, prios, t, lo, hi, w, ls[i]);
      EntryShows(runs, prios, t, v, lo, hi, w, ls[i]);
    }
  }
}
