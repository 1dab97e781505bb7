/**
 Grouped aggregates over shards: partial groups with the same key are merged. Keys are
 compared by their printed form, which is faithful unless NULL meets the string NULL.
 */
module AggGroups {
  import opened Bytes
  import opened Aggregates
  import opened AggPlans

  // ----- Values in first-seen order -----

  function FirstSeen<T(==)>(xs: seq<T>): seq<T> {
    if xs == [] then []
    else
      var before, x := FirstSeen(xs[..|xs| - 1]), xs[|xs| - 1];
      if x in before then before else before + [x]
  }

  lemma {:induction false} SeenOnce<T>(xs: seq<T>)
    ensures forall i, j :: 0 <= i < j < |FirstSeen(xs)| ==> FirstSeen(xs)[i] != FirstSeen(xs)[j]
    ensures forall x :: x in FirstSeen(xs) <==> x in xs
  {
    if xs != [] {
      SeenOnce(xs[..|xs| - 1]);
      assert xs == xs[..|xs| - 1] + [xs[|xs| - 1]];
    }
  }

  /** `p` is where a list has the value at `i` of another for the first time. */
  ghost predicate SeenAt<T>(xs: seq<T>, seen: seq<T>, i: int, p: int) {
    0 <= i < |seen| && 0 <= p < |xs| && xs[p] == seen[i] && xs[p] !in xs[..p]
  }

  /** The values stand in the order in which they are seen first. */
  lemma {:induction false} SeenInOrder<T>(xs: seq<T>)
    ensures forall i, j, p, q :: SeenAt(xs, FirstSeen(xs), i, p) && SeenAt(xs, FirstSeen(xs), j, q) && i < j ==> p < q
  {
    if xs != [] {
      var n := |xs| - 1;
      var init, x := xs[..n], xs[n];
      SeenInOrder(init);
      SeenOnce(init);
      assert xs == init + [x];
      forall i, j, p, q | SeenAt(xs, FirstSeen(xs), i, p) && SeenAt(xs, FirstSeen(xs), j, q) && i < j ensures p < q {
        if j < |FirstSeen(init)| {
          SeenBefore(init, x, i, p);
          SeenBefore(init, x, j, q);
        } else {
          SeenBefore(init, x, i, p);
          assert forall t :: 0 <= t < n ==> xs[t] in init;
          assert q == n;
        }
      }
    }
  }

  lemma {:induction false} SeenBefore<T>(init: seq<T>, x: T, i: int, p: int)
    requires SeenAt(init + [x], FirstSeen(init + [x]), i, p) && i < |FirstSeen(init)|
    ensures SeenAt(init, FirstSeen(init), i, p)
  {
    var xs := init + [x];
    assert xs[..|init|] == init;
    SeenOnce(init);
    assert FirstSeen(xs)[i] == FirstSeen(init)[i] && FirstSeen(init)[i] in init;
    assert p < |init| && xs[..p] == init[..p];
  }

  /** Values of `b` that `s` has not seen, appended to it. */
  function Extended<T(==)>(s: seq<T>, b: seq<T>): seq<T>
    decreases |b|
  {
    if b == [] then s
    else
      var before, x := Extended(s, b[..|b| - 1]), b[|b| - 1];
      if x in before then before else before + [x]
  }

  lemma {:induction false} SeenConcat<T>(a: seq<T>, b: seq<T>)
    ensures FirstSeen(a + b) == Extended(FirstSeen(a), b)
  {
    if b == [] {
      assert a + b == a;
    } else {
      assert (a + b)[..|a + b| - 1] == a + b[..|b| - 1];
      SeenConcat(a, b[..|b| - 1]);
    }
  }

  lemma {:induction false} ExtendedHas<T>(s: seq<T>, b: seq<T>)
    ensures forall x :: x in Extended(s, b) <==> x in s || x in b
  {
    if b != [] {
      ExtendedHas(s, b[..|b| - 1]);
      assert b == b[..|b| - 1] + [b[|b| - 1]];
    }
  }

  /** Repeats in `b` make no difference. */
  lemma {:induction false} ExtendedSeen<T>(s: seq<T>, b: seq<T>)
    ensures Extended(s, FirstSeen(b)) == Extended(s, b)
  {
    if b != [] {
      var init, x := b[..|b| - 1], b[|b| - 1];
      ExtendedSeen(s, init);
      ExtendedHas(s, init);
      SeenOnce(init);
      if x !in FirstSeen(init) {
        assert (FirstSeen(init) + [x])[..|FirstSeen(init)|] == FirstSeen(init);
      }
    }
  }

  // ----- Groups of rows -----

  function GroupRows(rows: seq<Row>, g: nat, v: Value): seq<Row> {
    if rows == [] then []
    else
      var r := rows[|rows| - 1];
      GroupRows(rows[..|rows| - 1], g, v) + if g < |r| && r[g] == v then [r] else []
  }

  lemma {:induction false} GroupConcat(a: seq<Row>, b: seq<Row>, g: nat, v: Value)
    ensures GroupRows(a + b, g, v) == GroupRows(a, g, v) + GroupRows(b, g, v)
  {
    if b == [] {
      assert a + b == a;
    } else {
      assert (a + b)[..|a + b| - 1] == a + b[..|b| - 1];
      GroupConcat(a, b[..|b| - 1], g, v);
    }
  }

  lemma {:induction false} NoSuchGroup(rows: seq<Row>, g: nat, v: Value)
    ensures GroupRows(rows, g, v) == [] <==> v !in Column(rows, g)
  {
    if rows != [] {
      NoSuchGroup(rows[..|rows| - 1], g, v);
    }
  }

  /** The groups of a table, in first-seen order. */
  /** The rows of a group are the rows with its value, each as often as it occurs. */
  lemma {:induction false} GroupRowsAre(rows: seq<Row>, g: nat, v: Value, r: Row)
    ensures multiset(GroupRows(rows, g, v))[r] == if g < |r| && r[g] == v then multiset(rows)[r] else 0
  {
    if rows != [] {
      var n := |rows| - 1;
      GroupRowsAre(rows[..n], g, v, r);
      assert rows == rows[..n] + [rows[n]];
    }
  }

  function Groups(rows: seq<Row>, g: nat): seq<Value> {
    FirstSeen(Column(rows, g))
  }

  /** What the statement asks: a row per group. */
  ghost function Reference(items: seq<Item>, rows: seq<Row>, g: nat): (r: seq<Row>)
    ensures |r| == |Groups(rows, g)|
    ensures forall i :: 0 <= i < |r| ==> r[i] == GroupRow(items, GroupRows(rows, g, Groups(rows, g)[i]), Groups(rows, g)[i])
  {
    seq(|Groups(rows, g)|, i requires 0 <= i < |Groups(rows, g)| =>
      GroupRow(items, GroupRows(rows, g, Groups(rows, g)[i]), Groups(rows, g)[i]))
  }

  ghost function GroupRow(items: seq<Item>, rows: seq<Row>, v: Value): (r: Row)
    ensures |r| == |items| && forall i :: 0 <= i < |items| ==> r[i] == ItemOf(items[i], rows, v)
  {
    seq(|items|, i requires 0 <= i < |items| => ItemOf(items[i], rows, v))
  }

  // ----- What shards send -----

  /** One partial row per group of the shard: the group value, then the partials. */
  ghost function ShardGroups(subs: seq<Sub>, rows: seq<Row>, g: nat, vs: seq<Value>): seq<Row> {
    if vs == [] then []
    else
      var v := vs[|vs| - 1];
      ShardGroups(subs, rows, g, vs[..|vs| - 1]) + [[v] + ShardRow(subs, GroupRows(rows, g, v))]
  }

  ghost function Sent(subs: seq<Sub>, parts: seq<seq<Row>>, g: nat): seq<Row> {
    if parts == [] then []
    else
      var last := parts[|parts| - 1];
      Sent(subs, parts[..|parts| - 1], g) + ShardGroups(subs, last, g, Groups(last, g))
  }

  lemma {:induction false} ShardHeads(subs: seq<Sub>, rows: seq<Row>, g: nat, vs: seq<Value>)
    ensures Column(ShardGroups(subs, rows, g, vs), 0) == vs
  {
    if vs != [] {
      ShardHeads(subs, rows, g, vs[..|vs| - 1]);
      var sent := ShardGroups(subs, rows, g, vs);
      assert sent[..|sent| - 1] == ShardGroups(subs, rows, g, vs[..|vs| - 1]);
    }
  }

  /** The coordinator sees the groups in the order of the rows. */
  lemma {:induction false} SentGroups(subs: seq<Sub>, parts: seq<seq<Row>>, g: nat)
    ensures FirstSeen(Column(Sent(subs, parts, g), 0)) == Groups(Flat(parts), g)
  {
    if parts != [] {
      var init, last := parts[..|parts| - 1], parts[|parts| - 1];
      var sent := ShardGroups(subs, last, g, Groups(last, g));
      SentGroups(subs, init, g);
      ShardHeads(subs, last, g, Groups(last, g));
      ColumnConcat(Sent(subs, init, g), sent, 0);
      SeenConcat(Column(Sent(subs, init, g), 0), Groups(last, g));
      ExtendedSeen(Groups(Flat(init), g), Column(last, g));
      ColumnConcat(Flat(init), last, g);
      SeenConcat(Column(Flat(init), g), Column(last, g));
    }
  }

  /** The rows of the group `v`, shard by shard, for the shards that have any. */
  ghost function PartsOf(parts: seq<seq<Row>>, g: nat, v: Value): seq<seq<Row>> {
    if parts == [] then []
    else
      var last := parts[|parts| - 1];
      PartsOf(parts[..|parts| - 1], g, v) + if v in Column(last, g) then [GroupRows(last, g, v)] else []
  }

  lemma FlatSnoc<T>(parts: seq<seq<T>>, last: seq<T>)
    ensures Flat(parts + [last]) == Flat(parts) + last
  {
    assert (parts + [last])[..|parts|] == parts;
  }

  lemma {:induction false} PartsAreGroup(parts: seq<seq<Row>>, g: nat, v: Value)
    ensures Flat(PartsOf(parts, g, v)) == GroupRows(Flat(parts), g, v)
  {
    if parts != [] {
      var init, last := parts[..|parts| - 1], parts[|parts| - 1];
      PartsAreGroup(init, g, v);
      NoSuchGroup(last, g, v);
      GroupConcat(Flat(init), last, g, v);
      if v in Column(last, g) {
        FlatSnoc(PartsOf(init, g, v), GroupRows(last, g, v));
      } else {
        assert PartsOf(init, g, v) + [] == PartsOf(init, g, v);
        assert GroupRows(Flat(init), g, v) + [] == GroupRows(Flat(init), g, v);
      }
    }
  }

  ghost function Heads(v: Value, n: nat): (r: seq<Row>)
    ensures |r| == n && forall i :: 0 <= i < n ==> r[i] == [v]
  {
    seq(n, i => [v])
  }

  lemma GroupSnoc(rows: seq<Row>, r: Row, v: Value)
    requires r != []
    ensures GroupRows(rows + [r], 0, v) == if r[0] == v then GroupRows(rows, 0, v) + [r] else GroupRows(rows, 0, v)
  {
    assert (rows + [r])[..|rows|] == rows;
  }

  lemma {:induction false} ShardGroupOf(subs: seq<Sub>, rows: seq<Row>, g: nat, vs: seq<Value>, v: Value)
    requires forall i, j :: 0 <= i < j < |vs| ==> vs[i] != vs[j]
    ensures GroupRows(ShardGroups(subs, rows, g, vs), 0, v) == if v in vs then [[v] + ShardRow(subs, GroupRows(rows, g, v))] else []
  {
    hide GroupRows;
    if vs == [] {
      NoRows(v);
    } else {
      var n := |vs| - 1;
      ShardGroupOf(subs, rows, g, vs[..n], v);
      GroupSnoc(ShardGroups(subs, rows, g, vs[..n]), [vs[n]] + ShardRow(subs, GroupRows(rows, g, vs[n])), v);
      assert vs == vs[..n] + [vs[n]];
      assert vs[n] !in vs[..n];
    }
  }

  lemma NoRows(v: Value)
    ensures GroupRows([], 0, v) == []
  {
  }

  /** The partial rows of a group are the shards' partials of its rows. */
  lemma {:induction false} SentOf(subs: seq<Sub>, parts: seq<seq<Row>>, g: nat, v: Value)
    ensures var ps := PartsOf(parts, g, v);
            GroupRows(Sent(subs, parts, g), 0, v) == Joined(Heads(v, |ps|), ShardRows(subs, ps))
  {
    if parts != [] {
      var init, last := parts[..|parts| - 1], parts[|parts| - 1];
      var sent := ShardGroups(subs, last, g, Groups(last, g));
      SentOf(subs, init, g, v);
      GroupConcat(Sent(subs, init, g), sent, 0, v);
      SeenOnce(Column(last, g));
      ShardGroupOf(subs, last, g, Groups(last, g), v);
    }
  }

  // ----- Printed values -----

  const NULL_TEXT: Key := [78, 85, 76, 76]

  function Digits(n: nat): Key {
    if n < 10 then [48 + n] else Digits(n / 10) + [48 + n % 10]
  }

  /** `Value.String` of NULL, integers, strings and booleans; the contracts below admit no others. */
  function Text(v: Value): Key {
    match v
    case Null => NULL_TEXT
    case IntV(i) => if i < 0 then [45] + Digits(-i) else Digits(i)
    case StringV(s) => s
    case BoolV(b) => if b then [116, 114, 117, 101] else [102, 97, 108, 115, 101]
    case FloatV(_) => []
  }

  /** A group column of integers, of strings or of booleans. */
  ghost predicate KeyColumn(vals: seq<Value>) {
    OneType(vals) && forall i :: 0 <= i < |vals| ==> !vals[i].FloatV?
  }

  lemma {:induction false} DigitsApart(n: nat, m: nat)
    requires Digits(n) == Digits(m)
    ensures n == m
  {
    var a, b := Digits(n), Digits(m);
    assert a[|a| - 1] == 48 + n % 10 && b[|b| - 1] == 48 + m % 10;
    DigitCount(n);
    DigitCount(m);
    if n >= 10 {
      assert a[..|a| - 1] == Digits(n / 10) && b[..|b| - 1] == Digits(m / 10);
      DigitsApart(n / 10, m / 10);
    }
  }

  lemma {:induction false} DigitCount(n: nat)
    ensures |Digits(n)| == 1 <==> n < 10
    ensures forall i :: 0 <= i < |Digits(n)| ==> 48 <= Digits(n)[i] < 58
    ensures Digits(n) != []
  {
    if n >= 10 {
      DigitCount(n / 10);
    }
  }

  /** Two values of a key column print alike only if they are equal or NULL and the string NULL. */
  lemma TextClash(v: Value, w: Value)
    requires KeyColumn([v, w]) && Text(v) == Text(w)
    ensures v == w || (v.Null? && w == StringV(NULL_TEXT)) || (w.Null? && v == StringV(NULL_TEXT))
  {
    assert [v, w][0] == v && [v, w][1] == w;
    if v.IntV? {
      DigitCount(if v.i < 0 then -v.i else v.i);
      assert Text(v)[0] < 58;
    }
    if w.IntV? {
      DigitCount(if w.i < 0 then -w.i else w.i);
      assert Text(w)[0] < 58;
    }
    if v.IntV? && w.IntV? {
      if v.i < 0 && w.i < 0 {
        assert Text(v)[1..] == Digits(-v.i) && Text(w)[1..] == Digits(-w.i);
        DigitsApart(-v.i, -w.i);
      } else if v.i >= 0 && w.i >= 0 {
        DigitsApart(v.i, w.i);
      }
    }
  }

  /** No two different values of the list print alike. */
  ghost predicate NoClash(vals: seq<Value>) {
    forall i, j :: 0 <= i < |vals| && 0 <= j < |vals| && Text(vals[i]) == Text(vals[j]) ==> vals[i] == vals[j]
  }

  lemma NoClashMeans(vals: seq<Value>)
    requires KeyColumn(vals)
    ensures NoClash(vals) <==> !(Null in vals && StringV(NULL_TEXT) in vals)
  {
    if Null in vals && StringV(NULL_TEXT) in vals {
      var i, j :| 0 <= i < |vals| && 0 <= j < |vals| && vals[i] == Null && vals[j] == StringV(NULL_TEXT);
      assert Text(vals[i]) == Text(vals[j]);
    } else {
      forall i, j | 0 <= i < |vals| && 0 <= j < |vals| && Text(vals[i]) == Text(vals[j]) ensures vals[i] == vals[j] {
        TextClash(vals[i], vals[j]);
      }
    }
  }

  // ----- Buckets -----

  function Texts(vals: seq<Value>): (r: seq<Key>)
    ensures |r| == |vals| && forall i :: 0 <= i < |vals| ==> r[i] == Text(vals[i])
  {
    seq(|vals|, i requires 0 <= i < |vals| => Text(vals[i]))
  }

  function ByText(rows: seq<Row>, t: Key): seq<Row> {
    if rows == [] then []
    else
      var r := rows[|rows| - 1];
      ByText(rows[..|rows| - 1], t) + if r != [] && Text(r[0]) == t then [r] else []
  }

  datatype Bucket = Bucket(gval: Value, rows: seq<Row>)

  /** The buckets after some partial rows: one per printed key, in first-seen order. */
  ghost predicate Bucketed(order: seq<Bucket>, partials: seq<Row>) {
    var ts := FirstSeen(Texts(Column(partials, 0)));
    && |order| == |ts|
    && forall i :: 0 <= i < |order| ==> BucketAt(order[i], partials, ts[i])
  }

  ghost predicate BucketAt(b: Bucket, partials: seq<Row>, t: Key) {
    b.rows == ByText(partials, t) && b.rows != [] && b.rows[0] != [] && b.gval == b.rows[0][0] && Text(b.gval) == t
  }

  lemma BucketStep(order: seq<Bucket>, partials: seq<Row>, n: nat)
    requires n < |partials| && Bucketed(order, partials[..n])
    ensures partials[n] == [] ==> Bucketed(order, partials[..n + 1])
    ensures partials[n] != [] ==>
              var ts, t := FirstSeen(Texts(Column(partials[..n], 0))), Text(partials[n][0]);
              && (t !in ts ==> Bucketed(order + [Bucket(partials[n][0], [partials[n]])], partials[..n + 1]))
              && forall i :: 0 <= i < |ts| && ts[i] == t ==>
                   Bucketed(order[i := order[i].(rows := order[i].rows + [partials[n]])], partials[..n + 1])
  {
    var a, r, ts := partials[..n], partials[n], FirstSeen(Texts(Column(partials[..n], 0)));
    KeysStep(partials, n);
    SeenOnce(Texts(Column(a, 0)));
    forall i | 0 <= i < |order|
      ensures r == [] || Text(r[0]) != ts[i] ==> BucketAt(order[i], partials[..n + 1], ts[i])
      ensures r != [] && Text(r[0]) == ts[i] ==> BucketAt(order[i].(rows := order[i].rows + [r]), partials[..n + 1], ts[i])
    {
      BucketKept(order[i], partials, n, ts[i]);
    }
    if r != [] && Text(r[0]) !in ts {
      FirstInBucket(partials, n);
    }
  }

  lemma BucketKept(b: Bucket, partials: seq<Row>, n: nat, t: Key)
    requires n < |partials| && BucketAt(b, partials[..n], t)
    ensures var r := partials[n];
            if r != [] && Text(r[0]) == t then BucketAt(b.(rows := b.rows + [r]), partials[..n + 1], t)
            else BucketAt(b, partials[..n + 1], t)
  {
    assert partials[..n + 1][..n] == partials[..n];
    assert b.rows + [] == b.rows;
  }

  lemma FirstInBucket(partials: seq<Row>, n: nat)
    requires n < |partials| && partials[n] != [] && Text(partials[n][0]) !in FirstSeen(Texts(Column(partials[..n], 0)))
    ensures BucketAt(Bucket(partials[n][0], [partials[n]]), partials[..n + 1], Text(partials[n][0]))
  {
    assert partials[..n + 1][..n] == partials[..n];
    SeenOnce(Texts(Column(partials[..n], 0)));
    NoneByText(partials[..n], Text(partials[n][0]));
  }

  lemma {:induction false} NoneByText(rows: seq<Row>, t: Key)
    ensures ByText(rows, t) == [] <==> t !in Texts(Column(rows, 0))
  {
    if rows != [] {
      var n := |rows| - 1;
      NoneByText(rows[..n], t);
      var heads := Column(rows[..n], 0);
      if rows[n] != [] {
        assert Texts(Column(rows, 0)) == Texts(heads) + [Text(rows[n][0])];
      } else {
        assert Column(rows, 0) == heads;
      }
    }
  }

  /** The bucket loop of `GroupedPlan.Merge`. */
  method Collect(partials: seq<Row>) returns (order: seq<Bucket>)
    requires KeyColumn(Column(partials, 0))
    ensures Bucketed(order, partials)
  {
    order := [];
    var idx: map<Key, nat> := map[];
    for n := 0 to |partials|
      invariant Bucketed(order, partials[..n])
      invariant forall t :: t in idx ==> idx[t] < |order| && FirstSeen(Texts(Column(partials[..n], 0)))[idx[t]] == t
      invariant forall t :: t in FirstSeen(Texts(Column(partials[..n], 0))) ==> t in idx
    {
      BucketStep(order, partials, n);
      KeysStep(partials, n);
      if |partials[n]| == 0 {
        continue;
      }
      var key := Text(partials[n][0]);
      if key in idx {
        var b := order[idx[key]];
        order := order[idx[key] := b.(rows := b.rows + [partials[n]])];
      } else {
        idx := idx[key := |order|];
        order := order + [Bucket(partials[n][0], [partials[n]])];
      }
    }
    assert partials[..|partials|] == partials;
  }

  lemma KeysStep(partials: seq<Row>, n: nat)
    requires n < |partials|
    ensures var ts, ts' := FirstSeen(Texts(Column(partials[..n], 0))), FirstSeen(Texts(Column(partials[..n + 1], 0)));
            if partials[n] == [] || Text(partials[n][0]) in ts then ts' == ts else ts' == ts + [Text(partials[n][0])]
  {
    var a, r := partials[..n], partials[n];
    assert partials[..n + 1][..n] == a;
    var heads := Column(a, 0);
    if r == [] {
      assert Column(partials[..n + 1], 0) == heads + [];
      assert heads + [] == heads;
    } else {
      assert Column(partials[..n + 1], 0) == heads + [r[0]];
      assert Texts(heads + [r[0]]) == Texts(heads) + [Text(r[0])];
      assert (Texts(heads) + [Text(r[0])])[..|heads|] == Texts(heads);
    }
  }

  // ----- The merged groups -----

  lemma {:induction false} TextsSeen(vals: seq<Value>)
    requires NoClash(vals)
    ensures FirstSeen(Texts(vals)) == Texts(FirstSeen(vals))
  {
    hide Text;
    if vals != [] {
      var n := |vals| - 1;
      var init := vals[..n];
      assert forall i :: 0 <= i < n ==> init[i] == vals[i];
      TextsSeen(init);
      assert Texts(vals)[..n] == Texts(init);
      SeenOnce(init);
      var seen := FirstSeen(init);
      if vals[n] !in seen {
        forall i | 0 <= i < |seen| ensures Texts(seen)[i] != Text(vals[n]) {
          assert seen[i] in init;
          var j :| 0 <= j < n && init[j] == seen[i];
          assert vals[j] != vals[n];
        }
        assert Texts(seen + [vals[n]]) == Texts(seen) + [Text(vals[n])];
      } else {
        var i :| 0 <= i < |seen| && seen[i] == vals[n];
        assert Texts(seen)[i] == Text(vals[n]);
      }
    }
  }

  /** Without a clash a bucket is the rows of one group value. */
  lemma {:induction false} ByTextIsGroup(rows: seq<Row>, whole: seq<Value>, v: Value)
    requires NoClash(whole) && v in whole && forall i :: 0 <= i < |rows| && rows[i] != [] ==> rows[i][0] in whole
    ensures ByText(rows, Text(v)) == GroupRows(rows, 0, v)
  {
    if rows != [] {
      var n := |rows| - 1;
      ByTextIsGroup(rows[..n], whole, v);
      if rows[n] != [] && Text(rows[n][0]) == Text(v) {
        var i :| 0 <= i < |whole| && whole[i] == v;
        var j :| 0 <= j < |whole| && whole[j] == rows[n][0];
        assert whole[i] == whole[j];
      }
    }
  }

  lemma {:induction false} HeadsIn(rows: seq<Row>)
    ensures forall i :: 0 <= i < |rows| && rows[i] != [] ==> rows[i][0] in Column(rows, 0)
  {
    if rows != [] {
      var n := |rows| - 1;
      HeadsIn(rows[..n]);
      assert forall i :: 0 <= i < n ==> rows[..n][i] == rows[i];
    }
  }

  /** What the buckets are when the shards sent their groups and no keys clash. */
  lemma BucketsAreGroups(order: seq<Bucket>, subs: seq<Sub>, parts: seq<seq<Row>>, g: nat)
    requires Bucketed(order, Sent(subs, parts, g)) && NoClash(Column(Sent(subs, parts, g), 0))
    ensures |order| == |Groups(Flat(parts), g)|
    ensures forall i :: 0 <= i < |order| ==>
              var v := Groups(Flat(parts), g)[i];
              order[i].gval == v && order[i].rows == Joined(Heads(v, |PartsOf(parts, g, v)|), ShardRows(subs, PartsOf(parts, g, v)))
  {
    var sent := Sent(subs, parts, g);
    var heads := Column(sent, 0);
    TextsSeen(heads);
    SentGroups(subs, parts, g);
    SeenOnce(heads);
    HeadsIn(sent);
    var vs := Groups(Flat(parts), g);
    forall i | 0 <= i < |order|
      ensures var v := vs[i];
              order[i].gval == v && order[i].rows == Joined(Heads(v, |PartsOf(parts, g, v)|), ShardRows(subs, PartsOf(parts, g, v)))
    {
      var v := vs[i];
      assert v in FirstSeen(heads);
      assert BucketAt(order[i], sent, FirstSeen(Texts(heads))[i]);
      ByTextIsGroup(sent, heads, v);
      SentOf(subs, parts, g, v);
      assert order[i].rows[0] == Joined(Heads(v, |PartsOf(parts, g, v)|), ShardRows(subs, PartsOf(parts, g, v)))[0];
    }
  }

  /** Printing the group values merges some of them exactly when two print alike. */
  lemma {:induction false} TextsFewer(vals: seq<Value>)
    ensures |FirstSeen(Texts(vals))| <= |FirstSeen(vals)|
    ensures !NoClash(vals) ==> |FirstSeen(Texts(vals))| < |FirstSeen(vals)|
  {
    if vals != [] {
      var n := |vals| - 1;
      var init, x := vals[..n], vals[n];
      TextsFewer(init);
      assert Texts(vals)[..n] == Texts(init);
      SeenOnce(init);
      SeenOnce(Texts(init));
      if x in init {
        var j :| 0 <= j < n && init[j] == x;
        assert Texts(init)[j] == Text(x);
      }
      if NoClash(init) && !NoClash(vals) {
        ClashAtEnd(vals);
      }
    }
  }

  lemma ClashAtEnd(vals: seq<Value>)
    requires vals != [] && NoClash(vals[..|vals| - 1]) && !NoClash(vals)
    ensures vals[|vals| - 1] !in vals[..|vals| - 1] && Text(vals[|vals| - 1]) in Texts(vals[..|vals| - 1])
  {
    hide Text;
    var n := |vals| - 1;
    var init := vals[..n];
    var i, j :| 0 <= i < |vals| && 0 <= j < |vals| && Text(vals[i]) == Text(vals[j]) && vals[i] != vals[j];
    var k := if i == n then j else i;
    forall a, b | 0 <= a < n && 0 <= b < n && Text(vals[a]) == Text(vals[b]) ensures vals[a] == vals[b] {
      assert init[a] == vals[a] && init[b] == vals[b];
    }
    assert init[k] == vals[k] && Texts(init)[k] == Text(vals[n]);
    forall m | 0 <= m < n ensures init[m] != vals[n] {
      assert Text(init[m]) == Text(init[k]) ==> init[m] == init[k];
    }
  }

  lemma SentClash(subs: seq<Sub>, parts: seq<seq<Row>>, g: nat)
    ensures NoClash(Column(Sent(subs, parts, g), 0)) <==> NoClash(Column(Flat(parts), g))
  {
    SentGroups(subs, parts, g);
    SeenOnce(Column(Sent(subs, parts, g), 0));
    SeenOnce(Column(Flat(parts), g));
    var a, b := Column(Sent(subs, parts, g), 0), Column(Flat(parts), g);
    assert forall x :: x in a <==> x in b;
    if NoClash(a) {
      SameClash(a, b);
    } else if NoClash(b) {
      SameClash(b, a);
    }
  }

  lemma SameClash(a: seq<Value>, b: seq<Value>)
    requires NoClash(a) && forall x :: x in b ==> x in a
    ensures NoClash(b)
  {
    forall i, j | 0 <= i < |b| && 0 <= j < |b| && Text(b[i]) == Text(b[j]) ensures b[i] == b[j] {
      assert b[i] in b && b[j] in b;
      var x :| 0 <= x < |a| && a[x] == b[i];
      var y :| 0 <= y < |a| && a[y] == b[j];
    }
  }

  ghost predicate RowReady(subs: seq<Sub>, r: Row, n: nat) {
    forall i :: 0 <= i < |subs| && subs[i].kind.Sum? && n + i < |r| ==> r[n + i].Null? || Numeric(r[n + i])
  }

  lemma RowsReady(subs: seq<Sub>, rows: seq<Row>, n: nat)
    requires forall s :: 0 <= s < |rows| ==> RowReady(subs, rows[s], n)
    ensures PartialsReady(subs, rows, n)
  {
    forall i: nat, s: nat | i < |subs| && subs[i].kind.Sum? && s < |rows| && n + i < |rows[s]|
      ensures rows[s][n + i].Null? || Numeric(rows[s][n + i])
    {
      assert RowReady(subs, rows[s], n);
    }
  }

  lemma {:induction false} ShardGroupsReady(subs: seq<Sub>, rows: seq<Row>, g: nat, vs: seq<Value>)
    ensures forall s :: 0 <= s < |ShardGroups(subs, rows, g, vs)| ==> RowReady(subs, ShardGroups(subs, rows, g, vs)[s], 1)
  {
    if vs != [] {
      ShardGroupsReady(subs, rows, g, vs[..|vs| - 1]);
      var v := vs[|vs| - 1];
      var r := [v] + ShardRow(subs, GroupRows(rows, g, v));
      forall i | 0 <= i < |subs| && subs[i].kind.Sum? ensures r[1 + i].Null? || Numeric(r[1 + i]) {
        assert r[1 + i] == SubOf(subs[i], GroupRows(rows, g, v));
      }
    }
  }

  lemma {:induction false} SentReady(subs: seq<Sub>, parts: seq<seq<Row>>, g: nat)
    ensures forall s :: 0 <= s < |Sent(subs, parts, g)| ==> RowReady(subs, Sent(subs, parts, g)[s], 1)
  {
    if parts != [] {
      var last := parts[|parts| - 1];
      SentReady(subs, parts[..|parts| - 1], g);
      ShardGroupsReady(subs, last, g, Groups(last, g));
    }
  }

  lemma {:induction false} ByTextAmong(rows: seq<Row>, t: Key)
    ensures forall r :: r in ByText(rows, t) ==> r in rows
  {
    if rows != [] {
      ByTextAmong(rows[..|rows| - 1], t);
      assert rows == rows[..|rows| - 1] + [rows[|rows| - 1]];
    }
  }

  lemma BucketReady(order: seq<Bucket>, partials: seq<Row>, i: nat, subs: seq<Sub>)
    requires Bucketed(order, partials) && i < |order| && forall s :: 0 <= s < |partials| ==> RowReady(subs, partials[s], 1)
    ensures PartialsReady(subs, order[i].rows, 1)
  {
    var t := FirstSeen(Texts(Column(partials, 0)))[i];
    assert BucketAt(order[i], partials, t);
    ByTextAmong(partials, t);
    var rows := order[i].rows;
    forall s | 0 <= s < |rows| ensures RowReady(subs, rows[s], 1) {
      assert rows[s] in partials;
    }
    RowsReady(subs, rows, 1);
  }

  /** A merged row is the row the statement asks of the group. */
  lemma GroupMerged(items: seq<Item>, p: Plan, parts: seq<seq<Row>>, g: nat, n: nat, rows: seq<Row>, row: Row)
    requires PlanOK(items, p) && GroupsReady(items, Flat(parts), g) && n < |Groups(Flat(parts), g)|
    requires var v := Groups(Flat(parts), g)[n];
             && rows == Joined(Heads(v, |PartsOf(parts, g, v)|), ShardRows(p.subs, PartsOf(parts, g, v)))
             && |row| == |items|
             && forall i :: 0 <= i < |items| ==> row[i] == MergedItem(items[i], p.subs, p.idx[i], rows, 1, v)
    ensures row == Reference(items, Flat(parts), g)[n]
  {
    var v := Groups(Flat(parts), g)[n];
    var ps := PartsOf(parts, g, v);
    PartsAreGroup(parts, g, v);
    JoinedHolds(p.subs, Heads(v, |ps|), ps, 1);
    forall i | 0 <= i < |items| ensures row[i] == ItemOf(items[i], GroupRows(Flat(parts), g, v), v) {
      assert v in Groups(Flat(parts), g);
      assert ItemReady(items[i], GroupRows(Flat(parts), g, v));
      MergedItemIs(items[i], p.subs, p.idx[i], rows, ps, 1, v);
    }
  }

  ghost predicate GroupsReady(items: seq<Item>, rows: seq<Row>, g: nat) {
    forall i, v :: 0 <= i < |items| && v in Groups(rows, g) ==> ItemReady(items[i], GroupRows(rows, g, v))
  }

  /** The values the shards send as group keys are values of the group column. */
  lemma SentKeys(subs: seq<Sub>, parts: seq<seq<Row>>, g: nat)
    requires KeyColumn(Column(Flat(parts), g))
    ensures KeyColumn(Column(Sent(subs, parts, g), 0))
  {
    var sent, vals := Column(Sent(subs, parts, g), 0), Column(Flat(parts), g);
    SentGroups(subs, parts, g);
    SeenOnce(sent);
    SeenOnce(vals);
    forall i | 0 <= i < |sent| ensures sent[i] in vals {
      assert sent[i] in FirstSeen(sent);
    }
  }

  /**
   `GroupedPlan.Merge`. The merged groups are the groups of all rows, in first-seen
   order, if and only if NULL and the string NULL are not both group values.
   */
  method GroupedMerge(items: seq<Item>, p: Plan, ghost parts: seq<seq<Row>>, g: nat, partials: seq<Row>) returns (out: seq<Row>)
    requires PlanOK(items, p) && partials == Sent(p.subs, parts, g) && GroupsReady(items, Flat(parts), g)
    requires KeyColumn(Column(Flat(parts), g))
    ensures out == Reference(items, Flat(parts), g) <==>
              !(Null in Column(Flat(parts), g) && StringV(NULL_TEXT) in Column(Flat(parts), g))
    ensures out != Reference(items, Flat(parts), g) ==> |out| < |Reference(items, Flat(parts), g)|
  {
    NoClashMeans(Column(Flat(parts), g));
    SentKeys(p.subs, parts, g);
    var order := Collect(partials);
    SentReady(p.subs, parts, g);
    out := MergeBuckets(items, p, order, partials);
    SentClash(p.subs, parts, g);
    SentGroups(p.subs, parts, g);
    if NoClash(Column(Flat(parts), g)) {
      BucketsAreGroups(order, p.subs, parts, g);
      forall n | 0 <= n < |order| ensures out[n] == Reference(items, Flat(parts), g)[n] {
        assert MergedFrom(items, p, order[n], out[n]);
        GroupMerged(items, p, parts, g, n, order[n].rows, out[n]);
      }
    } else {
      TextsFewer(Column(partials, 0));
    }
  }

  ghost predicate MergedFrom(items: seq<Item>, p: Plan, b: Bucket, row: Row)
    requires PlanOK(items, p)
  {
    && |row| == |items|
    && forall i :: 0 <= i < |items| ==> row[i] == MergedItem(items[i], p.subs, p.idx[i], b.rows, 1, b.gval)
  }

  method MergeBuckets(items: seq<Item>, p: Plan, order: seq<Bucket>, ghost partials: seq<Row>) returns (out: seq<Row>)
    requires PlanOK(items, p) && Bucketed(order, partials)
    requires forall s :: 0 <= s < |partials| ==> RowReady(p.subs, partials[s], 1)
    ensures |out| == |order| && forall i :: 0 <= i < |order| ==> MergedFrom(items, p, order[i], out[i])
  {
    out := [];
    for i := 0 to |order|
      invariant |out| == i && forall x :: 0 <= x < i ==> MergedFrom(items, p, order[x], out[x])
    {
      BucketReady(order, partials, i, p.subs);
      var row := MergeItems(items, p, order[i].rows, 1, order[i].gval);
      out := out + [row];
    }
  }
}
