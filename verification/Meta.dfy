/**
 The replicated catalog: commands, the state machine that applies them, and the replay
 of a log over a catalog that some prefix of it already produced.
 */
module Meta {
  import opened Bytes
  import opened Wrappers

  type Name = string

  datatype NodeSpec = NodeSpec(id: Name, sqlAddr: string, raftAddr: string)

  datatype ShardSpec = ShardSpec(id: Name, table: Name, start: Key, end: Key, nodes: seq<Name>)

  datatype TableSpec = TableSpec(schema: string, shards: seq<ShardSpec>)

  datatype Catalog = Catalog(version: nat, nodes: seq<Name>, specs: map<Name, NodeSpec>, tables: map<Name, TableSpec>)

  const EMPTY := Catalog(0, [], map[], map[])

  datatype Command =
    | RegisterNode(id: Name, sqlAddr: string, raftAddr: string)
    | RemoveNode(removeID: Name)
    | CreateTable(name: Name, schema: string, shards: seq<ShardSpec>)
    | DropTable(table: Name)
    | SplitShard(splitTable: Name, newShards: seq<ShardSpec>)
    | SetShardNodes(setTable: Name, shard: Name, nodes: seq<Name>)
    | Unknown(op: string)

  datatype Outcome<T> = Done(value: T) | Failed

  // ----- What a command does -----

  predicate ShardExists(shards: seq<ShardSpec>, id: Name) {
    exists i :: 0 <= i < |shards| && shards[i].id == id
  }

  /** Appends the shards that are not there yet, in order. */
  function Added(shards: seq<ShardSpec>, news: seq<ShardSpec>, t: Name): seq<ShardSpec>
    decreases |news|
  {
    if news == [] then shards
    else
      var init, last := news[..|news| - 1], news[|news| - 1];
      var before := Added(shards, init, t);
      if ShardExists(before, last.id) then before else before + [last.(table := t)]
  }

  /** Replaces the nodes of the first shard with an id. */
  function Replaced(shards: seq<ShardSpec>, id: Name, nodes: seq<Name>): seq<ShardSpec> {
    if shards == [] then []
    else if shards[0].id == id then [shards[0].(nodes := nodes)] + shards[1..]
    else [shards[0]] + Replaced(shards[1..], id, nodes)
  }

  function Tagged(shards: seq<ShardSpec>, t: Name): (r: seq<ShardSpec>)
    ensures |r| == |shards| && forall i :: 0 <= i < |shards| ==> r[i] == shards[i].(table := t)
  {
    seq(|shards|, i requires 0 <= i < |shards| => shards[i].(table := t))
  }

  /** What a command does to the table named `t`. */
  function TableStep(s: Option<TableSpec>, c: Command, t: Name): Outcome<Option<TableSpec>> {
    match c
    case CreateTable(name, schema, shards) =>
      if name != t || s.Some? then Done(s) else Done(Some(TableSpec(schema, Tagged(shards, t))))
    case DropTable(table) => if table == t then Done(None) else Done(s)
    case SplitShard(table, news) =>
      if table != t then Done(s)
      else if s.None? then Failed
      else Done(Some(s.value.(shards := Added(s.value.shards, news, t))))
    case SetShardNodes(table, shard, nodes) =>
      if table != t then Done(s)
      else if s.None? || !ShardExists(s.value.shards, shard) then Failed
      else Done(Some(s.value.(shards := Replaced(s.value.shards, shard, nodes))))
    case _ => Done(s)
  }

  /** What a command does to the node with an id. */
  function NodeStep(s: Option<NodeSpec>, c: Command, n: Name): Option<NodeSpec> {
    match c
    case RegisterNode(id, sqlAddr, raftAddr) =>
      if id != n || s.Some? then s else Some(NodeSpec(id, sqlAddr, raftAddr))
    case RemoveNode(id) => if id == n then None else s
    case _ => s
  }

  function Get<V>(m: map<Name, V>, k: Name): Option<V> {
    if k in m then Some(m[k]) else None
  }

  function Put<V>(m: map<Name, V>, k: Name, v: Option<V>): map<Name, V> {
    if v.Some? then m[k := v.value] else m - {k}
  }

  /** `removeString`: without the first occurrence. */
  function Removed(xs: seq<Name>, v: Name): seq<Name> {
    if xs == [] then [] else if xs[0] == v then xs[1..] else [xs[0]] + Removed(xs[1..], v)
  }

  /** `applyCommand`. */
  function Applied(cat: Catalog, c: Command): Outcome<Catalog> {
    match c
    case RegisterNode(id, _, _) =>
      Done(if id in cat.specs then cat
           else cat.(specs := Put(cat.specs, id, NodeStep(None, c, id)), nodes := cat.nodes + [id]))
    case RemoveNode(id) =>
      Done(if id in cat.specs then cat.(specs := cat.specs - {id}, nodes := Removed(cat.nodes, id)) else cat)
    case CreateTable(t, _, _) => TableApplied(cat, c, t)
    case DropTable(t) => TableApplied(cat, c, t)
    case SplitShard(t, _) => TableApplied(cat, c, t)
    case SetShardNodes(t, _, _) => TableApplied(cat, c, t)
    case Unknown(_) => Failed
  }

  function TableApplied(cat: Catalog, c: Command, t: Name): Outcome<Catalog> {
    var s := TableStep(Get(cat.tables, t), c, t);
    if s.Failed? then Failed else Done(cat.(tables := Put(cat.tables, t, s.value)))
  }

  // ----- What a command writes -----

  /** The shard at `j` is the first with its id. */
  ghost predicate FirstNamed(news: seq<ShardSpec>, j: int) {
    0 <= j < |news| && forall i :: 0 <= i < j ==> news[i].id != news[j].id
  }

  /** The first naming of an id that is missing. */
  ghost predicate Missing(before: seq<ShardSpec>, news: seq<ShardSpec>, j: int) {
    FirstNamed(news, j) && !ShardExists(before, news[j].id)
  }

  /** What a catalog keeps of a shard that a command names for a table. */
  predicate StoredAs(s: ShardSpec, named: ShardSpec, t: Name) {
    s.id == named.id && s.table == t && s.start == named.start && s.end == named.end && s.nodes == named.nodes
  }

  ghost predicate Brought(before: seq<ShardSpec>, news: seq<ShardSpec>, t: Name, s: ShardSpec) {
    exists j :: Missing(before, news, j) && StoredAs(s, news[j], t)
  }

  ghost predicate Holds(shards: seq<ShardSpec>, named: ShardSpec, t: Name) {
    exists x :: 0 <= x < |shards| && StoredAs(shards[x], named, t)
  }

  /**
   The shards after a split: those before it as they were, and behind them, in the order
   of the command, one for each missing id, as its first naming has it.
   */
  ghost predicate Grown(before: seq<ShardSpec>, after: seq<ShardSpec>, news: seq<ShardSpec>, t: Name) {
    && before <= after
    && (forall x :: |before| <= x < |after| ==> FirstNamed(after, x) && Brought(before, news, t, after[x]))
    && (forall j :: Missing(before, news, j) ==> Holds(after[|before|..], news[j], t))
    && InOrder(after[|before|..], news)
  }

  /** Shards stand in the order in which a command names them first. */
  ghost predicate InOrder(shards: seq<ShardSpec>, news: seq<ShardSpec>) {
    forall x, y, i, j :: Standing(shards, news, x, y, i, j) ==> i < j
  }

  ghost predicate Standing(shards: seq<ShardSpec>, news: seq<ShardSpec>, x: int, y: int, i: int, j: int) {
    && 0 <= x < y < |shards| && FirstNamed(news, i) && FirstNamed(news, j)
    && shards[x].id == news[i].id && shards[y].id == news[j].id
  }

  /** The shards after the first with an id got other nodes. */
  ghost predicate Placed(before: seq<ShardSpec>, after: seq<ShardSpec>, id: Name, nodes: seq<Name>) {
    |after| == |before| && forall x :: 0 <= x < |before| ==> PlacedAt(before, after, id, nodes, x)
  }

  ghost predicate PlacedAt(before: seq<ShardSpec>, after: seq<ShardSpec>, id: Name, nodes: seq<Name>, x: int)
    requires |after| == |before| && 0 <= x < |before|
  {
    && after[x].id == before[x].id && after[x].table == before[x].table
    && after[x].start == before[x].start && after[x].end == before[x].end
    && after[x].nodes == if before[x].id == id && FirstNamed(before, x) then nodes else before[x].nodes
  }

  /** Except for the entry at a key two maps are the same. */
  ghost predicate SameBut<V>(a: map<Name, V>, b: map<Name, V>, k: Name) {
    forall x :: x != k ==> (x in a <==> x in b) && (x in a ==> a[x] == b[x])
  }

  /** A list without the first occurrence of a value. */
  ghost predicate WithoutFirst(before: seq<Name>, after: seq<Name>, v: Name) {
    if v !in before then after == before
    else exists i :: CutAt(before, after, v, i)
  }

  ghost predicate CutAt(before: seq<Name>, after: seq<Name>, v: Name, i: int) {
    0 <= i < |before| && before[i] == v && v !in before[..i] && after == before[..i] + before[i + 1..]
  }

  /** Tables apart, a command that succeeds leaves everything. */
  ghost predicate TablesOnly(a: Catalog, b: Catalog, t: Name) {
    b.nodes == a.nodes && b.specs == a.specs && SameBut(a.tables, b.tables, t)
  }

  /** When a command fails. */
  ghost predicate Refused(a: Catalog, c: Command) {
    match c
    case SplitShard(t, _) => t !in a.tables
    case SetShardNodes(t, id, _) => t !in a.tables || !ShardExists(a.tables[t].shards, id)
    case Unknown(_) => true
    case _ => false
  }

  /** What a command that does not fail makes of a catalog, entry by entry. */
  ghost predicate Writes(a: Catalog, b: Catalog, c: Command) {
    && b.version == a.version + 1
    && match c
       case RegisterNode(id, sqlAddr, raftAddr) =>
         && b.tables == a.tables && SameBut(a.specs, b.specs, id) && id in b.specs
         && (if id in a.specs then b.specs[id] == a.specs[id] && b.nodes == a.nodes
             else b.specs[id].id == id && b.specs[id].sqlAddr == sqlAddr && b.specs[id].raftAddr == raftAddr && b.nodes == a.nodes + [id])
       case RemoveNode(id) =>
         && b.tables == a.tables && SameBut(a.specs, b.specs, id) && id !in b.specs
         && (if id in a.specs then WithoutFirst(a.nodes, b.nodes, id) else b.nodes == a.nodes)
       case CreateTable(t, schema, shards) =>
         && TablesOnly(a, b, t) && t in b.tables
         && (if t in a.tables then b.tables[t] == a.tables[t]
             else b.tables[t].schema == schema && |b.tables[t].shards| == |shards|
                  && forall x :: 0 <= x < |shards| ==> StoredAs(b.tables[t].shards[x], shards[x], t))
       case DropTable(t) => TablesOnly(a, b, t) && t !in b.tables
       case SplitShard(t, news) =>
         && TablesOnly(a, b, t) && t in a.tables && t in b.tables
         && b.tables[t].schema == a.tables[t].schema && Grown(a.tables[t].shards, b.tables[t].shards, news, t)
       case SetShardNodes(t, id, nodes) =>
         && TablesOnly(a, b, t) && t in a.tables && t in b.tables
         && b.tables[t].schema == a.tables[t].schema && Placed(a.tables[t].shards, b.tables[t].shards, id, nodes)
       case Unknown(_) => false
  }

  lemma {:induction false} RemovedIs(xs: seq<Name>, v: Name)
    ensures WithoutFirst(xs, Removed(xs, v), v)
  {
    if xs == [] {
    } else if xs[0] == v {
      assert CutAt(xs, Removed(xs, v), v, 0);
    } else {
      RemovedIs(xs[1..], v);
      assert xs == [xs[0]] + xs[1..];
      WithoutFirstLater(xs[0], xs[1..], Removed(xs[1..], v), v);
    }
  }

  lemma WithoutFirstLater(x: Name, before: seq<Name>, after: seq<Name>, v: Name)
    requires x != v && WithoutFirst(before, after, v)
    ensures WithoutFirst([x] + before, [x] + after, v)
  {
    if v in before {
      var i :| CutAt(before, after, v, i);
      var all := [x] + before;
      assert all[..i + 1] == [x] + before[..i] && all[i + 2..] == before[i + 1..];
      assert CutAt(all, [x] + after, v, i + 1);
    }
  }

  lemma {:induction false} ReplacedPlaces(shards: seq<ShardSpec>, id: Name, nodes: seq<Name>)
    ensures Placed(shards, Replaced(shards, id, nodes), id, nodes)
  {
    if shards != [] {
      var rest, r := shards[1..], Replaced(shards, id, nodes);
      ReplacedPlaces(rest, id, nodes);
      forall x | 0 <= x < |shards| ensures |r| == |shards| && PlacedAt(shards, r, id, nodes, x) {
        if x > 0 {
          FirstLater(shards, x);
          assert rest[x - 1] == shards[x] && PlacedAt(rest, Replaced(rest, id, nodes), id, nodes, x - 1);
        }
      }
    }
  }

  lemma FirstLater(shards: seq<ShardSpec>, j: int)
    requires 0 < j < |shards|
    ensures FirstNamed(shards, j) <==> FirstNamed(shards[1..], j - 1) && shards[0].id != shards[j].id
  {
    var rest := shards[1..];
    assert rest[j - 1] == shards[j];
    if FirstNamed(rest, j - 1) {
      assert forall i :: 0 < i < j ==> shards[i] == rest[i - 1];
    }
    if FirstNamed(shards, j) {
      assert forall i :: 0 <= i < j - 1 ==> rest[i] == shards[i + 1];
    }
  }

  lemma FirstSnoc(news: seq<ShardSpec>, s: ShardSpec, j: int)
    requires 0 <= j < |news|
    ensures FirstNamed(news + [s], j) <==> FirstNamed(news, j)
  {
    var all := news + [s];
    assert forall i :: 0 <= i < |news| ==> all[i] == news[i];
  }

  lemma FirstLast(news: seq<ShardSpec>, s: ShardSpec)
    ensures FirstNamed(news + [s], |news|) <==> !ShardExists(news, s.id)
  {
    var all := news + [s];
    assert all[|news|] == s && forall i :: 0 <= i < |news| ==> all[i] == news[i];
    if ShardExists(news, s.id) {
      var i :| 0 <= i < |news| && news[i].id == s.id;
      assert all[i].id == all[|news|].id;
    }
  }

  lemma ExistsSnoc(shards: seq<ShardSpec>, s: ShardSpec, id: Name)
    ensures ShardExists(shards + [s], id) <==> ShardExists(shards, id) || s.id == id
  {
    if ShardExists(shards, id) {
      var i :| 0 <= i < |shards| && shards[i].id == id;
      assert (shards + [s])[i].id == id;
    }
    assert (shards + [s])[|shards|] == s;
  }

  lemma BroughtSnoc(before: seq<ShardSpec>, news: seq<ShardSpec>, t: Name, s: ShardSpec, x: ShardSpec)
    requires Brought(before, news, t, x)
    ensures Brought(before, news + [s], t, x)
  {
    var j :| Missing(before, news, j) && StoredAs(x, news[j], t);
    FirstSnoc(news, s, j);
    assert (news + [s])[j] == news[j];
    assert Missing(before, news + [s], j);
  }

  lemma HoldsSnoc(shards: seq<ShardSpec>, s: ShardSpec, named: ShardSpec, t: Name)
    requires Holds(shards, named, t) || StoredAs(s, named, t)
    ensures Holds(shards + [s], named, t)
  {
    if Holds(shards, named, t) {
      var x :| 0 <= x < |shards| && StoredAs(shards[x], named, t);
      assert (shards + [s])[x] == shards[x];
    } else {
      assert (shards + [s])[|shards|] == s;
    }
  }

  /** The shards of a table have the ids they had and the ids named. */
  ghost predicate AllIDs(after: seq<ShardSpec>, before: seq<ShardSpec>, news: seq<ShardSpec>) {
    forall id :: ShardExists(after, id) <==> ShardExists(before, id) || ShardExists(news, id)
  }

  lemma {:induction false} AddedGrows(before: seq<ShardSpec>, news: seq<ShardSpec>, t: Name)
    ensures Grown(before, Added(before, news, t), news, t) && AllIDs(Added(before, news, t), before, news)
    decreases |news|
  {
    if news != [] {
      var n := |news| - 1;
      var init, last := news[..n], news[n];
      var mid := Added(before, init, t);
      AddedGrows(before, init, t);
      assert news == init + [last];
      if ShardExists(mid, last.id) {
        GrownSame(before, mid, init, last, t);
      } else {
        GrownMore(before, mid, init, last, t);
      }
    }
  }

  /** A shard whose id is there adds nothing. */
  lemma GrownSame(before: seq<ShardSpec>, mid: seq<ShardSpec>, news: seq<ShardSpec>, s: ShardSpec, t: Name)
    requires Grown(before, mid, news, t) && AllIDs(mid, before, news) && ShardExists(mid, s.id)
    ensures Grown(before, mid, news + [s], t) && AllIDs(mid, before, news + [s])
  {
    var all, tail := news + [s], mid[|before|..];
    forall id ensures ShardExists(mid, id) <==> ShardExists(before, id) || ShardExists(all, id) {
      ExistsSnoc(news, s, id);
    }
    forall x | |before| <= x < |mid| ensures Brought(before, all, t, mid[x]) {
      BroughtSnoc(before, news, t, s, mid[x]);
    }
    forall j | Missing(before, all, j) ensures j < |news| && Holds(tail, all[j], t) {
      FirstLast(news, s);
      if j < |news| {
        FirstSnoc(news, s, j);
        assert all[j] == news[j] && Missing(before, news, j);
      }
    }
    OrderSnoc(tail, before, news, s, t);
  }

  /** One whose id is missing comes last. */
  lemma GrownMore(before: seq<ShardSpec>, mid: seq<ShardSpec>, news: seq<ShardSpec>, s: ShardSpec, t: Name)
    requires Grown(before, mid, news, t) && AllIDs(mid, before, news) && !ShardExists(mid, s.id)
    ensures Grown(before, mid + [s.(table := t)], news + [s], t) && AllIDs(mid + [s.(table := t)], before, news + [s])
  {
    var all, got, n := news + [s], s.(table := t), |news|;
    var after := mid + [got];
    var tail := mid[|before|..];
    assert after[|before|..] == tail + [got];
    FirstLast(news, s);
    forall id ensures ShardExists(after, id) <==> ShardExists(before, id) || ShardExists(all, id) {
      ExistsSnoc(news, s, id);
      ExistsSnoc(mid, got, id);
    }
    assert all[n] == s && Missing(before, all, n) && StoredAs(got, all[n], t);
    forall x | |before| <= x < |after| ensures FirstNamed(after, x) && Brought(before, all, t, after[x]) {
      if x < |mid| {
        FirstSnoc(mid, got, x);
        BroughtSnoc(before, news, t, s, mid[x]);
      } else {
        FirstLast(mid, got);
      }
    }
    forall j | Missing(before, all, j) ensures Holds(tail + [got], all[j], t) {
      if j < n {
        FirstSnoc(news, s, j);
        assert all[j] == news[j] && Missing(before, news, j);
      }
      HoldsSnoc(tail, got, all[j], t);
    }
    OrderSnoc(tail, before, news, s, t);
    OrderMore(tail, all, got);
  }

  lemma OrderSnoc(tail: seq<ShardSpec>, before: seq<ShardSpec>, news: seq<ShardSpec>, s: ShardSpec, t: Name)
    requires InOrder(tail, news) && forall x :: 0 <= x < |tail| ==> Brought(before, news, t, tail[x])
    ensures InOrder(tail, news + [s])
    ensures forall x :: 0 <= x < |tail| ==> ShardExists(news, tail[x].id)
  {
    var all := news + [s];
    forall x | 0 <= x < |tail| ensures ShardExists(news, tail[x].id) {
      assert Brought(before, news, t, tail[x]);
      var j :| Missing(before, news, j) && StoredAs(tail[x], news[j], t);
      assert news[j].id == tail[x].id;
    }
    FirstLast(news, s);
    forall x, y, i, j | Standing(tail, all, x, y, i, j) ensures i < j {
      assert i < |news| && j < |news|;
      FirstSnoc(news, s, i);
      FirstSnoc(news, s, j);
      assert Standing(tail, news, x, y, i, j);
    }
  }

  lemma OrderMore(tail: seq<ShardSpec>, all: seq<ShardSpec>, got: ShardSpec)
    requires InOrder(tail, all) && |all| > 0 && FirstNamed(all, |all| - 1) && got.id == all[|all| - 1].id
    requires forall x :: 0 <= x < |tail| ==> tail[x].id != got.id
    ensures InOrder(tail + [got], all)
  {
    var more := tail + [got];
    forall x, y, i, j | Standing(more, all, x, y, i, j) ensures i < j {
      assert more[x] == tail[x];
      if y < |tail| {
        assert Standing(tail, all, x, y, i, j);
      } else {
        assert j == |all| - 1;
      }
    }
  }

  /** The catalog step writes what is said of the command, and fails when that is refused. */
  lemma AppliedWrites(a: Catalog, c: Command)
    ensures Applied(a, c).Failed? <==> Refused(a, c)
    ensures !Refused(a, c) ==> Writes(a, Step(a, c), c)
  {
    hide Grown;
    hide Placed;
    hide WithoutFirst;
    match c
    case RemoveNode(id) => RemovedIs(a.nodes, id);
    case SplitShard(t, news) =>
      if t in a.tables {
        AddedGrows(a.tables[t].shards, news, t);
      }
    case SetShardNodes(t, id, nodes) =>
      if t in a.tables {
        ReplacedPlaces(a.tables[t].shards, id, nodes);
      }
    case _ =>
  }

  // ----- The state machine -----

  method RemoveString(xs: seq<Name>, v: Name) returns (r: seq<Name>)
    ensures r == Removed(xs, v)
  {
    for i := 0 to |xs|
      invariant Removed(xs, v) == xs[..i] + Removed(xs[i..], v)
    {
      if xs[i] == v {
        return xs[..i] + xs[i + 1..];
      }
      assert xs[i..][1..] == xs[i + 1..] && xs[..i] + [xs[i]] == xs[..i + 1];
    }
    assert xs[..|xs|] == xs;
    r := xs;
  }

  method AddShards(shards0: seq<ShardSpec>, news: seq<ShardSpec>, t: Name) returns (shards: seq<ShardSpec>)
    ensures shards == Added(shards0, news, t) && Grown(shards0, shards, news, t)
  {
    AddedGrows(shards0, news, t);
    hide Grown;
    shards := shards0;
    for i := 0 to |news|
      invariant shards == Added(shards0, news[..i], t)
    {
      assert news[..i + 1][..i] == news[..i];
      if !ShardExists(shards, news[i].id) {
        shards := shards + [news[i].(table := t)];
      }
    }
    assert news[..|news|] == news;
  }

  method SetNodes(shards: seq<ShardSpec>, id: Name, nodes: seq<Name>) returns (found: bool, r: seq<ShardSpec>)
    ensures found <==> ShardExists(shards, id)
    ensures found ==> r == Replaced(shards, id, nodes) && Placed(shards, r, id, nodes)
  {
    ReplacedPlaces(shards, id, nodes);
    hide Placed;
    for i := 0 to |shards|
      invariant forall x :: 0 <= x < i ==> shards[x].id != id
      invariant Replaced(shards, id, nodes) == shards[..i] + Replaced(shards[i..], id, nodes)
    {
      if shards[i].id == id {
        return true, shards[..i] + [shards[i].(nodes := nodes)] + shards[i + 1..];
      }
      assert shards[i..][1..] == shards[i + 1..] && shards[..i] + [shards[i]] == shards[..i + 1];
    }
    return false, shards;
  }

  class MetaFSM {
    var cat: Catalog

    constructor ()
      ensures cat == EMPTY
    {
      cat := EMPTY;
    }

    /** `Apply`: a command that fails leaves the catalog and its version alone. */
    method Apply(c: Command) returns (failed: bool)
      modifies this
      ensures failed <==> Refused(old(cat), c)
      ensures cat == Step(old(cat), c)
      ensures if failed then cat == old(cat) else Writes(old(cat), cat, c)
    {
      AppliedWrites(cat, c);
      var next := cat;
      match c {
        case RegisterNode(id, sqlAddr, raftAddr) =>
          if id !in next.specs {
            next := next.(specs := next.specs[id := NodeSpec(id, sqlAddr, raftAddr)], nodes := next.nodes + [id]);
          }
        case RemoveNode(id) =>
          if id in next.specs {
            var nodes := RemoveString(next.nodes, id);
            next := next.(specs := next.specs - {id}, nodes := nodes);
          }
        case SetShardNodes(t, shard, nodes) =>
          if t !in next.tables {
            return true;
          }
          var found, shards := SetNodes(next.tables[t].shards, shard, nodes);
          if !found {
            return true;
          }
          next := next.(tables := next.tables[t := next.tables[t].(shards := shards)]);
        case CreateTable(t, schema, shards) =>
          if t !in next.tables {
            next := next.(tables := next.tables[t := TableSpec(schema, Tagged(shards, t))]);
          }
        case DropTable(t) =>
          next := next.(tables := next.tables - {t});
        case SplitShard(t, news) =>
          if t !in next.tables {
            return true;
          }
          var shards := AddShards(next.tables[t].shards, news, t);
          next := next.(tables := next.tables[t := next.tables[t].(shards := shards)]);
        case Unknown(_) =>
          return true;
      }
      SamePut(cat.tables);
      cat := next.(version := next.version + 1);
      return false;
    }
  }

  lemma SamePut<V>(m: map<Name, V>)
    ensures forall k :: k in m ==> m[k := m[k]] == m
  {
    forall k | k in m ensures m[k := m[k]] == m {
    }
  }

  /** One log entry: an error is reported but nothing changes. */
  function Step(cat: Catalog, c: Command): Catalog {
    var r := Applied(cat, c);
    if r.Failed? then cat else r.value.(version := cat.version + 1)
  }
}
