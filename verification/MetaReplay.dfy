/**
 Replaying a log over the catalog that a prefix of it left on disk converges to the
 catalog of a replay from scratch.
 */
module MetaReplay {
  import opened Wrappers
  import opened Meta

  type Log = seq<Command>

  // ----- Runs -----

  function Run(cat: Catalog, log: Log): Catalog {
    if log == [] then cat else Step(Run(cat, log[..|log| - 1]), log[|log| - 1])
  }

  /** No command of the log fails. */
  ghost predicate Succeeds(cat: Catalog, log: Log) {
    forall i :: 0 <= i < |log| ==> Applied(Run(cat, log[..i]), log[i]).Done?
  }

  /** One table under a log; a failing command changes nothing. */
  function TableRun(s: Option<TableSpec>, log: Log, t: Name): Option<TableSpec> {
    if log == [] then s
    else
      var before := TableRun(s, log[..|log| - 1], t);
      var r := TableStep(before, log[|log| - 1], t);
      if r.Failed? then before else r.value
  }

  function NodeRun(s: Option<NodeSpec>, log: Log, n: Name): Option<NodeSpec> {
    if log == [] then s else NodeStep(NodeRun(s, log[..|log| - 1], n), log[|log| - 1], n)
  }

  ghost predicate TableSucceeds(s: Option<TableSpec>, log: Log, t: Name) {
    forall i :: 0 <= i < |log| ==> TableStep(TableRun(s, log[..i], t), log[i], t).Done?
  }

  /** A catalog run, seen from one table and from one node. */
  lemma {:induction false} RunByName(cat: Catalog, log: Log, t: Name)
    ensures Get(Run(cat, log).tables, t) == TableRun(Get(cat.tables, t), log, t)
    ensures Get(Run(cat, log).specs, t) == NodeRun(Get(cat.specs, t), log, t)
  {
    if log != [] {
      RunByName(cat, log[..|log| - 1], t);
      StepByName(Run(cat, log[..|log| - 1]), log[|log| - 1], t);
    }
  }

  lemma StepByName(cat: Catalog, c: Command, t: Name)
    ensures var s := TableStep(Get(cat.tables, t), c, t);
            Get(Step(cat, c).tables, t) == if s.Failed? then Get(cat.tables, t) else s.value
    ensures Get(Step(cat, c).specs, t) == NodeStep(Get(cat.specs, t), c, t)
    ensures Applied(cat, c).Done? ==> TableStep(Get(cat.tables, t), c, t).Done?
  {
  }

  /** A command fails only for the table it names, or if it is not known. */
  lemma AppliedByName(cat: Catalog, c: Command)
    ensures Applied(cat, c).Done? <==> !c.Unknown? && forall t :: TableStep(Get(cat.tables, t), c, t).Done?
  {
    if c.SplitShard? {
      assert TableStep(Get(cat.tables, c.splitTable), c, c.splitTable).Failed? <==> Applied(cat, c).Failed?;
    } else if c.SetShardNodes? {
      assert TableStep(Get(cat.tables, c.setTable), c, c.setTable).Failed? <==> Applied(cat, c).Failed?;
    }
  }

  lemma SucceedsByName(cat: Catalog, log: Log)
    ensures Succeeds(cat, log) <==>
            (forall i :: 0 <= i < |log| ==> !log[i].Unknown?) && forall t :: TableSucceeds(Get(cat.tables, t), log, t)
  {
    forall i, t | 0 <= i < |log| ensures Get(Run(cat, log[..i]).tables, t) == TableRun(Get(cat.tables, t), log[..i], t) {
      RunByName(cat, log[..i], t);
    }
    forall i | 0 <= i < |log|
      ensures Applied(Run(cat, log[..i]), log[i]).Done? <==>
              !log[i].Unknown? && forall t :: TableStep(TableRun(Get(cat.tables, t), log[..i], t), log[i], t).Done?
    {
      AppliedByName(Run(cat, log[..i]), log[i]);
      forall t ensures TableStep(TableRun(Get(cat.tables, t), log[..i], t), log[i], t)
                       == TableStep(Get(Run(cat, log[..i]).tables, t), log[i], t) {
        RunByName(cat, log[..i], t);
      }
    }
  }

  lemma {:induction false} TableRunSplit(s: Option<TableSpec>, a: Log, b: Log, t: Name)
    ensures TableRun(s, a + b, t) == TableRun(TableRun(s, a, t), b, t)
  {
    if b == [] {
      assert a + b == a;
    } else {
      assert (a + b)[..|a + b| - 1] == a + b[..|b| - 1];
      TableRunSplit(s, a, b[..|b| - 1], t);
    }
  }

  // ----- Shard lists -----

  /** The nodes a log last gave to a shard of the table. */
  function LastSet(log: Log, t: Name, id: Name): Option<seq<Name>> {
    if log == [] then None
    else
      var c := log[|log| - 1];
      if c.SetShardNodes? && c.setTable == t && c.shard == id then Some(c.nodes) else LastSet(log[..|log| - 1], t, id)
  }

  lemma ReplacedAt(shards: seq<ShardSpec>, id: Name, nodes: seq<Name>)
    ensures var r := Replaced(shards, id, nodes);
            && |r| == |shards|
            && forall j :: 0 <= j < |shards| ==>
                 r[j] == if shards[j].id == id && FirstNamed(shards, j) then shards[j].(nodes := nodes) else shards[j]
  {
    ReplacedPlaces(shards, id, nodes);
    var r := Replaced(shards, id, nodes);
    forall j | 0 <= j < |shards|
      ensures r[j] == if shards[j].id == id && FirstNamed(shards, j) then shards[j].(nodes := nodes) else shards[j]
    {
      assert PlacedAt(shards, r, id, nodes, j);
    }
  }

  /** Adding keeps what is there and brings in exactly the missing ids. */
  lemma AddedKeeps(shards: seq<ShardSpec>, news: seq<ShardSpec>, t: Name)
    ensures shards <= Added(shards, news, t)
    ensures forall id :: ShardExists(Added(shards, news, t), id) <==> ShardExists(shards, id) || ShardExists(news, id)
    ensures (forall i :: 0 <= i < |news| ==> ShardExists(shards, news[i].id)) ==> Added(shards, news, t) == shards
  {
    var after := Added(shards, news, t);
    AddedGrows(shards, news, t);
    if |after| > |shards| {
      assert Brought(shards, news, t, after[|shards|]);
    }
  }

  // ----- A table that is dropped -----

  ghost predicate HasDrop(log: Log, t: Name) {
    exists i :: 0 <= i < |log| && log[i] == DropTable(t)
  }

  /** Whatever came before, after a drop the rest of the log decides. */
  lemma DropForgets(s: Option<TableSpec>, s': Option<TableSpec>, log: Log, t: Name)
    requires HasDrop(log, t)
    ensures TableRun(s, log, t) == TableRun(s', log, t)
  {
    var d :| 0 <= d < |log| && log[d] == DropTable(t);
    var a, b := log[..d + 1], log[d + 1..];
    assert a[..|a| - 1] == log[..d] && a[|a| - 1] == log[d];
    assert TableRun(s, a, t) == None && TableRun(s', a, t) == None;
    TableRunSplit(s, a, b, t);
    TableRunSplit(s', a, b, t);
    assert a + b == log;
  }

  lemma DropSplit(log: Log, t: Name)
    requires log != []
    ensures HasDrop(log, t) <==> HasDrop(log[..|log| - 1], t) || log[|log| - 1] == DropTable(t)
  {
    var n := |log| - 1;
    if HasDrop(log[..n], t) {
      var i :| 0 <= i < n && log[..n][i] == DropTable(t);
      assert log[i] == DropTable(t);
    }
    if HasDrop(log, t) {
      var i :| 0 <= i < |log| && log[i] == DropTable(t);
      assert i < n ==> log[..n][i] == DropTable(t);
    }
  }

  // ----- A table that stays -----

  /** Every shard a command adds to the table is in a list. */
  ghost predicate Mentions(shards: seq<ShardSpec>, c: Command, t: Name) {
    c.SplitShard? && c.splitTable == t ==> forall i :: 0 <= i < |c.newShards| ==> ShardExists(shards, c.newShards[i].id)
  }

  ghost predicate AllMentioned(shards: seq<ShardSpec>, log: Log, t: Name) {
    forall i :: 0 <= i < |log| ==> Mentions(shards, log[i], t)
  }

  /** The shards with the nodes the log last gave them. */
  ghost function WithLast(shards: seq<ShardSpec>, log: Log, t: Name): (r: seq<ShardSpec>)
    ensures |r| == |shards|
    ensures forall j :: 0 <= j < |shards| ==>
              r[j] == if FirstNamed(shards, j) && LastSet(log, t, shards[j].id).Some?
                      then shards[j].(nodes := LastSet(log, t, shards[j].id).value) else shards[j]
  {
    seq(|shards|, j requires 0 <= j < |shards| =>
      if FirstNamed(shards, j) && LastSet(log, t, shards[j].id).Some?
      then shards[j].(nodes := LastSet(log, t, shards[j].id).value) else shards[j])
  }

  lemma SameIds(a: seq<ShardSpec>, b: seq<ShardSpec>)
    requires |a| == |b| && forall j :: 0 <= j < |a| ==> a[j].id == b[j].id
    ensures forall id :: ShardExists(a, id) <==> ShardExists(b, id)
    ensures forall j :: FirstNamed(a, j) <==> FirstNamed(b, j)
  {
    forall id ensures ShardExists(a, id) <==> ShardExists(b, id) {
      if ShardExists(a, id) {
        var i :| 0 <= i < |a| && a[i].id == id;
        assert b[i].id == id;
      }
      if ShardExists(b, id) {
        var i :| 0 <= i < |b| && b[i].id == id;
        assert a[i].id == id;
      }
    }
  }

  /** Over a table that has all its shards a log without a drop only sets nodes. */
  lemma {:induction false} StayingRun(s: TableSpec, log: Log, t: Name)
    requires !HasDrop(log, t) && AllMentioned(s.shards, log, t)
    ensures TableRun(Some(s), log, t) == Some(s.(shards := WithLast(s.shards, log, t)))
  {
    if log == [] {
      assert WithLast(s.shards, log, t) == s.shards;
    } else {
      var n := |log| - 1;
      DropSplit(log, t);
      forall i | 0 <= i < n ensures Mentions(s.shards, log[..n][i], t) {
        assert Mentions(s.shards, log[i], t);
      }
      StayingRun(s, log[..n], t);
      StayingStep(s, log, t);
    }
  }

  lemma StayingStep(s: TableSpec, log: Log, t: Name)
    requires log != [] && log[|log| - 1] != DropTable(t) && Mentions(s.shards, log[|log| - 1], t)
    ensures var before := s.(shards := WithLast(s.shards, log[..|log| - 1], t));
            var r := TableStep(Some(before), log[|log| - 1], t);
            (if r.Failed? then Some(before) else r.value) == Some(s.(shards := WithLast(s.shards, log, t)))
  {
    var n := |log| - 1;
    var c, before, after := log[n], WithLast(s.shards, log[..n], t), WithLast(s.shards, log, t);
    SameIds(s.shards, before);
    if c.SplitShard? && c.splitTable == t {
      AddedKeeps(before, c.newShards, t);
      assert before == after;
    } else if c.SetShardNodes? && c.setTable == t {
      LastIsSet(s.shards, log, t);
    } else {
      assert before == after;
    }
  }

  lemma LastIsSet(shards: seq<ShardSpec>, log: Log, t: Name)
    requires log != [] && log[|log| - 1].SetShardNodes? && log[|log| - 1].setTable == t
    ensures var n, c := |log| - 1, log[|log| - 1];
            WithLast(shards, log, t) == if ShardExists(shards, c.shard) then Replaced(WithLast(shards, log[..n], t), c.shard, c.nodes)
                                        else WithLast(shards, log[..n], t)
  {
    var n, c := |log| - 1, log[|log| - 1];
    var before, after := WithLast(shards, log[..n], t), WithLast(shards, log, t);
    SameIds(shards, before);
    ReplacedAt(before, c.shard, c.nodes);
    if ShardExists(shards, c.shard) {
      assert Replaced(before, c.shard, c.nodes) == after;
    } else {
      assert before == after;
    }
  }

  /** What a table built from scratch and never dropped knows of its log. */
  ghost predicate Reflects(f: Option<TableSpec>, log: Log, t: Name) {
    if f.None? then AllMentioned([], log, t) && forall id :: LastSet(log, t, id).None?
    else
      && AllMentioned(f.value.shards, log, t)
      && (forall id :: LastSet(log, t, id).Some? ==> ShardExists(f.value.shards, id))
      && forall j :: FirstNamed(f.value.shards, j) && LastSet(log, t, f.value.shards[j].id).Some? ==>
           f.value.shards[j].nodes == LastSet(log, t, f.value.shards[j].id).value
  }

  lemma {:induction false} ScratchReflects(log: Log, t: Name)
    requires TableSucceeds(None, log, t) && !HasDrop(log, t)
    ensures Reflects(TableRun(None, log, t), log, t)
  {
    if log != [] {
      var n := |log| - 1;
      DropSplit(log, t);
      forall i | 0 <= i < n ensures TableStep(TableRun(None, log[..n][..i], t), log[..n][i], t).Done? {
        assert log[..n][..i] == log[..i];
      }
      ScratchReflects(log[..n], t);
      assert TableStep(TableRun(None, log[..n], t), log[n], t).Done?;
      ReflectsStep(TableRun(None, log[..n], t), log, t);
    }
  }

  lemma ReflectsStep(f: Option<TableSpec>, log: Log, t: Name)
    requires log != [] && log[|log| - 1] != DropTable(t) && Reflects(f, log[..|log| - 1], t)
    requires TableStep(f, log[|log| - 1], t).Done?
    ensures Reflects(TableStep(f, log[|log| - 1], t).value, log, t)
  {
    var n := |log| - 1;
    var c, g := log[n], TableStep(f, log[n], t).value;
    assert forall i :: 0 <= i < n ==> log[..n][i] == log[i];
    if f.None? {
      var shards := if g.None? then [] else g.value.shards;
      forall i | 0 <= i < |log| ensures Mentions(shards, log[i], t) {
        assert i < n ==> Mentions([], log[..n][i], t);
      }
      forall id ensures LastSet(log, t, id).None? {
        assert LastSet(log[..n], t, id).None?;
      }
    } else if c.SplitShard? && c.splitTable == t {
      SplitReflects(f.value, log, t);
    } else if c.SetShardNodes? && c.setTable == t {
      SetReflects(f.value, log, t);
    } else {
      assert g == f;
    }
  }

  lemma SplitReflects(f: TableSpec, log: Log, t: Name)
    requires log != [] && log[|log| - 1].SplitShard? && log[|log| - 1].splitTable == t
    requires Reflects(Some(f), log[..|log| - 1], t)
    ensures Reflects(Some(f.(shards := Added(f.shards, log[|log| - 1].newShards, t))), log, t)
  {
    var n := |log| - 1;
    var c := log[n];
    var shards := Added(f.shards, c.newShards, t);
    AddedKeeps(f.shards, c.newShards, t);
    forall i | 0 <= i < |log| ensures Mentions(shards, log[i], t) {
      if i < n {
        assert Mentions(f.shards, log[..n][i], t);
      } else {
        forall x | 0 <= x < |c.newShards| ensures ShardExists(shards, c.newShards[x].id) {
          assert ShardExists(c.newShards, c.newShards[x].id);
        }
      }
    }
    forall j | FirstNamed(shards, j) && LastSet(log, t, shards[j].id).Some?
      ensures shards[j].nodes == LastSet(log, t, shards[j].id).value
    {
      KnownIsOld(f.shards, shards, j);
    }
  }

  /** The first shard with an id that was there before is the one that was there before. */
  lemma KnownIsOld(old_: seq<ShardSpec>, shards: seq<ShardSpec>, j: int)
    requires old_ <= shards && FirstNamed(shards, j) && ShardExists(old_, shards[j].id)
    ensures j < |old_| && old_[j] == shards[j] && FirstNamed(old_, j)
  {
    var i :| 0 <= i < |old_| && old_[i].id == shards[j].id;
    assert shards[i] == old_[i];
    assert forall x :: 0 <= x < |old_| ==> shards[x] == old_[x];
  }

  lemma SetReflects(f: TableSpec, log: Log, t: Name)
    requires log != [] && log[|log| - 1].SetShardNodes? && log[|log| - 1].setTable == t
    requires Reflects(Some(f), log[..|log| - 1], t) && ShardExists(f.shards, log[|log| - 1].shard)
    ensures Reflects(Some(f.(shards := Replaced(f.shards, log[|log| - 1].shard, log[|log| - 1].nodes))), log, t)
  {
    var n := |log| - 1;
    var c := log[n];
    var shards := Replaced(f.shards, c.shard, c.nodes);
    ReplacedAt(f.shards, c.shard, c.nodes);
    SameIds(f.shards, shards);
    StillMentioned(f.shards, shards, log, t);
    forall j | FirstNamed(shards, j) && LastSet(log, t, shards[j].id).Some?
      ensures shards[j].nodes == LastSet(log, t, shards[j].id).value
    {
      assert FirstNamed(f.shards, j) && f.shards[j].id == shards[j].id;
      assert c.shard != shards[j].id ==> LastSet(log, t, shards[j].id) == LastSet(log[..n], t, shards[j].id);
    }
    forall id ensures LastSet(log, t, id).Some? ==> ShardExists(shards, id) {
      assert ShardExists(f.shards, id) <==> ShardExists(shards, id);
    }
  }

  lemma StillMentioned(f: seq<ShardSpec>, shards: seq<ShardSpec>, log: Log, t: Name)
    requires log != [] && AllMentioned(f, log[..|log| - 1], t) && Mentions(f, log[|log| - 1], t)
    requires forall id :: ShardExists(f, id) ==> ShardExists(shards, id)
    ensures AllMentioned(shards, log, t)
  {
    forall i | 0 <= i < |log| ensures Mentions(shards, log[i], t) {
      assert i < |log| - 1 ==> Mentions(f, log[..|log| - 1][i], t);
    }
  }

  // ----- Convergence -----

  /**
   The log leaves nothing to redo in the table: the log drops it, or the table has every
   shard a split names, and the nodes the log last sets, whether or not those commands failed.
   */
  ghost predicate Settled(log: Log, t: Name) {
    var f := TableRun(None, log, t);
    || HasDrop(log, t) || f.None?
    || (&& AllMentioned(f.value.shards, log, t)
        && forall j :: FirstNamed(f.value.shards, j) && LastSet(log, t, f.value.shards[j].id).Some? ==>
             f.value.shards[j].nodes == LastSet(log, t, f.value.shards[j].id).value)
  }

  /** A log replayed over its own result gives its result exactly if it is settled. */
  lemma IdempotentIff(log: Log, t: Name)
    ensures TableRun(TableRun(None, log, t), log, t) == TableRun(None, log, t) <==> Settled(log, t)
  {
    var f := TableRun(None, log, t);
    if HasDrop(log, t) {
      DropForgets(f, None, log, t);
    } else if f.Some? {
      var shards := f.value.shards;
      if AllMentioned(shards, log, t) {
        StayingRun(f.value, log, t);
        assert WithLast(shards, log, t) == shards <==> Settled(log, t);
      } else {
        var i :| 0 <= i < |log| && !Mentions(shards, log[i], t);
        var x :| 0 <= x < |log[i].newShards| && !ShardExists(shards, log[i].newShards[x].id);
        var id := log[i].newShards[x].id;
        assert ShardExists(log[i].newShards, id);
        assert SplitID(log, t, id);
        IdsFrom(f, log, t, id);
      }
    }
  }

  /** A log without a failing command is settled. */
  lemma SuccessSettles(log: Log, t: Name)
    requires TableSucceeds(None, log, t)
    ensures Settled(log, t)
  {
    if !HasDrop(log, t) {
      ScratchReflects(log, t);
    }
  }

  lemma TableConverges(log: Log, p: nat, t: Name)
    requires p <= |log| && Settled(log[..p], t)
    ensures TableRun(TableRun(None, log[..p], t), log, t) == TableRun(None, log, t)
  {
    var a, b := log[..p], log[p..];
    assert a + b == log;
    IdempotentIff(a, t);
    TableRunSplit(TableRun(None, a, t), a, b, t);
    TableRunSplit(None, a, b, t);
  }

  lemma PrefixSettled(log: Log, p: nat, t: Name)
    requires p <= |log| && TableSucceeds(None, log, t)
    ensures Settled(log[..p], t)
  {
    var a := log[..p];
    forall i | 0 <= i < p ensures TableStep(TableRun(None, a[..i], t), a[i], t).Done? {
      assert a[..i] == log[..i];
    }
    SuccessSettles(a, t);
  }

  // ----- Nodes -----

  ghost predicate HasRemove(log: Log, n: Name) {
    exists i :: 0 <= i < |log| && log[i] == RemoveNode(n)
  }

  lemma {:induction false} NodeRunSplit(s: Option<NodeSpec>, a: Log, b: Log, n: Name)
    ensures NodeRun(s, a + b, n) == NodeRun(NodeRun(s, a, n), b, n)
  {
    if b == [] {
      assert a + b == a;
    } else {
      assert (a + b)[..|a + b| - 1] == a + b[..|b| - 1];
      NodeRunSplit(s, a, b[..|b| - 1], n);
    }
  }

  lemma RemoveForgets(s: Option<NodeSpec>, s': Option<NodeSpec>, log: Log, n: Name)
    requires HasRemove(log, n)
    ensures NodeRun(s, log, n) == NodeRun(s', log, n)
  {
    var d :| 0 <= d < |log| && log[d] == RemoveNode(n);
    var a, b := log[..d + 1], log[d + 1..];
    assert a[..|a| - 1] == log[..d] && a[|a| - 1] == log[d];
    assert NodeRun(s, a, n) == None && NodeRun(s', a, n) == None;
    NodeRunSplit(s, a, b, n);
    NodeRunSplit(s', a, b, n);
    assert a + b == log;
  }

  lemma {:induction false} RegisteredStays(s: NodeSpec, log: Log, n: Name)
    requires !HasRemove(log, n)
    ensures NodeRun(Some(s), log, n) == Some(s)
  {
    if log != [] {
      var init := log[..|log| - 1];
      forall i | 0 <= i < |init| ensures init[i] != RemoveNode(n) {
        assert log[i] != RemoveNode(n);
      }
      RegisteredStays(s, init, n);
      assert log[|log| - 1] != RemoveNode(n);
    }
  }

  lemma NodeConverges(log: Log, p: nat, n: Name)
    requires p <= |log|
    ensures NodeRun(NodeRun(None, log[..p], n), log, n) == NodeRun(None, log, n)
  {
    var a, b := log[..p], log[p..];
    assert a + b == log;
    var s := NodeRun(None, a, n);
    if HasRemove(a, n) {
      RemoveForgets(s, None, a, n);
    } else if s.Some? {
      RegisteredStays(s.value, a, n);
    }
    NodeRunSplit(s, a, b, n);
    NodeRunSplit(None, a, b, n);
  }

  /** The node list names each registered node once. */
  ghost predicate NodesListed(cat: Catalog) {
    && (forall i, j :: 0 <= i < j < |cat.nodes| ==> cat.nodes[i] != cat.nodes[j])
    && forall n :: n in cat.nodes <==> n in cat.specs
  }

  lemma {:induction false} RemovedList(xs: seq<Name>, v: Name)
    requires forall i, j :: 0 <= i < j < |xs| ==> xs[i] != xs[j]
    ensures var r := Removed(xs, v);
            && (forall i, j :: 0 <= i < j < |r| ==> r[i] != r[j])
            && forall n :: n in r <==> n in xs && n != v
  {
    if xs != [] {
      RemovedList(xs[1..], v);
      assert xs == [xs[0]] + xs[1..];
      assert xs[0] !in xs[1..];
      if xs[0] != v {
        var tail := Removed(xs[1..], v);
        assert forall j :: 0 <= j < |tail| ==> tail[j] in tail;
      }
    }
  }

  lemma {:induction false} RunListsNodes(cat: Catalog, log: Log)
    requires NodesListed(cat)
    ensures NodesListed(Run(cat, log))
  {
    if log != [] {
      var before := Run(cat, log[..|log| - 1]);
      RunListsNodes(cat, log[..|log| - 1]);
      if log[|log| - 1].RemoveNode? {
        RemovedList(before.nodes, log[|log| - 1].removeID);
      }
    }
  }

  // ----- The whole catalog -----

  /** The same catalog up to its version and the order of the node list. */
  ghost predicate SameCatalog(a: Catalog, b: Catalog) {
    && a.tables == b.tables && a.specs == b.specs
    && multiset(a.nodes) == multiset(b.nodes)
  }

  lemma SameMembers(a: seq<Name>, b: seq<Name>)
    requires forall i, j :: 0 <= i < j < |a| ==> a[i] != a[j]
    requires forall i, j :: 0 <= i < j < |b| ==> b[i] != b[j]
    requires forall n :: n in a <==> n in b
    ensures multiset(a) == multiset(b)
  {
    CountedOnce(a);
    CountedOnce(b);
    forall n ensures multiset(a)[n] == multiset(b)[n] {
      assert n in a <==> n in multiset(a);
      assert n in b <==> n in multiset(b);
    }
  }

  lemma {:induction false} CountedOnce(a: seq<Name>)
    requires forall i, j :: 0 <= i < j < |a| ==> a[i] != a[j]
    ensures forall n :: multiset(a)[n] <= 1
  {
    if a != [] {
      CountedOnce(a[1..]);
      assert a == [a[0]] + a[1..];
      assert a[0] !in a[1..];
    }
  }

  /** One table and one node of a log replayed over the catalog of a prefix, and of a log from scratch. */
  lemma ReplayByName(log: Log, p: nat, t: Name)
    requires p <= |log|
    ensures Get(Run(EMPTY, log[..p]).tables, t) == TableRun(None, log[..p], t)
    ensures Get(Run(Run(EMPTY, log[..p]), log).tables, t) == TableRun(TableRun(None, log[..p], t), log, t)
    ensures Get(Run(Run(EMPTY, log[..p]), log).specs, t) == NodeRun(NodeRun(None, log[..p], t), log, t)
    ensures Get(Run(EMPTY, log).tables, t) == TableRun(None, log, t)
    ensures Get(Run(EMPTY, log).specs, t) == NodeRun(None, log, t)
  {
    RunByName(EMPTY, log[..p], t);
    RunByName(Run(EMPTY, log[..p]), log, t);
    RunByName(EMPTY, log, t);
    assert Get(EMPTY.tables, t) == None && Get(EMPTY.specs, t) == None;
  }

  lemma SettledConverges(log: Log, p: nat)
    requires p <= |log| && forall t :: Settled(log[..p], t)
    ensures SameCatalog(Run(Run(EMPTY, log[..p]), log), Run(EMPTY, log))
  {
    var x, y := Run(Run(EMPTY, log[..p]), log), Run(EMPTY, log);
    forall t
      ensures Get(x.tables, t) == Get(y.tables, t)
      ensures Get(x.specs, t) == Get(y.specs, t)
    {
      ReplayByName(log, p, t);
      TableConverges(log, p, t);
      NodeConverges(log, p, t);
    }
    SameMaps(x.tables, y.tables);
    SameMaps(x.specs, y.specs);
    RunListsNodes(EMPTY, log[..p]);
    RunListsNodes(Run(EMPTY, log[..p]), log);
    RunListsNodes(EMPTY, log);
    SameMembers(x.nodes, y.nodes);
  }

  /**
   Whatever follows it, a log can be replayed over the catalog a prefix left, exactly if
   the prefix is settled for every table. Commands may fail.
   */
  lemma ReplayConvergesIff(a: Log)
    ensures (forall b: Log :: SameCatalog(Run(Run(EMPTY, a), a + b), Run(EMPTY, a + b))) <==> forall t :: Settled(a, t)
  {
    if forall t :: Settled(a, t) {
      forall b: Log ensures SameCatalog(Run(Run(EMPTY, a), a + b), Run(EMPTY, a + b)) {
        assert (a + b)[..|a|] == a;
        SettledConverges(a + b, |a|);
      }
    }
    if forall b: Log :: SameCatalog(Run(Run(EMPTY, a), a + b), Run(EMPTY, a + b)) {
      var none: Log := [];
      assert SameCatalog(Run(Run(EMPTY, a), a + none), Run(EMPTY, a + none));
      assert a + none == a && a[..|a|] == a;
      forall t ensures Settled(a, t) {
        ReplayByName(a, |a|, t);
        IdempotentIff(a, t);
      }
    }
  }

  /**
   If no command of a log failed, replaying it over the catalog any prefix of it produced
   gives the catalog of a replay from scratch.
   */
  lemma ReplayConverges(log: Log, p: nat)
    requires p <= |log| && Succeeds(EMPTY, log)
    ensures SameCatalog(Run(Run(EMPTY, log[..p]), log), Run(EMPTY, log))
  {
    SucceedsByName(EMPTY, log);
    forall t ensures Settled(log[..p], t) {
      assert Get(EMPTY.tables, t) == None;
      assert TableSucceeds(Get(EMPTY.tables, t), log, t);
      PrefixSettled(log, p, t);
    }
    SettledConverges(log, p);
  }

  /** A failed command can take effect in the replay: nodes set before the table is created. */
  lemma FailedSetReturns(t: Name, a: ShardSpec, nodes: seq<Name>)
    requires a.nodes != nodes
    ensures var log := [SetShardNodes(t, a.id, nodes), CreateTable(t, "", [a])];
            !Settled(log, t) && !SameCatalog(Run(Run(EMPTY, log), log), Run(EMPTY, log))
  {
    var log := [SetShardNodes(t, a.id, nodes), CreateTable(t, "", [a])];
    var shards := Tagged([a], t);
    assert log[..1] == [log[0]] && log[..1][..0] == [] && log[..2] == log;
    assert TableRun(None, log[..1], t) == None;
    var f := TableRun(None, log, t);
    assert f == Some(TableSpec("", shards));
    assert LastSet(log, t, a.id) == LastSet(log[..1], t, a.id) == Some(nodes);
    assert FirstNamed(shards, 0) && shards[0].id == a.id && shards[0].nodes == a.nodes;
    IdempotentIff(log, t);
    ReplayByName(log, 2, t);
  }

  lemma SameMaps<V>(a: map<Name, V>, b: map<Name, V>)
    requires forall t :: Get(a, t) == Get(b, t)
    ensures a == b
  {
    forall t ensures t in a <==> t in b {
      assert Get(a, t) == Get(b, t);
    }
    forall t | t in a ensures a[t] == b[t] {
      assert Get(a, t) == Get(b, t);
    }
  }

  // ----- No replayed command fails -----

  /** All creations of a table name the same shards, as the only proposer does. */
  ghost predicate SameCreations(log: Log, t: Name) {
    forall i, j, id :: 0 <= i < |log| && 0 <= j < |log| && log[i].CreateTable? && log[j].CreateTable? && log[i].name == log[j].name == t ==>
      (ShardExists(log[i].shards, id) <==> ShardExists(log[j].shards, id))
  }

  /** The shards named by the creations of a table and by its splits. */
  ghost predicate CreatedID(log: Log, t: Name, id: Name) {
    exists i :: 0 <= i < |log| && log[i].CreateTable? && log[i].name == t && ShardExists(log[i].shards, id)
  }

  ghost predicate SplitID(log: Log, t: Name, id: Name) {
    exists i :: 0 <= i < |log| && log[i].SplitShard? && log[i].splitTable == t && ShardExists(log[i].newShards, id)
  }

  ghost predicate HoldsID(s: Option<TableSpec>, id: Name) {
    s.Some? && ShardExists(s.value.shards, id)
  }

  lemma TaggedIds(shards: seq<ShardSpec>, t: Name)
    ensures forall id :: ShardExists(Tagged(shards, t), id) <==> ShardExists(shards, id)
  {
    SameIds(Tagged(shards, t), shards);
  }

  lemma LastCommand(log: Log, t: Name, id: Name)
    requires log != []
    ensures var n, c := |log| - 1, log[|log| - 1];
            && (SplitID(log, t, id) <==> SplitID(log[..n], t, id) || (c.SplitShard? && c.splitTable == t && ShardExists(c.newShards, id)))
            && (CreatedID(log, t, id) <==> CreatedID(log[..n], t, id) || (c.CreateTable? && c.name == t && ShardExists(c.shards, id)))
  {
    var n := |log| - 1;
    assert forall i :: 0 <= i < n ==> log[..n][i] == log[i];
    if SplitID(log[..n], t, id) {
      var i :| 0 <= i < n && log[..n][i].SplitShard? && log[..n][i].splitTable == t && ShardExists(log[..n][i].newShards, id);
      assert log[i].SplitShard?;
    }
    if CreatedID(log[..n], t, id) {
      var i :| 0 <= i < n && log[..n][i].CreateTable? && log[..n][i].name == t && ShardExists(log[..n][i].shards, id);
      assert log[i].CreateTable?;
    }
  }

  lemma StepIds(s: Option<TableSpec>, c: Command, t: Name, id: Name)
    requires c != DropTable(t) && TableStep(s, c, t).Done?
    ensures var r := TableStep(s, c, t).value;
            && (s.Some? ==> r.Some?)
            && (HoldsID(r, id) <==>
                  || HoldsID(s, id)
                  || (s.None? && c.CreateTable? && c.name == t && ShardExists(c.shards, id))
                  || (c.SplitShard? && c.splitTable == t && ShardExists(c.newShards, id)))
  {
    if c.CreateTable? && c.name == t {
      TaggedIds(c.shards, t);
    } else if c.SplitShard? && c.splitTable == t && s.Some? {
      AddedKeeps(s.value.shards, c.newShards, t);
    } else if c.SetShardNodes? && c.setTable == t && s.Some? {
      ReplacedAt(s.value.shards, c.shard, c.nodes);
      SameIds(s.value.shards, Replaced(s.value.shards, c.shard, c.nodes));
    }
  }

  /** A table never dropped so far has its created shards and those split off. */
  lemma {:induction false} IdsFrom(s: Option<TableSpec>, log: Log, t: Name, id: Name)
    requires !HasDrop(log, t)
    ensures s.Some? ==> TableRun(s, log, t).Some? && (HoldsID(TableRun(s, log, t), id) <==> HoldsID(s, id) || SplitID(log, t, id))
    ensures HoldsID(TableRun(s, log, t), id) ==> HoldsID(s, id) || CreatedID(log, t, id) || SplitID(log, t, id)
  {
    if log != [] {
      var n := |log| - 1;
      DropSplit(log, t);
      IdsFrom(s, log[..n], t, id);
      LastCommand(log, t, id);
      var before := TableRun(s, log[..n], t);
      if TableStep(before, log[n], t).Done? {
        StepIds(before, log[n], t, id);
      }
    }
  }

  /** A table that exists after a log has every shard its creations name. */
  lemma {:induction false} CreationsHeld(log: Log, whole: Log, t: Name, id: Name)
    requires log <= whole && SameCreations(whole, t) && CreatedID(whole, t, id) && TableRun(None, log, t).Some?
    ensures HoldsID(TableRun(None, log, t), id)
  {
    if log != [] {
      var n := |log| - 1;
      var before, c := TableRun(None, log[..n], t), log[n];
      assert log[..n] <= whole && whole[n] == c;
      if before.Some? {
        CreationsHeld(log[..n], whole, t, id);
      }
      if TableStep(before, c, t).Done? && c != DropTable(t) {
        StepIds(before, c, t, id);
        if before.None? && c.CreateTable? && c.name == t {
          var i :| 0 <= i < |whole| && whole[i].CreateTable? && whole[i].name == t && ShardExists(whole[i].shards, id);
          assert ShardExists(whole[i].shards, id) <==> ShardExists(whole[n].shards, id);
        }
      }
    }
  }

  /**
   A replayed command that fails although it did not fail at first: it sets the nodes of a
   shard that the table on disk lacks, and nothing before it in the log drops the table or
   splits the shard off.
   */
  ghost predicate Misses(log: Log, p: nat, t: Name, i: nat)
    requires p <= |log| && i < p
  {
    var f := TableRun(None, log[..p], t);
    && log[i].SetShardNodes? && log[i].setTable == t
    && f.Some? && !ShardExists(f.value.shards, log[i].shard)
    && !HasDrop(log[..i], t) && !SplitID(log[..i], t, log[i].shard)
  }

  ghost predicate NeverMisses(log: Log, p: nat, t: Name)
    requires p <= |log|
  {
    forall i :: 0 <= i < p ==> !Misses(log, p, t, i)
  }

  lemma ReplayedStepIff(log: Log, p: nat, t: Name, i: nat)
    requires p <= |log| && i < |log| && TableSucceeds(None, log, t)
    ensures TableStep(TableRun(TableRun(None, log[..p], t), log[..i], t), log[i], t).Done? <==> !(i < p && Misses(log, p, t, i))
  {
    var f, a := TableRun(None, log[..p], t), log[..i];
    assert TableStep(TableRun(None, a, t), log[i], t).Done?;
    if p <= i {
      forall x | 0 <= x < i ensures TableStep(TableRun(None, a[..x], t), a[x], t).Done? {
        assert a[..x] == log[..x];
      }
      assert a[..p] == log[..p];
      PrefixSettled(a, p, t);
      TableConverges(a, p, t);
    } else if HasDrop(a, t) {
      DropForgets(f, None, a, t);
    } else if f.Some? {
      IdsFrom(f, a, t, if log[i].SetShardNodes? then log[i].shard else "");
    }
  }

  lemma TableReplayIff(log: Log, p: nat, t: Name)
    requires p <= |log| && TableSucceeds(None, log, t)
    ensures TableSucceeds(TableRun(None, log[..p], t), log, t) <==> NeverMisses(log, p, t)
  {
    var f := TableRun(None, log[..p], t);
    forall i | 0 <= i < |log|
      ensures TableStep(TableRun(f, log[..i], t), log[i], t).Done? <==> !(i < p && Misses(log, p, t, i))
    {
      ReplayedStepIff(log, p, t, i);
    }
  }

  /** A log that did not fail at first is replayed without a failure exactly if no command of the prefix misses. */
  lemma ReplaySucceedsIff(log: Log, p: nat)
    requires p <= |log| && Succeeds(EMPTY, log)
    ensures Succeeds(Run(EMPTY, log[..p]), log) <==> forall t :: NeverMisses(log, p, t)
  {
    hide NeverMisses;
    hide TableSucceeds;
    hide Succeeds;
    SucceedsByName(EMPTY, log);
    SucceedsByName(Run(EMPTY, log[..p]), log);
    forall t
      ensures TableSucceeds(Get(Run(EMPTY, log[..p]).tables, t), log, t) <==> NeverMisses(log, p, t)
    {
      RunByName(EMPTY, log[..p], t);
      assert Get(EMPTY.tables, t) == None;
      assert TableSucceeds(Get(EMPTY.tables, t), log, t);
      TableReplayIff(log, p, t);
    }
  }

  lemma CreatedEarlier(log: Log, i: nat, t: Name, id: Name)
    requires i <= |log| && CreatedID(log[..i], t, id)
    ensures CreatedID(log, t, id)
  {
    var x :| 0 <= x < i && log[..i][x].CreateTable? && log[..i][x].name == t && ShardExists(log[..i][x].shards, id);
    assert log[x] == log[..i][x];
  }

  lemma AgreedNeverMiss(log: Log, p: nat, t: Name, i: nat)
    requires p <= |log| && i < p && TableSucceeds(None, log, t) && SameCreations(log, t)
    ensures !Misses(log, p, t, i)
  {
    var f, a := TableRun(None, log[..p], t), log[..i];
    if Misses(log, p, t, i) {
      var id := log[i].shard;
      assert TableStep(TableRun(None, a, t), log[i], t).Done?;
      IdsFrom(None, a, t, id);
      CreatedEarlier(log, i, t, id);
      CreationsHeld(log[..p], log, t, id);
      assert false;
    }
  }

  /** With creations that agree on their shards no command of the replay fails. */
  lemma ReplaySucceeds(log: Log, p: nat)
    requires p <= |log| && Succeeds(EMPTY, log) && forall t :: SameCreations(log, t)
    ensures Succeeds(Run(EMPTY, log[..p]), log)
  {
    SucceedsByName(EMPTY, log);
    forall t ensures NeverMisses(log, p, t) {
      assert Get(EMPTY.tables, t) == None;
      assert TableSucceeds(Get(EMPTY.tables, t), log, t);
      forall i | 0 <= i < p ensures !Misses(log, p, t, i) {
        AgreedNeverMiss(log, p, t, i);
      }
    }
    ReplaySucceedsIff(log, p);
  }

  /** Creations as `createTableOn` proposes them: one shard, named after the table. */
  ghost predicate Proposed(log: Log) {
    forall i :: 0 <= i < |log| && log[i].CreateTable? ==> |log[i].shards| == 1 && log[i].shards[0].id == log[i].name + "-0"
  }

  lemma ProposedReplays(log: Log, p: nat)
    requires p <= |log| && Succeeds(EMPTY, log) && Proposed(log)
    ensures Succeeds(Run(EMPTY, log[..p]), log)
  {
    forall i, id | 0 <= i < |log| && log[i].CreateTable?
      ensures ShardExists(log[i].shards, id) <==> id == log[i].name + "-0"
    {
      assert log[i].shards[0].id == log[i].name + "-0";
    }
    ReplaySucceeds(log, p);
  }

  /**
   Other creations can miss: a table created with one shard, dropped
   and created with another has no shard of the first name when its log is replayed.
   */
  lemma ReplayCanFail(t: Name, a: ShardSpec, b: ShardSpec)
    requires a.id != b.id
    ensures var log := [CreateTable(t, "", [a]), SetShardNodes(t, a.id, []), DropTable(t), CreateTable(t, "", [b])];
            && TableSucceeds(None, log, t) && !SameCreations(log, t)
            && !TableSucceeds(TableRun(None, log, t), log, t)
  {
    var log := [CreateTable(t, "", [a]), SetShardNodes(t, a.id, []), DropTable(t), CreateTable(t, "", [b])];
    var a', b' := Tagged([a], t), Tagged([b], t);
    assert log[..1] == [log[0]] && log[..1][..0] == [];
    assert log[..2][..1] == log[..1] && log[..3][..2] == log[..2] && log[..4] == log && log[..4][..3] == log[..3];
    assert ShardExists(a', a.id) && !ShardExists(b', a.id) by {
      assert a'[0].id == a.id;
    }
    assert TableRun(None, log[..1], t) == Some(TableSpec("", a'));
    assert TableRun(None, log[..2], t).Some?;
    assert TableRun(None, log[..3], t) == None;
    var f := TableRun(None, log, t);
    assert f == Some(TableSpec("", b'));
    assert TableRun(f, log[..1], t) == f;
    assert TableStep(TableRun(f, log[..1], t), log[1], t).Failed?;
    assert ShardExists(log[0].shards, a.id) && !ShardExists(log[3].shards, a.id) by {
      assert log[0].shards[0].id == a.id;
    }
    forall i | 0 <= i < |log| ensures TableStep(TableRun(None, log[..i], t), log[i], t).Done? {
      assert i == 0 || i == 1 || i == 2 || i == 3;
    }
  }
}
