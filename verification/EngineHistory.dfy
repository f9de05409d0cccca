/** What a range scan returns, in terms of all the registers the engine has ever stored: the step from the
    engine to the nodes of module Replication. Then two runs in which scans and reads part. */
module EngineHistory {
  import opened Bytes
  import opened VectorClocks
  import opened Crdt
  import opened Database
  import opened MergeTrees
  import opened Replication
  import opened Lsm
  import opened Compaction
  import EngineRuns
  import opened EngineOrder
  import opened EngineScan

  // ----- every register was stored, or merged from registers that were -----

  /** Every register a write has left in the active table, by key. */
  function StoredSoFar(id: NodeID, actions: seq<EngineRuns.Action>): Stored {
    if actions == [] then map[] else
      var last := |actions| - 1;
      var before, d := StoredSoFar(id, actions[..last]), EngineRuns.AbstractRun(id, actions[..last]);
      match actions[last]
      case Put(key, value, _) => Remember(before, key, LocalPut(d, key, value).store[key])
      case Receive(key, incoming, _, _) => Remember(before, key, Winner(d, key, incoming))
      case _ => before
  }

  ghost predicate IsMade(r: Register, stored: set<Register>) {
    exists t :: Leaves(t) <= stored && Eval(t) == r
  }

  ghost predicate KeySourced(s: State, stored: Stored, k: Key) {
    && (AllRegs(s, k) != {} ==> k in stored)
    && (k in stored ==> TableRegs(Tables(s), k) <= stored[k] && forall r :: r in AllRegs(s, k) ==> IsMade(r, stored[k]))
  }

  ghost predicate Sourced(s: State, stored: Stored) {
    forall k :: KeySourced(s, stored, k)
  }

  lemma MadeOfMore(r: Register, stored: set<Register>, more: set<Register>)
    requires IsMade(r, stored) && stored <= more
    ensures IsMade(r, more)
  {
  }

  lemma MadeOfItself(r: Register, stored: set<Register>)
    requires r in stored
    ensures IsMade(r, stored)
  {
    assert Leaves(Leaf(r)) == {r} && Eval(Leaf(r)) == r;
  }

  /** Merging what was itself merged from stored registers is one merge of stored registers. */
  lemma {:induction false} Graft(t: Tree, stored: set<Register>, newest: Register) returns (u: Tree)
    requires forall w :: w in Leaves(t) ==> IsMade(w, stored)
    ensures Leaves(u) <= stored && Eval(u) == Eval(t)
    ensures newest in Leaves(t) && newest in stored ==> newest in Leaves(u)
  {
    match t
    case Leaf(w) =>
      assert w in Leaves(t);
      if w == newest && newest in stored {
        u := t;
      } else {
        u :| Leaves(u) <= stored && Eval(u) == w;
      }
    case Node(l, r) =>
      hide IsMade, MergeRegisters;
      var a := Graft(l, stored, newest);
      var b := Graft(r, stored, newest);
      u := Node(a, b);
      EvalNode(u);
      EvalNode(t);
  }

  lemma WriteKeepsSourced(s: State, stored: Stored, key: Key, reg: Register, full: bool, c: Clock)
    requires Sourced(s, stored)
    ensures Sourced(Store(s.(clock := c), key, reg, full), Remember(stored, key, reg))
  {
    var s', stored' := Store(s.(clock := c), key, reg, full), Remember(stored, key, reg);
    forall k ensures KeySourced(s', stored', k) {
      assert KeySourced(s, stored, k);
      WriteRegs(s, key, reg, full, c, k);
      WriteTableRegs(s, key, reg, full, c, k);
      forall r | k in stored' && r in AllRegs(s', k) ensures IsMade(r, stored'[k]) {
        if r in AllRegs(s, k) {
          MadeOfMore(r, stored[k], stored'[k]);
        } else {
          MadeOfItself(r, stored'[k]);
        }
      }
    }
  }

  lemma WriteTableRegs(s: State, key: Key, reg: Register, full: bool, c: Clock, k: Key)
    ensures TableRegs(Tables(Store(s.(clock := c), key, reg, full)), k)
         <= TableRegs(Tables(s), k) + if k == key then {reg} else {}
  {
    var t := s.(clock := c);
    assert Tables(t) == Tables(s);
    StoreRegs(t, key, reg, full, k);
  }

  lemma FinishKeepsSourced(e: EngineRuns.Engine, stored: Stored)
    requires EngineRuns.Inv(e) && EngineRuns.Enabled(e, EngineRuns.Finish) && Sourced(e.s, stored)
    ensures Sourced(EngineRuns.Step(e, EngineRuns.Finish).s, stored)
  {
    var s' := EngineRuns.Step(e, EngineRuns.Finish).s;
    forall k ensures KeySourced(s', stored, k) {
      assert KeySourced(e.s, stored, k);
      FinishRegs(e, k);
      MergedIsMade(e.s, e.phase.task, stored, k);
    }
  }

  lemma MergedIsMade(s: State, task: Task, stored: Stored, k: Key)
    requires KeySourced(s, stored, k) && RegsOf(task.inputs, k) <= AllRegs(s, k)
    ensures k in MergeFiles(task.inputs) ==> k in stored && IsMade(MergeFiles(task.inputs)[k], stored[k])
  {
    if k in MergeFiles(task.inputs) {
      MergedKeys(task.inputs, k);
      var t := MergedIsTree(task.inputs, k);
      var u := Graft(t, stored[k], MergeFiles(task.inputs)[k]);
    }
  }

  lemma StepKeepsSourced(e: EngineRuns.Engine, a: EngineRuns.Action, stored: Stored)
    requires EngineRuns.Inv(e) && EngineRuns.Enabled(e, a) && Sourced(e.s, stored)
    ensures var s' := EngineRuns.Step(e, a).s;
      match a
      case Put(key, value, _) => Sourced(s', Remember(stored, key, LocalPut(View(e.s), key, value).store[key]))
      case Receive(key, incoming, _, _) => Sourced(s', Remember(stored, key, Winner(View(e.s), key, incoming)))
      case _ => Sourced(s', stored)
  {
    match a
    case Put(key, value, full) =>
      var c := Tick(e.s.clock, e.s.id);
      WriteKeepsSourced(e.s, stored, key, Register(value, c), full, c);
    case Receive(key, incoming, full, missed) =>
      ReadRefines(e.s, key, missed);
      WriteKeepsSourced(e.s, stored, key, Winner(View(e.s), key, incoming), full, Join(e.s.clock, incoming.clock));
    case Finish => FinishKeepsSourced(e, stored);
    case _ =>
      forall k ensures KeySourced(EngineRuns.Step(e, a).s, stored, k) {
        assert KeySourced(e.s, stored, k);
        QuietRegs(e, a, k);
      }
  }

  /** After every run, each register in a table was stored by a write, and each register in a file is a merge
      of registers that were. */
  lemma {:induction false} RunKeepsSourced(id: NodeID, actions: seq<EngineRuns.Action>)
    requires EngineRuns.IsRun(id, actions)
    ensures Sourced(EngineRuns.Outcome(id, actions).s, StoredSoFar(id, actions))
  {
    if actions == [] {
      forall k ensures KeySourced(Start(id), map[], k) {
        StartHasNone(id, k);
      }
    } else {
      hide Sourced, EngineRuns.Inv;
      var last := |actions| - 1;
      RunKeepsSourced(id, actions[..last]);
      EngineRuns.RunKeepsInv(id, actions[..last]);
      EngineRuns.RunRefines(id, actions[..last]);
      StepKeepsSourced(EngineRuns.Outcome(id, actions[..last]), actions[last], StoredSoFar(id, actions[..last]));
    }
  }

  // ----- so a scan is what the nodes take it to be -----

  lemma RowIsFold(s: State, stored: Stored, start: Key, end: Key, raw: seq<CrdtRow>, row: CrdtRow)
    requires Sourced(s, stored) && FilesAreShadowed(s)
    requires Gathered(s, start, end, raw) && IsMergeOf(row.1, RegsAt(raw, row.0))
    ensures row.0 in View(s).store && row.0 in stored && IsFold(row.1, stored[row.0], View(s).store[row.0])
  {
    var k := row.0;
    FoldedRow(s, start, end, raw, row);
    HeldIsGathered(s, start, end, raw, k);
    HeldIsAmong(s, k);
    assert KeySourced(s, stored, k);
    var t :| Leaves(t) == RegsAt(raw, k) && Eval(t) == row.1;
    var u := Graft(t, stored[k], View(s).store[k]);
  }

  ghost function RowRegister(done: seq<CrdtRow>, k: Key): Register
    requires HasRow(done, k)
  {
    var i :| 0 <= i < |done| && done[i].0 == k;
    done[i].1
  }

  lemma RowRegisterIs(done: seq<CrdtRow>, i: nat)
    requires Ascending(done) && i < |done|
    ensures HasRow(done, done[i].0) && RowRegister(done, done[i].0) == done[i].1
  {
    var k := done[i].0;
    assert HasRow(done, k);
    var j :| 0 <= j < |done| && done[j].0 == k && RowRegister(done, k) == done[j].1;
    LessTrichotomy(done[i].0, done[j].0);
  }

  /** What the gossip of a node reads from its engine is what some scan of its stored registers finds. */
  ghost function FoundBy(d: Db, done: seq<CrdtRow>): map<Key, Register>
    requires forall k :: k in d.store && InRange(k, [], [255]) ==> HasRow(done, k)
  {
    map k | k in d.store :: if InRange(k, [], [255]) then RowRegister(done, k) else d.store[k]
  }

  ghost predicate ScansKeys(d: Db, done: seq<CrdtRow>) {
    && Ascending(done)
    && (forall k :: k in d.store && InRange(k, [], [255]) ==> HasRow(done, k))
    && (forall i :: 0 <= i < |done| ==> done[i].0 in d.store && InRange(done[i].0, [], [255]))
  }

  lemma ListedRow(d: Db, done: seq<CrdtRow>, row: CrdtRow)
    requires ScansKeys(d, done) && row in done && row.1.value != []
    ensures row.0 in Gossiped(FoundBy(d, done)) && Gossiped(FoundBy(d, done))[row.0] == row.1
  {
    hide InRange;
    var j :| 0 <= j < |done| && done[j] == row;
    RowRegisterIs(done, j);
  }

  lemma GossipedKeyIsListed(d: Db, done: seq<CrdtRow>, k: Key)
    requires ScansKeys(d, done) && k in Gossiped(FoundBy(d, done))
    ensures HasRow(LiveRows(done), k)
  {
    hide InRange;
    LiveRowsAre(done);
    var i :| 0 <= i < |done| && done[i].0 == k;
    RowRegisterIs(done, i);
    assert done[i] in done && done[i] in LiveRows(done);
    var j :| 0 <= j < |LiveRows(done)| && LiveRows(done)[j] == done[i];
  }

  lemma ListedIsGossiped(d: Db, done: seq<CrdtRow>)
    requires ScansKeys(d, done)
    ensures LiveRows(done) == Rows(Gossiped(FoundBy(d, done)))
  {
    var live, sent := LiveRows(done), Gossiped(FoundBy(d, done));
    LiveRowsAre(done);
    hide ScansKeys, Gossiped, FoundBy, LiveRows, Less;
    forall i | 0 <= i < |live| ensures live[i].0 in sent && sent[live[i].0] == live[i].1 {
      assert live[i] in live;
      ListedRow(d, done, live[i]);
    }
    forall k | k in sent ensures HasRow(live, k) {
      GossipedKeyIsListed(d, done, k);
    }
    RowsAreUnique(live, sent);
  }

  lemma GossipFindsFolds(s: State, stored: Stored, raw: seq<CrdtRow>)
    requires Sourced(s, stored) && FilesAreShadowed(s) && Gathered(s, [], [255], raw)
    ensures var done, d := FoldRows(raw), View(s); ScansKeys(d, done) && IsScan(FoundBy(d, done), d, stored)
  {
    hide Sourced, IsFold, InRange, IsMergeOf, Settled, Matches;
    var done, d := FoldRows(raw), View(s);
    FoldIsMerge(raw);
    forall i | 0 <= i < |done|
      ensures done[i].0 in d.store && InRange(done[i].0, [], [255])
      ensures done[i].0 in stored && IsFold(done[i].1, stored[done[i].0], d.store[done[i].0])
    {
      FoldedRow(s, [], [255], raw, done[i]);
      RowIsFold(s, stored, [], [255], raw, done[i]);
    }
    forall k | k in d.store && InRange(k, [], [255]) ensures HasRow(done, k) {
      HeldIsGathered(s, [], [255], raw, k);
    }
    var found := FoundBy(d, done);
    forall k | k in found ensures k in stored && IsFold(found[k], stored[k], d.store[k]) {
      if InRange(k, [], [255]) {
        var i :| 0 <= i < |done| && done[i].0 == k;
        RowRegisterIs(done, i);
      } else {
        HeldIsFold(s, stored, k);
      }
    }
  }

  lemma HeldIsFold(s: State, stored: Stored, k: Key)
    requires Sourced(s, stored) && k in View(s).store
    ensures k in stored && IsFold(View(s).store[k], stored[k], View(s).store[k])
  {
    var r := View(s).store[k];
    HeldIsAmong(s, k);
    assert KeySourced(s, stored, k);
    var leaf := Leaf(r);
    assert Leaves(leaf) <= stored[k] && r in Leaves(leaf) && Eval(leaf) == r;
  }

  /** After every run, what the engine's scan gives to gossip is what some scan of the stored registers finds:
      the registers that module Replication lets a node send. */
  lemma EngineScanIsAScan(id: NodeID, actions: seq<EngineRuns.Action>, raw: seq<CrdtRow>) returns (found: map<Key, Register>)
    requires EngineRuns.IsRun(id, actions) && Gathered(EngineRuns.Outcome(id, actions).s, [], [255], raw)
    ensures IsScan(found, EngineRuns.AbstractRun(id, actions), StoredSoFar(id, actions))
    ensures LiveRows(FoldRows(raw)) == Rows(Gossiped(found))
  {
    hide Sourced, EngineRuns.Inv, IsScan, Gathered;
    var s := EngineRuns.Outcome(id, actions).s;
    RunKeepsSourced(id, actions);
    EngineRuns.RunKeepsInv(id, actions);
    assert FilesAreShadowed(s) by {
      InvShadows(EngineRuns.Outcome(id, actions));
    }
    EngineRuns.RunRefines(id, actions);
    GossipFindsFolds(s, StoredSoFar(id, actions), raw);
    found := FoundBy(View(s), FoldRows(raw));
    ListedIsGossiped(View(s), FoldRows(raw));
  }

  lemma InvShadows(e: EngineRuns.Engine)
    requires EngineRuns.Inv(e)
    ensures FilesAreShadowed(e.s)
  {
  }

  // ----- where reads and scans part -----

  lemma TwoTables(s: State, newer: Table, older: Table)
    requires s.active == newer && |s.imm| == 1 && s.imm[0].mt == older
    ensures Tables(s) == [newer, older] && Overlay(Tables(s)) == older + newer
  {
    assert Tables(s) == [newer, older] && Tables(s)[1..] == [older] && [older][1..] == [];
    assert Overlay([older]) == map[] + older == older;
  }

  lemma FrozenIsFound(s: State, k: Key, r: Register)
    requires s.active == map[] && |s.imm| == 1 && s.imm[0].mt == map[k := r]
    ensures FindInTables(Tables(s), k) == Some(r)
  {
    TwoTables(s, map[], map[k := r]);
    assert Tables(s)[1..] == [map[k := r]];
    assert FindInTables([map[k := r]], k) == Some(r);
  }

  lemma NoFileRegs(layout: Layout, k: Key)
    requires forall l :: 0 <= l < |layout| ==> layout[l] == []
    ensures RegsIn(layout, k) == {}
  {
  }

  lemma PairRegs(s: State, k: Key, newer: Register, older: Register)
    requires s.active == map[k := newer] && |s.imm| == 1 && s.imm[0].mt == map[k := older]
    requires forall l :: 0 <= l < |s.layout| ==> s.layout[l] == []
    ensures TableRegs(Tables(s), k) == {newer, older} && AllRegs(s, k) == {newer, older}
    ensures FindInTables(Tables(s), k) == Some(newer)
  {
    TwoTables(s, map[k := newer], map[k := older]);
    NoFileRegs(s.layout, k);
    var ts := Tables(s);
    assert ts[0] in ts && ts[1] in ts && ts[0][k] == newer && ts[1][k] == older;
  }

  /** A key is put, removed and frozen, and then a replica of the put arrives: reads return it again ... */
  lemma ReplicaOverTombstone(id: NodeID, k: Key, v: ByteString) returns (actions: seq<EngineRuns.Action>)
    requires v != []
    ensures actions == [EngineRuns.Put(k, v, false), EngineRuns.Put(k, [], true),
      EngineRuns.Receive(k, Register(v, map[id := 1]), false, {})]
    ensures EngineRuns.IsRun(id, actions)
    ensures var s := EngineRuns.Outcome(id, actions).s;
      && s.active == map[k := Register(v, map[id := 1])]
      && |s.imm| == 1 && s.imm[0].mt == map[k := Register([], map[id := 2])]
      && forall l :: 0 <= l < |s.layout| ==> s.layout[l] == []
  {
    var put, remove := EngineRuns.Put(k, v, false), EngineRuns.Put(k, [], true);
    var receive := EngineRuns.Receive(k, Register(v, map[id := 1]), false, {});
    assert Tick(map[], id) == map[id := 1] && Tick(map[id := 1], id) == map[id := 2];
    EngineRuns.RunAndThen(id, [], put);
    EngineRuns.RunAndThen(id, [] + [put], remove);
    var s := EngineRuns.Outcome(id, [] + [put] + [remove]).s;
    assert s.active == map[] && |s.imm| == 1 && s.imm[0].mt == map[k := Register([], map[id := 2])];
    FrozenIsFound(s, k, Register([], map[id := 2]));
    EngineRuns.RunAndThen(id, [] + [put] + [remove], receive);
    actions := [] + [put] + [remove] + [receive];
  }

  /** ... while no scan lists it: the older tombstone in the frozen table dominates it. */
  lemma ScansMissWhatIsRead(id: NodeID, k: Key, v: ByteString) returns (actions: seq<EngineRuns.Action>)
    requires v != []
    ensures EngineRuns.IsRun(id, actions)
    ensures var s := EngineRuns.Outcome(id, actions).s;
      && Read(s, k, {}) == Some(Register(v, map[id := 1]))
      && forall raw :: Gathered(s, k, k, raw) ==> LiveRows(FoldRows(raw)) == []
  {
    actions := ReplicaOverTombstone(id, k, v);
    var s := EngineRuns.Outcome(id, actions).s;
    var live, gone := Register(v, map[id := 1]), Register([], map[id := 2]);
    PairRegs(s, k, live, gone);
    EngineRuns.RunKeepsInv(id, actions);
    forall raw | Gathered(s, k, k, raw) ensures LiveRows(FoldRows(raw)) == [] {
      OnlyTombstones(s, k, raw, id, live, gone);
    }
  }

  lemma GoneDominates(id: NodeID, r: Register, live: Register, gone: Register)
    requires live.clock == map[id := 1] && gone.clock == map[id := 2] && IsMergeOf(r, {live, gone})
    ensures r.value == gone.value
  {
    var t :| Leaves(t) == {live, gone} && Eval(t) == r;
    assert Get(live.clock, id) == 1 && Get(gone.clock, id) == 2;
    assert {live, gone} - {gone} == {live};
    var join := JoinOf({live});
    assert Above(live.clock, {live}) && Leq(join, live.clock);
    if Leq(gone.clock, join) {
      LeqTransitive(gone.clock, join, live.clock);
    }
    DominatingWriteWins({live, gone}, gone);
  }

  lemma RowIsGone(s: State, k: Key, raw: seq<CrdtRow>, row: CrdtRow, id: NodeID, live: Register, gone: Register)
    requires Gathered(s, k, k, raw) && FilesAreShadowed(s) && gone.value == []
    requires TableRegs(Tables(s), k) == {live, gone} && AllRegs(s, k) == {live, gone}
    requires live.clock == map[id := 1] && gone.clock == map[id := 2]
    requires IsMergeOf(row.1, RegsAt(raw, row.0))
    ensures row.1.value == []
  {
    FoldedRow(s, k, k, raw, row);
    OneKey(k, row.0);
    HeldIsGathered(s, k, k, raw, k);
    hide AllRegs, TableRegs, Gathered, IsMergeOf, FilesAreShadowed, RegsAt, Settled;
    GoneDominates(id, row.1, live, gone);
  }

  lemma FirstIsListed(rows: seq<CrdtRow>)
    requires rows != []
    ensures rows[0] in rows
  {
  }

  lemma OnlyTombstones(s: State, k: Key, raw: seq<CrdtRow>, id: NodeID, live: Register, gone: Register)
    requires Gathered(s, k, k, raw) && FilesAreShadowed(s) && gone.value == []
    requires TableRegs(Tables(s), k) == {live, gone} && AllRegs(s, k) == {live, gone}
    requires live.clock == map[id := 1] && gone.clock == map[id := 2]
    ensures LiveRows(FoldRows(raw)) == []
  {
    var done := FoldRows(raw);
    FoldIsMerge(raw);
    LiveRowsAre(done);
    hide AllRegs, TableRegs, Gathered, IsMergeOf, FilesAreShadowed, FoldRows;
    forall row | row in done ensures row.1.value == [] {
      var i :| 0 <= i < |done| && done[i] == row;
      RowIsGone(s, k, raw, row, id, live, gone);
    }
    if LiveRows(done) != [] {
      FirstIsListed(LiveRows(done));
    }
  }

  /** Two replicas with one clock and different values, the first one frozen: reads return the second, and a
      legal scan returns the first. */
  lemma ScanReturnsTiedValue(id: NodeID, k: Key, c: Clock, first: ByteString, second: ByteString)
    returns (actions: seq<EngineRuns.Action>, raw: seq<CrdtRow>)
    requires first != [] && second != [] && first != second
    ensures EngineRuns.IsRun(id, actions)
    ensures var s := EngineRuns.Outcome(id, actions).s;
      && Read(s, k, {}).Some? && Read(s, k, {}).value.value == second
      && Gathered(s, k, k, raw) && |LiveRows(FoldRows(raw))| == 1 && LiveRows(FoldRows(raw))[0].1.value == first
  {
    var older, newer := Register(first, c), MergeRegisters(Register(second, c), Register(first, c));
    var a, b := EngineRuns.Receive(k, older, true, {}), EngineRuns.Receive(k, Register(second, c), false, {});
    actions := TiedRun(id, k, c, first, second);
    var s := EngineRuns.Outcome(id, actions).s;
    PairRegs(s, k, newer, older);
    assert Leq(c, c) && newer.value == second;
    MergeBounds(Register(second, c), older);
    MergeClock(Register(second, c), older, c);
    var t := Node(Leaf(older), Leaf(newer));
    assert Eval(t.left) == older && Eval(t.right) == newer;
    EvalNode(t);
    assert Leaves(t) == {newer, older};
    assert Leaves(t.left) == {older};
    raw := CombRows(k, t);
    CombIsGathered(s, k, t);
    CombRowsFold(k, t);
    var rows: seq<CrdtRow> := [(k, Eval(t))];
    assert rows[..0] == [];
  }

  lemma TiedRun(id: NodeID, k: Key, c: Clock, first: ByteString, second: ByteString) returns (actions: seq<EngineRuns.Action>)
    requires first != [] && second != []
    ensures EngineRuns.IsRun(id, actions)
    ensures var s := EngineRuns.Outcome(id, actions).s;
      && s.active == map[k := MergeRegisters(Register(second, c), Register(first, c))]
      && |s.imm| == 1 && s.imm[0].mt == map[k := Register(first, c)]
      && forall l :: 0 <= l < |s.layout| ==> s.layout[l] == []
  {
    var older := Register(first, c);
    var a, b := EngineRuns.Receive(k, older, true, {}), EngineRuns.Receive(k, Register(second, c), false, {});
    StartHasNone(id, k);
    EngineRuns.RunKeepsInv(id, []);
    ReadRefines(Start(id), k, {});
    EngineRuns.RunAndThen(id, [], a);
    var s := EngineRuns.Outcome(id, [] + [a]).s;
    assert s.active == map[] && |s.imm| == 1 && s.imm[0].mt == map[k := older];
    FrozenIsFound(s, k, older);
    EngineRuns.RunAndThen(id, [] + [a], b);
    actions := [] + [a] + [b];
  }
}
