/** The registers the engine holds for one key, in tables and files, and when their clocks order them. */
module EngineOrder {
  import opened Bytes
  import opened VectorClocks
  import opened Crdt
  import opened Database
  import opened MergeTrees
  import opened Lsm
  import opened Compaction
  import opened EngineRuns

  function TableRegs(ts: seq<Table>, k: Key): set<Register> {
    set t | t in ts && k in t :: t[k]
  }

  function AllRegs(s: State, k: Key): set<Register> {
    TableRegs(Tables(s), k) + RegsIn(s.layout, k)
  }

  lemma {:induction false} OverlayIsInTables(ts: seq<Table>, k: Key)
    requires k in Overlay(ts)
    ensures Overlay(ts)[k] in TableRegs(ts, k)
  {
    if k in ts[0] {
      assert ts[0] in ts;
    } else {
      OverlayIsInTables(ts[1..], k);
      var t :| t in ts[1..] && k in t && t[k] == Overlay(ts[1..])[k];
      assert t in ts;
    }
  }

  lemma HeldIsAmong(s: State, k: Key)
    requires k in View(s).store
    ensures View(s).store[k] in TableRegs(Tables(s), k)
  {
    OverlayIsInTables(Tables(s), k);
  }

  /** Every register of a key has a newest one beside it. */
  lemma RegIsShadowed(s: State, k: Key, r: Register)
    requires FilesAreShadowed(s) && r in AllRegs(s, k)
    ensures k in View(s).store
  {
    if r in TableRegs(Tables(s), k) {
      var t :| t in Tables(s) && k in t && t[k] == r;
      TableInOverlay(Tables(s), t);
    } else {
      var l, f :| 0 <= l < |s.layout| && f in s.layout[l] && k in f.rows && f.rows[k] == r;
    }
  }

  // ----- what the steps do to them -----

  lemma StoreRegs(s: State, key: Key, reg: Register, full: bool, k: Key)
    ensures TableRegs(Tables(Store(s, key, reg, full)), k) <= TableRegs(Tables(s), k) + if k == key then {reg} else {}
    ensures key == k ==> reg in TableRegs(Tables(Store(s, key, reg, full)), k)
  {
    var s' := Store(s, key, reg, full);
    var mine := s.active[key := reg];
    forall t | t in Tables(s') && t != mine && t != map[] ensures t in Tables(s) {
      var i :| 0 <= i < |Tables(s')| && Tables(s')[i] == t;
      assert t == Tables(s)[if full then i - 1 else i];
    }
    assert s.active == Tables(s)[0];
    assert mine == Tables(s')[if full then 1 else 0];
    assert mine in Tables(s') && key in mine && mine[key] == reg;
  }

  lemma FlushedRegs(s: State, mt: Table, k: Key)
    requires WellShaped(s) && mt in Tables(s) && mt != map[]
    ensures AllRegs(FlushOne(s, mt), k) == AllRegs(s, k)
  {
    var s' := FlushOne(s, mt);
    SameTables(s, s');
    forall r | r in RegsIn(s'.layout, k) ensures r in AllRegs(s, k) {
      var l, f :| 0 <= l < |s'.layout| && f in s'.layout[l] && k in f.rows && r == f.rows[k];
      assert f in s.layout[l] || f.rows == mt;
    }
    forall r | r in RegsIn(s.layout, k) ensures r in RegsIn(s'.layout, k) {
      var l, f :| 0 <= l < |s.layout| && f in s.layout[l] && k in f.rows && r == f.rows[k];
      assert f in s'.layout[l];
    }
  }

  lemma {:induction false} FlushFromRegs(s: State, i: nat, k: Key)
    requires WellShaped(s)
    ensures AllRegs(FlushFrom(s, i), k) == AllRegs(s, k) && Tables(FlushFrom(s, i)) == Tables(s)
    ensures FlushFrom(s, i).clock == s.clock && FlushFrom(s, i).id == s.id
    decreases |s.imm| - i
  {
    hide AllRegs;
    if i < |s.imm| {
      if s.imm[i].flushed {
        FlushFromRegs(s, i + 1, k);
      } else {
        var marked, mt := s.(imm := s.imm[i := s.imm[i].(flushed := true)]), s.imm[i].mt;
        SameTables(s, marked);
        MarkedRegs(s, marked, k);
        assert mt == Tables(s)[i + 1];
        if mt != map[] {
          FlushedRegs(marked, mt, k);
          SameTables(marked, FlushOne(marked, mt));
        }
        FlushFromRegs(FlushOne(marked, mt), i + 1, k);
      }
    }
  }

  lemma MarkedRegs(s: State, s': State, k: Key)
    requires Tables(s) == Tables(s') && s.layout == s'.layout
    ensures AllRegs(s, k) == AllRegs(s', k)
  {
  }

  lemma ResortedRegs(s: State, layout: Layout, k: Key)
    requires |layout| == |s.layout| && forall l: nat, f :: FileAt(layout, l, f) <==> FileAt(s.layout, l, f)
    ensures RegsIn(layout, k) == RegsIn(s.layout, k)
  {
    forall r | r in RegsIn(layout, k) ensures r in RegsIn(s.layout, k) {
      var l, f :| 0 <= l < |layout| && f in layout[l] && k in f.rows && r == f.rows[k];
      assert FileAt(layout, l, f) && FileAt(s.layout, l, f);
    }
    forall r | r in RegsIn(s.layout, k) ensures r in RegsIn(layout, k) {
      var l, f :| 0 <= l < |s.layout| && f in s.layout[l] && k in f.rows && r == f.rows[k];
      assert FileAt(s.layout, l, f) && FileAt(layout, l, f);
    }
  }

  /** Steps that neither write a key nor finish a compaction change no register. */
  lemma QuietRegs(e: Engine, a: Action, k: Key)
    requires Inv(e) && Enabled(e, a) && !a.Put? && !a.Receive? && !a.Finish?
    ensures var s' := Step(e, a).s;
      AllRegs(s', k) == AllRegs(e.s, k) && Tables(s') == Tables(e.s) && s'.clock == e.s.clock && s'.id == e.s.id
  {
    match a
    case Flush => FlushFromRegs(e.s, 0, k);
    case Plan => SameTables(e.s, Step(e, a).s);
    case Execute =>
    case Resort(layout) =>
      SameTables(e.s, Step(e, a).s);
      SameFilesAt(e, layout);
      ResortedRegs(e.s, layout, k);
  }

  /** Finishing a compaction leaves registers that were there, and the merge of its inputs. */
  lemma FinishRegs(e: Engine, k: Key)
    requires Inv(e) && Enabled(e, Finish)
    ensures var s', merged := Step(e, Finish).s, MergeFiles(e.phase.task.inputs);
      && AllRegs(s', k) <= AllRegs(e.s, k) + (if k in merged then {merged[k]} else {})
      && RegsOf(e.phase.task.inputs, k) <= AllRegs(e.s, k)
      && Tables(s') == Tables(e.s) && s'.clock == e.s.clock && s'.id == e.s.id
  {
    var task := e.phase.task;
    assert Step(e, Finish).s == Apply(e.s, task, Output(task));
    hide Step, TableRegs, NamesAgree, NamesUsed, NamesUnique, FilesAreShadowed;
    SameTables(e.s, Step(e, Finish).s);
    RegsBefore(e.s, task, k);
    RegsAfter(e.s, task, k);
    hide RegsIn, OthersIn, RegsOf, MergeFiles, Tables;
  }

  /** A write is the one step that adds a register of its own. */
  lemma WriteRegs(s: State, key: Key, reg: Register, full: bool, c: Clock, k: Key)
    ensures var s' := Store(s.(clock := c), key, reg, full);
      && AllRegs(s', k) <= AllRegs(s, k) + (if k == key then {reg} else {})
      && View(s').store == View(s).store[key := reg]
  {
    var t := s.(clock := c);
    assert Tables(t) == Tables(s);
    StoreRegs(t, key, reg, full, k);
    StoreIsUpdate(t, key, reg, full);
  }

  // ----- clocks that only move up -----

  predicate CoveredBy(newest: Register, regs: set<Register>) {
    forall r :: r in regs ==> Leq(r.clock, newest.clock)
  }

  /** The newest register of a key covers all its others, and the node's clock covers it. */
  predicate KeyUp(s: State, k: Key) {
    && (AllRegs(s, k) != {} ==> k in View(s).store)
    && (k in View(s).store ==> CoveredBy(View(s).store[k], AllRegs(s, k)) && Leq(View(s).store[k].clock, s.clock))
  }

  ghost predicate ClocksUp(s: State) {
    forall k :: KeyUp(s, k)
  }

  /** A local write whose counter does not wrap, or an incoming register that does not overwrite a tombstone
      it has not seen. */
  predicate KeepsHistory(e: Engine, a: Action) {
    match a
    case Put(_, _, _) => Get(e.s.clock, e.s.id) != U64 - 1
    case Receive(key, incoming, _, _) =>
      key in View(e.s).store && View(e.s).store[key].value == [] ==> Leq(View(e.s).store[key].clock, incoming.clock)
    case _ => true
  }

  ghost predicate HistoryKept(id: NodeID, actions: seq<Action>)
    requires IsRun(id, actions)
    decreases |actions|
  {
    actions == [] ||
    var before, last := actions[..|actions| - 1], actions[|actions| - 1];
    HistoryKept(id, before) && KeepsHistory(Outcome(id, before), last)
  }

  /** The register a write leaves is above the one that was held and below the clock after it. */
  lemma WriteMovesUp(s: State, key: Key, reg: Register, full: bool, c: Clock)
    requires ClocksUp(s) && Leq(s.clock, c) && Leq(reg.clock, c)
    requires key in View(s).store ==> Leq(View(s).store[key].clock, reg.clock)
    ensures ClocksUp(Store(s.(clock := c), key, reg, full))
  {
    hide AllRegs, View;
    var s' := Store(s.(clock := c), key, reg, full);
    forall k ensures KeyUp(s', k) {
      assert KeyUp(s, k);
      WriteRegs(s, key, reg, full, c, k);
      assert s'.clock == c;
      if k == key {
        NewestCovers(s, key, reg);
      } else if k in View(s).store {
        LeqTransitive(View(s).store[k].clock, s.clock, c);
      }
    }
  }

  lemma NewestCovers(s: State, key: Key, reg: Register)
    requires KeyUp(s, key) && (key in View(s).store ==> Leq(View(s).store[key].clock, reg.clock))
    ensures CoveredBy(reg, AllRegs(s, key) + {reg})
  {
    forall r | r in AllRegs(s, key) ensures Leq(r.clock, reg.clock) {
      LeqTransitive(r.clock, View(s).store[key].clock, reg.clock);
    }
    assert Leq(reg.clock, reg.clock);
  }

  lemma WinnerMovesUp(d: Db, key: Key, incoming: Register)
    requires key in d.store ==> Leq(d.store[key].clock, d.clock)
    requires key in d.store && d.store[key].value == [] ==> Leq(d.store[key].clock, incoming.clock)
    ensures var c, r := Join(d.clock, incoming.clock), Winner(d, key, incoming);
      Leq(d.clock, c) && Leq(r.clock, c) && (key in d.store ==> Leq(d.store[key].clock, r.clock))
  {
    var c := Join(d.clock, incoming.clock);
    JoinIsLeastUpperBound(d.clock, incoming.clock, c);
    if key in d.store {
      RemotePutKeepsHistoryIff(d, key, incoming);
      LeqTransitive(d.store[key].clock, d.clock, c);
      MergeClock(incoming, d.store[key], c);
    }
  }

  lemma FinishKeepsUp(e: Engine)
    requires Inv(e) && ClocksUp(e.s) && Enabled(e, Finish)
    ensures ClocksUp(Step(e, Finish).s)
  {
    var s' := Step(e, Finish).s;
    forall k ensures KeyUp(s', k) {
      assert KeyUp(e.s, k);
      FinishRegs(e, k);
      assert View(s').store == View(e.s).store;
      MergedIsCovered(e.s, e.phase.task, k);
    }
  }

  lemma MergedIsCovered(s: State, task: Task, k: Key)
    requires KeyUp(s, k) && RegsOf(task.inputs, k) <= AllRegs(s, k)
    ensures k in MergeFiles(task.inputs) ==>
      k in View(s).store && Leq(MergeFiles(task.inputs)[k].clock, View(s).store[k].clock)
  {
    if k in MergeFiles(task.inputs) {
      MergedKeys(task.inputs, k);
      var t := MergedIsTree(task.inputs, k);
      EvalClockIsJoin(t);
      assert Above(View(s).store[k].clock, Leaves(t));
    }
  }

  lemma StepKeepsUp(e: Engine, a: Action)
    requires Inv(e) && ClocksUp(e.s) && Enabled(e, a) && KeepsHistory(e, a)
    ensures ClocksUp(Step(e, a).s)
  {
    match a
    case Put(key, value, full) =>
      var c := Tick(e.s.clock, e.s.id);
      assert KeyUp(e.s, key);
      IncrementAdvancesIff(e.s.clock, e.s.id);
      if key in View(e.s).store {
        LeqTransitive(View(e.s).store[key].clock, e.s.clock, c);
      }
      assert Leq(c, c);
      WriteMovesUp(e.s, key, Register(value, c), full, c);
    case Receive(key, incoming, full, missed) =>
      assert KeyUp(e.s, key);
      ReadRefines(e.s, key, missed);
      WinnerMovesUp(View(e.s), key, incoming);
      WriteMovesUp(e.s, key, Winner(View(e.s), key, incoming), full, Join(e.s.clock, incoming.clock));
    case Finish => FinishKeepsUp(e);
    case _ => QuietKeepsUp(e, a);
  }

  lemma QuietKeepsUp(e: Engine, a: Action)
    requires Inv(e) && ClocksUp(e.s) && Enabled(e, a) && !a.Put? && !a.Receive? && !a.Finish?
    ensures ClocksUp(Step(e, a).s)
  {
    forall k ensures KeyUp(Step(e, a).s, k) {
      assert KeyUp(e.s, k);
      QuietRegs(e, a, k);
    }
  }

  lemma StartHasNone(id: NodeID, k: Key)
    ensures AllRegs(Start(id), k) == {} && View(Start(id)).store == map[]
  {
    var ts := Tables(Start(id));
    assert ts == [map[]] && ts[1..] == [];
    assert Overlay(ts) == map[] + map[];
  }

  /** While every write keeps the history of its key, the newest register of a key covers all its others. */
  lemma {:induction false} RunKeepsUp(id: NodeID, actions: seq<Action>)
    requires IsRun(id, actions) && HistoryKept(id, actions)
    ensures ClocksUp(Outcome(id, actions).s)
  {
    if actions == [] {
      forall k ensures KeyUp(Start(id), k) {
        StartHasNone(id, k);
      }
    } else {
      var last := |actions| - 1;
      RunKeepsUp(id, actions[..last]);
      RunKeepsInv(id, actions[..last]);
      StepKeepsUp(Outcome(id, actions[..last]), actions[last]);
    }
  }

  // ----- registers in a chain -----

  /** The registers of a key form a chain and the newest one is at its top. */
  predicate KeyOk(s: State, k: Key) {
    && IsChain(AllRegs(s, k))
    && forall r :: r in AllRegs(s, k) ==> k in View(s).store && Below(r, View(s).store[k])
  }

  ghost predicate KeysOk(s: State) {
    forall k :: KeyOk(s, k)
  }

  /** What this says: the abstract value of a key is the top of all its registers. */
  lemma ViewIsTop(s: State, k: Key)
    requires KeyOk(s, k) && AllRegs(s, k) != {}
    ensures k in View(s).store && IsTop(View(s).store[k], AllRegs(s, k))
  {
    var r :| r in AllRegs(s, k);
    HeldIsAmong(s, k);
    assert Equiv(View(s).store[k], View(s).store[k]);
  }

  /** A local write whose counter does not wrap, or an incoming register that leaves behind at least what was
      there. */
  predicate Orderly(e: Engine, a: Action) {
    match a
    case Put(_, _, _) => Get(e.s.clock, e.s.id) != U64 - 1
    case Receive(key, incoming, _, _) =>
      key in View(e.s).store ==> Below(View(e.s).store[key], Winner(View(e.s), key, incoming))
    case _ => true
  }

  ghost predicate OrderlyRun(id: NodeID, actions: seq<Action>)
    requires IsRun(id, actions)
    decreases |actions|
  {
    actions == [] ||
    var before, last := actions[..|actions| - 1], actions[|actions| - 1];
    OrderlyRun(id, before) && Orderly(Outcome(id, before), last)
  }

  lemma {:induction false} OrderlyRunsKeepHistory(id: NodeID, actions: seq<Action>)
    requires IsRun(id, actions) && OrderlyRun(id, actions)
    ensures HistoryKept(id, actions)
  {
    if actions != [] {
      OrderlyRunsKeepHistory(id, actions[..|actions| - 1]);
    }
  }

  lemma WriteKeepsKey(s: State, key: Key, reg: Register, full: bool, c: Clock, k: Key)
    requires KeyOk(s, k) && (k == key && key in View(s).store ==> Below(View(s).store[key], reg))
    ensures KeyOk(Store(s.(clock := c), key, reg, full), k)
  {
    hide AllRegs, View;
    WriteRegs(s, key, reg, full, c, k);
    if k == key {
      forall r | r in AllRegs(s, k) ensures Below(r, reg) {
        BelowTransitive(r, View(s).store[k], reg);
      }
      assert Below(reg, reg);
    }
  }

  lemma FinishKeepsKey(e: Engine, k: Key)
    requires Inv(e) && Enabled(e, Finish) && KeyOk(e.s, k)
    ensures KeyOk(Step(e, Finish).s, k)
  {
    var s, task, all := e.s, e.phase.task, AllRegs(e.s, k);
    var merged := MergeFiles(task.inputs);
    FinishRegs(e, k);
    assert View(Step(e, Finish).s).store == View(s).store;
    if k in merged {
      MergedIsTop(task, k);
      var y :| y in RegsOf(task.inputs, k) && Equiv(y, merged[k]);
      EquivJoinsChain(all, y, merged[k]);
      BelowTransitive(merged[k], y, View(s).store[k]);
    }
  }

  lemma StepKeepsKeys(e: Engine, a: Action)
    requires Inv(e) && ClocksUp(e.s) && KeysOk(e.s) && Enabled(e, a) && Orderly(e, a)
    ensures KeysOk(Step(e, a).s)
  {
    forall k ensures KeyOk(Step(e, a).s, k) {
      assert KeyOk(e.s, k);
      match a
      case Put(key, value, full) => PutKeepsKey(e, key, value, full, k);
      case Receive(key, incoming, full, missed) =>
        ReadRefines(e.s, key, missed);
        WriteKeepsKey(e.s, key, Winner(View(e.s), key, incoming), full, Join(e.s.clock, incoming.clock), k);
      case Finish => FinishKeepsKey(e, k);
      case _ =>
        QuietRegs(e, a, k);
        assert View(Step(e, a).s).store == View(e.s).store;
    }
  }

  lemma PutKeepsKey(e: Engine, key: Key, value: ByteString, full: bool, k: Key)
    requires ClocksUp(e.s) && KeyOk(e.s, k) && Get(e.s.clock, e.s.id) != U64 - 1
    ensures KeyOk(PutLocal(e.s, key, value, full), k)
  {
    var c := Tick(e.s.clock, e.s.id);
    IncrementAdvancesIff(e.s.clock, e.s.id);
    assert KeyUp(e.s, key);
    if key in View(e.s).store {
      var previous := View(e.s).store[key].clock;
      LeqTransitive(previous, e.s.clock, c);
      if Leq(c, previous) {
        LeqTransitive(c, previous, e.s.clock);
      }
    }
    WriteKeepsKey(e.s, key, Register(value, c), full, c, k);
  }

  /** After an orderly run the registers of every key form a chain. */
  lemma {:induction false} RunKeepsKeys(id: NodeID, actions: seq<Action>)
    requires IsRun(id, actions) && OrderlyRun(id, actions)
    ensures KeysOk(Outcome(id, actions).s)
  {
    if actions == [] {
      forall k ensures KeyOk(Start(id), k) {
        StartHasNone(id, k);
      }
    } else {
      var last := |actions| - 1;
      RunKeepsKeys(id, actions[..last]);
      RunKeepsInv(id, actions[..last]);
      OrderlyRunsKeepHistory(id, actions[..last]);
      RunKeepsUp(id, actions[..last]);
      StepKeepsKeys(Outcome(id, actions[..last]), actions[last]);
    }
  }

  /** With local writes only every run is orderly, as long as the counter does not wrap. */
  lemma {:induction false} LocalRunsAreOrderly(id: NodeID, actions: seq<Action>)
    requires IsRun(id, actions) && |actions| < U64 && OnlyLocal(actions)
    ensures OrderlyRun(id, actions) && Get(Outcome(id, actions).s.clock, id) <= |actions| && Outcome(id, actions).s.id == id
  {
    if actions != [] {
      hide Inv, Step, Enabled;
      var last := |actions| - 1;
      LocalRunsAreOrderly(id, actions[..last]);
      RunKeepsInv(id, actions[..last]);
      LocalStepCounts(Outcome(id, actions[..last]), actions[last]);
    }
  }

  /** Only a local write moves the counter, and by one. */
  lemma LocalStepCounts(e: Engine, a: Action)
    requires Inv(e) && Enabled(e, a) && !a.Receive?
    ensures var s' := Step(e, a).s; s'.id == e.s.id && Get(s'.clock, s'.id) <= Get(e.s.clock, e.s.id) + 1
  {
    if !a.Put? && !a.Finish? {
      QuietRegs(e, a, []);
    }
  }
}
