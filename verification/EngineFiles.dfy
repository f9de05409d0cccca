/** What every run of the engine keeps about its files: newer levels hold newer registers, metadata and
    layout name the same files, and compactions are paid for by flushes. */
module EngineFiles {
  import opened Bytes
  import opened VectorClocks
  import opened Crdt
  import opened Database
  import opened MergeTrees
  import opened Lsm
  import opened Compaction
  import opened EngineRuns
  import opened EngineOrder
  import opened EngineDisk

  // ----- recency -----

  /** For every key in both, `newer` holds the later or equal clock. */
  predicate NoOlder(newer: Table, older: Table) {
    forall k :: k in newer && k in older ==> Leq(older[k].clock, newer[k].clock)
  }

  predicate ActiveIsNewest(s: State) {
    forall i :: 0 <= i < |s.imm| ==> NoOlder(s.active, s.imm[i].mt)
  }

  ghost predicate TablesBeatFiles(s: State) {
    forall l: nat, f :: FileAt(s.layout, l, f) ==>
      NoOlder(s.active, f.rows) && forall i :: 0 <= i < |s.imm| && !s.imm[i].flushed ==> NoOlder(s.imm[i].mt, f.rows)
  }

  /** Any register at a level is no older than any register of the same key further down. */
  ghost predicate LevelsRecent(layout: Layout) {
    forall l: nat, f, j: nat, g :: FileAt(layout, l, f) && FileAt(layout, j, g) && l < j ==> NoOlder(f.rows, g.rows)
  }

  /** Files that joined a level after the plan are no older than the inputs. */
  ghost predicate InputsOldest(s: State, task: Task) {
    forall f, g :: FileAt(s.layout, task.level, f) && f !in task.inputs && g in task.inputs ==> NoOlder(f.rows, g.rows)
  }

  ghost predicate Recent(e: Engine) {
    && ActiveIsNewest(e.s) && TablesBeatFiles(e.s) && LevelsRecent(e.s.layout)
    && (!e.phase.Idle? ==> InputsOldest(e.s, e.phase.task))
  }

  /** A register no older than the newest one is no older than any of them. */
  lemma StoredIsNewest(s: State, key: Key, reg: Register, t: Table)
    requires KeyUp(s, key) && (key in View(s).store ==> Leq(View(s).store[key].clock, reg.clock))
    requires t in Tables(s) || exists l: nat, f :: FileAt(s.layout, l, f) && f.rows == t
    requires NoOlder(s.active, t)
    ensures NoOlder(s.active[key := reg], t)
  {
    if key in t {
      assert t[key] in AllRegs(s, key) by {
        if t !in Tables(s) {
          var l: nat, f :| FileAt(s.layout, l, f) && f.rows == t;
          assert f.rows[key] in RegsIn(s.layout, key);
        }
      }
      hide AllRegs;
      LeqTransitive(t[key].clock, View(s).store[key].clock, reg.clock);
    }
  }

  lemma StoreKeepsRecent(e: Engine, key: Key, reg: Register, full: bool)
    requires Recent(e) && KeyUp(e.s, key)
    requires key in View(e.s).store ==> Leq(View(e.s).store[key].clock, reg.clock)
    ensures Recent(e.(s := Store(e.s, key, reg, full)))
  {
    hide KeyUp, View, NoOlder;
    var s, s', active := e.s, Store(e.s, key, reg, full), e.s.active[key := reg];
    NothingIsNewest(active);
    forall i | 0 <= i < |s.imm| ensures NoOlder(active, s.imm[i].mt) && NoOlder(map[], s.imm[i].mt) {
      assert s.imm[i].mt == Tables(s)[i + 1];
      StoredIsNewest(s, key, reg, s.imm[i].mt);
      NothingIsNewest(s.imm[i].mt);
    }
    forall l: nat, f | FileAt(s.layout, l, f) ensures NoOlder(active, f.rows) && NoOlder(map[], f.rows) {
      StoredIsNewest(s, key, reg, f.rows);
      NothingIsNewest(f.rows);
    }
    assert full ==> forall i :: 0 < i < |s'.imm| ==> s'.imm[i] == s.imm[i - 1];
  }

  lemma NothingIsNewest(t: Table)
    ensures NoOlder(map[], t)
  {
  }

  // ----- flush -----

  /** A file after a flush was there before, or is one of the tables that were still unwritten. */
  lemma {:induction false} FlushedFiles(s: State, i: nat, l: nat, f: File)
    requires WellShaped(s) && FileAt(FlushFrom(s, i).layout, l, f)
    ensures FileAt(s.layout, l, f) ||
      (l == 0 && f.rewrites == 0 && exists j :: i <= j < |s.imm| && !s.imm[j].flushed && f.rows == s.imm[j].mt)
    decreases |s.imm| - i
  {
    if i < |s.imm| {
      if s.imm[i].flushed {
        FlushedFiles(s, i + 1, l, f);
      } else {
        var marked := s.(imm := s.imm[i := s.imm[i].(flushed := true)]);
        var next := FlushOne(marked, s.imm[i].mt);
        FlushedFiles(next, i + 1, l, f);
        if FileAt(next.layout, l, f) {
          if s.imm[i].mt != map[] {
            FlushedFileAt(marked, s.imm[i].mt, l, f);
          }
        } else {
          var j :| i + 1 <= j < |next.imm| && !next.imm[j].flushed && f.rows == next.imm[j].mt;
          assert next.imm[j] == s.imm[j];
        }
      }
    }
  }

  lemma {:induction false} FlushLeavesTables(s: State, i: nat)
    requires WellShaped(s)
    ensures var s' := FlushFrom(s, i);
      && s'.active == s.active && |s'.imm| == |s.imm|
      && (forall j :: 0 <= j < |s.imm| ==> s'.imm[j].mt == s.imm[j].mt)
      && (forall j :: 0 <= j < |s.imm| && (j >= i || s.imm[j].flushed) ==> s'.imm[j].flushed)
      && (forall l :: 0 < l < 7 ==> s'.layout[l] == s.layout[l] && s'.meta[l] == s.meta[l])
    decreases |s.imm| - i
  {
    if i < |s.imm| {
      if s.imm[i].flushed {
        FlushLeavesTables(s, i + 1);
      } else {
        FlushLeavesTables(FlushOne(s.(imm := s.imm[i := s.imm[i].(flushed := true)]), s.imm[i].mt), i + 1);
      }
    }
  }

  lemma FlushedTablesNewer(s: State, f: File, j: nat, g: File)
    requires WellShaped(s) && FileAt(FlushFrom(s, 0).layout, 0, f) && !FileAt(s.layout, 0, f)
    requires TablesBeatFiles(s) && FileAt(s.layout, j, g)
    ensures NoOlder(f.rows, g.rows)
  {
    FlushedFiles(s, 0, 0, f);
  }

  lemma FlushKeepsRecent(e: Engine)
    requires Recent(e) && FilesOk(e.s) && PhaseOk(e)
    ensures Recent(e.(s := FlushFrom(e.s, 0)))
  {
    var s, s' := e.s, FlushFrom(e.s, 0);
    FlushLeavesTables(s, 0);
    forall l: nat, f | FileAt(s'.layout, l, f) ensures NoOlder(s'.active, f.rows) {
      FlushedFiles(s, 0, l, f);
    }
    forall l: nat, f, j: nat, g | FileAt(s'.layout, l, f) && FileAt(s'.layout, j, g) && l < j ensures NoOlder(f.rows, g.rows) {
      assert FileAt(s.layout, j, g);
      if !FileAt(s.layout, l, f) {
        FlushedFiles(s, 0, l, f);
        FlushedTablesNewer(s, f, j, g);
      }
    }
    if !e.phase.Idle? {
      var task := e.phase.task;
      forall f, g | FileAt(s'.layout, task.level, f) && f !in task.inputs && g in task.inputs ensures NoOlder(f.rows, g.rows) {
        assert FileAt(s.layout, task.level, g);
        if !FileAt(s.layout, task.level, f) {
          FlushedFiles(s, 0, task.level, f);
          FlushedTablesNewer(s, f, task.level, g);
        }
      }
    }
  }

  // ----- compaction -----

  /** What is no older than every input is no older than their merge ... */
  lemma NoOlderThanMerge(task: Task, t: Table)
    requires forall g :: g in task.inputs ==> NoOlder(t, g.rows)
    ensures NoOlder(t, MergeFiles(task.inputs))
  {
    var m := MergeFiles(task.inputs);
    forall k | k in t && k in m ensures Leq(m[k].clock, t[k].clock) {
      var tree := MergedIsTree(task.inputs, k);
      EvalClockIsJoin(tree);
      assert Above(t[k].clock, Leaves(tree));
    }
  }

  /** ... and their merge is no older than any of them. */
  lemma MergeNoOlder(task: Task, t: Table)
    requires forall g :: g in task.inputs ==> NoOlder(g.rows, t)
    ensures NoOlder(MergeFiles(task.inputs), t)
  {
    var m := MergeFiles(task.inputs);
    forall k | k in m && k in t ensures Leq(t[k].clock, m[k].clock) {
      MergedKeys(task.inputs, k);
      var tree := MergedIsTree(task.inputs, k);
      EvalClockIsJoin(tree);
      assert Leq(m[k].clock, m[k].clock);
      var r :| r in RegsOf(task.inputs, k);
      var g :| g in task.inputs && k in g.rows && g.rows[k] == r;
      LeqTransitive(t[k].clock, r.clock, m[k].clock);
    }
  }

  lemma FinishKeepsRecent(e: Engine)
    requires Recent(e) && FilesOk(e.s) && PhaseOk(e) && OutputOk(e) && Enabled(e, Finish)
    ensures Recent(Step(e, Finish))
  {
    var s, task, output := e.s, e.phase.task, e.phase.output;
    var s' := Apply(s, task, output);
    assert forall g :: g in task.inputs ==> FileAt(s.layout, task.level, g);
    forall l: nat, f ensures FileAt(s'.layout, l, f) <==>
      (FileAt(s.layout, l, f) && (l == task.level ==> f !in task.inputs)) || (output == Some(f) && l == task.level + 1)
    {
      FinishedFileAt(s, task, output, l, f);
    }
    forall l: nat, f | FileAt(s'.layout, l, f)
      ensures NoOlder(s'.active, f.rows)
      ensures forall i :: 0 <= i < |s'.imm| && !s'.imm[i].flushed ==> NoOlder(s'.imm[i].mt, f.rows)
    {
      if !FileAt(s.layout, l, f) {
        NoOlderThanMerge(task, s.active);
        forall i | 0 <= i < |s.imm| && !s.imm[i].flushed ensures NoOlder(s.imm[i].mt, f.rows) {
          NoOlderThanMerge(task, s.imm[i].mt);
        }
      }
    }
    forall l: nat, f, j: nat, g | FileAt(s'.layout, l, f) && FileAt(s'.layout, j, g) && l < j ensures NoOlder(f.rows, g.rows) {
      FinishedPair(e, l, f, j, g);
    }
  }

  lemma FinishedPair(e: Engine, l: nat, f: File, j: nat, g: File)
    requires Recent(e) && FilesOk(e.s) && PhaseOk(e) && OutputOk(e) && Enabled(e, Finish)
    requires var layout := Step(e, Finish).s.layout; FileAt(layout, l, f) && FileAt(layout, j, g) && l < j
    ensures NoOlder(f.rows, g.rows)
  {
    var s, task, output := e.s, e.phase.task, e.phase.output;
    FinishedFileAt(s, task, output, l, f);
    FinishedFileAt(s, task, output, j, g);
    assert forall h :: h in task.inputs ==> FileAt(s.layout, task.level, h);
    if output == Some(g) && j == task.level + 1 {
      NoOlderThanMerge(task, f.rows);
    } else if output == Some(f) && l == task.level + 1 {
      MergeNoOlder(task, g.rows);
    }
  }

  lemma StepKeepsRecent(e: Engine, a: Action)
    requires Inv(e) && Recent(e) && ClocksUp(e.s) && Enabled(e, a) && KeepsHistory(e, a)
    ensures Recent(Step(e, a))
  {
    match a
    case Put(key, value, full) =>
      assert KeyUp(e.s, key);
      var c := Tick(e.s.clock, e.s.id);
      IncrementAdvancesIff(e.s.clock, e.s.id);
      if key in View(e.s).store {
        LeqTransitive(View(e.s).store[key].clock, e.s.clock, c);
      }
      StoreKeepsRecent(e, key, Register(value, c), full);
      SameButClock(e, key, Register(value, c), full, c);
    case Receive(key, incoming, full, missed) =>
      assert KeyUp(e.s, key);
      ReadRefines(e.s, key, missed);
      var r := Winner(View(e.s), key, incoming);
      WinnerMovesUp(View(e.s), key, incoming);
      StoreKeepsRecent(e, key, r, full);
      SameButClock(e, key, r, full, Join(e.s.clock, incoming.clock));
    case Flush => FlushKeepsRecent(e);
    case Plan => PlannedLevel(e.s);
    case Execute =>
    case Finish => FinishKeepsRecent(e);
    case Resort(layout) => ResortKeepsRecent(e, layout);
  }

  /** The clock plays no part in how recent the tables and files are. */
  lemma SameButClock(e: Engine, key: Key, reg: Register, full: bool, c: Clock)
    requires Recent(e.(s := Store(e.s, key, reg, full)))
    ensures Recent(e.(s := Store(e.s.(clock := c), key, reg, full)))
  {
    hide NoOlder;
  }

  lemma ResortKeepsRecent(e: Engine, layout: Layout)
    requires Recent(e) && FilesOk(e.s) && PhaseOk(e) && Enabled(e, Resort(layout))
    ensures Recent(Step(e, Resort(layout)))
  {
    SameFilesAt(e, layout);
  }

  lemma {:induction false} RunKeepsRecent(id: NodeID, actions: seq<Action>)
    requires IsRun(id, actions) && HistoryKept(id, actions)
    ensures Recent(Outcome(id, actions))
  {
    if actions != [] {
      var last := |actions| - 1;
      RunKeepsRecent(id, actions[..last]);
      RunKeepsInv(id, actions[..last]);
      RunKeepsUp(id, actions[..last]);
      StepKeepsRecent(Outcome(id, actions[..last]), actions[last]);
    }
  }

  /** After every run in which each write keeps the history of its key, newer levels hold newer registers; and
      both bookkeepings name the same files. */
  lemma LevelsStayRecent(id: NodeID, actions: seq<Action>)
    requires IsRun(id, actions) && HistoryKept(id, actions)
    ensures var s := Outcome(id, actions).s;
      LevelsRecent(s.layout) && WellShaped(s) && NamesAgree(s) && NamesUnique(s)
  {
    RunKeepsRecent(id, actions);
    RunKeepsInv(id, actions);
  }

  // ----- how often files are rewritten -----

  ghost predicate RewritesExact(layout: Layout) {
    forall l: nat, f :: FileAt(layout, l, f) ==> f.rewrites == l
  }

  lemma {:induction false} MaxRewritesIs(files: seq<File>, n: nat)
    requires files != [] && forall f :: f in files ==> f.rewrites == n
    ensures MaxRewrites(files) == n
  {
    if |files| > 1 {
      MaxRewritesIs(files[1..], n);
    } else {
      assert files[1..] == [];
    }
  }

  lemma {:induction false} FlushCounts(s: State, i: nat)
    requires WellShaped(s)
    ensures Total(FlushFrom(s, i).meta) - Total(s.meta) == FlushFrom(s, i).nextName - s.nextName
    decreases |s.imm| - i
  {
    if i < |s.imm| {
      if s.imm[i].flushed {
        FlushCounts(s, i + 1);
      } else {
        var marked := s.(imm := s.imm[i := s.imm[i].(flushed := true)]);
        FlushCounts(FlushOne(marked, s.imm[i].mt), i + 1);
        TotalUpdate(s.meta, 0, s.meta[0] + [s.nextName]);
      }
    }
  }

  ghost predicate Paid(e: Engine) {
    Total(e.s.meta) + 2 * e.compactions <= e.flushed && RewritesExact(e.s.layout)
  }

  lemma FlushKeepsPaid(e: Engine)
    requires WellShaped(e.s) && Paid(e)
    ensures Paid(Step(e, Flush))
  {
    FlushCounts(e.s, 0);
    forall l: nat, f | FileAt(FlushFrom(e.s, 0).layout, l, f) ensures f.rewrites == l {
      FlushedFiles(e.s, 0, l, f);
    }
  }

  lemma StepKeepsPaid(e: Engine, a: Action)
    requires Inv(e) && Paid(e) && Enabled(e, a)
    ensures Paid(Step(e, a))
  {
    match a
    case Put(_, _, _) =>
    case Receive(_, _, _, _) =>
    case Flush => FlushKeepsPaid(e);
    case Plan => PlannedLevel(e.s);
    case Execute =>
    case Finish => FinishKeepsPaid(e);
    case Resort(layout) => SameFilesAt(e, layout);
  }

  lemma FinishKeepsPaid(e: Engine)
    requires FilesOk(e.s) && PhaseOk(e) && OutputOk(e) && Paid(e) && Enabled(e, Finish)
    ensures Paid(Step(e, Finish))
  {
    var s, task, output := e.s, e.phase.task, e.phase.output;
    CompactionShrinks(s, task, output);
    assert forall f :: f in task.inputs ==> FileAt(s.layout, task.level, f);
    if output.Some? {
      assert task.inputs != [];
      MaxRewritesIs(task.inputs, task.level);
    }
    forall l: nat, f | FileAt(Apply(s, task, output).layout, l, f) ensures f.rewrites == l {
      FinishedFileAt(s, task, output, l, f);
    }
  }

  lemma {:induction false} PaidAfterRun(id: NodeID, actions: seq<Action>)
    requires IsRun(id, actions)
    ensures Paid(Outcome(id, actions))
  {
    if actions == [] {
      StartIsEmpty(Start(id).meta);
    } else {
      var last := |actions| - 1;
      PaidAfterRun(id, actions[..last]);
      RunKeepsInv(id, actions[..last]);
      StepKeepsPaid(Outcome(id, actions[..last]), actions[last]);
    }
  }

  /** From an empty start F flushed files pay for at most F/2 compactions, and every row has been rewritten
      as often as the number of the level it is on. */
  lemma FlushesPayForCompactions(id: NodeID, actions: seq<Action>)
    requires IsRun(id, actions)
    ensures var e := Outcome(id, actions);
      && Total(e.s.meta) + 2 * e.compactions <= e.flushed
      && forall l: nat, f :: FileAt(e.s.layout, l, f) ==> f.rewrites == l <= 6
  {
    PaidAfterRun(id, actions);
    RunKeepsInv(id, actions);
  }

  lemma {:induction false} StartIsEmpty(meta: Names)
    requires forall l :: 0 <= l < |meta| ==> meta[l] == []
    ensures Total(meta) == 0
  {
    if meta != [] {
      StartIsEmpty(meta[1..]);
    }
  }

  // ----- what the counters count -----

  function Finishes(actions: seq<Action>): nat {
    if actions == [] then 0 else
      var n := |actions| - 1;
      Finishes(actions[..n]) + if actions[n].Finish? then 1 else 0
  }

  /** The writes that froze a table. */
  function Freezes(actions: seq<Action>): nat {
    if actions == [] then 0 else
      var n := |actions| - 1;
      Freezes(actions[..n]) + if (actions[n].Put? || actions[n].Receive?) && actions[n].full then 1 else 0
  }

  ghost predicate Counted(e: Engine, finishes: nat, freezes: nat) {
    && e.compactions == finishes && |e.s.imm| == freezes
    && e.flushed + |Unwritten(e.s.imm, 0)| == freezes
    && forall i :: 0 <= i < |e.s.imm| ==> e.s.imm[i].mt != map[]
  }

  lemma {:induction false} UnwrittenShift(node: ImmNode, imm: seq<ImmNode>, i: nat)
    ensures Unwritten([node] + imm, i + 1) == Unwritten(imm, i)
    decreases |imm| - i
  {
    if i < |imm| {
      UnwrittenShift(node, imm, i + 1);
    }
  }

  lemma StoreCounts(e: Engine, key: Key, reg: Register, full: bool, c: Clock, finishes: nat, freezes: nat)
    requires Counted(e, finishes, freezes)
    ensures Counted(e.(s := Store(e.s.(clock := c), key, reg, full)), finishes, freezes + if full then 1 else 0)
  {
    if full {
      var node := ImmNode(e.s.active[key := reg], false);
      assert key in node.mt;
      UnwrittenShift(node, e.s.imm, 0);
      assert Unwritten([node] + e.s.imm, 0) == [node.mt] + Unwritten([node] + e.s.imm, 1);
    }
  }

  lemma StepCounts(e: Engine, a: Action, finishes: nat, freezes: nat)
    requires Inv(e) && Enabled(e, a) && Counted(e, finishes, freezes)
    ensures Counted(Step(e, a), finishes + (if a.Finish? then 1 else 0),
                    freezes + if (a.Put? || a.Receive?) && a.full then 1 else 0)
  {
    match a
    case Put(key, value, full) =>
      var c := Tick(e.s.clock, e.s.id);
      StoreCounts(e, key, Register(value, c), full, c, finishes, freezes);
    case Receive(key, incoming, full, missed) =>
      ReadRefines(e.s, key, missed);
      StoreCounts(e, key, Winner(View(e.s), key, incoming), full, Join(e.s.clock, incoming.clock), finishes, freezes);
    case Flush =>
      FlushAppends(e.s, 0);
      NothingUnwritten(FlushFrom(e.s, 0).imm, 0);
    case Plan => PlannedLevel(e.s);
    case Execute =>
    case Finish =>
    case Resort(_) =>
  }

  lemma {:induction false} RunCounts(id: NodeID, actions: seq<Action>)
    requires IsRun(id, actions)
    ensures Counted(Outcome(id, actions), Finishes(actions), Freezes(actions))
  {
    if actions != [] {
      hide Counted, Step, Enabled, Inv;
      var last := |actions| - 1;
      RunCounts(id, actions[..last]);
      RunKeepsInv(id, actions[..last]);
      StepCounts(Outcome(id, actions[..last]), actions[last], Finishes(actions[..last]), Freezes(actions[..last]));
    }
  }

  /** Every table that was ever frozen is written at most once, and the files there are and twice the compactions
      that have finished never outnumber them. */
  lemma FreezesPayForCompactions(id: NodeID, actions: seq<Action>)
    requires IsRun(id, actions)
    ensures Total(Outcome(id, actions).s.meta) + 2 * Finishes(actions) <= Freezes(actions)
  {
    RunCounts(id, actions);
    PaidAfterRun(id, actions);
  }

  /** A step other than a flush adds no file name, and a finished compaction takes at least two away. */
  lemma QuietStep(e: Engine, a: Action)
    requires Inv(e) && Enabled(e, a) && !a.Flush?
    ensures var e' := Step(e, a);
      && e'.compactions == e.compactions + (if a.Finish? then 1 else 0)
      && Total(e'.s.meta) + (if a.Finish? then 2 else 0) <= Total(e.s.meta)
  {
    match a
    case Plan => PlannedLevel(e.s);
    case Finish => CompactionShrinks(e.s, e.phase.task, e.phase.output);
    case _ =>
  }

  /** Without flushes the number of compactions is bounded by half the files there are. */
  lemma {:induction false} QuietRunsCompactFinitely(id: NodeID, actions: seq<Action>, n: nat)
    requires IsRun(id, actions) && n <= |actions| && IsRun(id, actions[..n])
    requires forall i :: n <= i < |actions| ==> !actions[i].Flush?
    ensures var e, e' := Outcome(id, actions[..n]), Outcome(id, actions);
      e'.compactions >= e.compactions && Total(e'.s.meta) + 2 * (e'.compactions - e.compactions) <= Total(e.s.meta)
    decreases |actions|
  {
    if n == |actions| {
      assert actions[..n] == actions;
    } else {
      hide Inv, Step, Enabled;
      var last := |actions| - 1;
      assert actions[..last][..n] == actions[..n];
      QuietRunsCompactFinitely(id, actions[..last], n);
      RunKeepsInv(id, actions[..last]);
      QuietStep(Outcome(id, actions[..last]), actions[last]);
    }
  }
}
