/** Every interleaving of writes, freezes, flushes and the three phases of a compaction. */
module EngineRuns {
  import opened Bytes
  import opened VectorClocks
  import opened Crdt
  import opened Database
  import opened Lsm
  import opened Compaction

  datatype Phase = Idle | Planned(task: Task) | Executed(task: Task, output: Option<File>)

  datatype Engine = Engine(s: State, phase: Phase, flushed: nat, compactions: nat)

  datatype Action =
    | Put(key: Key, value: ByteString, full: bool)  // a removal puts the empty value
    | Receive(key: Key, incoming: Register, full: bool, missed: Misses)
    | Flush
    | Plan
    | Execute
    | Finish
    | Resort(layout: Layout)

  // ----- steps -----

  predicate SameFiles(a: Layout, b: Layout) {
    |a| == |b| && forall l :: 0 <= l < |a| ==> multiset(a[l]) == multiset(b[l])
  }

  predicate Enabled(e: Engine, a: Action) {
    match a
    case Put(_, _, _) => true
    case Receive(_, _, _, _) => true
    case Flush => WellShaped(e.s)
    case Plan => WellShaped(e.s) && e.phase.Idle? && LevelToCompact(e.s.meta, 0).Some?
    case Execute => e.phase.Planned?
    case Finish => WellShaped(e.s) && e.phase.Executed? && e.phase.task.level < 6
    case Resort(layout) => SameFiles(e.s.layout, layout)
  }

  function NewTask(s: State, level: nat): Task
    requires WellShaped(s) && level < 7
  {
    Task(level, s.meta[level], s.layout[level], s.nextName)
  }

  lemma PlannedLevel(s: State)
    requires WellShaped(s)
    ensures forall l :: LevelToCompact(s.meta, 0) == Some(l) ==> l < 6
  {
    PlanFindsFirst(s.meta, 0);
  }

  ghost function Step(e: Engine, a: Action): Engine
    requires Enabled(e, a)
  {
    match a
    case Put(key, value, full) => e.(s := PutLocal(e.s, key, value, full))
    case Receive(key, incoming, full, missed) => e.(s := PutRemote(e.s, key, incoming, full, missed))
    case Flush =>
      var s' := FlushFrom(e.s, 0);
      e.(s := s', flushed := e.flushed + (s'.nextName - e.s.nextName))
    case Plan =>
      PlannedLevel(e.s);
      e.(phase := Planned(NewTask(e.s, LevelToCompact(e.s.meta, 0).value)), s := e.s.(nextName := e.s.nextName + 1))
    case Execute => e.(phase := Executed(e.phase.task, Output(e.phase.task)))
    case Finish => e.(s := Apply(e.s, e.phase.task, e.phase.output), phase := Idle, compactions := e.compactions + 1)
    case Resort(layout) => e.(s := e.s.(layout := layout))
  }

  ghost predicate IsRun(id: NodeID, actions: seq<Action>)
    decreases |actions|, 0
  {
    actions == [] ||
    (IsRun(id, actions[..|actions| - 1]) && Enabled(Outcome(id, actions[..|actions| - 1]), actions[|actions| - 1]))
  }

  ghost function Outcome(id: NodeID, actions: seq<Action>): Engine
    requires IsRun(id, actions)
    decreases |actions|, 1
  {
    if actions == [] then Engine(Start(id), Idle, 0, 0)
    else Step(Outcome(id, actions[..|actions| - 1]), actions[|actions| - 1])
  }

  lemma RunAndThen(id: NodeID, actions: seq<Action>, a: Action)
    requires IsRun(id, actions) && Enabled(Outcome(id, actions), a)
    ensures IsRun(id, actions + [a]) && Outcome(id, actions + [a]) == Step(Outcome(id, actions), a)
  {
    assert (actions + [a])[..|actions + [a]| - 1] == actions;
  }

  // ----- names and tasks -----

  predicate FileAt(layout: Layout, l: nat, f: File) {
    l < |layout| && f in layout[l]
  }

  ghost predicate NamesAgree(s: State)
    requires WellShaped(s)
  {
    && (forall l: nat, f :: FileAt(s.layout, l, f) ==> f.name in s.meta[l])
    && (forall l: nat, n :: l < 7 && n in s.meta[l] ==> exists f :: FileAt(s.layout, l, f) && f.name == n)
  }

  ghost predicate NamesUsed(s: State, n: nat) {
    forall l: nat, f :: FileAt(s.layout, l, f) ==> f.name < n
  }

  ghost predicate NamesUnique(s: State) {
    forall l: nat, f, j: nat, g :: FileAt(s.layout, l, f) && FileAt(s.layout, j, g) && f.name == g.name ==> l == j && f == g
  }

  ghost predicate FilesOk(s: State) {
    WellShaped(s) && NamesAgree(s) && NamesUsed(s, s.nextName) && NamesUnique(s)
  }

  ghost predicate TaskOk(s: State, task: Task) {
    && TaskFits(s, task)
    && NamesFit(s, task)
    && (forall f :: f in task.inputs ==> f.name in task.names)
    && (forall n :: n in task.names ==> exists f :: f in task.inputs && f.name == n)
    && task.outName < s.nextName
    && (forall l: nat, f :: FileAt(s.layout, l, f) ==> f.name != task.outName)
    && (forall n :: n in task.names ==> n < task.outName)
  }

  ghost predicate PhaseOk(e: Engine) {
    match e.phase
    case Idle => true
    case Planned(task) => TaskOk(e.s, task)
    case Executed(task, output) => TaskOk(e.s, task)
  }

  ghost predicate OutputOk(e: Engine) {
    e.phase.Executed? ==> e.phase.output == Output(e.phase.task)
  }

  ghost predicate Inv(e: Engine) {
    FilesOk(e.s) && PhaseOk(e) && OutputOk(e) && FilesAreShadowed(e.s)
  }

  // ----- writes -----

  lemma StoreKeepsInv(e: Engine, key: Key, reg: Register, full: bool, c: Clock)
    requires Inv(e)
    ensures Inv(e.(s := Store(e.s.(clock := c), key, reg, full)))
  {
    var t := e.s.(clock := c);
    assert Tables(t) == Tables(e.s);
    StoreIsUpdate(t, key, reg, full);
    hide Overlay;
  }

  // ----- files -----

  lemma SameTables(s: State, t: State)
    requires s.active == t.active && |s.imm| == |t.imm|
    requires forall i :: 0 <= i < |s.imm| ==> s.imm[i].mt == t.imm[i].mt
    ensures Tables(s) == Tables(t)
  {
  }

  lemma FlushOneKeeps(e: Engine, mt: Table)
    requires FilesOk(e.s) && PhaseOk(e) && FilesAreShadowed(e.s) && mt in Tables(e.s)
    ensures var e' := e.(s := FlushOne(e.s, mt)); FilesOk(e'.s) && PhaseOk(e') && FilesAreShadowed(e'.s)
  {
    if mt != map[] {
      FlushOneKeepsFiles(e, mt);
      FlushOneKeepsTask(e, mt);
      FlushedIsShadowed(e.s, mt);
    }
  }

  lemma {:induction false} TableInOverlay(ts: seq<Table>, t: Table)
    requires t in ts
    ensures t.Keys <= Overlay(ts).Keys
  {
    if t != ts[0] {
      TableInOverlay(ts[1..], t);
    }
  }

  lemma FlushedIsShadowed(s: State, mt: Table)
    requires WellShaped(s) && FilesAreShadowed(s) && mt in Tables(s) && mt != map[]
    ensures FilesAreShadowed(FlushOne(s, mt))
  {
    var s' := FlushOne(s, mt);
    SameTables(s, s');
    TableInOverlay(Tables(s), mt);
    forall l, f | 0 <= l < |s'.layout| && f in s'.layout[l] ensures f.rows.Keys <= Overlay(Tables(s')).Keys {
      FlushedFileAt(s, mt, l, f);
      assert FileAt(s'.layout, l, f);
    }
  }

  lemma FlushedFileAt(s: State, mt: Table, l: nat, f: File)
    requires WellShaped(s) && mt != map[]
    ensures FileAt(FlushOne(s, mt).layout, l, f) <==> FileAt(s.layout, l, f) || (l == 0 && f == File(s.nextName, MinKey(mt), mt, 0))
  {
  }

  lemma FlushOneKeepsFiles(e: Engine, mt: Table)
    requires FilesOk(e.s) && mt != map[]
    ensures FilesOk(FlushOne(e.s, mt))
  {
    var s, s', added := e.s, FlushOne(e.s, mt), File(e.s.nextName, MinKey(mt), mt, 0);
    forall l: nat, f ensures FileAt(s'.layout, l, f) <==> FileAt(s.layout, l, f) || (l == 0 && f == added) {
      FlushedFileAt(s, mt, l, f);
    }
    forall l: nat, f | FileAt(s'.layout, l, f) ensures f.name in s'.meta[l] {
      if f != added || l != 0 {
        assert FileAt(s.layout, l, f);
      }
    }
    forall l: nat, n | l < 7 && n in s'.meta[l] ensures exists f :: FileAt(s'.layout, l, f) && f.name == n {
      if l == 0 && n == added.name {
        assert FileAt(s'.layout, 0, added);
      } else {
        assert n in s.meta[l];
        var f :| FileAt(s.layout, l, f) && f.name == n;
        assert FileAt(s'.layout, l, f);
      }
    }
  }

  lemma FlushOneKeepsTask(e: Engine, mt: Table)
    requires FilesOk(e.s) && PhaseOk(e) && mt != map[]
    ensures PhaseOk(e.(s := FlushOne(e.s, mt)))
  {
    if !e.phase.Idle? {
      var s, s', task := e.s, FlushOne(e.s, mt), e.phase.task;
      forall l: nat, f ensures FileAt(s'.layout, l, f) <==> FileAt(s.layout, l, f) || (l == 0 && f == File(s.nextName, MinKey(mt), mt, 0)) {
        FlushedFileAt(s, mt, l, f);
      }
      assert NamesFit(s', task) by {
        if task.level == 0 {
          assert s'.meta[0][|task.names|..] == s.meta[0][|task.names|..] + [s.nextName];
        }
      }
      assert TaskFits(s', task) by {
        forall f | f in s'.layout[task.level] && f.name in InputNames(task.inputs) ensures f in task.inputs {
          assert FileAt(s'.layout, task.level, f);
          assert FileAt(s.layout, task.level, f);
        }
        forall f | f in task.inputs ensures f in s'.layout[task.level] {
          assert FileAt(s.layout, task.level, f);
          assert FileAt(s'.layout, task.level, f);
        }
      }
    }
  }

  lemma MarkKeeps(e: Engine, i: nat)
    requires FilesOk(e.s) && PhaseOk(e) && FilesAreShadowed(e.s) && i < |e.s.imm|
    ensures var e' := e.(s := e.s.(imm := e.s.imm[i := e.s.imm[i].(flushed := true)]));
      FilesOk(e'.s) && PhaseOk(e') && FilesAreShadowed(e'.s) && Tables(e'.s) == Tables(e.s)
  {
    SameTables(e.s, e.s.(imm := e.s.imm[i := e.s.imm[i].(flushed := true)]));
  }

  lemma {:induction false} FlushKeeps(e: Engine, i: nat)
    requires FilesOk(e.s) && PhaseOk(e) && FilesAreShadowed(e.s)
    ensures var s' := FlushFrom(e.s, i);
      && FilesOk(s') && PhaseOk(e.(s := s')) && FilesAreShadowed(s')
      && Tables(s') == Tables(e.s) && s'.clock == e.s.clock && s'.id == e.s.id && s'.nextName >= e.s.nextName
    decreases |e.s.imm| - i
  {
    hide FilesOk, PhaseOk, FilesAreShadowed;
    if i < |e.s.imm| {
      if e.s.imm[i].flushed {
        FlushKeeps(e, i + 1);
      } else {
        var marked := e.(s := e.s.(imm := e.s.imm[i := e.s.imm[i].(flushed := true)]));
        var mt := e.s.imm[i].mt;
        MarkKeeps(e, i);
        assert mt == Tables(e.s)[i + 1];
        FlushOneKeeps(marked, mt);
        FlushKeeps(marked.(s := FlushOne(marked.s, mt)), i + 1);
        SameTables(marked.s, FlushOne(marked.s, mt));
      }
    }
  }

  lemma NewTaskOk(s: State, l: nat)
    requires FilesOk(s) && LevelToCompact(s.meta, 0) == Some(l) && l < 6 && |s.meta[l]| >= Threshold(l)
    ensures TaskOk(s.(nextName := s.nextName + 1), NewTask(s, l))
  {
    var task, s' := NewTask(s, l), s.(nextName := s.nextName + 1);
    forall f | f in task.inputs ensures f.name in task.names {
      assert FileAt(s.layout, l, f);
    }
    forall n | n in task.names ensures n < task.outName && exists f :: f in task.inputs && f.name == n {
      var f :| FileAt(s.layout, l, f) && f.name == n;
    }
  }

  lemma PlanKeepsInv(e: Engine)
    requires Inv(e) && Enabled(e, Plan)
    ensures Inv(Step(e, Plan))
  {
    hide TaskOk, LevelToCompact;
    PlanFindsFirst(e.s.meta, 0);
    var s' := e.s.(nextName := e.s.nextName + 1);
    NewTaskOk(e.s, LevelToCompact(e.s.meta, 0).value);
    SameTables(e.s, s');
  }

  lemma FinishedFileAt(s: State, task: Task, output: Option<File>, l: nat, f: File)
    requires WellShaped(s) && TaskFits(s, task)
    ensures FileAt(Apply(s, task, output).layout, l, f) <==>
      (FileAt(s.layout, l, f) && (l == task.level ==> f !in task.inputs)) || (output == Some(f) && l == task.level + 1)
  {
    if l < 7 {
      AppliedFiles(s, task, output, l, f);
    }
  }

  lemma InputByName(s: State, task: Task, f: File)
    requires FilesOk(s) && TaskOk(s, task) && FileAt(s.layout, task.level, f)
    ensures f.name in task.names <==> f in task.inputs
  {
    if f.name in task.names {
      var g :| g in task.inputs && g.name == f.name;
      assert FileAt(s.layout, task.level, g);
    }
  }

  lemma MetaAfter(s: State, task: Task, output: Option<File>, l: nat, n: nat)
    requires WellShaped(s) && NamesFit(s, task) && l < 7
    ensures n in Apply(s, task, output).meta[l] <==>
      (n in s.meta[l] && (l == task.level ==> n in s.meta[l][|task.names|..])) ||
      (output.Some? && l == task.level + 1 && n == task.outName)
  {
    NamesAfter(s, task);
    assert s.meta[task.level] == task.names + s.meta[task.level][|task.names|..];
  }

  lemma NameNotDone(s: State, task: Task, n: nat)
    requires NamesFit(s, task)
    ensures n in s.meta[task.level][|task.names|..] <==> n in s.meta[task.level] && n !in task.names
  {
    assert s.meta[task.level] == task.names + s.meta[task.level][|task.names|..];
  }

  lemma FinishKeepsNames(s: State, task: Task)
    requires FilesOk(s) && TaskOk(s, task)
    ensures NamesAgree(Apply(s, task, Output(task)))
  {
    var output := Output(task);
    var s' := Apply(s, task, output);
    forall l: nat, f | FileAt(s'.layout, l, f) ensures f.name in s'.meta[l] {
      FinishedFileAt(s, task, output, l, f);
      MetaAfter(s, task, output, l, f.name);
      if l == task.level {
        InputByName(s, task, f);
        NameNotDone(s, task, f.name);
      }
    }
    forall l: nat, n | l < 7 && n in s'.meta[l] ensures exists f :: FileAt(s'.layout, l, f) && f.name == n {
      FinishKeepsName(s, task, l, n);
    }
  }

  lemma FinishKeepsName(s: State, task: Task, l: nat, n: nat)
    requires FilesOk(s) && TaskOk(s, task) && l < 7
    requires n in Apply(s, task, Output(task)).meta[l]
    ensures exists f :: FileAt(Apply(s, task, Output(task)).layout, l, f) && f.name == n
  {
    var output := Output(task);
    MetaAfter(s, task, output, l, n);
    NameNotDone(s, task, n);
    if output.Some? && l == task.level + 1 && n == task.outName {
      FinishedFileAt(s, task, output, l, output.value);
    } else {
      var f :| FileAt(s.layout, l, f) && f.name == n;
      if l == task.level {
        InputByName(s, task, f);
      }
      FinishedFileAt(s, task, output, l, f);
    }
  }

  lemma FinishKeepsFiles(s: State, task: Task)
    requires FilesOk(s) && TaskOk(s, task)
    ensures FilesOk(Apply(s, task, Output(task)))
  {
    var output := Output(task);
    var s' := Apply(s, task, output);
    FinishKeepsNames(s, task);
    forall l: nat, f
      ensures FileAt(s'.layout, l, f) ==> FileAt(s.layout, l, f) || (output == Some(f) && l == task.level + 1)
    {
      FinishedFileAt(s, task, output, l, f);
    }
  }

  lemma FinishedIsShadowed(s: State, task: Task)
    requires WellShaped(s) && TaskFits(s, task) && FilesAreShadowed(s)
    ensures FilesAreShadowed(Apply(s, task, Output(task)))
  {
    var output := Output(task);
    var s' := Apply(s, task, output);
    SameTables(s, s');
    forall l, f | 0 <= l < |s'.layout| && f in s'.layout[l] ensures f.rows.Keys <= Overlay(Tables(s)).Keys {
      AppliedFiles(s, task, output, l, f);
      forall k | k in f.rows && output == Some(f) ensures k in Overlay(Tables(s)) {
        MergedKeys(task.inputs, k);
        var r :| r in RegsOf(task.inputs, k);
        var g :| g in task.inputs && k in g.rows && g.rows[k] == r;
        assert g in s.layout[task.level];
      }
    }
  }

  lemma FinishKeepsInv(e: Engine)
    requires Inv(e) && Enabled(e, Finish)
    ensures Inv(Step(e, Finish))
  {
    FinishKeepsFiles(e.s, e.phase.task);
    FinishedIsShadowed(e.s, e.phase.task);
  }

  lemma SameFilesAt(e: Engine, layout: Layout)
    requires WellShaped(e.s) && Enabled(e, Resort(layout))
    ensures forall l: nat, f :: FileAt(layout, l, f) <==> FileAt(e.s.layout, l, f)
  {
    forall l: nat, f ensures FileAt(layout, l, f) <==> FileAt(e.s.layout, l, f) {
      if l < 7 {
        assert f in layout[l] <==> f in multiset(layout[l]);
        assert f in e.s.layout[l] <==> f in multiset(e.s.layout[l]);
      }
    }
  }

  lemma ResortKeepsInv(e: Engine, layout: Layout)
    requires Inv(e) && Enabled(e, Resort(layout))
    ensures Inv(Step(e, Resort(layout)))
  {
    var s' := e.s.(layout := layout);
    SameTables(e.s, s');
    SameFilesAt(e, layout);
    ResortKeepsFiles(e, layout);
    forall l, f | 0 <= l < |layout| && f in layout[l] ensures f.rows.Keys <= Overlay(Tables(s')).Keys {
      assert FileAt(layout, l, f) && FileAt(e.s.layout, l, f);
    }
  }

  lemma ResortKeepsFiles(e: Engine, layout: Layout)
    requires FilesOk(e.s) && PhaseOk(e) && |layout| == 7
    requires forall l: nat, f :: FileAt(layout, l, f) <==> FileAt(e.s.layout, l, f)
    ensures FilesOk(e.s.(layout := layout)) && PhaseOk(e.(s := e.s.(layout := layout)))
  {
    var s, s' := e.s, e.s.(layout := layout);
    forall l: nat, n | l < 7 && n in s'.meta[l] ensures exists f :: FileAt(s'.layout, l, f) && f.name == n {
      var f :| FileAt(s.layout, l, f) && f.name == n;
      assert FileAt(layout, l, f);
    }
    if !e.phase.Idle? {
      var task := e.phase.task;
      forall f ensures f in layout[task.level] <==> f in s.layout[task.level] {
        assert FileAt(layout, task.level, f) <==> FileAt(s.layout, task.level, f);
      }
    }
  }

  lemma StepKeepsInv(e: Engine, a: Action)
    requires Inv(e) && Enabled(e, a)
    ensures Inv(Step(e, a))
  {
    match a
    case Put(key, value, full) =>
      var c := Tick(e.s.clock, e.s.id);
      StoreKeepsInv(e, key, Register(value, c), full, c);
    case Receive(key, incoming, full, missed) =>
      ReadRefines(e.s, key, missed);
      StoreKeepsInv(e, key, Winner(View(e.s), key, incoming), full, Join(e.s.clock, incoming.clock));
    case Flush => FlushKeeps(e, 0);
    case Plan => PlanKeepsInv(e);
    case Execute =>
    case Finish => FinishKeepsInv(e);
    case Resort(layout) => ResortKeepsInv(e, layout);
  }

  /** After every run: layout and metadata name the same files, a planned compaction still fits, and every
      key of every file is in some table. */
  lemma {:induction false} RunKeepsInv(id: NodeID, actions: seq<Action>)
    requires IsRun(id, actions)
    ensures Inv(Outcome(id, actions))
  {
    if actions != [] {
      var last := |actions| - 1;
      RunKeepsInv(id, actions[..last]);
      StepKeepsInv(Outcome(id, actions[..last]), actions[last]);
    }
  }

  // ----- the engine refines the abstract database -----

  function AbstractStep(d: Db, a: Action): Db {
    match a
    case Put(key, value, _) => LocalPut(d, key, value)
    case Receive(key, incoming, _, _) => RemotePut(d, key, incoming)
    case _ => d
  }

  function AbstractRun(id: NodeID, actions: seq<Action>): Db {
    if actions == [] then Db(id, map[], map[])
    else AbstractStep(AbstractRun(id, actions[..|actions| - 1]), actions[|actions| - 1])
  }

  lemma StepRefines(e: Engine, a: Action)
    requires Inv(e) && Enabled(e, a)
    ensures View(Step(e, a).s) == AbstractStep(View(e.s), a)
  {
    match a
    case Put(key, value, full) => PutLocalRefines(e.s, key, value, full);
    case Receive(key, incoming, full, missed) => PutRemoteRefines(e.s, key, incoming, full, missed);
    case Flush => FlushKeeps(e, 0);
    case Plan => SameTables(e.s, Step(e, Plan).s);
    case Execute =>
    case Finish => SameTables(e.s, Step(e, Finish).s);
    case Resort(layout) => SameTables(e.s, Step(e, Resort(layout)).s);
  }

  lemma {:induction false} RunRefines(id: NodeID, actions: seq<Action>)
    requires IsRun(id, actions)
    ensures View(Outcome(id, actions).s) == AbstractRun(id, actions)
  {
    if actions == [] {
      assert Tables(Start(id)) == [map[]] && Tables(Start(id))[1..] == [];
      assert Overlay(Tables(Start(id))) == map[] + map[];
    } else {
      var last := |actions| - 1;
      RunRefines(id, actions[..last]);
      RunKeepsInv(id, actions[..last]);
      StepRefines(Outcome(id, actions[..last]), actions[last]);
    }
  }

  /** After every run a read returns what the plain map holds: the last register put or merged, none if its
      value is empty. */
  lemma ReadAfterRun(id: NodeID, actions: seq<Action>, key: Key, missed: Misses)
    requires IsRun(id, actions)
    ensures Read(Outcome(id, actions).s, key, missed) == GetCrdt(AbstractRun(id, actions), key)
  {
    RunKeepsInv(id, actions);
    RunRefines(id, actions);
    ReadRefines(Outcome(id, actions).s, key, missed);
  }

  // ----- local writes alone: the plain map of last values -----

  predicate OnlyLocal(actions: seq<Action>) {
    forall i :: 0 <= i < |actions| ==> !actions[i].Receive?
  }

  /** What the clients have put, last value per key; a removal leaves the empty value. */
  function LastPuts(actions: seq<Action>): map<Key, ByteString> {
    if actions == [] then map[] else
      var n := |actions| - 1;
      match actions[n]
      case Put(key, value, _) => LastPuts(actions[..n])[key := value]
      case _ => LastPuts(actions[..n])
  }

  predicate HoldsValues(d: Db, m: map<Key, ByteString>) {
    d.store.Keys == m.Keys && forall k :: k in m ==> d.store[k].value == m[k]
  }

  lemma {:induction false} AbstractHoldsPuts(id: NodeID, actions: seq<Action>)
    requires OnlyLocal(actions)
    ensures HoldsValues(AbstractRun(id, actions), LastPuts(actions))
  {
    if actions != [] {
      AbstractHoldsPuts(id, actions[..|actions| - 1]);
    }
  }

  /** With local writes only, a read returns the last value put on the key, and nothing if there is none or
      it is empty, whatever was frozen, flushed and compacted in between. */
  lemma ReadIsLastPut(id: NodeID, actions: seq<Action>, key: Key, missed: Misses)
    requires IsRun(id, actions) && OnlyLocal(actions)
    ensures var m, r := LastPuts(actions), Read(Outcome(id, actions).s, key, missed);
      && (r.Some? <==> key in m && m[key] != [])
      && (r.Some? ==> r.value.value == m[key])
  {
    ReadAfterRun(id, actions, key, missed);
    AbstractHoldsPuts(id, actions);
  }
}
