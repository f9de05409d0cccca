/** The append-only record of which table files each level holds, and what loading it gives back. */
module Manifests {
  import opened VectorClocks
  import opened Lsm
  import opened EngineRuns

  datatype Record = Add(level: nat, name: nat) | Del(level: nat, name: nat)

  /** What loading makes of the records: additions in order, deletions ignored. */
  function Loaded(records: seq<Record>): (levels: Names)
    ensures |levels| == 7
  {
    if records == [] then seq(7, _ => []) else
      var n := |records| - 1;
      var levels := Loaded(records[..n]);
      match records[n]
      case Add(level, name) => if level < 7 then levels[level := levels[level] + [name]] else levels
      case Del(_, _) => levels
  }

  function Adds(level: nat, names: seq<nat>): (r: seq<Record>)
    ensures |r| == |names|
  {
    seq(|names|, i requires 0 <= i < |names| => Add(level, names[i]))
  }

  function Dels(level: nat, names: seq<nat>): (r: seq<Record>)
    ensures |r| == |names|
  {
    seq(|names|, i requires 0 <= i < |names| => Del(level, names[i]))
  }

  // ----- the records a run of the engine writes -----

  function FlushedNames(s: State, s': State): seq<nat> {
    seq(if s'.nextName < s.nextName then 0 else s'.nextName - s.nextName, i => s.nextName + i)
  }

  ghost function Records(e: Engine, a: Action): seq<Record>
    requires Enabled(e, a)
  {
    match a
    case Flush => Adds(0, FlushedNames(e.s, FlushFrom(e.s, 0)))
    case Finish =>
      var task := e.phase.task;
      (if e.phase.output.Some? then [Add(task.level + 1, task.outName)] else []) + Dels(task.level, task.names)
    case _ => []
  }

  ghost function ManifestOf(id: NodeID, actions: seq<Action>): seq<Record>
    requires IsRun(id, actions)
  {
    if actions == [] then [] else
      var n := |actions| - 1;
      ManifestOf(id, actions[..n]) + Records(Outcome(id, actions[..n]), actions[n])
  }

  lemma {:induction false} LoadedAdds(records: seq<Record>, level: nat, names: seq<nat>)
    requires level < 7
    ensures Loaded(records + Adds(level, names)) == Loaded(records)[level := Loaded(records)[level] + names]
  {
    if names == [] {
      assert records + Adds(level, names) == records;
      assert Loaded(records)[level] + names == Loaded(records)[level];
    } else {
      var n := |names| - 1;
      LoadedAdds(records, level, names[..n]);
      var all, held := records + Adds(level, names), Loaded(records)[level];
      assert all[..|all| - 1] == records + Adds(level, names[..n]) && all[|all| - 1] == Add(level, names[n]);
      assert (held + names[..n]) + [names[n]] == held + names;
    }
  }

  lemma {:induction false} LoadedDels(records: seq<Record>, level: nat, names: seq<nat>)
    ensures Loaded(records + Dels(level, names)) == Loaded(records)
  {
    if names == [] {
      assert records + Dels(level, names) == records;
    } else {
      var n := |names| - 1;
      LoadedDels(records, level, names[..n]);
      assert (records + Dels(level, names))[..|records| + n] == records + Dels(level, names[..n]);
    }
  }

  lemma FlushOneAppendsName(s: State, mt: Table, names: seq<nat>)
    requires WellShaped(s)
    requires forall j :: 0 <= j < |names| ==> names[j] == FlushOne(s, mt).nextName + j
    ensures var next, all := FlushOne(s, mt), if mt == map[] then names else [s.nextName] + names;
      && next.meta[0] + names == s.meta[0] + all
      && (forall l :: 0 < l < 7 ==> next.meta[l] == s.meta[l])
      && forall j :: 0 <= j < |all| ==> all[j] == s.nextName + j
  {
  }

  lemma SameNames(a: seq<nat>, s: State, s': State)
    requires s'.nextName == s.nextName + |a| && forall j :: 0 <= j < |a| ==> a[j] == s.nextName + j
    ensures a == FlushedNames(s, s')
  {
  }

  /** Flushing appends consecutive fresh names to the first level. */
  lemma {:induction false} FlushAppendsNames(s: State, i: nat)
    requires WellShaped(s)
    ensures var s' := FlushFrom(s, i); s'.meta == s.meta[0 := s.meta[0] + FlushedNames(s, s')]
    decreases |s.imm| - i
  {
    if i >= |s.imm| {
      assert FlushedNames(s, s) == [];
      assert s.meta[0] + [] == s.meta[0];
      assert s.meta[0 := s.meta[0]] == s.meta;
    } else if s.imm[i].flushed {
      FlushAppendsNames(s, i + 1);
    } else {
      var marked := s.(imm := s.imm[i := s.imm[i].(flushed := true)]);
      var mt := s.imm[i].mt;
      var next := FlushOne(marked, mt);
      var s' := FlushFrom(next, i + 1);
      FlushAppendsNames(next, i + 1);
      var names := FlushedNames(next, s');
      var all := if mt == map[] then names else [s.nextName] + names;
      FlushOneAppendsName(marked, mt, names);
      SameNames(all, s, s');
      assert next.meta[0 := next.meta[0] + names] == s.meta[0 := s.meta[0] + all];
    }
  }

  /** What a step does to the loaded levels. */
  ghost function LoadedStep(levels: Names, e: Engine, a: Action): Names
    requires |levels| == 7 && Enabled(e, a)
  {
    match a
    case Flush => levels[0 := levels[0] + FlushedNames(e.s, FlushFrom(e.s, 0))]
    case Finish =>
      if e.phase.output.Some? then
        var l := e.phase.task.level + 1;
        levels[l := levels[l] + [e.phase.task.outName]]
      else levels
    case _ => levels
  }

  lemma LoadedRecords(records: seq<Record>, e: Engine, a: Action)
    requires Enabled(e, a)
    ensures Loaded(records + Records(e, a)) == LoadedStep(Loaded(records), e, a)
  {
    match a
    case Flush => LoadedAdds(records, 0, FlushedNames(e.s, FlushFrom(e.s, 0)));
    case Finish =>
      var task := e.phase.task;
      if e.phase.output.Some? {
        var added := Adds(task.level + 1, [task.outName]);
        assert added == [Add(task.level + 1, task.outName)];
        LoadedAdds(records, task.level + 1, [task.outName]);
        LoadedDels(records + added, task.level, task.names);
        assert records + Records(e, a) == (records + added) + Dels(task.level, task.names);
      } else {
        LoadedDels(records, task.level, task.names);
        assert records + Records(e, a) == records + Dels(task.level, task.names);
      }
    case _ => assert records + [] == records;
  }

  // ----- loading against the live files -----

  ghost predicate LiveLoaded(s: State, levels: Names)
    requires WellShaped(s) && |levels| == 7
  {
    forall l, n :: 0 <= l < 7 && n in s.meta[l] ==> n in levels[l]
  }

  /** `d` names a file that loading brings back on level `l` although it is gone. */
  predicate Stale(e: Engine, levels: Names, l: nat, d: nat) {
    && l < |levels| && l < |e.s.meta| && d in levels[l]
    && d !in e.s.meta[l] && d < e.s.nextName && (!e.phase.Idle? ==> e.phase.task.outName != d)
  }

  lemma StepKeepsLive(e: Engine, a: Action, levels: Names)
    requires Inv(e) && Enabled(e, a) && |levels| == 7 && LiveLoaded(e.s, levels)
    ensures WellShaped(Step(e, a).s) && LiveLoaded(Step(e, a).s, LoadedStep(levels, e, a))
  {
    match a
    case Flush => FlushAppendsNames(e.s, 0);
    case Finish => FinishKeepsLive(e, levels);
    case _ =>
  }

  lemma FinishKeepsLive(e: Engine, levels: Names)
    requires Inv(e) && Enabled(e, Finish) && |levels| == 7 && LiveLoaded(e.s, levels)
    ensures WellShaped(Step(e, Finish).s) && LiveLoaded(Step(e, Finish).s, LoadedStep(levels, e, Finish))
  {
    var s' := Step(e, Finish).s;
    forall l: nat, n | l < 7 && n in s'.meta[l] ensures n in LoadedStep(levels, e, Finish)[l] {
      MetaAfter(e.s, e.phase.task, e.phase.output, l, n);
    }
  }

  lemma FlushKeepsStale(e: Engine, levels: Names, l: nat, d: nat)
    requires Enabled(e, Flush) && |levels| == 7 && Stale(e, levels, l, d)
    ensures Stale(Step(e, Flush), LoadedStep(levels, e, Flush), l, d)
  {
    var s' := FlushFrom(e.s, 0);
    FlushAppendsNames(e.s, 0);
    assert d !in FlushedNames(e.s, s');
  }

  lemma StepKeepsStale(e: Engine, a: Action, levels: Names, l: nat, d: nat)
    requires Inv(e) && Enabled(e, a) && |levels| == 7 && Stale(e, levels, l, d)
    ensures Stale(Step(e, a), LoadedStep(levels, e, a), l, d)
  {
    match a
    case Flush => FlushKeepsStale(e, levels, l, d);
    case Finish => MetaAfter(e.s, e.phase.task, e.phase.output, l, d);
    case _ =>
  }

  /** Finishing a compaction leaves its first input behind in the manifest. */
  lemma FinishMakesStale(e: Engine, levels: Names)
    requires Inv(e) && Enabled(e, Finish) && |levels| == 7 && LiveLoaded(e.s, levels)
    ensures e.phase.task.names != []
    ensures Stale(Step(e, Finish), LoadedStep(levels, e, Finish), e.phase.task.level, e.phase.task.names[0])
  {
    var task := e.phase.task;
    var d := task.names[0];
    assert d in task.names && d in e.s.meta[task.level];
    MetaAfter(e.s, task, e.phase.output, task.level, d);
    NameNotDone(e.s, task, d);
  }

  lemma {:induction false} RunLoadsLive(id: NodeID, actions: seq<Action>)
    requires IsRun(id, actions)
    ensures var s := Outcome(id, actions).s; WellShaped(s) && LiveLoaded(s, Loaded(ManifestOf(id, actions)))
    decreases |actions|
  {
    if actions != [] {
      var n := |actions| - 1;
      var e, records := Outcome(id, actions[..n]), ManifestOf(id, actions[..n]);
      RunLoadsLive(id, actions[..n]);
      RunKeepsInv(id, actions[..n]);
      LoadedRecords(records, e, actions[n]);
      StepKeepsLive(e, actions[n], Loaded(records));
    }
  }

  /** `d` is stale on level `l` at the end of the run. */
  ghost predicate StaleAfter(id: NodeID, actions: seq<Action>, l: nat, d: nat)
    requires IsRun(id, actions)
  {
    Stale(Outcome(id, actions), Loaded(ManifestOf(id, actions)), l, d)
  }

  lemma StaleOneStepOn(id: NodeID, actions: seq<Action>, l: nat, d: nat)
    requires actions != [] && IsRun(id, actions)
    requires IsRun(id, actions[..|actions| - 1]) && StaleAfter(id, actions[..|actions| - 1], l, d)
    ensures StaleAfter(id, actions, l, d)
  {
    hide Inv, LoadedStep, Records;
    var n := |actions| - 1;
    var e, records := Outcome(id, actions[..n]), ManifestOf(id, actions[..n]);
    RunKeepsInv(id, actions[..n]);
    LoadedRecords(records, e, actions[n]);
    StepKeepsStale(e, actions[n], Loaded(records), l, d);
  }

  lemma StaleAfterFinish(id: NodeID, actions: seq<Action>) returns (l: nat, d: nat)
    requires actions != [] && IsRun(id, actions) && actions[|actions| - 1].Finish?
    ensures StaleAfter(id, actions, l, d)
  {
    hide Inv, LoadedStep, Records;
    var n := |actions| - 1;
    var e, records := Outcome(id, actions[..n]), ManifestOf(id, actions[..n]);
    RunKeepsInv(id, actions[..n]);
    RunLoadsLive(id, actions[..n]);
    LoadedRecords(records, e, actions[n]);
    FinishMakesStale(e, Loaded(records));
    l, d := e.phase.task.level, e.phase.task.names[0];
  }

  lemma {:induction false} CompactedRunIsStale(id: NodeID, actions: seq<Action>, i: nat) returns (l: nat, d: nat)
    requires IsRun(id, actions) && i < |actions| && actions[i].Finish?
    ensures StaleAfter(id, actions, l, d)
    decreases |actions|
  {
    hide StaleAfter;
    var n := |actions| - 1;
    if i == n {
      l, d := StaleAfterFinish(id, actions);
    } else {
      l, d := CompactedRunIsStale(id, actions[..n], i);
      StaleOneStepOn(id, actions, l, d);
    }
  }

  lemma {:induction false} UncompactedRunLoads(id: NodeID, actions: seq<Action>)
    requires IsRun(id, actions) && forall i :: 0 <= i < |actions| ==> !actions[i].Finish?
    ensures Loaded(ManifestOf(id, actions)) == Outcome(id, actions).s.meta
    decreases |actions|
  {
    if actions != [] {
      var n := |actions| - 1;
      var e, records := Outcome(id, actions[..n]), ManifestOf(id, actions[..n]);
      UncompactedRunLoads(id, actions[..n]);
      RunKeepsInv(id, actions[..n]);
      LoadedRecords(records, e, actions[n]);
      if actions[n].Flush? {
        FlushAppendsNames(e.s, 0);
      }
    }
  }

  /** Loading never misses a live file, and it gives back exactly the live files, in order, if and only if no
      compaction has finished: deletions are recorded but not replayed. */
  lemma LoadIsExactIff(id: NodeID, actions: seq<Action>)
    requires IsRun(id, actions)
    ensures var s, levels := Outcome(id, actions).s, Loaded(ManifestOf(id, actions));
      && WellShaped(s) && LiveLoaded(s, levels)
      && (levels == s.meta <==> forall i :: 0 <= i < |actions| ==> !actions[i].Finish?)
  {
    RunLoadsLive(id, actions);
    if i :| 0 <= i < |actions| && actions[i].Finish? {
      var l, d := CompactedRunIsStale(id, actions, i);
    } else {
      UncompactedRunLoads(id, actions);
    }
  }
}
