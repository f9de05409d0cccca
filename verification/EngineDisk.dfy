/** What the engine has put on disk: a flush writes every frozen table, compactions lose no key and no clock,
    and what reads find in files alone. */
module EngineDisk {
  import opened Bytes
  import opened VectorClocks
  import opened Crdt
  import opened Database
  import opened MergeTrees
  import opened Lsm
  import opened Compaction
  import opened EngineRuns
  import opened EngineOrder

  // ----- a flush writes what was unwritten -----

  /** The frozen tables that have rows and are not on disk yet, newest first. */
  function Unwritten(imm: seq<ImmNode>, i: nat): seq<Table>
    decreases |imm| - i
  {
    if i >= |imm| then []
    else (if imm[i].flushed || imm[i].mt == map[] then [] else [imm[i].mt]) + Unwritten(imm, i + 1)
  }

  ghost function FilesOf(ts: seq<Table>, name: nat): (files: seq<File>)
    ensures |files| == |ts|
  {
    seq(|ts|, k requires 0 <= k < |ts| => File(name + k, MinKey(ts[k]), ts[k], 0))
  }

  lemma FirstFile(t: Table, ts: seq<Table>, name: nat)
    ensures FilesOf([t] + ts, name) == [File(name, MinKey(t), t, 0)] + FilesOf(ts, name + 1)
  {
  }

  lemma {:induction false} UnwrittenSame(imm: seq<ImmNode>, other: seq<ImmNode>, i: nat)
    requires |imm| == |other| && forall j :: i <= j < |imm| ==> imm[j] == other[j]
    ensures Unwritten(imm, i) == Unwritten(other, i)
    decreases |imm| - i
  {
    if i < |imm| {
      UnwrittenSame(imm, other, i + 1);
    }
  }

  /** A flush appends one new file to the first level for each of them, in their order, touches no other file,
      and marks them all. */
  lemma {:induction false} FlushAppends(s: State, i: nat)
    requires WellShaped(s)
    ensures var s', ts := FlushFrom(s, i), Unwritten(s.imm, i);
      && s'.layout == s.layout[0 := s.layout[0] + FilesOf(ts, s.nextName)]
      && s'.nextName == s.nextName + |ts|
      && |s'.imm| == |s.imm|
      && forall j :: 0 <= j < |s.imm| ==> s'.imm[j] == ImmNode(s.imm[j].mt, s.imm[j].flushed || j >= i)
    decreases |s.imm| - i
  {
    hide MinKey;
    if i >= |s.imm| {
      assert s.layout[0] + FilesOf([], s.nextName) == s.layout[0];
      assert s.layout[0 := s.layout[0]] == s.layout;
    } else if s.imm[i].flushed {
      FlushAppends(s, i + 1);
      assert Unwritten(s.imm, i) == Unwritten(s.imm, i + 1);
    } else {
      var mt, marked := s.imm[i].mt, s.(imm := s.imm[i := s.imm[i].(flushed := true)]);
      FlushAppends(FlushOne(marked, mt), i + 1);
      UnwrittenSame(marked.imm, s.imm, i + 1);
      var later := Unwritten(s.imm, i + 1);
      if mt == map[] {
        assert Unwritten(s.imm, i) == later;
      } else {
        FirstFile(mt, later, s.nextName);
        var added := [File(s.nextName, MinKey(mt), mt, 0)];
        assert (s.layout[0] + added) + FilesOf(later, s.nextName + 1)
          == s.layout[0] + (added + FilesOf(later, s.nextName + 1));
        assert s.layout[0 := s.layout[0] + added][0 := s.layout[0] + FilesOf([mt] + later, s.nextName)]
          == s.layout[0 := s.layout[0] + FilesOf([mt] + later, s.nextName)];
      }
    }
  }

  lemma {:induction false} UnwrittenHas(imm: seq<ImmNode>, i: nat, j: nat)
    requires i <= j < |imm| && !imm[j].flushed && imm[j].mt != map[]
    ensures imm[j].mt in Unwritten(imm, i)
    decreases |imm| - i
  {
    if i < j {
      UnwrittenHas(imm, i + 1, j);
    }
  }

  ghost predicate WrittenAs(layout: Layout, t: Table, from: nat) {
    exists f :: FileAt(layout, 0, f) && f.rows == t && f.name >= from
  }

  /** So every table that was unwritten has its rows in a new file, and every file that was there stays. */
  lemma FlushWrites(s: State, j: nat)
    requires WellShaped(s) && j < |s.imm| && !s.imm[j].flushed && s.imm[j].mt != map[]
    ensures WrittenAs(FlushFrom(s, 0).layout, s.imm[j].mt, s.nextName)
    ensures forall l: nat, f :: FileAt(s.layout, l, f) ==> FileAt(FlushFrom(s, 0).layout, l, f)
  {
    var ts, mt := Unwritten(s.imm, 0), s.imm[j].mt;
    FlushAppends(s, 0);
    UnwrittenHas(s.imm, 0, j);
    var k :| 0 <= k < |ts| && ts[k] == mt;
    var f := FilesOf(ts, s.nextName)[k];
    assert f in FilesOf(ts, s.nextName);
    assert FileAt(FlushFrom(s, 0).layout, 0, f) && f.rows == mt;
  }

  lemma FilesStay(s: State, l: nat, f: File)
    requires WellShaped(s) && FileAt(s.layout, l, f)
    ensures FileAt(FlushFrom(s, 0).layout, l, f)
  {
    FlushAppends(s, 0);
  }

  lemma {:induction false} NothingUnwritten(imm: seq<ImmNode>, i: nat)
    requires forall j :: i <= j < |imm| ==> imm[j].flushed
    ensures Unwritten(imm, i) == []
    decreases |imm| - i
  {
    if i < |imm| {
      NothingUnwritten(imm, i + 1);
    }
  }

  /** With nothing unwritten a flush changes nothing. */
  lemma {:induction false} FlushNothing(s: State, i: nat)
    requires WellShaped(s) && forall j :: i <= j < |s.imm| ==> s.imm[j].flushed
    ensures FlushFrom(s, i) == s
    decreases |s.imm| - i
  {
    if i < |s.imm| {
      FlushNothing(s, i + 1);
    }
  }

  // ----- what is written stays written -----

  /** The keys whose registers compactions carry along. */
  predicate Scannable(k: Key) {
    |k| <= 4 || k[..4] != [255, 255, 255, 255]
  }

  /** The files hold the key, and whatever covers them covers the clock. */
  ghost predicate OnDisk(layout: Layout, k: Key, c: Clock) {
    RegsIn(layout, k) != {} && forall d :: Above(d, RegsIn(layout, k)) ==> Leq(c, d)
  }

  ghost predicate Durable(s: State) {
    forall i, k :: 0 <= i < |s.imm| && s.imm[i].flushed && k in s.imm[i].mt && Scannable(k) ==>
      OnDisk(s.layout, k, s.imm[i].mt[k].clock)
  }

  lemma MoreOnDisk(layout: Layout, layout': Layout, k: Key, c: Clock)
    requires OnDisk(layout, k, c) && RegsIn(layout, k) <= RegsIn(layout', k)
    ensures OnDisk(layout', k, c)
  {
  }

  lemma FileIsOnDisk(layout: Layout, l: nat, f: File, k: Key)
    requires FileAt(layout, l, f) && k in f.rows
    ensures OnDisk(layout, k, f.rows[k].clock)
  {
    assert f.rows[k] in RegsIn(layout, k);
  }

  lemma FlushOnlyAdds(s: State, k: Key)
    requires WellShaped(s)
    ensures RegsIn(s.layout, k) <= RegsIn(FlushFrom(s, 0).layout, k)
  {
    forall r | r in RegsIn(s.layout, k) ensures r in RegsIn(FlushFrom(s, 0).layout, k) {
      var l, f :| 0 <= l < |s.layout| && f in s.layout[l] && k in f.rows && r == f.rows[k];
      FilesStay(s, l, f);
    }
  }

  /** After a flush the registers of every table are on disk. */
  lemma FlushKeepsDurable(s: State)
    requires WellShaped(s) && Durable(s)
    ensures Durable(FlushFrom(s, 0))
  {
    var s' := FlushFrom(s, 0);
    FlushAppends(s, 0);
    forall i, k | 0 <= i < |s'.imm| && s'.imm[i].flushed && k in s'.imm[i].mt && Scannable(k)
      ensures OnDisk(s'.layout, k, s'.imm[i].mt[k].clock)
    {
      FlushedIsOnDisk(s, i, k);
    }
  }

  lemma FlushedIsOnDisk(s: State, i: nat, k: Key)
    requires WellShaped(s) && i < |s.imm| && k in s.imm[i].mt
    requires s.imm[i].flushed ==> OnDisk(s.layout, k, s.imm[i].mt[k].clock)
    ensures OnDisk(FlushFrom(s, 0).layout, k, s.imm[i].mt[k].clock)
  {
    if s.imm[i].flushed {
      FlushOnlyAdds(s, k);
      MoreOnDisk(s.layout, FlushFrom(s, 0).layout, k, s.imm[i].mt[k].clock);
    } else {
      FlushWrites(s, i);
      var f :| FileAt(FlushFrom(s, 0).layout, 0, f) && f.rows == s.imm[i].mt;
      FileIsOnDisk(FlushFrom(s, 0).layout, 0, f, k);
    }
  }

  lemma CompactionKeepsKeys(s: State, task: Task, k: Key)
    requires WellShaped(s) && TaskFits(s, task) && Scannable(k) && RegsIn(s.layout, k) != {}
    ensures RegsIn(Apply(s, task, Output(task)).layout, k) != {}
  {
    BelowScanBound(k);
    RegsBefore(s, task, k);
    RegsAfter(s, task, k);
    MergedKeys(task.inputs, k);
    hide RegsIn, OthersIn, RegsOf, MergeFiles;
    if OthersIn(s, task, k) != {} {
      var r :| r in OthersIn(s, task, k);
    } else {
      assert {} + RegsOf(task.inputs, k) == RegsOf(task.inputs, k);
      assert MergeFiles(task.inputs)[k] in RegsIn(Apply(s, task, Output(task)).layout, k);
    }
  }

  lemma CompactionKeepsOnDisk(s: State, task: Task, k: Key, c: Clock)
    requires WellShaped(s) && TaskFits(s, task) && Scannable(k) && OnDisk(s.layout, k, c)
    ensures OnDisk(Apply(s, task, Output(task)).layout, k, c)
  {
    BelowScanBound(k);
    CompactionKeepsKeys(s, task, k);
    forall d ensures Above(d, RegsIn(Apply(s, task, Output(task)).layout, k)) <==> Above(d, RegsIn(s.layout, k)) {
      CompactionKeepsJoin(s, task, k, d);
    }
  }

  lemma FinishKeepsDurable(s: State, task: Task)
    requires WellShaped(s) && TaskFits(s, task) && Durable(s)
    ensures Durable(Apply(s, task, Output(task)))
  {
    var s' := Apply(s, task, Output(task));
    forall i, k | 0 <= i < |s'.imm| && s'.imm[i].flushed && k in s'.imm[i].mt && Scannable(k)
      ensures OnDisk(s'.layout, k, s'.imm[i].mt[k].clock)
    {
      CompactionKeepsOnDisk(s, task, k, s.imm[i].mt[k].clock);
    }
  }

  lemma ResortKeepsDurable(s: State, layout: Layout)
    requires Durable(s) && |layout| == |s.layout|
    requires forall l: nat, f :: FileAt(layout, l, f) <==> FileAt(s.layout, l, f)
    ensures Durable(s.(layout := layout))
  {
    var s' := s.(layout := layout);
    forall i, k | 0 <= i < |s'.imm| && s'.imm[i].flushed && k in s'.imm[i].mt && Scannable(k)
      ensures OnDisk(s'.layout, k, s'.imm[i].mt[k].clock)
    {
      ResortedRegs(s, layout, k);
    }
  }

  lemma StoreKeepsDurable(s: State, key: Key, reg: Register, full: bool, c: Clock)
    requires Durable(s)
    ensures Durable(Store(s.(clock := c), key, reg, full))
  {
    var s' := Store(s.(clock := c), key, reg, full);
    hide OnDisk, Scannable;
    forall i | 0 <= i < |s'.imm| && s'.imm[i].flushed ensures s'.imm[i] in s.imm {
      assert s'.imm[i] == s.imm[if full then i - 1 else i];
    }
    forall i, k | 0 <= i < |s'.imm| && s'.imm[i].flushed && k in s'.imm[i].mt && Scannable(k)
      ensures OnDisk(s'.layout, k, s'.imm[i].mt[k].clock)
    {
      var j :| 0 <= j < |s.imm| && s.imm[j] == s'.imm[i];
    }
  }

  lemma StepKeepsDurable(e: Engine, a: Action)
    requires Inv(e) && Enabled(e, a) && Durable(e.s)
    ensures Durable(Step(e, a).s)
  {
    match a
    case Put(key, value, full) =>
      var c := Tick(e.s.clock, e.s.id);
      StoreKeepsDurable(e.s, key, Register(value, c), full, c);
    case Receive(key, incoming, full, missed) =>
      ReadRefines(e.s, key, missed);
      StoreKeepsDurable(e.s, key, Winner(View(e.s), key, incoming), full, Join(e.s.clock, incoming.clock));
    case Flush => FlushKeepsDurable(e.s);
    case Plan =>
    case Execute =>
    case Finish => FinishKeepsDurable(e.s, e.phase.task);
    case Resort(layout) =>
      SameFilesAt(e, layout);
      ResortKeepsDurable(e.s, layout);
  }

  /** After every run the files hold every key of every table that is marked as written, under clocks that
      together cover the table's, for all keys up to the scan bound. */
  lemma {:induction false} RunKeepsDurable(id: NodeID, actions: seq<Action>)
    requires IsRun(id, actions)
    ensures Durable(Outcome(id, actions).s)
  {
    if actions != [] {
      hide Inv, Durable;
      var last := |actions| - 1;
      RunKeepsDurable(id, actions[..last]);
      RunKeepsInv(id, actions[..last]);
      StepKeepsDurable(Outcome(id, actions[..last]), actions[last]);
    } else {
      assert Outcome(id, actions).s.imm == [];
    }
  }

  // ----- the newest value is on disk -----

  /** The table that holds the newest register of the key is written. */
  ghost predicate NewestIsWritten(s: State, k: Key) {
    exists i :: 0 <= i < |s.imm| && s.imm[i].flushed && k in s.imm[i].mt && k in View(s).store
      && s.imm[i].mt[k] == View(s).store[k]
  }

  lemma ChainHoldsJoin(regs: set<Register>, c: Clock) returns (r: Register)
    requires regs != {} && IsChain(regs) && forall d :: Above(d, regs) ==> Leq(c, d)
    ensures r in regs && Leq(c, r.clock)
  {
    var t := TreeOf(regs);
    ChainMergesToTop(t);
    r :| r in regs && Equiv(r, Eval(t));
    forall x | x in regs ensures Leq(x.clock, r.clock) {
      BelowTransitive(x, Eval(t), r);
    }
    assert Above(r.clock, regs);
  }

  /** After an orderly run, once the table with the newest register of a key is written, the files hold an
      equivalent register, however they have been compacted since. */
  lemma NewestIsOnDisk(id: NodeID, actions: seq<Action>, k: Key) returns (r: Register)
    requires IsRun(id, actions) && OrderlyRun(id, actions)
    requires NewestIsWritten(Outcome(id, actions).s, k) && Scannable(k)
    ensures var s := Outcome(id, actions).s; r in RegsIn(s.layout, k) && Equiv(r, View(s).store[k])
  {
    var s := Outcome(id, actions).s;
    RunKeepsDurable(id, actions);
    RunKeepsKeys(id, actions);
    assert KeyOk(s, k);
    var newest := View(s).store[k];
    assert OnDisk(s.layout, k, newest.clock);
    r := ChainHoldsJoin(RegsIn(s.layout, k), newest.clock);
    assert Below(r, newest);
  }

  // ----- what is read from files alone -----

  predicate MinKeyOk(f: File) {
    f.rows != map[] && IsLeast(f.minKey, f.rows.Keys)
  }

  ghost predicate MinKeysOk(layout: Layout) {
    forall l: nat, f :: FileAt(layout, l, f) ==> MinKeyOk(f)
  }

  lemma MinKeyIsLeast(t: Table)
    requires t != map[]
    ensures IsLeast(MinKey(t), t.Keys)
  {
    LeastExists(t.Keys);
    var m :| IsLeast(m, t.Keys);
    RowsFirst(t, m);
  }

  lemma FlushKeepsMinKeys(s: State)
    requires WellShaped(s) && MinKeysOk(s.layout)
    ensures MinKeysOk(FlushFrom(s, 0).layout)
  {
    var ts := Unwritten(s.imm, 0);
    FlushAppends(s, 0);
    forall l: nat, f | FileAt(FlushFrom(s, 0).layout, l, f) ensures MinKeyOk(f) {
      if !FileAt(s.layout, l, f) {
        var k :| 0 <= k < |ts| && f == FilesOf(ts, s.nextName)[k];
        UnwrittenHasRows(s.imm, 0, ts[k]);
        MinKeyIsLeast(ts[k]);
      }
    }
  }

  lemma {:induction false} UnwrittenHasRows(imm: seq<ImmNode>, i: nat, t: Table)
    requires t in Unwritten(imm, i)
    ensures t != map[]
    decreases |imm| - i
  {
    if i < |imm| && (imm[i].flushed || imm[i].mt == map[] || imm[i].mt != t) {
      UnwrittenHasRows(imm, i + 1, t);
    }
  }

  lemma FinishKeepsMinKeys(s: State, task: Task)
    requires WellShaped(s) && TaskFits(s, task) && MinKeysOk(s.layout)
    ensures MinKeysOk(Apply(s, task, Output(task)).layout)
  {
    forall l: nat, f | FileAt(Apply(s, task, Output(task)).layout, l, f) ensures MinKeyOk(f) {
      FinishedFileAt(s, task, Output(task), l, f);
      if !FileAt(s.layout, l, f) {
        MinKeyIsLeast(MergeFiles(task.inputs));
      }
    }
  }

  /** After every run each file has rows, and its first key is the least of them. */
  lemma {:induction false} RunKeepsMinKeys(id: NodeID, actions: seq<Action>)
    requires IsRun(id, actions)
    ensures MinKeysOk(Outcome(id, actions).s.layout)
  {
    if actions != [] {
      hide MinKeyOk;
      var last := |actions| - 1;
      RunKeepsMinKeys(id, actions[..last]);
      RunKeepsInv(id, actions[..last]);
      var e := Outcome(id, actions[..last]);
      match actions[last]
      case Flush => FlushKeepsMinKeys(e.s);
      case Finish => FinishKeepsMinKeys(e.s, e.phase.task);
      case Resort(layout) => SameFilesAt(e, layout);
      case _ =>
    }
  }

  ghost predicate FilesSorted(files: seq<File>) {
    forall i, j :: 0 <= i < j < |files| ==> AtMost(files[i].minKey, files[j].minKey)
  }

  predicate Answers(f: File, key: Key, missed: Misses) {
    key in f.rows && (f.name, key) !in missed
  }

  /** The file at `j` is the first of its level that answers. */
  predicate FirstInLevel(files: seq<File>, key: Key, missed: Misses, j: nat) {
    j < |files| && Answers(files[j], key, missed) && forall i :: 0 <= i < j ==> !Answers(files[i], key, missed)
  }

  predicate NoneInLevel(files: seq<File>, key: Key, missed: Misses) {
    forall i :: 0 <= i < |files| ==> !Answers(files[i], key, missed)
  }

  lemma {:induction false} LevelAnswers(files: seq<File>, key: Key, missed: Misses, j: nat)
    requires FilesSorted(files) && (forall f :: f in files ==> MinKeyOk(f)) && FirstInLevel(files, key, missed, j)
    ensures FindInLevel(files, key, missed) == Some(files[j].rows[key])
  {
    if Less(key, files[0].minKey) {
      TooLow(files, j, key);
    } else if j > 0 {
      var rest := files[1..];
      assert forall i :: 0 <= i < |rest| ==> rest[i] == files[i + 1];
      assert !Answers(files[0], key, missed);
      LevelAnswers(rest, key, missed, j - 1);
    }
  }

  lemma {:induction false} LevelIsSilent(files: seq<File>, key: Key, missed: Misses)
    requires NoneInLevel(files, key, missed)
    ensures FindInLevel(files, key, missed) == None
  {
    if files != [] {
      var rest := files[1..];
      assert !Answers(files[0], key, missed);
      assert forall i :: 0 <= i < |rest| ==> rest[i] == files[i + 1];
      LevelIsSilent(rest, key, missed);
    }
  }

  lemma TooLow(files: seq<File>, i: nat, key: Key)
    requires FilesSorted(files) && i < |files| && MinKeyOk(files[i]) && Less(key, files[0].minKey)
    ensures key !in files[i].rows
  {
    StrictTotalOrder();
  }

  /** The file at place `j` of level `l` is the first of all that answers. */
  predicate FirstAnswer(layout: Layout, key: Key, missed: Misses, l: nat, j: nat) {
    && l < |layout| && FirstInLevel(layout[l], key, missed, j)
    && forall m :: 0 <= m < l ==> NoneInLevel(layout[m], key, missed)
  }

  lemma {:induction false} LayoutAnswers(layout: Layout, key: Key, missed: Misses, l: nat, j: nat)
    requires MinKeysOk(layout) && (forall m :: 0 <= m < |layout| ==> FilesSorted(layout[m]))
    requires FirstAnswer(layout, key, missed, l, j)
    ensures FindInLayout(layout, key, missed) == Some(layout[l][j].rows[key])
    decreases |layout|
  {
    if l == 0 {
      assert forall f :: f in layout[0] ==> FileAt(layout, 0, f);
      LevelAnswers(layout[0], key, missed, j);
    } else {
      var rest := layout[1..];
      assert forall m: nat, f :: FileAt(rest, m, f) ==> FileAt(layout, m + 1, f);
      assert forall m :: 0 <= m < |rest| ==> rest[m] == layout[m + 1];
      assert NoneInLevel(layout[0], key, missed);
      LevelIsSilent(layout[0], key, missed);
      LayoutAnswers(rest, key, missed, l - 1, j);
    }
  }

  predicate NoneAnswers(layout: Layout, key: Key, missed: Misses) {
    forall l :: 0 <= l < |layout| ==> NoneInLevel(layout[l], key, missed)
  }

  lemma {:induction false} LayoutIsSilent(layout: Layout, key: Key, missed: Misses)
    requires NoneAnswers(layout, key, missed)
    ensures FindInLayout(layout, key, missed) == None
    decreases |layout|
  {
    if layout != [] {
      var rest := layout[1..];
      assert NoneInLevel(layout[0], key, missed);
      assert forall m :: 0 <= m < |rest| ==> rest[m] == layout[m + 1];
      LevelIsSilent(layout[0], key, missed);
      LayoutIsSilent(rest, key, missed);
    }
  }

  /** With no table holding the key, a raw read returns the row of the first file that answers, newest level
      first, and nothing exactly when none does. */
  lemma FilesAnswer(s: State, key: Key, missed: Misses)
    requires key !in View(s).store
    requires MinKeysOk(s.layout) && forall l :: 0 <= l < |s.layout| ==> FilesSorted(s.layout[l])
    ensures forall l: nat, j: nat :: FirstAnswer(s.layout, key, missed, l, j) ==>
      RawGet(s, key, missed) == Some(s.layout[l][j].rows[key])
    ensures RawGet(s, key, missed) == None <==> NoneAnswers(s.layout, key, missed)
  {
    FindIsOverlay(Tables(s), key);
    forall l: nat, j: nat | FirstAnswer(s.layout, key, missed, l, j)
      ensures RawGet(s, key, missed) == Some(s.layout[l][j].rows[key])
    {
      LayoutAnswers(s.layout, key, missed, l, j);
    }
    if NoneAnswers(s.layout, key, missed) {
      LayoutIsSilent(s.layout, key, missed);
    } else {
      var l: nat :| l < |s.layout| && !NoneInLevel(s.layout[l], key, missed);
      var m, j := FirstExists(s.layout, key, missed, l);
      assert FirstAnswer(s.layout, key, missed, m, j);
    }
  }

  lemma {:induction false} FirstExists(layout: Layout, key: Key, missed: Misses, l: nat) returns (m: nat, j: nat)
    requires l < |layout| && !NoneInLevel(layout[l], key, missed)
    ensures FirstAnswer(layout, key, missed, m, j)
    decreases l
  {
    if k: nat :| k < l && !NoneInLevel(layout[k], key, missed) {
      m, j := FirstExists(layout, key, missed, k);
    } else {
      m := l;
      var i: nat :| i < |layout[l]| && Answers(layout[l][i], key, missed);
      j := FirstInExists(layout[l], key, missed, i);
    }
  }

  lemma {:induction false} FirstInExists(files: seq<File>, key: Key, missed: Misses, i: nat) returns (j: nat)
    requires i < |files| && Answers(files[i], key, missed)
    ensures FirstInLevel(files, key, missed, j)
    decreases i
  {
    if k: nat :| k < i && Answers(files[k], key, missed) {
      j := FirstInExists(files, key, missed, k);
    } else {
      j := i;
    }
  }
}
