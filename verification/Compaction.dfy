/** What compaction keeps of the registers in the files, and how often it can run. */
module Compaction {
  import opened Bytes
  import opened VectorClocks
  import opened Crdt
  import opened Database
  import opened MergeTrees
  import opened Lsm

  // ----- registers that are totally ordered by their clocks -----

  predicate Below(a: Register, b: Register) {
    Equiv(a, b) || Before(a.clock, b.clock)
  }

  predicate Comparable(a: Register, b: Register) {
    Below(a, b) || Below(b, a)
  }

  predicate IsChain(regs: set<Register>) {
    forall a, b :: a in regs && b in regs ==> Comparable(a, b)
  }

  lemma BelowTransitive(a: Register, b: Register, c: Register)
    requires Below(a, b) && Below(b, c)
    ensures Below(a, c)
  {
    LeqTransitive(a.clock, b.clock, c.clock);
    if Leq(c.clock, a.clock) {
      LeqTransitive(b.clock, c.clock, a.clock);
      LeqTransitive(c.clock, a.clock, b.clock);
    }
  }

  lemma BelowAntisymmetric(a: Register, b: Register)
    requires Below(a, b) && Below(b, a)
    ensures Equiv(a, b)
  {
  }

  /** The register a set of registers stands for: one of them, above all the others. */
  predicate IsTop(r: Register, regs: set<Register>) {
    (exists x :: x in regs && Equiv(x, r)) && forall x :: x in regs ==> Below(x, r)
  }

  lemma TopIsUnique(r: Register, s: Register, regs: set<Register>)
    requires IsTop(r, regs) && IsTop(s, regs)
    ensures Equiv(r, s)
  {
    var x, y :| x in regs && Equiv(x, r) && y in regs && Equiv(y, s);
    BelowTransitive(r, x, s);
    BelowTransitive(s, y, r);
    BelowAntisymmetric(r, s);
  }

  lemma MergeOfComparable(a: Register, b: Register)
    requires Comparable(a, b)
    ensures Below(a, MergeRegisters(a, b)) && Below(b, MergeRegisters(a, b))
    ensures Equiv(MergeRegisters(a, b), a) || Equiv(MergeRegisters(a, b), b)
  {
    MergeBounds(a, b);
    MergeClock(a, b, a.clock);
    MergeClock(a, b, b.clock);
  }

  lemma ComparableTops(a: Register, s: set<Register>, b: Register, t: set<Register>)
    requires IsTop(a, s) && IsTop(b, t) && IsChain(s + t)
    ensures Comparable(a, b)
  {
    var x, y :| x in s && Equiv(x, a) && y in t && Equiv(y, b);
    assert x in s + t && y in s + t;
    if Below(x, y) {
      BelowTransitive(a, x, y);
      BelowTransitive(a, y, b);
    } else {
      BelowTransitive(b, y, x);
      BelowTransitive(b, x, a);
    }
  }

  lemma TopOfUnion(m: Register, a: Register, s: set<Register>, b: Register, t: set<Register>)
    requires IsTop(a, s) && IsTop(b, t) && Below(a, m) && Below(b, m) && (Equiv(m, a) || Equiv(m, b))
    ensures IsTop(m, s + t)
  {
    forall x | x in s + t ensures Below(x, m) {
      if x in s {
        BelowTransitive(x, a, m);
      } else {
        BelowTransitive(x, b, m);
      }
    }
    if Equiv(m, a) {
      var x :| x in s && Equiv(x, a);
      EquivChain(x, a, m);
      assert x in s + t;
    } else {
      var x :| x in t && Equiv(x, b);
      EquivChain(x, b, m);
      assert x in s + t;
    }
  }

  lemma EquivChain(a: Register, b: Register, c: Register)
    requires Equiv(a, b) && Equiv(c, b)
    ensures Equiv(a, c)
  {
    LeqTransitive(a.clock, b.clock, c.clock);
    LeqTransitive(c.clock, b.clock, a.clock);
  }

  /** On a chain every merge order ends at the top. */
  lemma {:induction false} ChainMergesToTop(t: Tree)
    requires IsChain(Leaves(t))
    ensures IsTop(Eval(t), Leaves(t))
  {
    match t
    case Leaf(w) =>
      assert w in Leaves(t);
    case Node(l, r) =>
      ChainMergesToTop(l);
      ChainMergesToTop(r);
      ComparableTops(Eval(l), Leaves(l), Eval(r), Leaves(r));
      MergeOfComparable(Eval(l), Eval(r));
      TopOfUnion(Eval(t), Eval(l), Leaves(l), Eval(r), Leaves(r));
  }

  // ----- what a compaction writes -----

  function RegsOf(files: seq<File>, k: Key): set<Register> {
    set f | f in files && k in f.rows :: f.rows[k]
  }

  lemma RegsOfSnoc(files: seq<File>, k: Key)
    requires files != []
    ensures var n := |files| - 1;
      RegsOf(files, k) == RegsOf(files[..n], k) + if k in files[n].rows then {files[n].rows[k]} else {}
  {
    var n := |files| - 1;
    assert files == files[..n] + [files[n]];
  }

  lemma {:induction false} MergedKeys(files: seq<File>, k: Key)
    ensures k in MergeFiles(files) <==> AtMost(k, [255, 255, 255, 255]) && RegsOf(files, k) != {}
  {
    if files != [] {
      var n := |files| - 1;
      MergedKeys(files[..n], k);
      RegsOfSnoc(files, k);
    }
  }

  /** Which keys of its inputs a compaction keeps: all that are at most four bytes long or do not begin with
      four bytes 255. */
  lemma KeptKeys(task: Task, k: Key)
    ensures Output(task).Some? && k in Output(task).value.rows <==>
      RegsOf(task.inputs, k) != {} && (|k| <= 4 || k[..4] != [255, 255, 255, 255])
  {
    BelowScanBound(k);
    MergedKeys(task.inputs, k);
  }

  /** Registers tied under one clock: the merge keeps the value of the first input that holds the key. */
  predicate AllTied(files: seq<File>, k: Key, c: Clock) {
    forall f :: f in files && k in f.rows ==> Same(f.rows[k].clock, c)
  }

  function FirstWith(files: seq<File>, k: Key): Option<Register> {
    if files == [] then None
    else if k in files[0].rows then Some(files[0].rows[k])
    else FirstWith(files[1..], k)
  }

  lemma {:induction false} FirstOfInit(files: seq<File>, k: Key)
    requires files != []
    ensures var n := |files| - 1;
      FirstWith(files, k) == match FirstWith(files[..n], k)
        case Some(r) => Some(r)
        case None => if k in files[n].rows then Some(files[n].rows[k]) else None
  {
    if |files| > 1 && k !in files[0].rows {
      FirstOfInit(files[1..], k);
      assert files[..|files| - 1][1..] == files[1..][..|files| - 2];
    } else {
      assert files[1..] == [] || k in files[0].rows;
    }
  }

  lemma {:induction false} TiesKeepFirst(files: seq<File>, k: Key, c: Clock)
    requires AllTied(files, k, c) && k in MergeFiles(files)
    ensures FirstWith(files, k).Some? && Equiv(MergeFiles(files)[k], Register(FirstWith(files, k).value.value, c))
  {
    var n := |files| - 1;
    var older, newer := MergeFiles(files[..n]), files[n].rows;
    FirstOfInit(files, k);
    MergedKeys(files[..n], k);
    MergedKeys(files, k);
    assert files[n] in files;
    assert forall f :: f in files[..n] ==> f in files;
    if k in older {
      TiesKeepFirst(files[..n], k, c);
      if k in newer {
        TieKeepsLeft(older[k], newer[k], c);
      }
    } else {
      FirstIsReg(files[..n], k);
    }
  }

  lemma {:induction false} FirstIsReg(files: seq<File>, k: Key)
    ensures FirstWith(files, k).Some? ==> FirstWith(files, k).value in RegsOf(files, k)
  {
    if files != [] && k !in files[0].rows {
      FirstIsReg(files[1..], k);
      assert forall f :: f in files[1..] ==> f in files;
    }
  }

  lemma TieKeepsLeft(a: Register, b: Register, c: Clock)
    requires Same(a.clock, c) && Same(b.clock, c)
    ensures Equiv(MergeRegisters(a, b), Register(a.value, c))
  {
    LeqTransitive(a.clock, c, b.clock);
    LeqTransitive(b.clock, c, a.clock);
    MergeBounds(a, b);
    MergeClock(a, b, c);
    LeqTransitive(c, a.clock, MergeRegisters(a, b).clock);
  }

  /** Every merged row is a merge tree over exactly the input registers of its key. */
  lemma {:induction false} MergedIsTree(files: seq<File>, k: Key) returns (t: Tree)
    requires k in MergeFiles(files)
    ensures Leaves(t) == RegsOf(files, k) && Eval(t) == MergeFiles(files)[k]
  {
    var n := |files| - 1;
    var older, newer := MergeFiles(files[..n]), files[n].rows;
    RegsOfSnoc(files, k);
    MergedKeys(files, k);
    MergedKeys(files[..n], k);
    if k in older {
      t := MergedIsTree(files[..n], k);
      if k in newer {
        t := Node(t, Leaf(newer[k]));
      }
    } else {
      t := Leaf(newer[k]);
    }
  }

  // ----- what a compaction does to the layout -----

  function RegsIn(layout: Layout, k: Key): set<Register> {
    set l, f | 0 <= l < |layout| && f in layout[l] && k in f.rows :: f.rows[k]
  }

  /** The inputs are files of their level, told apart from the others by name. */
  predicate TaskFits(s: State, task: Task) {
    && task.level < 6 && |s.layout| == 7
    && (forall f :: f in task.inputs ==> f in s.layout[task.level])
    && (forall f :: f in s.layout[task.level] && f.name in InputNames(task.inputs) ==> f in task.inputs)
  }

  lemma {:induction false} WithoutNamesKeeps(files: seq<File>, names: set<nat>, f: File)
    ensures f in WithoutNames(files, names) <==> f in files && f.name !in names
  {
    if files != [] {
      WithoutNamesKeeps(files[1..], names, f);
    }
  }

  /** The files of the layout afterwards: everything but the inputs, and the output. */
  lemma AppliedFiles(s: State, task: Task, output: Option<File>, l: nat, f: File)
    requires WellShaped(s) && TaskFits(s, task) && l < 7
    ensures f in Apply(s, task, output).layout[l] <==>
      (f in s.layout[l] && (l == task.level ==> f !in task.inputs)) || (output == Some(f) && l == task.level + 1)
  {
    WithoutNamesKeeps(s.layout[task.level], InputNames(task.inputs), f);
  }

  /** Files of the level that were not inputs survive in place. */
  lemma OtherFilesSurvive(s: State, task: Task, output: Option<File>, l: nat, f: File)
    requires WellShaped(s) && TaskFits(s, task) && l < 7 && f in s.layout[l] && f !in task.inputs
    ensures f in Apply(s, task, output).layout[l]
  {
    AppliedFiles(s, task, output, l, f);
  }

  function OthersIn(s: State, task: Task, k: Key): set<Register> {
    set l, f | 0 <= l < |s.layout| && f in s.layout[l] && k in f.rows && (l == task.level ==> f !in task.inputs) :: f.rows[k]
  }

  lemma RegsBefore(s: State, task: Task, k: Key)
    requires WellShaped(s) && TaskFits(s, task)
    ensures RegsIn(s.layout, k) == OthersIn(s, task, k) + RegsOf(task.inputs, k)
  {
    forall r | r in RegsIn(s.layout, k) ensures r in OthersIn(s, task, k) + RegsOf(task.inputs, k) {
      var l, f :| 0 <= l < |s.layout| && f in s.layout[l] && k in f.rows && r == f.rows[k];
      assert l == task.level && f in task.inputs ==> r in RegsOf(task.inputs, k);
    }
    forall r | r in RegsOf(task.inputs, k) ensures r in RegsIn(s.layout, k) {
      var f :| f in task.inputs && k in f.rows && r == f.rows[k];
      assert f in s.layout[task.level];
    }
  }

  lemma RegAfterIsKnown(s: State, task: Task, k: Key, r: Register)
    requires WellShaped(s) && TaskFits(s, task) && r in RegsIn(Apply(s, task, Output(task)).layout, k)
    ensures r in OthersIn(s, task, k) || (k in MergeFiles(task.inputs) && r == MergeFiles(task.inputs)[k])
  {
    var layout: Layout := Apply(s, task, Output(task)).layout;
    var l: nat, f: File :| 0 <= l < |layout| && f in layout[l] && k in f.rows && r == f.rows[k];
    AppliedFiles(s, task, Output(task), l, f);
  }

  lemma OtherRegStays(s: State, task: Task, output: Option<File>, k: Key, r: Register)
    requires WellShaped(s) && TaskFits(s, task) && r in OthersIn(s, task, k)
    ensures r in RegsIn(Apply(s, task, output).layout, k)
  {
    var l, f :| 0 <= l < |s.layout| && f in s.layout[l] && k in f.rows && (l == task.level ==> f !in task.inputs) && r == f.rows[k];
    AppliedFiles(s, task, output, l, f);
  }

  lemma MergedRegIsThere(s: State, task: Task, k: Key)
    requires WellShaped(s) && TaskFits(s, task) && k in MergeFiles(task.inputs)
    ensures MergeFiles(task.inputs)[k] in RegsIn(Apply(s, task, Output(task)).layout, k)
  {
    var output := Output(task);
    AppliedFiles(s, task, output, task.level + 1, output.value);
    assert output.value in Apply(s, task, output).layout[task.level + 1];
  }

  lemma RegsAfter(s: State, task: Task, k: Key)
    requires WellShaped(s) && TaskFits(s, task)
    ensures RegsIn(Apply(s, task, Output(task)).layout, k) ==
      OthersIn(s, task, k) + if k in MergeFiles(task.inputs) then {MergeFiles(task.inputs)[k]} else {}
  {
    var after, others, merged := RegsIn(Apply(s, task, Output(task)).layout, k), OthersIn(s, task, k), MergeFiles(task.inputs);
    forall r | r in after ensures r in others || (k in merged && r == merged[k]) {
      RegAfterIsKnown(s, task, k, r);
    }
    forall r | r in others ensures r in after {
      OtherRegStays(s, task, Output(task), k, r);
    }
    if k in merged {
      MergedRegIsThere(s, task, k);
    }
  }

  /** With no hypothesis on the registers: the join of the clocks of every key survives. */
  lemma CompactionKeepsJoin(s: State, task: Task, k: Key, c: Clock)
    requires WellShaped(s) && TaskFits(s, task) && AtMost(k, [255, 255, 255, 255])
    ensures Above(c, RegsIn(Apply(s, task, Output(task)).layout, k)) <==> Above(c, RegsIn(s.layout, k))
  {
    var others, ins, merged := OthersIn(s, task, k), RegsOf(task.inputs, k), MergeFiles(task.inputs);
    RegsBefore(s, task, k);
    RegsAfter(s, task, k);
    MergedKeys(task.inputs, k);
    if k in merged {
      var t := MergedIsTree(task.inputs, k);
      EvalClockIsJoin(t);
      assert Above(c, {merged[k]}) <==> Leq(merged[k].clock, c);
    }
    assert Above(c, others + ins) <==> Above(c, others) && Above(c, ins);
  }

  /** ... and every value written is a value read. */
  lemma CompactionInventsNoValue(task: Task, k: Key)
    requires Output(task).Some? && k in Output(task).value.rows
    ensures HasValue(RegsOf(task.inputs, k), Output(task).value.rows[k].value)
  {
    var t := MergedIsTree(task.inputs, k);
    EvalValueIsWritten(t);
  }

  /** When the registers of a key are ordered by their clocks, merging all files in any order means the
      same before and after the compaction. */
  lemma CompactionKeepsMeaning(s: State, task: Task, k: Key, before: Tree, after: Tree)
    requires WellShaped(s) && TaskFits(s, task) && AtMost(k, [255, 255, 255, 255])
    requires Leaves(before) == RegsIn(s.layout, k) && IsChain(RegsIn(s.layout, k))
    requires Leaves(after) == RegsIn(Apply(s, task, Output(task)).layout, k)
    ensures Equiv(Eval(before), Eval(after))
  {
    ChainMergesToTop(before);
    CompactionKeepsTop(s, task, k, Eval(before));
    CompactionKeepsChain(s, task, k, RegsIn(s.layout, k));
    ChainMergesToTop(after);
    TopIsUnique(Eval(before), Eval(after), Leaves(after));
  }

  lemma MergedIsTop(task: Task, k: Key)
    requires k in MergeFiles(task.inputs) && IsChain(RegsOf(task.inputs, k))
    ensures IsTop(MergeFiles(task.inputs)[k], RegsOf(task.inputs, k))
  {
    var t := MergedIsTree(task.inputs, k);
    ChainMergesToTop(t);
  }

  lemma CompactionKeepsTop(s: State, task: Task, k: Key, r: Register)
    requires WellShaped(s) && TaskFits(s, task) && AtMost(k, [255, 255, 255, 255])
    requires IsTop(r, RegsIn(s.layout, k)) && IsChain(RegsIn(s.layout, k))
    ensures IsTop(r, RegsIn(Apply(s, task, Output(task)).layout, k))
  {
    var others, ins, merged := OthersIn(s, task, k), RegsOf(task.inputs, k), MergeFiles(task.inputs);
    RegsBefore(s, task, k);
    RegsAfter(s, task, k);
    MergedKeys(task.inputs, k);
    var x :| x in others + ins && Equiv(x, r);
    if k in merged {
      MergedIsTop(task, k);
      var m := merged[k];
      var y :| y in ins && Equiv(y, m);
      assert y in others + ins;
      BelowTransitive(m, y, r);
      if x in ins {
        BelowTransitive(r, x, m);
        BelowAntisymmetric(r, m);
      }
    }
  }

  /** Replacing the inputs by their merge keeps a chain a chain, whatever else is in it. */
  lemma CompactionKeepsChain(s: State, task: Task, k: Key, all: set<Register>)
    requires WellShaped(s) && TaskFits(s, task)
    requires RegsIn(s.layout, k) <= all && IsChain(all)
    ensures IsChain(all + RegsIn(Apply(s, task, Output(task)).layout, k))
  {
    var merged := MergeFiles(task.inputs);
    RegsBefore(s, task, k);
    RegsAfter(s, task, k);
    if k in merged {
      assert RegsOf(task.inputs, k) <= all;
      MergedIsTop(task, k);
      var y :| y in RegsOf(task.inputs, k) && Equiv(y, merged[k]);
      EquivJoinsChain(all, y, merged[k]);
      assert all + RegsIn(Apply(s, task, Output(task)).layout, k) == all + {merged[k]};
    } else {
      assert all + RegsIn(Apply(s, task, Output(task)).layout, k) == all;
    }
  }

  lemma EquivJoinsChain(all: set<Register>, y: Register, m: Register)
    requires IsChain(all) && y in all && Equiv(y, m)
    ensures IsChain(all + {m})
  {
    forall a | a in all ensures Comparable(a, m) {
      if Below(a, y) {
        BelowTransitive(a, y, m);
      } else {
        BelowTransitive(m, y, a);
      }
    }
    assert Below(m, m);
  }

  // ----- how many files there are -----

  function Total(meta: Names): nat {
    if meta == [] then 0 else |meta[0]| + Total(meta[1..])
  }

  lemma {:induction false} TotalUpdate(meta: Names, i: nat, names: seq<nat>)
    requires i < |meta|
    ensures Total(meta[i := names]) == Total(meta) - |meta[i]| + |names|
  {
    if i == 0 {
      assert meta[0 := names][1..] == meta[1..];
    } else {
      assert meta[i := names][1..] == meta[1..][i - 1 := names];
      TotalUpdate(meta[1..], i - 1, names);
    }
  }

  /** The names of a task are the first names of its level, and no later name repeats one. */
  predicate NamesFit(s: State, task: Task) {
    && task.level < 6 && |s.meta| == 7
    && task.names <= s.meta[task.level]
    && |task.names| >= Threshold(task.level)
    && forall n :: n in s.meta[task.level][|task.names|..] ==> n !in task.names
  }

  lemma {:induction false} NamesWithoutPrefix(names: seq<nat>, prefix: nat, drop: seq<nat>)
    requires prefix <= |names| && (forall n :: n in names[..prefix] ==> n in drop)
    requires forall n :: n in names[prefix..] ==> n !in drop
    ensures NamesWithout(names, drop) == names[prefix..]
  {
    if names != [] {
      if prefix > 0 {
        assert names[0] in names[..prefix];
        assert names[1..][..prefix - 1] == names[..prefix][1..];
        assert names[1..][prefix - 1..] == names[prefix..];
        NamesWithoutPrefix(names[1..], prefix - 1, drop);
      } else {
        assert names[0..][0] == names[0];
        assert names[1..][0..] == names[0..][1..];
        NamesWithoutPrefix(names[1..], 0, drop);
      }
    }
  }

  lemma NamesAfter(s: State, task: Task)
    requires NamesFit(s, task)
    ensures NamesWithout(s.meta[task.level], task.names) == s.meta[task.level][|task.names|..]
  {
    NamesWithoutPrefix(s.meta[task.level], |task.names|, task.names);
  }

  /** Each compaction lowers the number of files by at least two. */
  lemma CompactionShrinks(s: State, task: Task, output: Option<File>)
    requires WellShaped(s) && NamesFit(s, task)
    ensures Total(Apply(s, task, output).meta) + 2 <= Total(s.meta)
  {
    var i := task.level;
    NamesAfter(s, task);
    TotalUpdate(s.meta, i, NamesWithout(s.meta[i], task.names));
    var meta := s.meta[i := NamesWithout(s.meta[i], task.names)];
    if output.Some? {
      TotalUpdate(meta, i + 1, meta[i + 1] + [task.outName]);
    }
  }

  lemma {:induction false} PlanFindsFirst(meta: Names, from: nat)
    requires from < |meta| == 7
    ensures LevelToCompact(meta, from) == None ==>
      forall l :: from <= l < 6 ==> |meta[l]| < (if l == 0 then 3 else 4)
    ensures forall l :: LevelToCompact(meta, from) == Some(l) ==>
      && from <= l < 6 && |meta[l]| >= (if l == 0 then 3 else 4)
      && forall j :: from <= j < l ==> |meta[j]| < (if j == 0 then 3 else 4)
    decreases 7 - from
  {
    if from + 1 < 7 && |meta[from]| < Threshold(from) {
      PlanFindsFirst(meta, from + 1);
    }
  }

  /** When nothing is left to plan there are at most two files at the top and three on each level below
      it, the last level excepted. */
  lemma QuietMeansBounded(meta: Names)
    requires |meta| == 7 && LevelToCompact(meta, 0) == None
    ensures |meta[0]| <= 2 && forall l :: 1 <= l <= 5 ==> |meta[l]| <= 3
  {
    PlanFindsFirst(meta, 0);
  }
}
