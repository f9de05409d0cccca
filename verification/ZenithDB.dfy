/** The storage engine as the object that updates its fields in place. Every method is proved against the
    value model of module Lsm. Each body is one section under the writer mutex, or one lock-free read. */
module Zenith {
  import opened Bytes
  import opened VectorClocks
  import opened Crdt
  import opened Database
  import opened Lsm
  import opened Compaction
  import opened EngineRuns
  import opened EngineOrder
  import opened EngineDisk
  import opened EngineScan

  // ----- tables as the loops see them -----

  /** The rows of a table in a range, in no particular order. */
  method ScanTable(t: Table, start: Key, end: Key) returns (rows: seq<CrdtRow>)
    ensures forall row :: row in rows <==> row.0 in t && InRange(row.0, start, end) && row.1 == t[row.0]
  {
    rows := [];
    var todo := t.Keys;
    while todo != {}
      invariant todo <= t.Keys
      invariant forall row :: row in rows <==>
        row.0 in t.Keys - todo && InRange(row.0, start, end) && row.1 == t[row.0]
      decreases |todo|
    {
      var k :| k in todo;
      if InRange(k, start, end) {
        rows := rows + [(k, t[k])];
      }
      todo := todo - {k};
    }
  }

  method FirstKey(t: Table) returns (m: Key)
    ensures m == MinKey(t)
  {
    if t == map[] {
      return [];
    }
    m :| m in t.Keys;
    LessTrichotomy(m, m);
    var todo := t.Keys - {m};
    while todo != {}
      invariant m in t && todo <= t.Keys
      invariant forall k :: k in t.Keys - todo ==> AtMost(m, k)
      decreases |todo|
    {
      var k :| k in todo;
      forall x | AtMost(m, x) && Less(k, m) ensures AtMost(k, x) {
        if Less(x, k) {
          LessTransitive(x, k, m);
        }
      }
      LessTrichotomy(k, k);
      if Less(k, m) {
        m := k;
      }
      todo := todo - {k};
    }
    assert IsLeast(m, t.Keys);
    RowsFirst(t, m);
  }

  lemma TableRowsAreKnown(s: State, t: Table, rows: seq<CrdtRow>)
    requires t in Tables(s) && forall row :: row in rows ==> row.0 in t && row.1 == t[row.0]
    ensures forall row :: row in rows ==> row.1 in AllRegs(s, row.0)
  {
  }

  lemma FileRowsAreKnown(s: State, rows: seq<CrdtRow>)
    requires forall row :: row in rows ==> row.1 in RegsIn(s.layout, row.0)
    ensures forall row :: row in rows ==> row.1 in AllRegs(s, row.0)
  {
  }

  /** The rows of a file in a range that its scan does not miss. */
  method ScanFile(f: File, start: Key, end: Key, missed: Misses) returns (rows: seq<CrdtRow>)
    ensures forall row :: row in rows <==>
      Answers(f, row.0, missed) && InRange(row.0, start, end) && row.1 == f.rows[row.0]
  {
    var found := map k | k in f.rows && (f.name, k) !in missed :: f.rows[k];
    rows := ScanTable(found, start, end);
  }

  /** Every row of the tables in the range has been gathered. */
  ghost predicate TablesGathered(ts: seq<Table>, start: Key, end: Key, raw: seq<CrdtRow>) {
    forall t, k :: t in ts && k in t && InRange(k, start, end) ==> (k, t[k]) in raw
  }

  lemma FirstTable(ts: seq<Table>, start: Key, end: Key, raw: seq<CrdtRow>)
    requires ts != [] && forall k :: k in ts[0] && InRange(k, start, end) ==> (k, ts[0][k]) in raw
    ensures TablesGathered(ts[..1], start, end, raw)
  {
  }

  lemma MoreTables(ts: seq<Table>, i: nat, start: Key, end: Key, raw: seq<CrdtRow>, part: seq<CrdtRow>)
    requires i < |ts| && TablesGathered(ts[..i], start, end, raw)
    requires forall k :: k in ts[i] && InRange(k, start, end) ==> (k, ts[i][k]) in part
    ensures TablesGathered(ts[..i + 1], start, end, raw + part)
  {
    hide InRange;
    assert ts[..i + 1] == ts[..i] + [ts[i]];
    assert forall row :: row in raw || row in part ==> row in raw + part;
  }

  /** Every row that a file of the level does not miss has been gathered. */
  ghost predicate LevelGathered(files: seq<File>, start: Key, end: Key, missed: Misses, raw: seq<CrdtRow>) {
    forall f, k :: f in files && Answers(f, k, missed) && InRange(k, start, end) && AtMost(f.minKey, k)
      ==> (k, f.rows[k]) in raw
  }

  lemma MoreFileRows(s: State, start: Key, end: Key, missed: Misses, part: seq<CrdtRow>, raw: seq<CrdtRow>)
    requires HasFileRows(s, start, end, missed, part) && forall row :: row in part ==> row in raw
    ensures HasFileRows(s, start, end, missed, raw)
  {
  }

  lemma EndBelowMin(start: Key, end: Key, minKey: Key, k: Key)
    requires InRange(k, start, end) && AtMost(minKey, k)
    ensures !Less(end, minKey)
  {
    StrictTotalOrder();
  }

  // ----- sorting by key -----

  ghost predicate SortedBy<T>(xs: seq<T>, key: T -> Key) {
    forall i, j :: 0 <= i < j < |xs| ==> AtMost(key(xs[i]), key(xs[j]))
  }

  lemma BeforeAreAtMost<T>(xs: seq<T>, key: T -> Key, i: nat, x: T)
    requires SortedBy(xs, key) && i <= |xs| && (i > 0 ==> AtMost(key(xs[i - 1]), key(x)))
    ensures forall j :: 0 <= j < i ==> AtMost(key(xs[j]), key(x))
  {
    StrictTotalOrder();
  }

  lemma InsertedIsSorted<T>(xs: seq<T>, key: T -> Key, i: nat, x: T)
    requires SortedBy(xs, key) && i <= |xs|
    requires forall j :: 0 <= j < i ==> AtMost(key(xs[j]), key(x))
    requires forall j :: i <= j < |xs| ==> AtMost(key(x), key(xs[j]))
    ensures SortedBy(xs[..i] + [x] + xs[i..], key)
  {
    var out := xs[..i] + [x] + xs[i..];
    forall p, q | 0 <= p < q < |out| ensures AtMost(key(out[p]), key(out[q])) {
      assert p != i ==> out[p] == xs[if p < i then p else p - 1];
      assert q != i ==> out[q] == xs[if q < i then q else q - 1];
    }
  }

  lemma InsertedMembers<T>(xs: seq<T>, i: nat, x: T)
    requires i <= |xs|
    ensures multiset(xs[..i] + [x] + xs[i..]) == multiset(xs) + multiset{x}
  {
    assert xs == xs[..i] + xs[i..];
  }

  /** Some sort by key. Callers learn no more than a sort promises: equal keys may come in any order. */
  method SortBy<T(==)>(xs: seq<T>, key: T -> Key) returns (sorted: seq<T>)
    ensures SortedBy(sorted, key) && multiset(sorted) == multiset(xs)
  {
    hide Less;
    sorted := [];
    var n := 0;
    while n < |xs|
      invariant n <= |xs|
      invariant SortedBy(sorted, key) && multiset(sorted) == multiset(xs[..n])
    {
      var i: nat := |sorted|;
      while i > 0 && Less(key(xs[n]), key(sorted[i - 1]))
        invariant i <= |sorted|
        invariant forall j :: i <= j < |sorted| ==> AtMost(key(xs[n]), key(sorted[j]))
      {
        LessTrichotomy(key(xs[n]), key(sorted[i - 1]));
        i := i - 1;
      }
      BeforeAreAtMost(sorted, key, i, xs[n]);
      InsertedIsSorted(sorted, key, i, xs[n]);
      InsertedMembers(sorted, i, xs[n]);
      sorted := sorted[..i] + [xs[n]] + sorted[i..];
      assert xs[..n + 1] == xs[..n] + [xs[n]];
      n := n + 1;
    }
    assert xs[..n] == xs;
  }

  lemma SameMembers<T>(a: seq<T>, b: seq<T>)
    requires multiset(a) == multiset(b)
    ensures forall x :: x in a <==> x in b
  {
    forall x ensures x in a <==> x in b {
      assert x in a <==> x in multiset(a);
    }
  }

  lemma KeysAreSorted(rows: seq<CrdtRow>)
    requires SortedBy(rows, (row: CrdtRow) => row.0)
    ensures KeysSorted(rows)
  {
  }

  // ----- steps of the loops -----

  lemma MergeStep(merged: Table, rows: Table, todo: set<Key>, k: Key)
    requires k in todo && todo <= rows.Keys
    ensures var m := MergeTables(merged, rows - todo);
      && MergeTables(merged, rows - (todo - {k})) == m[k := if k in m then MergeRegisters(m[k], rows[k]) else rows[k]]
  {
    var before := rows - todo;
    assert rows - (todo - {k}) == before[k := rows[k]];
    MergeOneMore(merged, before, k, rows[k]);
  }

  lemma MergeNone(merged: Table, rows: Table)
    ensures MergeTables(merged, rows - rows.Keys) == merged
  {
  }

  lemma MergeOneMore(merged: Table, before: Table, k: Key, reg: Register)
    requires k !in before
    ensures MergeTables(merged, before[k := reg]) ==
      MergeTables(merged, before)[k := if k in merged then MergeRegisters(merged[k], reg) else reg]
  {
  }

  lemma WithoutNamesStep(files: seq<File>, names: set<nat>, i: nat)
    requires i < |files|
    ensures WithoutNames(files[i..], names)
         == (if files[i].name in names then [] else [files[i]]) + WithoutNames(files[i + 1..], names)
  {
    assert files[i..][1..] == files[i + 1..];
  }

  lemma NamesWithoutStep(files: seq<nat>, done: seq<nat>, i: nat)
    requires i < |files|
    ensures NamesWithout(files[i..], done)
         == (if files[i] in done then [] else [files[i]]) + NamesWithout(files[i + 1..], done)
  {
    assert files[i..][1..] == files[i + 1..];
  }

  lemma NamesWithoutEnd(files: seq<nat>, done: seq<nat>)
    ensures NamesWithout(files[|files|..], done) == []
  {
  }

  lemma WithoutNamesEnd(files: seq<File>, names: set<nat>)
    ensures WithoutNames(files[|files|..], names) == []
  {
  }

  // ----- one round of compaction -----

  /** The state after plan, execute and apply with nothing in between. */
  ghost function Compacted(s: State, l: nat): State
    requires WellShaped(s) && l < 6
  {
    var task := NewTask(s, l);
    Apply(s.(nextName := s.nextName + 1), task, Output(task))
  }

  /** The same state up to the order of the files of each level. */
  ghost predicate Reordered(s: State, t: State) {
    SameFiles(s.layout, t.layout) && t == s.(layout := t.layout)
  }

  lemma CountsDoNotMatter(e: Engine, flushed: nat, compactions: nat)
    requires Inv(e)
    ensures Inv(e.(flushed := flushed, compactions := compactions))
  {
    var e' := e.(flushed := flushed, compactions := compactions);
    assert PhaseOk(e') && OutputOk(e');
  }

  lemma CompactedKeepsInv(s: State, l: nat)
    requires Inv(Engine(s, Idle, 0, 0)) && LevelToCompact(s.meta, 0) == Some(l) && l < 6
    ensures Inv(Engine(Compacted(s, l), Idle, 0, 0))
    ensures Total(Compacted(s, l).meta) + 2 <= Total(s.meta)
  {
    var e0 := Engine(s, Idle, 0, 0);
    var task := NewTask(s, l);
    var e1 := Engine(s.(nextName := s.nextName + 1), Planned(task), 0, 0);
    PlanKeepsInv(e0);
    assert e1 == Step(e0, Plan);
    var e2 := e1.(phase := Executed(task, Output(task)));
    assert Inv(e2);
    FinishKeepsInv(e2);
    CountsDoNotMatter(Step(e2, Finish), 0, 0);
    CompactionShrinks(e1.s, task, Output(task));
  }

  lemma RoundKeepsInv(s: State, l: nat, t: State)
    requires Inv(Engine(s, Idle, 0, 0)) && LevelToCompact(s.meta, 0) == Some(l) && l < 6
    requires Reordered(Compacted(s, l), t)
    ensures Inv(Engine(t, Idle, 0, 0)) && View(t) == View(s) && Total(t.meta) + 2 <= Total(s.meta)
  {
    RoundKeepsView(s, l, t);
    CompactedKeepsInv(s, l);
    hide Inv, Compacted, View;
    ResortKeepsInv(Engine(Compacted(s, l), Idle, 0, 0), t.layout);
  }

  lemma RoundKeepsView(s: State, l: nat, t: State)
    requires WellShaped(s) && l < 6 && Reordered(Compacted(s, l), t)
    ensures View(t) == View(s)
  {
    SameTables(s, t);
  }

  lemma {:induction false} AllInputsGo(files: seq<File>, names: set<nat>)
    requires forall f :: f in files ==> f.name in names
    ensures WithoutNames(files, names) == []
  {
    if files != [] {
      AllInputsGo(files[1..], names);
    }
  }

  lemma {:induction false} AllNamesGo(names: seq<nat>, done: seq<nat>)
    requires forall n :: n in names ==> n in done
    ensures NamesWithout(names, done) == []
  {
    if names != [] {
      AllNamesGo(names[1..], done);
    }
  }

  /** A round takes all files of the level it picked, adds the merge of them to the next level if it has any
      rows, and leaves the other levels alone. */
  lemma CompactedLevels(s: State, l: nat)
    requires WellShaped(s) && l < 6
    ensures var t, merged := Compacted(s, l), Output(NewTask(s, l));
      && t.layout[l] == [] && t.meta[l] == []
      && t.layout[l + 1] == s.layout[l + 1] + (if merged.Some? then [merged.value] else [])
      && t.meta[l + 1] == s.meta[l + 1] + (if merged.Some? then [s.nextName] else [])
      && forall m :: 0 <= m < 7 && m != l && m != l + 1 ==> t.layout[m] == s.layout[m] && t.meta[m] == s.meta[m]
  {
    AllInputsGo(s.layout[l], InputNames(s.layout[l]));
    AllNamesGo(s.meta[l], s.meta[l]);
  }

  lemma EmptiedLevel(s: State, l: nat, t: State)
    requires WellShaped(s) && l < 6 && Reordered(Compacted(s, l), t)
    ensures WellShaped(t) && t.layout[l] == [] && t.meta[l] == [] && |t.meta[l + 1]| <= |s.meta[l + 1]| + 1
  {
    CompactedLevels(s, l);
    hide Compacted;
    assert multiset(Compacted(s, l).layout[l]) == multiset(t.layout[l]);
    assert |multiset(t.layout[l])| == 0;
  }

  ghost predicate AllSorted(layout: Layout) {
    forall l :: 0 <= l < |layout| ==> FilesSorted(layout[l])
  }

  /** What one round makes of a state: nothing when no level is over its bound. */
  ghost predicate AfterRound(s: State, t: State)
    requires WellShaped(s)
  {
    match LevelToCompact(s.meta, 0)
    case None => t == s
    case Some(l) => l < 6 && Reordered(Compacted(s, l), t)
  }

  /** What one turn of the worker makes of a state: all is flushed, then one round. */
  ghost predicate AfterTurn(s: State, t: State)
    requires WellShaped(s)
  {
    exists mid :: Reordered(FlushFrom(s, 0), mid) && WellShaped(mid) && AfterRound(mid, t)
  }

  lemma ReorderedFiles(s: State, t: State)
    requires WellShaped(s) && Reordered(s, t)
    ensures forall l: nat, f :: FileAt(t.layout, l, f) <==> FileAt(s.layout, l, f)
  {
    SameFilesAt(Engine(s, Idle, 0, 0), t.layout);
  }

  lemma ReorderedIsDurable(s: State, t: State)
    requires WellShaped(s) && Reordered(s, t) && Durable(s)
    ensures Durable(t)
  {
    ReorderedFiles(s, t);
    ResortKeepsDurable(s, t.layout);
  }

  lemma CompactedIsDurable(s: State, l: nat)
    requires WellShaped(s) && Inv(Engine(s, Idle, 0, 0)) && Durable(s) && LevelToCompact(s.meta, 0) == Some(l) && l < 6
    ensures Durable(Compacted(s, l))
  {
    var e1 := Engine(s.(nextName := s.nextName + 1), Planned(NewTask(s, l)), 0, 0);
    assert e1 == Step(Engine(s, Idle, 0, 0), Plan);
    PlanKeepsInv(Engine(s, Idle, 0, 0));
    FinishKeepsDurable(e1.s, NewTask(s, l));
  }

  lemma RoundIsDurable(s: State, t: State)
    requires Inv(Engine(s, Idle, 0, 0)) && AfterRound(s, t) && Durable(s)
    ensures Durable(t) && t.imm == s.imm
  {
    match LevelToCompact(s.meta, 0)
    case None =>
    case Some(l) =>
      CompactedIsDurable(s, l);
      ReorderedIsDurable(Compacted(s, l), t);
  }

  /** After a turn every frozen table is marked as written, and its keys are on disk under its clocks. */
  lemma TurnIsDurable(s: State, t: State)
    requires Inv(Engine(s, Idle, 0, 0)) && AfterTurn(s, t) && Durable(s)
    ensures Durable(t) && |t.imm| == |s.imm|
    ensures forall i :: 0 <= i < |s.imm| ==> t.imm[i] == ImmNode(s.imm[i].mt, true)
  {
    var mid :| Reordered(FlushFrom(s, 0), mid) && WellShaped(mid) && AfterRound(mid, t);
    FlushAppends(s, 0);
    FlushKeepsDurable(s);
    ReorderedIsDurable(FlushFrom(s, 0), mid);
    FlushKeeps(Engine(s, Idle, 0, 0), 0);
    assert Inv(Engine(FlushFrom(s, 0), Idle, 0, 0));
    ResortKeepsInv(Engine(FlushFrom(s, 0), Idle, 0, 0), mid.layout);
    RoundIsDurable(mid, t);
  }

  lemma RoundKeepsTables(s: State, t: State)
    requires WellShaped(s) && AfterRound(s, t)
    ensures t.imm == s.imm
  {
  }

  lemma TurnIs(s: State, mid: State, t: State)
    requires WellShaped(s) && Reordered(FlushFrom(s, 0), mid) && WellShaped(mid) && AfterRound(mid, t)
    ensures AfterTurn(s, t) && mid.meta == FlushFrom(s, 0).meta
  {
  }

  lemma ReorderedView(s: State, t: State)
    requires Reordered(s, t)
    ensures View(t) == View(s)
  {
    SameTables(s, t);
  }

  lemma ReorderedItself(s: State)
    ensures Reordered(s, s)
  {
  }

  class ZenithDB {
    const id: NodeID
    var clock: Clock
    var active: Table
    var imm: seq<ImmNode>
    var layout: Layout
    var meta: Names
    var nextName: nat

    constructor (node: NodeID)
      ensures id == node && Now() == Start(node)
    {
      id := node;
      clock, active, imm := map[], map[], [];
      layout, meta, nextName := seq(7, _ => []), seq(7, _ => []), 0;
    }

    /** The state the fields hold. */
    function Now(): State
      reads this
    {
      State(id, clock, active, imm, layout, meta, nextName)
    }

    // ----- writes -----

    method Write(key: Key, reg: Register, full: bool)
      modifies `active, `imm
      ensures Now() == Store(old(Now()), key, reg, full)
    {
      active := active[key := reg];
      if full {
        var frozen := active;
        active := map[];
        imm := [ImmNode(frozen, false)] + imm;
      }
    }

    method Put(key: Key, value: ByteString, full: bool)
      modifies this
      ensures Now() == PutLocal(old(Now()), key, value, full)
    {
      clock := Tick(clock, id);
      Write(key, Register(value, clock), full);
    }

    method Remove(key: Key, full: bool)
      modifies this
      ensures Now() == PutLocal(old(Now()), key, [], full)
    {
      Put(key, [], full);
    }

    method PutCrdt(key: Key, incoming: Register, full: bool, missed: Misses)
      modifies this
      ensures Now() == PutRemote(old(Now()), key, incoming, full, missed)
    {
      clock := Join(clock, incoming.clock);
      var winner := incoming;
      var existing := GetCrdt(key, missed);
      if existing.Some? {
        winner := MergeRegisters(winner, existing.value);
      }
      Write(key, winner, full);
    }

    // ----- reads -----

    method SearchTables(key: Key) returns (r: Option<Register>)
      ensures r == FindInTables(Tables(Now()), key)
    {
      ghost var ts := Tables(Now());
      if key in active {
        return Some(active[key]);
      }
      var i := 0;
      while i < |imm|
        invariant i <= |imm|
        invariant FindInTables(ts, key) == FindInTables(ts[i + 1..], key)
      {
        assert ts[i + 1..][0] == imm[i].mt && ts[i + 1..][1..] == ts[i + 2..];
        if key in imm[i].mt {
          return Some(imm[i].mt[key]);
        }
        i := i + 1;
      }
      return None;
    }

    static method SearchLevel(files: seq<File>, key: Key, missed: Misses) returns (r: Option<Register>)
      ensures r == FindInLevel(files, key, missed)
    {
      var j := 0;
      while j < |files| && !Less(key, files[j].minKey)
        invariant j <= |files|
        invariant FindInLevel(files, key, missed) == FindInLevel(files[j..], key, missed)
      {
        assert files[j..][1..] == files[j + 1..];
        if key in files[j].rows && (files[j].name, key) !in missed {
          return Some(files[j].rows[key]);
        }
        j := j + 1;
      }
      return None;
    }

    /** `missed` says for which files the point read comes back empty although the file holds the key. */
    method GetCrdt(key: Key, missed: Misses) returns (r: Option<Register>)
      ensures r == Read(Now(), key, missed)
    {
      var raw := SearchTables(key);
      var l := 0;
      ghost var levels := layout;
      while l < |layout| && raw.None?
        invariant l <= |layout|
        invariant RawGet(Now(), key, missed) == if raw.Some? then raw else FindInLayout(levels[l..], key, missed)
      {
        assert levels[l..][1..] == levels[l + 1..];
        raw := SearchLevel(layout[l], key, missed);
        l := l + 1;
      }
      if raw.None? || raw.value.value == [] {
        return None;
      }
      return raw;
    }

    // ----- range scan -----

    ghost predicate KnownRows(raw: seq<CrdtRow>, start: Key, end: Key)
      reads this
    {
      forall row :: row in raw ==> InRange(row.0, start, end) && row.1 in AllRegs(Now(), row.0)
    }

    method Gather(start: Key, end: Key, missed: Misses) returns (raw: seq<CrdtRow>)
      ensures forall row :: row in raw ==> InRange(row.0, start, end) && row.1 in AllRegs(Now(), row.0)
      ensures forall t, k :: t in Tables(Now()) && k in t && InRange(k, start, end) ==> (k, t[k]) in raw
      ensures HasFileRows(Now(), start, end, missed, raw)
    {
      hide Tables, AllRegs, InRange, HasFileRows;
      var fromTables := GatherTables(start, end);
      var fromFiles := GatherFiles(start, end, missed);
      raw := fromTables + fromFiles;
      MoreFileRows(Now(), start, end, missed, fromFiles, raw);
    }

    method GatherTables(start: Key, end: Key) returns (raw: seq<CrdtRow>)
      ensures KnownRows(raw, start, end)
      ensures TablesGathered(Tables(Now()), start, end, raw)
    {
      hide Less, AtMost, AllRegs, InRange, TablesGathered;
      ghost var s := Now();
      ghost var ts := Tables(s);
      raw := ScanTable(active, start, end);
      assert ts[0] in ts;
      TableRowsAreKnown(s, active, raw);
      FirstTable(ts, start, end, raw);
      var i := 0;
      while i < |imm|
        invariant i <= |imm| && KnownRows(raw, start, end)
        invariant TablesGathered(ts[..i + 1], start, end, raw)
      {
        assert ts[i + 1] == imm[i].mt && ts[i + 1] in ts;
        var part := ScanTable(imm[i].mt, start, end);
        TableRowsAreKnown(s, imm[i].mt, part);
        MoreTables(ts, i + 1, start, end, raw, part);
        raw := raw + part;
        i := i + 1;
      }
      assert ts[..i + 1] == ts;
    }

    method GatherFiles(start: Key, end: Key, missed: Misses) returns (raw: seq<CrdtRow>)
      ensures KnownRows(raw, start, end) && HasFileRows(Now(), start, end, missed, raw)
    {
      hide InRange, AllRegs, RegsIn, AtMost, Less, Answers;
      raw := [];
      var l := 0;
      while l < |layout|
        invariant l <= |layout| && KnownRows(raw, start, end)
        invariant forall m :: 0 <= m < l ==> LevelGathered(layout[m], start, end, missed, raw)
      {
        var part := GatherLevel(l, start, end, missed);
        FileRowsAreKnown(Now(), part);
        raw := raw + part;
        l := l + 1;
      }
    }

    method GatherLevel(l: nat, start: Key, end: Key, missed: Misses) returns (raw: seq<CrdtRow>)
      requires l < |layout|
      ensures forall row :: row in raw ==> InRange(row.0, start, end) && row.1 in RegsIn(layout, row.0)
      ensures LevelGathered(layout[l], start, end, missed, raw)
    {
      hide Less, AtMost;
      raw := [];
      var j := 0;
      while j < |layout[l]|
        invariant j <= |layout[l]|
        invariant forall row :: row in raw ==> InRange(row.0, start, end) && row.1 in RegsIn(layout, row.0)
        invariant LevelGathered(layout[l][..j], start, end, missed, raw)
      {
        var f := layout[l][j];
        assert layout[l][..j + 1] == layout[l][..j] + [f];
        forall k | Answers(f, k, missed) && InRange(k, start, end) && AtMost(f.minKey, k) ensures !Less(end, f.minKey) {
          EndBelowMin(start, end, f.minKey, k);
        }
        if !Less(end, f.minKey) {
          var part := ScanFile(f, start, end, missed);
          raw := raw + part;
        }
        j := j + 1;
      }
      assert layout[l][..j] == layout[l];
    }

    method ScanCrdt(start: Key, end: Key, missed: Misses) returns (out: seq<CrdtRow>)
      ensures exists raw :: Gathered(Now(), start, end, raw) && HasFileRows(Now(), start, end, missed, raw)
                            && out == LiveRows(FoldRows(raw))
    {
      hide AllRegs, MergeRegisters, Less, HasFileRows;
      var rows := Gather(start, end, missed);
      var raw := SortBy(rows, (row: CrdtRow) => row.0);
      KeysAreSorted(raw);
      SameMembers(raw, rows);
      assert Gathered(Now(), start, end, raw);
      MoreFileRows(Now(), start, end, missed, rows, raw);
      var merged: seq<CrdtRow>, i := [], 0;
      while i < |raw|
        invariant i <= |raw|
        invariant merged == FoldRows(raw[..i])
      {
        assert raw[..i + 1][..i] == raw[..i];
        var last := |merged| - 1;
        if merged == [] || merged[last].0 != raw[i].0 {
          merged := merged + [raw[i]];
        } else {
          merged := merged[last := (merged[last].0, MergeRegisters(merged[last].1, raw[i].1))];
        }
        i := i + 1;
      }
      assert raw[..i] == raw;
      out, i := [], 0;
      while i < |merged|
        invariant i <= |merged|
        invariant out == LiveRows(merged[..i])
      {
        assert merged[..i + 1][..i] == merged[..i];
        if merged[i].1.value != [] {
          out := out + [merged[i]];
        }
        i := i + 1;
      }
      assert merged[..i] == merged;
    }

    // ----- flush -----

    method FlushTable(mt: Table)
      requires WellShaped(Now())
      modifies `layout, `meta, `nextName
      ensures Now() == FlushOne(old(Now()), mt)
    {
      if mt == map[] {
        return;
      }
      var first := FirstKey(mt);
      var name := nextName;
      nextName := nextName + 1;
      meta := meta[0 := meta[0] + [name]];
      layout := layout[0 := layout[0] + [File(name, first, mt, 0)]];
    }

    method Flush()
      requires WellShaped(Now())
      modifies `imm, `layout, `meta, `nextName
      ensures Now() == FlushFrom(old(Now()), 0)
      ensures layout == old(layout)[0 := old(layout)[0] + FilesOf(Unwritten(old(imm), 0), old(nextName))]
      ensures |imm| == |old(imm)| && forall j :: 0 <= j < |imm| ==> imm[j] == ImmNode(old(imm)[j].mt, true)
    {
      FlushAppends(Now(), 0);
      var i := 0;
      while i < |imm|
        invariant i <= |imm| && WellShaped(Now())
        invariant FlushFrom(Now(), i) == FlushFrom(old(Now()), 0)
      {
        if !imm[i].flushed {
          imm := imm[i := imm[i].(flushed := true)];
          FlushTable(imm[i].mt);
        }
        i := i + 1;
      }
    }

    // ----- compaction -----

    method PlanCompaction() returns (task: Option<Task>)
      requires WellShaped(Now())
      modifies `nextName
      ensures LevelToCompact(meta, 0) == None ==> task == None && Now() == old(Now())
      ensures forall l :: LevelToCompact(meta, 0) == Some(l) ==>
        l < 6 && task == Some(NewTask(old(Now()), l)) && Now() == old(Now()).(nextName := old(nextName) + 1)
    {
      var l := 0;
      while l + 1 < |meta|
        invariant l < |meta|
        invariant LevelToCompact(meta, 0) == LevelToCompact(meta, l)
        invariant Now() == old(Now())
      {
        var threshold := if l == 0 then 3 else 4;
        if |meta[l]| >= threshold {
          task := Some(Task(l, meta[l], layout[l], nextName));
          nextName := nextName + 1;
          return;
        }
        l := l + 1;
      }
      task := None;
    }

    /** One input of a compaction: its rows join the map, key by key. */
    static method MergeInput(merged: Table, rows: Table) returns (m: Table)
      ensures m == MergeTables(merged, Scanned(rows))
    {
      m := merged;
      var scanned := Scanned(rows);
      var todo := scanned.Keys;
      MergeNone(merged, scanned);
      while todo != {}
        invariant todo <= scanned.Keys && m == MergeTables(merged, scanned - todo)
        decreases |todo|
      {
        var k :| k in todo;
        MergeStep(merged, scanned, todo, k);
        if k in m {
          m := m[k := MergeRegisters(m[k], scanned[k])];
        } else {
          m := m[k := scanned[k]];
        }
        todo := todo - {k};
      }
      assert scanned - todo == scanned;
    }

    static method ExecuteCompaction(task: Task) returns (output: Option<File>)
      ensures output == Output(task)
    {
      var merged: Table, i, rewrites := map[], 0, 0;
      while i < |task.inputs|
        invariant i <= |task.inputs|
        invariant merged == MergeFiles(task.inputs[..i])
      {
        assert task.inputs[..i + 1][..i] == task.inputs[..i];
        merged := MergeInput(merged, task.inputs[i].rows);
        i := i + 1;
      }
      assert task.inputs[..i] == task.inputs;
      if merged == map[] {
        return None;
      }
      var first := FirstKey(merged);
      return Some(File(task.outName, first, merged, MaxRewrites(task.inputs) + 1));
    }

    static method RemainingNames(files: seq<nat>, done: seq<nat>) returns (remaining: seq<nat>)
      ensures remaining == NamesWithout(files, done)
    {
      hide NamesWithout;
      remaining := [];
      var i := 0;
      NamesWithoutEnd(files, done);
      while i < |files|
        invariant i <= |files|
        invariant remaining + NamesWithout(files[i..], done) == NamesWithout(files, done)
      {
        var processed, j := false, 0;
        while j < |done| && !processed
          invariant j <= |done|
          invariant processed <==> files[i] in done[..j]
        {
          processed := files[i] == done[j];
          j := j + 1;
        }
        NamesWithoutStep(files, done, i);
        if !processed {
          assert done[..j] == done;
          remaining := remaining + [files[i]];
        }
        i := i + 1;
      }
    }

    static method IsInput(f: File, inputs: seq<File>) returns (found: bool)
      ensures found <==> f.name in InputNames(inputs)
    {
      var j := 0;
      while j < |inputs|
        invariant j <= |inputs| && forall n :: 0 <= n < j ==> inputs[n].name != f.name
      {
        if f.name == inputs[j].name {
          assert inputs[j] in inputs;
          return true;
        }
        j := j + 1;
      }
      return false;
    }

    static method KeptEntries(files: seq<File>, inputs: seq<File>) returns (kept: seq<File>)
      ensures kept == WithoutNames(files, InputNames(inputs))
    {
      hide WithoutNames, InputNames;
      kept := [];
      var i := 0;
      ghost var names := InputNames(inputs);
      WithoutNamesEnd(files, names);
      while i < |files|
        invariant i <= |files|
        invariant kept + WithoutNames(files[i..], names) == WithoutNames(files, names)
      {
        var isInput := IsInput(files[i], inputs);
        WithoutNamesStep(files, names, i);
        if !isInput {
          kept := kept + [files[i]];
        }
        i := i + 1;
      }
    }

    method ApplyCompaction(task: Task, output: Option<File>)
      requires WellShaped(Now()) && task.level < 6
      modifies `layout, `meta
      ensures Now() == Apply(old(Now()), task, output)
    {
      var i := task.level;
      var remaining := RemainingNames(meta[i], task.names);
      meta := meta[i := remaining];
      if output.Some? {
        meta := meta[i + 1 := meta[i + 1] + [task.outName]];
      }
      var kept := KeptEntries(layout[i], task.inputs);
      layout := layout[i := kept];
      if output.Some? {
        layout := layout[i + 1 := layout[i + 1] + [output.value]];
      }
    }

    /** The files of every level in the order of their first keys; ties may come in any order. */
    method SortLevels()
      modifies `layout
      ensures SameFiles(old(layout), layout)
      ensures AllSorted(layout) && Now() == old(Now()).(layout := layout)
    {
      var l := 0;
      while l < |layout|
        invariant l <= |layout| && SameFiles(old(layout), layout)
        invariant forall j :: 0 <= j < l ==> FilesSorted(layout[j])
      {
        var files := SortBy(layout[l], (f: File) => f.minKey);
        layout := layout[l := files];
        l := l + 1;
      }
    }

    // ----- the background worker -----

    /** Plan, execute, apply and sort, with no write in between. */
    method CompactRound() returns (worked: bool)
      requires WellShaped(Now())
      modifies this
      ensures LevelToCompact(old(meta), 0) == None ==> !worked && Now() == old(Now())
      ensures forall l :: LevelToCompact(old(meta), 0) == Some(l) ==>
        worked && l < 6 && Reordered(Compacted(old(Now()), l), Now())
      ensures worked ==> AllSorted(layout)
    {
      var task := PlanCompaction();
      if task.None? {
        return false;
      }
      var output := ExecuteCompaction(task.value);
      ApplyCompaction(task.value, output);
      SortLevels();
      return true;
    }

    /** A round changes no reading, and takes all files of the level it picks for one on the next, or there was
        nothing to do. */
    method CompactOnce() returns (worked: bool)
      requires Inv(Engine(Now(), Idle, 0, 0))
      modifies this
      ensures Inv(Engine(Now(), Idle, 0, 0)) && View(Now()) == View(old(Now()))
      ensures AfterRound(old(Now()), Now())
      ensures worked <==> LevelToCompact(old(meta), 0).Some?
      ensures worked ==> Total(meta) + 2 <= Total(old(meta))
      ensures worked ==> AllSorted(layout)
      ensures !worked ==> Now() == old(Now())
      ensures forall l :: LevelToCompact(old(meta), 0) == Some(l) ==>
        l < 6 && layout[l] == [] && meta[l] == [] && |meta[l + 1]| <= |old(meta)[l + 1]| + 1
    {
      ghost var s := Now();
      ghost var plan := LevelToCompact(meta, 0);
      worked := CompactRound();
      hide Inv, Compacted, Reordered, View, AllSorted, LevelToCompact;
      if plan.Some? {
        RoundKeepsInv(s, plan.value, Now());
        EmptiedLevel(s, plan.value, Now());
      }
    }

    method NeedsFlush() returns (needed: bool)
      ensures needed <==> exists i :: 0 <= i < |imm| && !imm[i].flushed
    {
      var i := 0;
      while i < |imm|
        invariant i <= |imm| && forall j :: 0 <= j < i ==> imm[j].flushed
      {
        if !imm[i].flushed {
          return true;
        }
        i := i + 1;
      }
      return false;
    }

    /** One turn of the background worker: every frozen table is written, then one round of compaction. It
        changes no reading, and reports idle only when there was nothing to do. */
    method WorkerTurn() returns (didWork: bool)
      requires Inv(Engine(Now(), Idle, 0, 0))
      modifies this
      ensures Inv(Engine(Now(), Idle, 0, 0)) && View(Now()) == View(old(Now()))
      ensures AfterTurn(old(Now()), Now())
      ensures forall i :: 0 <= i < |imm| ==> imm[i].flushed
      ensures didWork <==> (exists i :: 0 <= i < |old(imm)| && !old(imm)[i].flushed)
                           || LevelToCompact(FlushFrom(old(Now()), 0).meta, 0).Some?
      ensures didWork ==> AllSorted(layout)
      ensures !didWork ==> Now() == old(Now()) && LevelToCompact(meta, 0) == None
      ensures didWork && (forall i :: 0 <= i < |old(imm)| ==> old(imm)[i].flushed)
              ==> Total(meta) + 2 <= Total(old(meta))
    {
      ghost var s := Now();
      didWork := FlushPending();
      ghost var mid := Now();
      var compacted := CompactOnce();
      RoundKeepsTables(mid, Now());
      hide Inv, View, AfterRound, Reordered, FlushFrom, LevelToCompact, AllSorted, Total;
      TurnIs(s, mid, Now());
      didWork := didWork || compacted;
    }

    /** The first half of a turn: when a frozen table is unwritten, all of them are written out. */
    method FlushPending() returns (flushed: bool)
      requires Inv(Engine(Now(), Idle, 0, 0))
      modifies this
      ensures Inv(Engine(Now(), Idle, 0, 0)) && View(Now()) == View(old(Now()))
      ensures Reordered(FlushFrom(old(Now()), 0), Now())
      ensures forall i :: 0 <= i < |imm| ==> imm[i].flushed
      ensures flushed <==> exists i :: 0 <= i < |old(imm)| && !old(imm)[i].flushed
      ensures if flushed then AllSorted(layout) else Now() == old(Now())
    {
      ghost var s := Now();
      FlushKeeps(Engine(s, Idle, 0, 0), 0);
      flushed := NeedsFlush();
      if flushed {
        Flush();
        ghost var written := Now();
        SortLevels();
        hide FlushFrom, AllSorted, View;
        ResortKeepsInv(Engine(written, Idle, 0, 0), layout);
        ReorderedView(written, Now());
      } else {
        FlushNothing(s, 0);
        ReorderedItself(s);
      }
    }

    /** The worker's loop: it comes to rest, with every table written, the levels within their bounds, nothing
        that was on disk lost and every read as it was. */
    method WorkUntilIdle()
      requires Inv(Engine(Now(), Idle, 0, 0))
      modifies this
      ensures Inv(Engine(Now(), Idle, 0, 0)) && View(Now()) == View(old(Now()))
      ensures forall i :: 0 <= i < |imm| ==> imm[i].flushed
      ensures |meta[0]| <= 2 && forall l :: 1 <= l <= 5 ==> |meta[l]| <= 3
      ensures Durable(old(Now())) ==> Durable(Now())
    {
      var didWork := true;
      ghost var first := true;
      while didWork
        invariant Inv(Engine(Now(), Idle, 0, 0)) && View(Now()) == View(old(Now()))
        invariant Durable(old(Now())) ==> Durable(Now())
        invariant !first ==> forall i :: 0 <= i < |imm| ==> imm[i].flushed
        invariant !didWork ==> !first && LevelToCompact(meta, 0) == None
        decreases first, Total(meta) + if didWork then 1 else 0
      {
        ghost var s := Now();
        didWork := WorkerTurn();
        if Durable(s) {
          TurnIsDurable(s, Now());
        }
        first := false;
      }
      QuietMeansBounded(meta);
    }

    /** With no new flushes the worker comes to rest, with the levels within their bounds and every read
        as it was. */
    method CompactUntilQuiet()
      requires Inv(Engine(Now(), Idle, 0, 0))
      modifies this
      ensures Inv(Engine(Now(), Idle, 0, 0))
      ensures |meta[0]| <= 2 && forall l :: 1 <= l <= 5 ==> |meta[l]| <= 3
      ensures forall key, missed, missed' :: Read(Now(), key, missed) == Read(old(Now()), key, missed')
    {
      var worked := true;
      while worked
        invariant Inv(Engine(Now(), Idle, 0, 0)) && View(Now()) == View(old(Now()))
        invariant !worked ==> LevelToCompact(meta, 0) == None
        decreases Total(meta) + if worked then 1 else 0
      {
        worked := CompactOnce();
      }
      QuietMeansBounded(meta);
      forall key, missed, missed' ensures Read(Now(), key, missed) == Read(old(Now()), key, missed') {
        ReadRefines(Now(), key, missed);
        ReadRefines(old(Now()), key, missed');
      }
    }
  }
}
