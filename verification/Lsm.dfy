/** The state of the storage engine and what its operations do to it, on values. */
module Lsm {
  import opened Bytes
  import opened VectorClocks
  import opened Crdt
  import opened Database

  type Table = map<Key, Register>

  /** A table file: its name, its first key, its rows, and how often its rows have been rewritten. */
  datatype File = File(name: nat, minKey: Key, rows: Table, rewrites: nat)

  datatype ImmNode = ImmNode(mt: Table, flushed: bool)

  datatype Task = Task(level: nat, names: seq<nat>, inputs: seq<File>, outName: nat)

  type Layout = seq<seq<File>>
  type Names = seq<seq<nat>>

  /** The files and keys for which a point read comes back empty although the file holds the key: a file may
      do so (SSTableReads.PointReadsExactIff). */
  type Misses = set<(nat, Key)>

  datatype State = State(
    id: NodeID, clock: Clock,
    active: Table, imm: seq<ImmNode>,  // newest frozen table first
    layout: Layout, meta: Names, nextName: nat)

  const TOP: Key := [255, 255, 255, 255]

  function Start(id: NodeID): State {
    State(id, map[], map[], [], seq(7, _ => []), seq(7, _ => []), 0)
  }

  // ----- memtables -----

  function Tables(s: State): (ts: seq<Table>)
    ensures |ts| == |s.imm| + 1
  {
    [s.active] + seq(|s.imm|, i requires 0 <= i < |s.imm| => s.imm[i].mt)
  }

  /** The newest register of every key, newer tables first. */
  function Overlay(ts: seq<Table>): Table {
    if ts == [] then map[] else Overlay(ts[1..]) + ts[0]
  }

  /** The abstract database this state stands for. */
  function View(s: State): Db {
    Db(s.id, s.clock, Overlay(Tables(s)))
  }

  function FindInTables(ts: seq<Table>, key: Key): Option<Register> {
    if ts == [] then None
    else if key in ts[0] then Some(ts[0][key])
    else FindInTables(ts[1..], key)
  }

  function Store(s: State, key: Key, reg: Register, full: bool): State {
    var active := s.active[key := reg];
    if full then s.(active := map[], imm := [ImmNode(active, false)] + s.imm)
    else s.(active := active)
  }

  // ----- reads -----

  function FindInLevel(files: seq<File>, key: Key, missed: Misses): Option<Register>
    decreases files
  {
    if files == [] || Less(key, files[0].minKey) then None
    else if key in files[0].rows && (files[0].name, key) !in missed then Some(files[0].rows[key])
    else FindInLevel(files[1..], key, missed)
  }

  function FindInLayout(layout: Layout, key: Key, missed: Misses): Option<Register>
    decreases layout
  {
    if layout == [] then None
    else match FindInLevel(layout[0], key, missed)
      case Some(r) => Some(r)
      case None => FindInLayout(layout[1..], key, missed)
  }

  function RawGet(s: State, key: Key, missed: Misses): Option<Register> {
    match FindInTables(Tables(s), key)
    case Some(r) => Some(r)
    case None => FindInLayout(s.layout, key, missed)
  }

  function Read(s: State, key: Key, missed: Misses): Option<Register> {
    match RawGet(s, key, missed)
    case None => None
    case Some(r) => if r.value == [] then None else Some(r)
  }

  // ----- writes -----

  function PutLocal(s: State, key: Key, value: ByteString, full: bool): State {
    var c := Tick(s.clock, s.id);
    Store(s.(clock := c), key, Register(value, c), full)
  }

  function PutRemote(s: State, key: Key, incoming: Register, full: bool, missed: Misses): State {
    var winner := match Read(s, key, missed)
      case None => incoming
      case Some(existing) => MergeRegisters(incoming, existing);
    Store(s.(clock := Join(s.clock, incoming.clock)), key, winner, full)
  }

  // ----- flush -----

  /** The first key of a table's file. */
  ghost function MinKey(t: Table): Key {
    RowsAreMap(t);
    if t == map[] then [] else Rows(t)[0].0
  }

  predicate WellShaped(s: State) {
    |s.layout| == |s.meta| == 7
  }

  /** Writing out one frozen table: an empty one makes no file. */
  ghost function FlushOne(s: State, mt: Table): (s': State)
    requires WellShaped(s)
    ensures WellShaped(s') && s'.nextName >= s.nextName
  {
    if mt == map[] then s else
      s.(layout := s.layout[0 := s.layout[0] + [File(s.nextName, MinKey(mt), mt, 0)]],
         meta := s.meta[0 := s.meta[0] + [s.nextName]],
         nextName := s.nextName + 1)
  }

  /** The flush loop: every table not yet written, from the newest on. */
  ghost function FlushFrom(s: State, i: nat): (s': State)
    requires WellShaped(s)
    ensures WellShaped(s') && s'.nextName >= s.nextName
    decreases |s.imm| - i
  {
    if i >= |s.imm| then s
    else if s.imm[i].flushed then FlushFrom(s, i + 1)
    else FlushFrom(FlushOne(s.(imm := s.imm[i := s.imm[i].(flushed := true)]), s.imm[i].mt), i + 1)
  }

  // ----- compaction -----

  function Threshold(level: nat): nat {
    if level == 0 then 3 else 4
  }

  /** The first level that is over its threshold, the last level never being one. */
  function LevelToCompact(meta: Names, from: nat): Option<nat>
    decreases |meta| - from
  {
    if from + 1 >= |meta| then None
    else if |meta[from]| >= Threshold(from) then Some(from)
    else LevelToCompact(meta, from + 1)
  }

  /** What the scan bound of a compaction lets through. */
  function Scanned(rows: Table): Table {
    map k | k in rows && AtMost(k, TOP) :: rows[k]
  }

  function MergeTables(older: Table, newer: Table): Table {
    map k | k in older.Keys + newer.Keys ::
      if k in older && k in newer then MergeRegisters(older[k], newer[k])
      else if k in older then older[k] else newer[k]
  }

  function MergeFiles(files: seq<File>): Table {
    if files == [] then map[]
    else MergeTables(MergeFiles(files[..|files| - 1]), Scanned(files[|files| - 1].rows))
  }

  function MaxRewrites(files: seq<File>): nat {
    if files == [] then 0
    else var rest := MaxRewrites(files[1..]); if files[0].rewrites > rest then files[0].rewrites else rest
  }

  ghost function Output(task: Task): Option<File> {
    var rows := MergeFiles(task.inputs);
    if rows == map[] then None else Some(File(task.outName, MinKey(rows), rows, MaxRewrites(task.inputs) + 1))
  }

  function WithoutNames(files: seq<File>, names: set<nat>): seq<File> {
    if files == [] then []
    else (if files[0].name in names then [] else [files[0]]) + WithoutNames(files[1..], names)
  }

  function NamesWithout(files: seq<nat>, names: seq<nat>): seq<nat> {
    if files == [] then []
    else (if files[0] in names then [] else [files[0]]) + NamesWithout(files[1..], names)
  }

  function InputNames(inputs: seq<File>): set<nat> {
    set f | f in inputs :: f.name
  }

  function Apply(s: State, task: Task, output: Option<File>): State
    requires WellShaped(s) && task.level < 6
  {
    var i := task.level;
    var layout := s.layout[i := WithoutNames(s.layout[i], InputNames(task.inputs))];
    var meta := s.meta[i := NamesWithout(s.meta[i], task.names)];
    match output
    case None => s.(layout := layout, meta := meta)
    case Some(f) => s.(layout := layout[i + 1 := layout[i + 1] + [f]], meta := meta[i + 1 := meta[i + 1] + [task.outName]])
  }

  /** The scan bound of a compaction lets through every key that is short or does not begin with four bytes 255. */
  lemma BelowScanBound(k: Key)
    ensures AtMost(k, [255, 255, 255, 255]) <==> |k| <= 4 || k[..4] != [255, 255, 255, 255]
  {
    BelowBound(k, [255, 255, 255, 255]);
  }

  // ----- reads refine the abstract database -----

  lemma {:induction false} FindIsOverlay(ts: seq<Table>, key: Key)
    ensures FindInTables(ts, key) == if key in Overlay(ts) then Some(Overlay(ts)[key]) else None
  {
    if ts != [] {
      FindIsOverlay(ts[1..], key);
    }
  }

  /** Every key in a file is still in some table: tables are never dropped while the process lives. */
  predicate FilesAreShadowed(s: State) {
    forall l, f :: 0 <= l < |s.layout| && f in s.layout[l] ==> f.rows.Keys <= Overlay(Tables(s)).Keys
  }

  lemma {:induction false} AbsentFromLevel(files: seq<File>, key: Key, missed: Misses)
    requires forall f :: f in files ==> key !in f.rows
    ensures FindInLevel(files, key, missed) == None
  {
    if files != [] {
      AbsentFromLevel(files[1..], key, missed);
    }
  }

  lemma {:induction false} AbsentFromLayout(layout: Layout, key: Key, missed: Misses)
    requires forall l, f :: 0 <= l < |layout| && f in layout[l] ==> key !in f.rows
    ensures FindInLayout(layout, key, missed) == None
  {
    if layout != [] {
      AbsentFromLevel(layout[0], key, missed);
      forall l, f | 0 <= l < |layout[1..]| && f in layout[1..][l] ensures key !in f.rows {
        assert layout[1..][l] == layout[l + 1];
      }
      AbsentFromLayout(layout[1..], key, missed);
    }
  }

  /** So a read needs no file at all: it is exact whatever the files miss. */
  lemma ReadRefines(s: State, key: Key, missed: Misses)
    requires FilesAreShadowed(s)
    ensures Read(s, key, missed) == GetCrdt(View(s), key)
  {
    FindIsOverlay(Tables(s), key);
    if key !in Overlay(Tables(s)) {
      AbsentFromLayout(s.layout, key, missed);
    }
  }

  lemma OverlayFirst(first: Table, rest: seq<Table>)
    ensures Overlay([first] + rest) == Overlay(rest) + first
  {
    assert ([first] + rest)[1..] == rest;
  }

  lemma UpdateOnTop(below: Table, t: Table, key: Key, reg: Register)
    ensures below + t[key := reg] == (below + t)[key := reg]
  {
  }

  lemma NothingOnTop(below: Table)
    ensures below + map[] == below
  {
  }

  lemma StoreIsUpdate(s: State, key: Key, reg: Register, full: bool)
    ensures Overlay(Tables(Store(s, key, reg, full))) == Overlay(Tables(s))[key := reg]
  {
    var s' := Store(s, key, reg, full);
    var rest, active := Tables(s)[1..], s.active[key := reg];
    assert Tables(s) == [s.active] + rest;
    OverlayFirst(s.active, rest);
    OverlayFirst(active, rest);
    hide Overlay;
    UpdateOnTop(Overlay(rest), s.active, key, reg);
    if full {
      assert Tables(s') == [map[]] + ([active] + rest);
      OverlayFirst(map[], [active] + rest);
      NothingOnTop(Overlay([active] + rest));
    } else {
      assert Tables(s') == [active] + rest;
    }
  }

  lemma PutLocalRefines(s: State, key: Key, value: ByteString, full: bool)
    ensures View(PutLocal(s, key, value, full)) == LocalPut(View(s), key, value)
  {
    var c := Tick(s.clock, s.id);
    StoreIsUpdate(s.(clock := c), key, Register(value, c), full);
    assert Tables(s.(clock := c)) == Tables(s);
  }

  lemma PutRemoteRefines(s: State, key: Key, incoming: Register, full: bool, missed: Misses)
    requires FilesAreShadowed(s)
    ensures View(PutRemote(s, key, incoming, full, missed)) == RemotePut(View(s), key, incoming)
  {
    ReadRefines(s, key, missed);
    var t := s.(clock := Join(s.clock, incoming.clock));
    assert Tables(t) == Tables(s);
    StoreIsUpdate(t, key, Winner(View(s), key, incoming), full);
  }
}
