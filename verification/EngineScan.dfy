/** The range scan of the engine: gather rows from everywhere, sort by key, fold equal keys with the
    register merge, drop tombstones. */
module EngineScan {
  import opened Bytes
  import opened VectorClocks
  import opened Crdt
  import opened Database
  import opened MergeTrees
  import opened Confluence
  import opened Lsm
  import opened Compaction
  import opened EngineRuns
  import opened EngineOrder
  import opened EngineDisk

  type CrdtRow = (Key, Register)

  ghost predicate KeysSorted(rows: seq<CrdtRow>) {
    forall i, j :: 0 <= i < j < |rows| ==> AtMost(rows[i].0, rows[j].0)
  }

  /** The merge loop: a row joins the last result row when the keys are equal, else it starts a new one. */
  function FoldRows(rows: seq<CrdtRow>): seq<CrdtRow> {
    if rows == [] then [] else
      var n := |rows| - 1;
      var done, row := FoldRows(rows[..n]), rows[n];
      var last := |done| - 1;
      if done == [] || done[last].0 != row.0 then done + [row]
      else done[last := (row.0, MergeRegisters(done[last].1, row.1))]
  }

  function LiveRows(rows: seq<CrdtRow>): seq<CrdtRow> {
    if rows == [] then [] else
      var n := |rows| - 1;
      LiveRows(rows[..n]) + if rows[n].1.value == [] then [] else [rows[n]]
  }

  /** What a scan may have gathered once sorted: every row of every table in the range, and rows of the
      files in the range. Equal keys stand in any order. */
  ghost predicate Gathered(s: State, start: Key, end: Key, raw: seq<CrdtRow>) {
    && KeysSorted(raw)
    && (forall row :: row in raw ==> InRange(row.0, start, end) && row.1 in AllRegs(s, row.0))
    && (forall t, k :: t in Tables(s) && k in t && InRange(k, start, end) ==> (k, t[k]) in raw)
  }

  /** ... of which a file's scan returns all it does not miss. */
  ghost predicate HasFileRows(s: State, start: Key, end: Key, missed: Misses, raw: seq<CrdtRow>) {
    forall l: nat, f, k :: FileAt(s.layout, l, f) && Answers(f, k, missed) && InRange(k, start, end) && AtMost(f.minKey, k)
      ==> (k, f.rows[k]) in raw
  }

  function RegsAt(rows: seq<CrdtRow>, k: Key): set<Register> {
    set row | row in rows && row.0 == k :: row.1
  }

  // ----- the fold -----

  /** A register that merging exactly these in some order comes to. */
  ghost predicate IsMergeOf(r: Register, regs: set<Register>) {
    exists t :: Leaves(t) == regs && Eval(t) == r
  }

  /** One result row per key, and it is a merge of exactly the gathered rows of its key. */
  ghost predicate Folded(rows: seq<CrdtRow>, done: seq<CrdtRow>) {
    && Ascending(done)
    && (forall i :: 0 <= i < |done| ==> IsMergeOf(done[i].1, RegsAt(rows, done[i].0)))
    && (forall row :: row in rows ==> HasRow(done, row.0))
  }

  lemma RegsAtSnoc(rows: seq<CrdtRow>, row: CrdtRow, k: Key)
    ensures RegsAt(rows + [row], k) == RegsAt(rows, k) + if k == row.0 then {row.1} else {}
  {
    assert row in rows + [row];
  }

  lemma HasRowSnoc(done: seq<CrdtRow>, row: CrdtRow, k: Key)
    requires HasRow(done, k) || k == row.0
    ensures HasRow(done + [row], k)
  {
    if HasRow(done, k) {
      var i :| 0 <= i < |done| && done[i].0 == k;
      assert (done + [row])[i].0 == k;
    } else {
      assert (done + [row])[|done|].0 == k;
    }
  }

  lemma StartRow(rows: seq<CrdtRow>, done: seq<CrdtRow>, row: CrdtRow)
    requires Folded(rows, done) && KeysSorted(rows + [row])
    requires done == [] || done[|done| - 1].0 != row.0
    ensures Folded(rows + [row], done + [row])
  {
    StrictTotalOrder();
    forall i | 0 <= i < |done| ensures Less(done[i].0, row.0) {
      LastKeyBefore(rows, done, row);
    }
    forall i | 0 <= i < |done| + 1 ensures IsMergeOf((done + [row])[i].1, RegsAt(rows + [row], (done + [row])[i].0)) {
      RegsAtSnoc(rows, row, (done + [row])[i].0);
      if i == |done| {
        NewKey(rows, done, row.0);
        LeafIsMerge(row.1);
      } else {
        assert IsMergeOf(done[i].1, RegsAt(rows, done[i].0));
      }
    }
    forall r | r in rows + [row] ensures HasRow(done + [row], r.0) {
      HasRowSnoc(done, row, r.0);
    }
  }

  lemma NewKey(rows: seq<CrdtRow>, done: seq<CrdtRow>, k: Key)
    requires Folded(rows, done) && forall i :: 0 <= i < |done| ==> done[i].0 != k
    ensures RegsAt(rows, k) == {}
  {
    forall row | row in rows ensures row.0 != k {
      assert HasRow(done, row.0);
    }
  }

  /** The last result key is the key of some earlier row, so it is not above the next one. */
  lemma LastKeyBefore(rows: seq<CrdtRow>, done: seq<CrdtRow>, row: CrdtRow)
    requires Folded(rows, done) && KeysSorted(rows + [row]) && done != []
    ensures AtMost(done[|done| - 1].0, row.0)
  {
    var last := |done| - 1;
    assert IsMergeOf(done[last].1, RegsAt(rows, done[last].0));
    var t :| Leaves(t) == RegsAt(rows, done[last].0) && Eval(t) == done[last].1;
    EvalValueIsWritten(t);
    var x :| x in RegsAt(rows, done[last].0);
    var r :| r in rows && r.0 == done[last].0;
    var i :| 0 <= i < |rows| && rows[i] == r;
    assert (rows + [row])[i] == r && (rows + [row])[|rows|] == row;
  }

  lemma LeafIsMerge(r: Register)
    ensures IsMergeOf(r, {r})
  {
    assert Leaves(Leaf(r)) == {r} && Eval(Leaf(r)) == r;
  }

  lemma JoinedIsMerge(rows: seq<CrdtRow>, held: Register, row: CrdtRow)
    requires IsMergeOf(held, RegsAt(rows, row.0))
    ensures IsMergeOf(MergeRegisters(held, row.1), RegsAt(rows + [row], row.0))
  {
    hide MergeRegisters;
    RegsAtSnoc(rows, row, row.0);
    var t :| Leaves(t) == RegsAt(rows, row.0) && Eval(t) == held;
    var u := Node(t, Leaf(row.1));
    EvalNode(u);
    assert Leaves(u) == RegsAt(rows + [row], row.0) && Eval(u) == MergeRegisters(held, row.1);
  }

  lemma JoinRow(rows: seq<CrdtRow>, done: seq<CrdtRow>, row: CrdtRow, m: Register)
    requires Folded(rows, done) && done != [] && done[|done| - 1].0 == row.0
    requires IsMergeOf(m, RegsAt(rows + [row], row.0))
    ensures Folded(rows + [row], done[|done| - 1 := (row.0, m)])
  {
    var last := |done| - 1;
    var done' := done[last := (row.0, m)];
    assert forall i :: 0 <= i < |done| ==> done'[i].0 == done[i].0;
    forall i | 0 <= i < |done'| ensures IsMergeOf(done'[i].1, RegsAt(rows + [row], done'[i].0)) {
      if i < last {
        assert IsMergeOf(done[i].1, RegsAt(rows, done[i].0));
        LessTrichotomy(done[i].0, row.0);
        RegsAtSnoc(rows, row, done[i].0);
      }
    }
    forall r | r in rows + [row] ensures HasRow(done', r.0) {
      assert HasRow(done, row.0);
      assert HasRow(done, r.0);
      var i :| 0 <= i < |done| && done[i].0 == r.0;
      assert done'[i].0 == r.0;
    }
  }

  /** The merge loop leaves one row per key, a merge of exactly the gathered rows of the key. */
  lemma {:induction false} FoldIsMerge(rows: seq<CrdtRow>)
    requires KeysSorted(rows)
    ensures Folded(rows, FoldRows(rows))
  {
    if rows != [] {
      hide MergeRegisters, AtMost, IsMergeOf;
      var n := |rows| - 1;
      var init, row := rows[..n], rows[n];
      assert rows == init + [row];
      FoldIsMerge(init);
      var done := FoldRows(init);
      if done == [] || done[|done| - 1].0 != row.0 {
        StartRow(init, done, row);
      } else {
        var held := done[|done| - 1].1;
        JoinedIsMerge(init, held, row);
        JoinRow(init, done, row, MergeRegisters(held, row.1));
      }
    }
  }

  /** ... which is above all of them, and equivalent to one, when they are ordered by their clocks. */
  lemma FoldIsTop(rows: seq<CrdtRow>, i: nat)
    requires KeysSorted(rows) && i < |FoldRows(rows)| && IsChain(RegsAt(rows, FoldRows(rows)[i].0))
    ensures IsTop(FoldRows(rows)[i].1, RegsAt(rows, FoldRows(rows)[i].0))
  {
    FoldIsMerge(rows);
    var done := FoldRows(rows);
    assert IsMergeOf(done[i].1, RegsAt(rows, done[i].0));
    var t :| Leaves(t) == RegsAt(rows, done[i].0) && Eval(t) == done[i].1;
    ChainMergesToTop(t);
  }

  // ----- dropping tombstones -----

  lemma {:induction false} LiveRowsAre(rows: seq<CrdtRow>)
    requires Ascending(rows)
    ensures Ascending(LiveRows(rows))
    ensures forall row :: row in LiveRows(rows) <==> row in rows && row.1.value != []
  {
    if rows != [] {
      var n := |rows| - 1;
      LiveRowsAre(rows[..n]);
      var kept := LiveRows(rows[..n]);
      forall i | 0 <= i < |kept| ensures Less(kept[i].0, rows[n].0) {
        assert kept[i] in rows[..n];
      }
      assert rows == rows[..n] + [rows[n]];
    }
  }

  // ----- two ascending lists with the same rows -----

  predicate SameRow(a: CrdtRow, b: CrdtRow) {
    a.0 == b.0 && Equiv(a.1, b.1)
  }

  predicate SameRows(a: seq<CrdtRow>, b: seq<CrdtRow>) {
    |a| == |b| && forall i :: 0 <= i < |a| ==> SameRow(a[i], b[i])
  }

  predicate Matched(x: CrdtRow, b: seq<CrdtRow>) {
    exists y :: y in b && SameRow(x, y)
  }

  predicate Within(a: seq<CrdtRow>, b: seq<CrdtRow>) {
    forall x {:trigger Matched(x, b)} :: x in a ==> Matched(x, b)
  }

  lemma AtLast(a: seq<CrdtRow>, x: CrdtRow)
    requires Ascending(a) && x in a
    ensures x == a[|a| - 1] || Less(x.0, a[|a| - 1].0)
  {
    var i :| 0 <= i < |a| && a[i] == x;
  }

  lemma LastMatches(a: seq<CrdtRow>, b: seq<CrdtRow>, y: CrdtRow, z: CrdtRow)
    requires Ascending(a) && Ascending(b) && a != [] && b != []
    requires y in b && a[|a| - 1].0 == y.0 && z in a && b[|b| - 1].0 == z.0
    ensures y == b[|b| - 1]
  {
    AtLast(b, y);
    AtLast(a, z);
    LessTrichotomy(y.0, z.0);
  }

  lemma InitWithin(a: seq<CrdtRow>, b: seq<CrdtRow>)
    requires Ascending(a) && Ascending(b) && Within(a, b) && a != [] && b != [] && SameRow(a[|a| - 1], b[|b| - 1])
    ensures Within(a[..|a| - 1], b[..|b| - 1])
  {
    var init, last := a[..|a| - 1], b[|b| - 1];
    forall x | x in init ensures Matched(x, b[..|b| - 1]) {
      assert x in a && Matched(x, b);
      var y :| y in b && SameRow(x, y);
      var i :| 0 <= i < |init| && init[i] == x;
      assert Less(a[i].0, a[|a| - 1].0);
      LessTrichotomy(y.0, last.0);
      assert b == b[..|b| - 1] + [last];
    }
  }

  lemma {:induction false} SameListed(a: seq<CrdtRow>, b: seq<CrdtRow>)
    requires Ascending(a) && Ascending(b) && Within(a, b) && Within(b, a)
    ensures SameRows(a, b)
  {
    assert b != [] ==> Matched(b[|b| - 1], a);
    assert a != [] ==> Matched(a[|a| - 1], b);
    if a != [] && b != [] {
      var y :| y in b && SameRow(a[|a| - 1], y);
      var z :| z in a && SameRow(b[|b| - 1], z);
      LastMatches(a, b, y, z);
      var init, init' := a[..|a| - 1], b[..|b| - 1];
      InitWithin(a, b);
      assert SameRow(b[|b| - 1], a[|a| - 1]);
      InitWithin(b, a);
      SameListed(init, init');
      forall i | 0 <= i < |a| ensures SameRow(a[i], b[i]) {
        if i < |init| {
          assert a[i] == init[i] && b[i] == init'[i];
        }
      }
    }
  }

  // ----- when the scan is exact -----

  /** The registers of a key that a scan may come across: all in tables, and any of those in files. */
  predicate MayGather(s: State, k: Key, regs: set<Register>) {
    TableRegs(Tables(s), k) <= regs <= AllRegs(s, k)
  }

  /** Every order of merging them comes to the newest one; of a tombstone only the value matters. */
  ghost predicate Settles(newest: Register, regs: set<Register>) {
    (exists top :: Decides(top, newest.value, regs)) && (newest.value != [] ==> Above(newest.clock, regs))
  }

  ghost predicate Settled(s: State, k: Key) {
    k in View(s).store ==> forall regs :: MayGather(s, k, regs) ==> Settles(View(s).store[k], regs)
  }

  lemma HeldIsGathered(s: State, start: Key, end: Key, raw: seq<CrdtRow>, k: Key)
    requires Gathered(s, start, end, raw) && k in View(s).store && InRange(k, start, end)
    ensures (k, View(s).store[k]) in raw && View(s).store[k] in RegsAt(raw, k) && MayGather(s, k, RegsAt(raw, k))
  {
    HeldIsAmong(s, k);
    forall r | r in TableRegs(Tables(s), k) ensures r in RegsAt(raw, k) {
      var t :| t in Tables(s) && k in t && t[k] == r;
      assert (k, t[k]) in raw;
    }
  }

  /** What a result row must be: the value that is held, and when that is live the register. */
  predicate Matches(r: Register, newest: Register) {
    r.value == newest.value && (newest.value != [] ==> Equiv(r, newest))
  }

  lemma SettledMatches(r: Register, regs: set<Register>, newest: Register)
    requires IsMergeOf(r, regs) && newest in regs && Settles(newest, regs)
    ensures Matches(r, newest)
  {
    var t :| Leaves(t) == regs && Eval(t) == r;
    var top :| Decides(top, newest.value, regs);
    DecidedValue(t, top, newest.value, regs);
    EvalClockIsJoin(t);
    assert Leq(r.clock, r.clock) && Above(r.clock, regs);
  }

  /** The rows of `done` are the rows of `d` in the range. */
  ghost predicate Holds(done: seq<CrdtRow>, d: Db, start: Key, end: Key) {
    && Ascending(done)
    && (forall i :: 0 <= i < |done| ==>
      done[i].0 in d.store && InRange(done[i].0, start, end) && Matches(done[i].1, d.store[done[i].0]))
    && (forall k :: k in d.store && InRange(k, start, end) ==> HasRow(done, k))
  }

  lemma FoldedRow(s: State, start: Key, end: Key, raw: seq<CrdtRow>, row: CrdtRow)
    requires FilesAreShadowed(s) && Gathered(s, start, end, raw) && IsMergeOf(row.1, RegsAt(raw, row.0))
    ensures row.0 in View(s).store && InRange(row.0, start, end)
    ensures Settled(s, row.0) ==> Matches(row.1, View(s).store[row.0])
  {
    var k := row.0;
    var t :| Leaves(t) == RegsAt(raw, k) && Eval(t) == row.1;
    EvalValueIsWritten(t);
    var x :| x in RegsAt(raw, k);
    assert (k, x) in raw;
    RegIsShadowed(s, k, x);
    HeldIsGathered(s, start, end, raw, k);
    if Settled(s, k) {
      SettledMatches(row.1, RegsAt(raw, k), View(s).store[k]);
    }
  }

  lemma FoldedIsView(s: State, start: Key, end: Key, raw: seq<CrdtRow>)
    requires FilesAreShadowed(s) && Gathered(s, start, end, raw)
    requires forall k :: InRange(k, start, end) ==> Settled(s, k)
    ensures Holds(FoldRows(raw), View(s), start, end)
  {
    hide Settled, Matches, InRange, IsMergeOf;
    FoldIsMerge(raw);
    var done := FoldRows(raw);
    forall i | 0 <= i < |done|
      ensures done[i].0 in View(s).store && InRange(done[i].0, start, end) && Matches(done[i].1, View(s).store[done[i].0])
    {
      FoldedRow(s, start, end, raw, done[i]);
    }
    forall k | k in View(s).store && InRange(k, start, end) ensures HasRow(done, k) {
      HeldIsGathered(s, start, end, raw, k);
    }
  }

  lemma LiveIsListed(done: seq<CrdtRow>, d: Db, start: Key, end: Key, x: CrdtRow)
    requires Holds(done, d, start, end) && x in done && x.1.value != []
    ensures Matched(x, ScanCrdt(d, start, end))
  {
    RowsAreMap(Live(d, start, end));
    var want := ScanCrdt(d, start, end);
    assert HasRow(want, x.0);
    var i :| 0 <= i < |want| && want[i].0 == x.0;
    assert want[i] in want && SameRow(x, want[i]);
  }

  lemma ListedIsLive(done: seq<CrdtRow>, d: Db, start: Key, end: Key, y: CrdtRow)
    requires Holds(done, d, start, end) && y in ScanCrdt(d, start, end)
    ensures exists x :: x in done && x.1.value != [] && SameRow(y, x)
  {
    RowsAreMap(Live(d, start, end));
    assert HasRow(done, y.0);
    var i :| 0 <= i < |done| && done[i].0 == y.0;
    assert done[i] in done && SameRow(y, done[i]);
  }

  lemma LiveRowsOf(done: seq<CrdtRow>, d: Db, start: Key, end: Key)
    requires Holds(done, d, start, end)
    ensures SameRows(LiveRows(done), ScanCrdt(d, start, end))
  {
    var want := ScanCrdt(d, start, end);
    LiveRowsAre(done);
    RowsAreMap(Live(d, start, end));
    forall x | x in LiveRows(done) ensures Matched(x, want) {
      LiveIsListed(done, d, start, end, x);
    }
    forall y | y in want ensures Matched(y, LiveRows(done)) {
      ListedIsLive(done, d, start, end, y);
    }
    SameListed(LiveRows(done), want);
  }

  /** A scan is exact: whatever order the sort left equal keys in and whichever file rows were gathered, it
      lists exactly the live rows of the abstract database in the range, in order. */
  ghost predicate ScanIsExact(s: State, start: Key, end: Key) {
    forall raw :: Gathered(s, start, end, raw) ==> SameRows(LiveRows(FoldRows(raw)), ScanCrdt(View(s), start, end))
  }

  lemma SettledScanIsExact(s: State, start: Key, end: Key)
    requires FilesAreShadowed(s) && forall k :: InRange(k, start, end) ==> Settled(s, k)
    ensures ScanIsExact(s, start, end)
  {
    forall raw | Gathered(s, start, end, raw)
      ensures SameRows(LiveRows(FoldRows(raw)), ScanCrdt(View(s), start, end))
    {
      FoldedIsView(s, start, end, raw);
      LiveRowsOf(FoldRows(raw), View(s), start, end);
    }
  }

  /** With no file missing a row, a scan comes across every register of every key in its range. */
  lemma GathersAllRegs(s: State, start: Key, end: Key, raw: seq<CrdtRow>, k: Key)
    requires Gathered(s, start, end, raw) && HasFileRows(s, start, end, {}, raw) && MinKeysOk(s.layout)
    requires InRange(k, start, end)
    ensures RegsAt(raw, k) == AllRegs(s, k)
  {
    forall r | r in AllRegs(s, k) ensures r in RegsAt(raw, k) {
      if r in TableRegs(Tables(s), k) {
        var t :| t in Tables(s) && k in t && t[k] == r;
        assert (k, t[k]) in raw;
      } else {
        var l, f :| 0 <= l < |s.layout| && f in s.layout[l] && k in f.rows && r == f.rows[k];
        assert FileAt(s.layout, l, f) && MinKeyOk(f);
        assert (k, f.rows[k]) in raw;
      }
    }
  }

  // ----- ... and when it is not -----

  /** The rows of one key in the order of a comb. */
  function CombRows(k: Key, t: Tree): seq<CrdtRow>
    requires Comb(t)
  {
    match t
    case Leaf(w) => [(k, w)]
    case Node(l, r) => CombRows(k, l) + [(k, r.write)]
  }

  lemma {:induction false} CombRowsFold(k: Key, t: Tree)
    requires Comb(t)
    ensures CombRows(k, t) != [] && FoldRows(CombRows(k, t)) == [(k, Eval(t))]
    ensures forall row :: row in CombRows(k, t) <==> row.0 == k && row.1 in Leaves(t)
  {
    hide MergeRegisters;
    match t
    case Leaf(w) =>
      assert CombRows(k, t)[..0] == [];
    case Node(l, r) =>
      CombRowsFold(k, l);
      var rows := CombRows(k, t);
      assert rows[..|rows| - 1] == CombRows(k, l) && rows[|rows| - 1] == (k, r.write);
  }

  lemma OneKey(k: Key, j: Key)
    ensures InRange(j, k, k) <==> j == k
  {
    LessTrichotomy(j, k);
  }

  lemma TableRegIsThere(s: State, t: Table, k: Key)
    requires t in Tables(s) && k in t
    ensures t[k] in TableRegs(Tables(s), k)
  {
  }

  lemma CombIsGathered(s: State, k: Key, t: Tree)
    requires Comb(t) && MayGather(s, k, Leaves(t))
    ensures Gathered(s, k, k, CombRows(k, t)) && RegsAt(CombRows(k, t), k) == Leaves(t)
  {
    hide Less, AllRegs, Comb, Leaves, CombRows, FoldRows, Eval, TableRegs;
    var raw := CombRows(k, t);
    CombRowsFold(k, t);
    OneKey(k, k);
    forall x, j | x in Tables(s) && j in x && InRange(j, k, k) ensures (j, x[j]) in raw {
      OneKey(k, j);
      TableRegIsThere(s, x, k);
    }
    forall r | r in Leaves(t) ensures r in RegsAt(raw, k) {
      assert (k, r) in raw;
    }
    assert forall row :: row in raw ==> AtMost(row.0, row.0);
  }

  lemma OneLiveRow(d: Db, k: Key)
    requires k in d.store
    ensures ScanCrdt(d, k, k) == if d.store[k].value == [] then [] else [(k, d.store[k])]
  {
    OneKey(k, k);
    forall j ensures InRange(j, k, k) <==> j == k {
      OneKey(k, j);
    }
    var live := Live(d, k, k);
    var rows: seq<CrdtRow> := if d.store[k].value == [] then [] else [(k, d.store[k])];
    assert k in live ==> rows[0].0 == k && HasRow(rows, k);
    RowsAreUnique(rows, live);
  }

  lemma ScannedRow(s: State, k: Key, r: Register)
    requires k in View(s).store
    ensures SameRows(LiveRows([(k, r)]), ScanCrdt(View(s), k, k)) <==> Matches(r, View(s).store[k])
  {
    OneLiveRow(View(s), k);
    var rows: seq<CrdtRow> := [(k, r)];
    assert rows[..0] == [];
    assert LiveRows(rows) == if r.value == [] then [] else [(k, r)];
  }

  ghost predicate CombsMatch(newest: Register, regs: set<Register>) {
    forall t :: Comb(t) && Leaves(t) == regs ==> Matches(Eval(t), newest)
  }

  lemma MatchingCombsSettle(newest: Register, regs: set<Register>)
    requires newest in regs && CombsMatch(newest, regs)
    ensures Settles(newest, regs)
  {
    YieldsIff(regs, newest.value);
    hide Decides;
    assert OrderYields(regs, newest.value);
    if newest.value != [] {
      var t := CombOf(regs);
      EvalClockIsJoin(t);
      assert Matches(Eval(t), newest);
    }
  }

  lemma CombsMatchIff(newest: Register, regs: set<Register>)
    requires newest in regs
    ensures Settles(newest, regs) <==> CombsMatch(newest, regs)
  {
    if Settles(newest, regs) {
      forall t | Comb(t) && Leaves(t) == regs ensures Matches(Eval(t), newest) {
        assert IsMergeOf(Eval(t), regs);
        SettledMatches(Eval(t), regs, newest);
      }
    }
    if CombsMatch(newest, regs) {
      MatchingCombsSettle(newest, regs);
    }
  }

  /** A scan of `k` alone that comes across its registers in the order of `t` is exact. */
  ghost predicate CombIsExact(s: State, k: Key, t: Tree)
    requires Comb(t)
  {
    SameRows(LiveRows(FoldRows(CombRows(k, t))), ScanCrdt(View(s), k, k))
  }

  lemma CombIsExactIff(s: State, k: Key, t: Tree)
    requires Comb(t) && k in View(s).store
    ensures CombIsExact(s, k, t) <==> Matches(Eval(t), View(s).store[k])
  {
    CombRowsFold(k, t);
    ScannedRow(s, k, Eval(t));
  }

  ghost predicate CombsAreExact(s: State, k: Key, regs: set<Register>) {
    forall t :: Comb(t) && Leaves(t) == regs ==> CombIsExact(s, k, t)
  }

  /** For one key: every order in which the sort may leave `regs` is exact if and only if they settle. */
  lemma KeyScansExactlyIff(s: State, k: Key, regs: set<Register>)
    requires k in View(s).store && MayGather(s, k, regs)
    ensures Settles(View(s).store[k], regs) <==> CombsAreExact(s, k, regs)
  {
    hide Settles, CombIsExact, Matches, View, MayGather;
    HeldMayGather(s, k, regs);
    CombsMatchIff(View(s).store[k], regs);
    if CombsMatch(View(s).store[k], regs) {
      forall t | Comb(t) && Leaves(t) == regs ensures CombIsExact(s, k, t) {
        CombIsExactIff(s, k, t);
      }
    }
    if CombsAreExact(s, k, regs) {
      forall t | Comb(t) && Leaves(t) == regs ensures Matches(Eval(t), View(s).store[k]) {
        CombIsExactIff(s, k, t);
      }
    }
  }

  lemma HeldMayGather(s: State, k: Key, regs: set<Register>)
    requires k in View(s).store && MayGather(s, k, regs)
    ensures View(s).store[k] in regs
  {
    HeldIsAmong(s, k);
  }

  /** Every scan of every range is exact if and only if every key is settled. */
  lemma ScansAreExactIff(s: State)
    requires FilesAreShadowed(s)
    ensures (forall start, end :: ScanIsExact(s, start, end)) <==> forall k :: Settled(s, k)
  {
    if forall k :: Settled(s, k) {
      forall start, end ensures ScanIsExact(s, start, end) {
        SettledScanIsExact(s, start, end);
      }
    }
    if forall start, end :: ScanIsExact(s, start, end) {
      forall k, regs | k in View(s).store && MayGather(s, k, regs) ensures Settles(View(s).store[k], regs) {
        assert ScanIsExact(s, k, k);
        ExactKeySettles(s, k, regs);
      }
    }
  }

  lemma ExactKeySettles(s: State, k: Key, regs: set<Register>)
    requires ScanIsExact(s, k, k) && k in View(s).store && MayGather(s, k, regs)
    ensures Settles(View(s).store[k], regs)
  {
    hide SameRows, ScanCrdt, LiveRows, FoldRows, Settles, Gathered, MayGather;
    KeyScansExactlyIff(s, k, regs);
    forall t | Comb(t) && Leaves(t) == regs ensures CombIsExact(s, k, t) {
      CombIsGathered(s, k, t);
    }
  }

  // ----- settled keys -----

  /** The newest register strictly dominates all the others of its key. */
  ghost predicate NewestDominates(s: State, k: Key) {
    k in View(s).store ==>
      var newest := View(s).store[k];
      var lesser := set r | r in AllRegs(s, k) && !Equiv(r, newest);
      lesser == {} || StrictlyAbove(newest, lesser)
  }

  lemma DominatedIsSettled(s: State, k: Key)
    requires NewestDominates(s, k)
    ensures Settled(s, k)
  {
    if k in View(s).store {
      forall regs | MayGather(s, k, regs) ensures Settles(View(s).store[k], regs) {
        HeldIsAmong(s, k);
        DominatedSettles(View(s).store[k], regs, set r | r in AllRegs(s, k) && !Equiv(r, View(s).store[k]));
      }
    }
  }

  lemma DominatedSettles(newest: Register, regs: set<Register>, lesser: set<Register>)
    requires newest in regs && (lesser == {} || StrictlyAbove(newest, lesser))
    requires forall r :: r in regs && !Equiv(r, newest) ==> r in lesser
    ensures Settles(newest, regs)
  {
    var top := set r | r in regs && Equiv(r, newest);
    assert Equiv(newest, newest) && newest in top;
    if top != regs {
      forall w | w in top ensures StrictlyAbove(w, regs - top) {
        AsHighAbove(w, newest, lesser, regs - top);
      }
    }
    assert WithOtherValue(top, newest.value) == {};
    LessTrichotomy(newest.value, newest.value);
    assert IsGreatestValue(newest.value, top);
    assert Decides(top, newest.value, regs);
    forall r | r in regs ensures Leq(r.clock, newest.clock) {
    }
  }

  lemma AsHighAbove(w: Register, newest: Register, lesser: set<Register>, others: set<Register>)
    requires Equiv(w, newest) && StrictlyAbove(newest, lesser) && others <= lesser
    ensures StrictlyAbove(w, others)
  {
    forall x | x in others ensures Leq(x.clock, w.clock) {
      LeqTransitive(x.clock, newest.clock, w.clock);
    }
    var join, less := JoinOf(lesser), JoinOf(others);
    assert Leq(join, join) && Above(join, others);
    if Leq(w.clock, less) {
      LeqTransitive(newest.clock, w.clock, less);
      LeqTransitive(newest.clock, less, join);
    }
  }

  lemma ChainIsDominated(s: State, k: Key)
    requires KeyOk(s, k)
    ensures NewestDominates(s, k)
  {
    if k in View(s).store {
      var newest := View(s).store[k];
      var lesser := set r | r in AllRegs(s, k) && !Equiv(r, newest);
      if lesser != {} {
        var t := TreeOf(lesser);
        ChainMergesToTop(t);
        SameJoin(t, lesser);
        var x :| x in lesser && Equiv(x, Eval(t));
        assert Below(x, newest) && Before(x.clock, newest.clock);
        if Leq(newest.clock, JoinOf(lesser)) {
          LeqTransitive(newest.clock, JoinOf(lesser), Eval(t).clock);
          LeqTransitive(newest.clock, Eval(t).clock, x.clock);
        }
      }
    }
  }

  // ----- scans after a run -----

  /** After every run, a scan of a range whose keys are settled returns what the plain map holds there. */
  lemma ScanAfterRun(id: NodeID, actions: seq<Action>, start: Key, end: Key, raw: seq<CrdtRow>)
    requires IsRun(id, actions) && Gathered(Outcome(id, actions).s, start, end, raw)
    requires forall k :: InRange(k, start, end) ==> Settled(Outcome(id, actions).s, k)
    ensures SameRows(LiveRows(FoldRows(raw)), ScanCrdt(AbstractRun(id, actions), start, end))
  {
    RunKeepsInv(id, actions);
    RunRefines(id, actions);
    SettledScanIsExact(Outcome(id, actions).s, start, end);
  }

  /** After an orderly run every key is. */
  lemma OrderlyRunsSettle(id: NodeID, actions: seq<Action>, k: Key)
    requires IsRun(id, actions) && OrderlyRun(id, actions)
    ensures Settled(Outcome(id, actions).s, k)
  {
    RunKeepsKeys(id, actions);
    assert KeyOk(Outcome(id, actions).s, k);
    ChainIsDominated(Outcome(id, actions).s, k);
    DominatedIsSettled(Outcome(id, actions).s, k);
  }

  // ----- local writes alone -----

  /** What a scan hands to a client: keys and values. */
  function Pairs(rows: seq<CrdtRow>): (pairs: seq<(Key, ByteString)>)
    ensures |pairs| == |rows|
  {
    seq(|rows|, i requires 0 <= i < |rows| => (rows[i].0, rows[i].1.value))
  }

  function LivePuts(m: map<Key, ByteString>, start: Key, end: Key): map<Key, ByteString> {
    map k | k in m && InRange(k, start, end) && m[k] != [] :: m[k]
  }

  lemma ListedPairs(d: Db, m: map<Key, ByteString>, start: Key, end: Key)
    requires HoldsValues(d, m)
    ensures Pairs(ScanCrdt(d, start, end)) == Rows(LivePuts(m, start, end))
  {
    var live, rows := Live(d, start, end), ScanCrdt(d, start, end);
    var pairs, want := Pairs(rows), LivePuts(m, start, end);
    RowsAreMap(live);
    forall k | k in want ensures HasRow(pairs, k) {
      assert k in live && HasRow(rows, k);
      var i :| 0 <= i < |rows| && rows[i].0 == k;
      assert pairs[i].0 == k;
    }
    RowsAreUnique(pairs, want);
  }

  /** With local writes only, a scan returns exactly the sorted live pairs of the last values put. */
  lemma ScanIsLastPuts(id: NodeID, actions: seq<Action>, start: Key, end: Key, raw: seq<CrdtRow>)
    requires IsRun(id, actions) && |actions| < U64 && OnlyLocal(actions)
    requires Gathered(Outcome(id, actions).s, start, end, raw)
    ensures Pairs(LiveRows(FoldRows(raw))) == Rows(LivePuts(LastPuts(actions), start, end))
  {
    var out, want := LiveRows(FoldRows(raw)), ScanCrdt(AbstractRun(id, actions), start, end);
    LocalRunsAreOrderly(id, actions);
    forall k ensures Settled(Outcome(id, actions).s, k) {
      OrderlyRunsSettle(id, actions, k);
    }
    ScanAfterRun(id, actions, start, end, raw);
    AbstractHoldsPuts(id, actions);
    ListedPairs(AbstractRun(id, actions), LastPuts(actions), start, end);
    forall i | 0 <= i < |out| ensures Pairs(out)[i] == Pairs(want)[i] {
      assert SameRow(out[i], want[i]);
    }
  }
}
