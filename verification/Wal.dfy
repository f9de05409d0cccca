/** The write-ahead log: one text line per record, replayed from a file that is read in chunks. */
module Wal {
  import opened Bytes
  import opened VectorClocks
  import opened Crdt
  import opened SkipLists

  const NEWLINE: Byte := 10
  const BAR: Byte := 124
  const PUT: ByteString := [80, 85, 84]
  const DEL: ByteString := [68, 69, 76]

  /** The first `b` at or after `from`, or the end. */
  function Find(s: ByteString, b: Byte, from: nat): (i: nat)
    requires from <= |s|
    ensures from <= i <= |s|
    ensures forall j :: from <= j < i ==> s[j] != b
    ensures i < |s| ==> s[i] == b
    decreases |s| - from
  {
    if from == |s| || s[from] == b then from else Find(s, b, from + 1)
  }

  // ----- one line -----

  /** The fields from `pos` on, as repeated `getline` finds them: an empty last field is not found. */
  function FieldsFrom(s: ByteString, pos: nat): seq<ByteString>
    decreases |s| - pos
  {
    if pos >= |s| then [] else
      var n := Find(s, BAR, pos);
      [s[pos..n]] + FieldsFrom(s, n + 1)
  }

  /** The table update one line of the log stands for. Lines of any other shape are skipped. */
  function LineOps(line: ByteString): (ops: seq<Row>)
    ensures |ops| <= 1
  {
    var parts := FieldsFrom(line, 0);
    if |parts| == 3 && parts[0] == PUT then [(parts[1], parts[2])]
    else if |parts| == 2 && parts[0] == DEL then [(parts[1], [])]
    else []
  }

  function OpsOf(lines: seq<ByteString>): seq<Row> {
    if lines == [] then [] else LineOps(lines[0]) + OpsOf(lines[1..])
  }

  // ----- a whole file -----

  /** All complete lines from `pos` on. */
  function LinesFrom(s: ByteString, pos: nat): seq<ByteString>
    requires pos <= |s|
    decreases |s| - pos
  {
    var n := Find(s, NEWLINE, pos);
    if n == |s| then [] else [s[pos..n]] + LinesFrom(s, n + 1)
  }

  /** Where the incomplete last line starts. */
  function RestFrom(s: ByteString, pos: nat): (r: nat)
    requires pos <= |s|
    ensures pos <= r <= |s|
    decreases |s| - pos
  {
    var n := Find(s, NEWLINE, pos);
    if n == |s| then pos else RestFrom(s, n + 1)
  }

  function Lines(s: ByteString): seq<ByteString> {
    LinesFrom(s, 0)
  }

  /** The updates a log file stands for. */
  function Ops(s: ByteString): seq<Row> {
    OpsOf(Lines(s))
  }

  function Rest(s: ByteString): ByteString {
    s[RestFrom(s, 0)..]
  }

  /** The sorted table a list of updates leaves behind. */
  function PutAll(rows: seq<Row>, ops: seq<Row>): seq<Row>
    decreases ops
  {
    if ops == [] then rows else PutAll(Upsert(rows, ops[0].0, ops[0].1), ops[1..])
  }

  lemma PutNone(rows: seq<Row>)
    ensures PutAll(rows, []) == rows
  {
  }

  lemma {:induction false} PutAllAppend(rows: seq<Row>, a: seq<Row>, b: seq<Row>)
    ensures PutAll(rows, a + b) == PutAll(PutAll(rows, a), b)
    decreases a
  {
    if a == [] {
      assert a + b == b;
    } else {
      assert (a + b)[1..] == a[1..] + b;
      PutAllAppend(Upsert(rows, a[0].0, a[0].1), a[1..], b);
    }
  }

  lemma FindIs(s: ByteString, b: Byte, from: nat, i: nat)
    requires from <= i <= |s| && (forall j :: from <= j < i ==> s[j] != b) && (i < |s| ==> s[i] == b)
    ensures Find(s, b, from) == i
  {
  }

  lemma FindInDrop(s: ByteString, b: Byte, p: nat, i: nat)
    requires p + i <= |s|
    ensures Find(s[p..], b, i) == Find(s, b, p + i) - p
  {
    var n := Find(s, b, p + i);
    forall j | i <= j < n - p ensures s[p..][j] != b {
      assert s[p..][j] == s[p + j];
    }
    FindIs(s[p..], b, i, n - p);
  }

  lemma FindInAppend(a: ByteString, c: ByteString, b: Byte, pos: nat)
    requires pos <= |a| && Find(a, b, pos) < |a|
    ensures Find(a + c, b, pos) == Find(a, b, pos)
  {
    FindIs(a + c, b, pos, Find(a, b, pos));
  }

  lemma SliceOfDrop(s: ByteString, p: nat, i: nat, n: nat)
    requires p + i <= p + n <= |s|
    ensures s[p..][i..n] == s[p + i..p + n]
  {
  }

  lemma SliceOfAppend(a: ByteString, b: ByteString, i: nat, n: nat)
    requires i <= n <= |a|
    ensures (a + b)[i..n] == a[i..n]
    ensures (a + b)[i..] == a[i..] + b
  {
  }

  lemma LinesStep(s: ByteString, pos: nat, n: nat, line: ByteString)
    requires pos <= n < |s| && n == Find(s, NEWLINE, pos) && line == s[pos..n]
    ensures LinesFrom(s, pos) == [line] + LinesFrom(s, n + 1)
    ensures RestFrom(s, pos) == RestFrom(s, n + 1)
  {
  }

  lemma LinesEnd(s: ByteString, pos: nat)
    requires pos <= |s| && Find(s, NEWLINE, pos) == |s|
    ensures LinesFrom(s, pos) == [] && RestFrom(s, pos) == pos
  {
  }

  lemma {:induction false} LinesShift(s: ByteString, t: ByteString, p: nat, i: nat)
    requires p + i <= |s| && t == s[p..]
    ensures LinesFrom(t, i) == LinesFrom(s, p + i)
    decreases |s| - i
  {
    hide LinesFrom;
    var n := Find(s, NEWLINE, p + i);
    FindInDrop(s, NEWLINE, p, i);
    if n < |s| {
      LinesShift(s, t, p, n - p + 1);
      LineShift(s, t, p, i, n);
    } else {
      LinesEnd(s, p + i);
      LinesEnd(t, i);
    }
  }

  lemma LineShift(s: ByteString, t: ByteString, p: nat, i: nat, n: nat)
    requires p + i <= |s| && t == s[p..] && n == Find(s, NEWLINE, p + i) < |s| && Find(t, NEWLINE, i) == n - p
    requires LinesFrom(t, n - p + 1) == LinesFrom(s, n + 1)
    ensures LinesFrom(t, i) == LinesFrom(s, p + i)
  {
    hide LinesFrom;
    var line := t[i..n - p];
    SliceOfDrop(s, p, i, n - p);
    LinesStep(s, p + i, n, line);
    LinesStep(t, i, n - p, line);
  }

  /** Reading in two pieces, the second one with the first one's incomplete line in front. */
  lemma {:induction false} LinesAppend(a: ByteString, b: ByteString, pos: nat)
    requires pos <= |a|
    ensures LinesFrom(a + b, pos) == LinesFrom(a, pos) + Lines(a[RestFrom(a, pos)..] + b)
    decreases |a| - pos
  {
    var n := Find(a, NEWLINE, pos);
    if n < |a| {
      LinesAppend(a, b, n + 1);
      LineAppend(a, b, pos, n, a[RestFrom(a, n + 1)..] + b);
    } else {
      LinesEnd(a, pos);
      SliceOfAppend(a, b, pos, pos);
      LinesShift(a + b, a[pos..] + b, pos, 0);
    }
  }

  lemma LineAppend(a: ByteString, b: ByteString, pos: nat, n: nat, rest: ByteString)
    requires pos <= |a| && n == Find(a, NEWLINE, pos) < |a|
    requires LinesFrom(a + b, n + 1) == LinesFrom(a, n + 1) + Lines(rest)
    ensures LinesFrom(a + b, pos) == LinesFrom(a, pos) + Lines(rest) && RestFrom(a, pos) == RestFrom(a, n + 1)
  {
    var line := a[pos..n];
    FindInAppend(a, b, NEWLINE, pos);
    SliceOfAppend(a, b, pos, n);
    LinesStep(a, pos, n, line);
    LinesStep(a + b, pos, n, line);
    Reassociate([line], LinesFrom(a, n + 1), Lines(rest));
  }

  lemma {:induction false} OpsOfAppend(a: seq<ByteString>, b: seq<ByteString>)
    ensures OpsOf(a + b) == OpsOf(a) + OpsOf(b)
  {
    if a == [] {
      assert a + b == b;
    } else {
      assert (a + b)[1..] == a[1..] + b;
      OpsOfAppend(a[1..], b);
    }
  }

  lemma OpsAppend(a: ByteString, b: ByteString)
    ensures Ops(a + b) == Ops(a) + Ops(Rest(a) + b)
  {
    LinesAppend(a, b, 0);
    OpsOfAppend(Lines(a), Lines(Rest(a) + b));
  }

  lemma {:induction false} RestIsOpen(s: ByteString, pos: nat)
    requires pos <= |s|
    ensures NEWLINE !in s[RestFrom(s, pos)..]
    decreases |s| - pos
  {
    var n := Find(s, NEWLINE, pos);
    if n < |s| {
      RestIsOpen(s, n + 1);
    }
  }

  lemma OpsOfOpen(s: ByteString)
    requires NEWLINE !in s
    ensures Ops(s) == [] && Rest(s) == s
  {
    FindIs(s, NEWLINE, 0, |s|);
  }

  // ----- chunks -----

  function Concat(chunks: seq<ByteString>): ByteString {
    if chunks == [] then [] else chunks[0] + Concat(chunks[1..])
  }

  lemma NextChunk(leftover: ByteString, bytes: ByteString, from: nat, to: nat)
    requires from <= to <= |bytes|
    ensures leftover + bytes[from..] == (leftover + bytes[from..to]) + bytes[to..]
  {
  }

  /** The updates found when the file arrives in chunks and each incomplete line is carried over. */
  function ChunkOps(leftover: ByteString, chunks: seq<ByteString>): seq<Row>
    decreases |chunks|
  {
    if chunks == [] then [] else
      var s := leftover + chunks[0];
      Ops(s) + ChunkOps(Rest(s), chunks[1..])
  }

  /** However the file is cut into chunks, and whatever bytes it holds, the replay is the same. */
  lemma {:induction false} ChunksDoNotMatter(leftover: ByteString, chunks: seq<ByteString>)
    requires NEWLINE !in leftover
    ensures ChunkOps(leftover, chunks) == Ops(leftover + Concat(chunks))
    decreases |chunks|
  {
    if chunks == [] {
      assert leftover + Concat(chunks) == leftover;
      OpsOfOpen(leftover);
    } else {
      var s, later := leftover + chunks[0], Concat(chunks[1..]);
      assert leftover + Concat(chunks) == s + later;
      OpsAppend(s, later);
      RestIsOpen(s, 0);
      ChunksDoNotMatter(Rest(s), chunks[1..]);
    }
  }

  // ----- records -----

  function Record(key: Key, value: ByteString): ByteString {
    PUT + [BAR] + key + [BAR] + value
  }

  function Line(key: Key, value: ByteString): ByteString {
    Record(key, value) + [NEWLINE]
  }

  predicate Clean(s: ByteString) {
    NEWLINE !in s && BAR !in s
  }

  lemma FieldsSplit(s: ByteString, pos: nat, n: nat)
    requires pos <= n < |s| && BAR !in s[pos..n] && s[n] == BAR
    ensures FieldsFrom(s, pos) == [s[pos..n]] + FieldsFrom(s, n + 1)
  {
    forall j | pos <= j < n ensures s[j] != BAR {
      assert s[pos..n][j - pos] == s[j];
    }
    FindIs(s, BAR, pos, n);
  }

  lemma LastField(s: ByteString, pos: nat)
    requires pos <= |s| && BAR !in s[pos..]
    ensures FieldsFrom(s, pos) == if pos == |s| then [] else [s[pos..]]
  {
    forall j | pos <= j < |s| ensures s[j] != BAR {
      assert s[pos..][j - pos] == s[j];
    }
    FindIs(s, BAR, pos, |s|);
    assert s[pos..|s|] == s[pos..];
  }

  lemma RecordFields(key: Key, value: ByteString)
    requires BAR !in key && BAR !in value
    ensures FieldsFrom(Record(key, value), 0) == [PUT, key] + if value == [] then [] else [value]
  {
    var s, k := Record(key, value), 4 + |key|;
    assert s[0..3] == PUT && s[4..k] == key && s[k + 1..] == value;
    FieldsSplit(s, 0, 3);
    FieldsSplit(s, 4, k);
    LastField(s, k + 1);
  }

  lemma LineReplays(key: Key, value: ByteString)
    requires Clean(key) && Clean(value)
    ensures Ops(Line(key, value)) == if value == [] then [] else [(key, value)]
    ensures Rest(Line(key, value)) == []
  {
    var rec, s := Record(key, value), Line(key, value);
    assert NEWLINE !in rec;
    FindIs(s, NEWLINE, 0, |rec|);
    FindIs(s, NEWLINE, |rec| + 1, |s|);
    assert s[0..|rec|] == rec;
    RecordFields(key, value);
    assert LinesFrom(s, |rec| + 1) == [];
    assert Lines(s) == [rec];
    assert OpsOf([rec]) == LineOps(rec) + OpsOf([]);
  }

  lemma {:induction false} FieldsAreClean(s: ByteString, pos: nat)
    requires NEWLINE !in s
    ensures forall f :: f in FieldsFrom(s, pos) ==> Clean(f)
    decreases |s| - pos
  {
    if pos < |s| {
      FieldsAreClean(s, Find(s, BAR, pos) + 1);
    }
  }

  lemma {:induction false} LinesAreClosed(s: ByteString, pos: nat)
    requires pos <= |s|
    ensures forall line :: line in LinesFrom(s, pos) ==> NEWLINE !in line
    decreases |s| - pos
  {
    var n := Find(s, NEWLINE, pos);
    if n < |s| {
      LinesAreClosed(s, n + 1);
    }
  }

  /** No replayed key or value holds a separator. */
  lemma {:induction false} OpsAreClean(lines: seq<ByteString>)
    requires forall line :: line in lines ==> NEWLINE !in line
    ensures forall op :: op in OpsOf(lines) ==> Clean(op.0) && Clean(op.1)
  {
    if lines != [] {
      FieldsAreClean(lines[0], 0);
      OpsAreClean(lines[1..]);
    }
  }

  /** The bytes of a record: `PUT|key|value` and a newline. */
  lemma LineBytes(key: Key, value: ByteString)
    ensures Line(key, value) == [80, 85, 84, 124] + key + [124] + value + [10]
    ensures Clean(key) <==> 124 !in key && 10 !in key
  {
  }

  /** A line `DEL|key` is a removal of the key, exactly when the key is not empty and holds no separator. */
  lemma DeletionReplaysIff(key: Key)
    ensures Ops([68, 69, 76, 124] + key + [10]) == [(key, [])] <==> key != [] && 124 !in key && 10 !in key
  {
    var line, s := DEL + [BAR] + key, [68, 69, 76, 124] + key + [10];
    assert s == line + [NEWLINE];
    if Clean(key) {
      assert NEWLINE !in line;
      FindIs(s, NEWLINE, 0, |line|);
      FindIs(s, NEWLINE, |line| + 1, |s|);
      assert s[0..|line|] == line && line[0..3] == DEL && line[4..] == key;
      LinesStep(s, 0, |line|, line);
      LinesEnd(s, |line| + 1);
      assert OpsOf([line]) == LineOps(line) + OpsOf([]);
      FieldsSplit(line, 0, 3);
      LastField(line, 4);
      assert FieldsFrom(line, 0) == [DEL] + if key == [] then [] else [key];
      assert Ops(s) == LineOps(line);
    }
    LinesAreClosed(s, 0);
    OpsAreClean(Lines(s));
    var removal: Row := (key, []);
    assert removal in [removal];
  }

  /** A logged write comes back exactly when neither part holds a separator and the value is not empty. */
  lemma RecordReplaysIff(key: Key, value: ByteString)
    ensures Ops(Line(key, value)) == [(key, value)] <==> Clean(key) && Clean(value) && value != []
  {
    if Clean(key) && Clean(value) {
      LineReplays(key, value);
    }
    LinesAreClosed(Line(key, value), 0);
    OpsAreClean(Lines(Line(key, value)));
    assert (key, value) in [(key, value)];
  }

  // ----- the log of a run of writes -----

  function Log(records: seq<Row>): ByteString {
    if records == [] then [] else Line(records[0].0, records[0].1) + Log(records[1..])
  }

  predicate Loggable(records: seq<Row>) {
    forall i :: 0 <= i < |records| ==> Clean(records[i].0) && Clean(records[i].1) && records[i].1 != []
  }

  /** How many records lie wholly, newline included, in the first `n` bytes of the log. */
  function WholeRecords(records: seq<Row>, n: nat): (c: nat)
    ensures c <= |records|
    ensures |Log(records[..c])| <= n && (c < |records| ==> n < |Log(records[..c + 1])|)
  {
    if records == [] then 0 else
      var size := |Line(records[0].0, records[0].1)|;
      if n < size then
        assert records[..1] == [records[0]];
        0
      else
        var c := WholeRecords(records[1..], n - size);
        assert records[..c + 1][1..] == records[1..][..c];
        assert c + 1 < |records| ==> records[..c + 2][1..] == records[1..][..c + 1];
        c + 1
  }

  /** Replaying any prefix of the log, as a crash may leave it, brings back exactly the records whose newline
      lies in the prefix. */
  lemma {:induction false} PrefixReplays(records: seq<Row>, n: nat)
    requires Loggable(records) && n <= |Log(records)|
    ensures Ops(Log(records)[..n]) == records[..WholeRecords(records, n)]
    decreases records
  {
    if records == [] {
      OpsOfOpen([]);
    } else {
      var size := |Line(records[0].0, records[0].1)|;
      assert Loggable(records[1..]);
      if n < size {
        CutLine(records[0].0, records[0].1, Log(records[1..]), n);
      } else {
        PrefixReplays(records[1..], n - size);
        OneRecordMore(records, n, WholeRecords(records[1..], n - size));
      }
    }
  }

  lemma OneRecordMore(records: seq<Row>, n: nat, c: nat)
    requires records != [] && Loggable(records) && c < |records| && n <= |Log(records)|
    requires var size := |Line(records[0].0, records[0].1)|;
      size <= n && Ops(Log(records[1..])[..n - size]) == records[1..][..c]
    ensures Ops(Log(records)[..n]) == records[..c + 1]
  {
    var first, rest := records[0], records[1..];
    FirstLine(first.0, first.1, Log(rest), n);
    FirstAndRest(records, c);
  }

  lemma FirstAndRest(records: seq<Row>, c: nat)
    requires c < |records|
    ensures records[..c + 1] == [(records[0].0, records[0].1)] + records[1..][..c]
  {
  }

  lemma CutLine(key: Key, value: ByteString, later: ByteString, n: nat)
    requires Clean(key) && Clean(value) && n < |Line(key, value)|
    ensures Ops((Line(key, value) + later)[..n]) == []
  {
    var cut := (Line(key, value) + later)[..n];
    assert cut == Record(key, value)[..n];
    OpsOfOpen(cut);
  }

  lemma FirstLine(key: Key, value: ByteString, later: ByteString, n: nat)
    requires Clean(key) && Clean(value) && value != [] && |Line(key, value)| <= n <= |Line(key, value) + later|
    ensures Ops((Line(key, value) + later)[..n]) == [(key, value)] + Ops(later[..n - |Line(key, value)|])
  {
    var line := Line(key, value);
    var part := later[..n - |line|];
    assert (line + later)[..n] == line + part;
    OpsAppend(line, part);
    LineReplays(key, value);
    assert Rest(line) + part == part;
  }

  /** The registers the engine logs are binary: the tenth write of a node already holds a newline byte, so
      its record does not come back. */
  lemma TenthWriteIsNotReplayed(key: Key, value: ByteString, node: NodeID)
    ensures var bytes := EncodeRegister(Register(value, map[node := 10]));
      Ops(Line(key, bytes)) != [(key, bytes)]
  {
    var clock: Clock := map[node := 10];
    var bytes := EncodeRegister(Register(value, clock));
    assert IsLeast(node, clock.Keys) by {
      LessTrichotomy(node, node);
    }
    RowsFirst(clock, node);
    assert clock - {node} == map[];
    assert Rows(clock) == [(node, 10)];
    assert bytes[12 + |node|] == PutU64(10)[0] == 10;
    RecordReplaysIff(key, bytes);
  }

  // ----- the log file -----

  /** One read of at most `n` bytes at `pos`. The file system may hand out any piece, empty only at the end. */
  method Read(data: ByteString, pos: nat, n: nat) returns (to: nat)
    requires n > 0 && pos <= |data|
    ensures pos <= to <= |data| && to - pos <= n
    ensures to == pos <==> pos == |data|
  {
    var left := |data| - pos;
    to := pos + if left < n then left else n;
  }

  method Split(line: ByteString) returns (parts: seq<ByteString>)
    ensures parts == FieldsFrom(line, 0)
  {
    parts := [];
    var pos := 0;
    while pos < |line|
      invariant 0 <= pos <= |line| + 1
      invariant parts + FieldsFrom(line, pos) == FieldsFrom(line, 0)
      decreases |line| + 1 - pos
    {
      var n := Find(line, BAR, pos);
      parts := parts + [line[pos..n]];
      pos := n + 1;
    }
  }

  method ReplayLine(rows0: seq<Row>, line: ByteString) returns (rows: seq<Row>)
    ensures rows == PutAll(rows0, LineOps(line))
  {
    rows := rows0;
    if line == [] {
      return;
    }
    var parts := Split(line);
    if |parts| >= 2 {
      if parts[0] == PUT && |parts| == 3 {
        rows := Upsert(rows, parts[1], parts[2]);
      } else if parts[0] == DEL && |parts| == 2 {
        rows := Upsert(rows, parts[1], []);
      }
    }
  }

  /** `done` are the updates of the lines before `pos`. */
  ghost predicate LinesDone(done: seq<Row>, buffer: ByteString, pos: nat) {
    && pos <= |buffer| && RestFrom(buffer, pos) == RestFrom(buffer, 0)
    && done + OpsOf(LinesFrom(buffer, pos)) == Ops(buffer)
  }

  lemma NextLine(done: seq<Row>, buffer: ByteString, pos: nat, nl: nat, line: ByteString)
    requires LinesDone(done, buffer, pos) && nl == Find(buffer, NEWLINE, pos) < |buffer| && line == buffer[pos..nl]
    ensures LinesDone(done + LineOps(line), buffer, nl + 1)
  {
    var later := LinesFrom(buffer, nl + 1);
    LinesStep(buffer, pos, nl, line);
    assert ([line] + later)[1..] == later;
    Reassociate(done, LineOps(line), OpsOf(later));
  }

  lemma LastLine(done: seq<Row>, buffer: ByteString, pos: nat)
    requires LinesDone(done, buffer, pos) && Find(buffer, NEWLINE, pos) == |buffer|
    ensures done == Ops(buffer) && buffer[pos..] == Rest(buffer)
  {
    LinesEnd(buffer, pos);
    assert done + [] == done;
  }

  /** `done` are the updates of the file before `pos`, the carried-over incomplete line excepted. */
  ghost predicate OpsDone(done: seq<Row>, leftover: ByteString, bytes: ByteString, pos: nat) {
    pos <= |bytes| && NEWLINE !in leftover && done + Ops(leftover + bytes[pos..]) == Ops(bytes)
  }

  lemma NextBuffer(done: seq<Row>, leftover: ByteString, bytes: ByteString, from: nat, to: nat)
    requires from <= to && OpsDone(done, leftover, bytes, from) && to <= |bytes|
    ensures var s := leftover + bytes[from..to]; OpsDone(done + Ops(s), Rest(s), bytes, to)
  {
    var s := leftover + bytes[from..to];
    NextChunk(leftover, bytes, from, to);
    RestIsOpen(s, 0);
    OpsAppend(s, bytes[to..]);
    Reassociate(done, Ops(s), Ops(Rest(s) + bytes[to..]));
  }

  lemma EndOfFile(done: seq<Row>, leftover: ByteString, bytes: ByteString)
    requires OpsDone(done, leftover, bytes, |bytes|)
    ensures done == Ops(bytes)
  {
    assert leftover + bytes[|bytes|..] == leftover;
    OpsOfOpen(leftover);
    assert done + [] == done;
  }

  /** All complete lines of the buffer; the incomplete one is handed back. */
  method ReplayBuffer(rows0: seq<Row>, buffer: ByteString) returns (rows: seq<Row>, leftover: ByteString)
    ensures rows == PutAll(rows0, Ops(buffer)) && leftover == Rest(buffer)
  {
    hide PutAll, LineOps, OpsOf;
    rows := rows0;
    var pos: nat := 0;
    ghost var done: seq<Row> := [];
    assert [] + Ops(buffer) == Ops(buffer);
    PutNone(rows0);
    while true
      invariant rows == PutAll(rows0, done) && LinesDone(done, buffer, pos)
      decreases |buffer| - pos
    {
      var nl := Find(buffer, NEWLINE, pos);
      if nl == |buffer| {
        LastLine(done, buffer, pos);
        return rows, buffer[pos..];
      }
      var line := buffer[pos..nl];
      NextLine(done, buffer, pos, nl, line);
      PutAllAppend(rows0, done, LineOps(line));
      done := done + LineOps(line);
      rows := ReplayLine(rows, line);
      pos := nl + 1;
    }
  }

  lemma Reassociate<T>(a: seq<T>, b: seq<T>, c: seq<T>)
    ensures a + (b + c) == (a + b) + c
  {
  }

  class WAL {
    var file: ByteString

    constructor ()
      ensures file == []
    {
      file := [];
    }

    method Append(record: ByteString)
      modifies this
      ensures file == old(file) + record + [NEWLINE]
    {
      file := file + (record + [NEWLINE]);
    }

    /** Plays the log into a memtable with contents `rows0`: every update is one `MemTable.Put`. */
    method Replay(rows0: seq<Row>) returns (rows: seq<Row>)
      ensures rows == PutAll(rows0, Ops(file))
    {
      var pos, leftover := 0, [];
      ghost var done: seq<Row> := [];
      rows := rows0;
      assert [] + file[0..] == file;
      while true
        invariant rows == PutAll(rows0, done) && OpsDone(done, leftover, file, pos)
        decreases |file| - pos
      {
        var to := Read(file, pos, 8192);
        if to == pos {
          EndOfFile(done, leftover, file);
          break;
        }
        NextBuffer(done, leftover, file, pos, to);
        leftover := leftover + file[pos..to];
        pos := to;
        PutAllAppend(rows0, done, Ops(leftover));
        done := done + Ops(leftover);
        rows, leftover := ReplayBuffer(rows, leftover);
      }
    }
  }
}
