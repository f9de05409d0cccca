/** The manifest as a text file: one line per record, read back in chunks and parsed word by word. */
module ManifestText {
  import opened Bytes
  import opened Wal
  import opened Manifests

  const ADD: ByteString := [65, 68, 68]
  const INT_MAX := 2147483647

  type LevelFiles = seq<seq<ByteString>>

  // ----- reading words and numbers from a line, as a string stream does -----

  predicate IsSpace(b: Byte) {
    b == 32 || 9 <= b <= 13
  }

  function SkipSpaces(s: ByteString, pos: nat): (q: nat)
    requires pos <= |s|
    ensures pos <= q <= |s| && (q < |s| ==> !IsSpace(s[q]))
    decreases |s| - pos
  {
    if pos < |s| && IsSpace(s[pos]) then SkipSpaces(s, pos + 1) else pos
  }

  function WordEnd(s: ByteString, pos: nat): (q: nat)
    requires pos <= |s|
    ensures pos <= q <= |s|
    decreases |s| - pos
  {
    if pos < |s| && !IsSpace(s[pos]) then WordEnd(s, pos + 1) else pos
  }

  /** The next word and where it ends, unless only spaces are left. */
  function ReadWord(s: ByteString, pos: nat): (r: Option<(ByteString, nat)>)
    requires pos <= |s|
    ensures r.Some? ==> pos <= r.value.1 <= |s|
  {
    var from := SkipSpaces(s, pos);
    var to := WordEnd(s, from);
    if from == to then None else Some((s[from..to], to))
  }

  predicate IsDigit(b: Byte) {
    48 <= b <= 57
  }

  function DigitsEnd(s: ByteString, pos: nat): (q: nat)
    requires pos <= |s|
    ensures pos <= q <= |s|
    ensures forall i :: pos <= i < q ==> IsDigit(s[i])
    decreases |s| - pos
  {
    if pos < |s| && IsDigit(s[pos]) then DigitsEnd(s, pos + 1) else pos
  }

  function Decimal(s: ByteString): nat
    requires forall i :: 0 <= i < |s| ==> IsDigit(s[i])
  {
    if s == [] then 0 else
      assert IsDigit(s[|s| - 1]);
      10 * Decimal(s[..|s| - 1]) + (s[|s| - 1] as int - 48)
  }

  /** The next number and where it ends: an optional sign and at least one digit, within the range of an int. */
  function ReadInt(s: ByteString, pos: nat): (r: Option<(int, nat)>)
    requires pos <= |s|
    ensures r.Some? ==> pos <= r.value.1 <= |s|
  {
    var at := SkipSpaces(s, pos);
    var signed := at < |s| && (s[at] == 43 || s[at] == 45);
    var from := if signed then at + 1 else at;
    var to := DigitsEnd(s, from);
    if from == to then None else
      var size: int := Decimal(s[from..to]);
      var n := if signed && s[at] == 45 then -size else size;
      if -INT_MAX - 1 <= n <= INT_MAX then Some((n, to)) else None
  }

  /** The level and file that a line adds. Deletions and lines of any other shape add nothing. */
  function LineAdds(line: ByteString): (r: Option<(nat, ByteString)>)
    ensures r.Some? ==> r.value.0 < 7
  {
    match ReadWord(line, 0)
    case None => None
    case Some((op, p)) =>
      match ReadInt(line, p)
      case None => None
      case Some((level, q)) =>
        if op != ADD then None else
          match ReadWord(line, q)
          case None => None
          case Some((file, _)) => if 0 <= level < 7 then Some((level, file)) else None
  }

  function AddLine(levels: LevelFiles, line: ByteString): (r: LevelFiles)
    requires |levels| == 7
    ensures |r| == 7
  {
    match LineAdds(line)
    case None => levels
    case Some((level, file)) => levels[level := levels[level] + [file]]
  }

  function AddLines(lines: seq<ByteString>): (levels: LevelFiles)
    ensures |levels| == 7
  {
    if lines == [] then seq(7, _ => []) else AddLine(AddLines(lines[..|lines| - 1]), lines[|lines| - 1])
  }

  /** What loading makes of the bytes of a manifest. */
  function LoadedText(s: ByteString): LevelFiles {
    AddLines(Lines(s))
  }

  // ----- the lines that are written -----

  function Digits(n: nat): (s: ByteString)
    ensures s != [] && forall i :: 0 <= i < |s| ==> IsDigit(s[i])
  {
    if n < 10 then [48 + n] else Digits(n / 10) + [48 + n % 10]
  }

  lemma {:induction false} DecimalOfDigits(n: nat)
    ensures Decimal(Digits(n)) == n
  {
    var s := Digits(n);
    if n < 10 {
      assert s[..0] == [];
    } else {
      DecimalOfDigits(n / 10);
      assert s[..|s| - 1] == Digits(n / 10);
    }
  }

  function LineOf(op: ByteString, level: nat, file: ByteString): ByteString {
    op + [32] + Digits(level) + [32] + file
  }

  predicate IsWord(s: ByteString) {
    s != [] && forall i :: 0 <= i < |s| ==> !IsSpace(s[i])
  }

  lemma {:induction false} WordEndIs(s: ByteString, pos: nat, to: nat)
    requires pos <= to <= |s| && (forall i :: pos <= i < to ==> !IsSpace(s[i])) && (to < |s| ==> IsSpace(s[to]))
    ensures WordEnd(s, pos) == to
    decreases |s| - pos
  {
    if pos < to {
      WordEndIs(s, pos + 1, to);
    }
  }

  lemma {:induction false} DigitsEndIs(s: ByteString, pos: nat, to: nat)
    requires pos <= to <= |s| && (forall i :: pos <= i < to ==> IsDigit(s[i])) && (to < |s| ==> !IsDigit(s[to]))
    ensures DigitsEnd(s, pos) == to
    decreases |s| - pos
  {
    if pos < to {
      DigitsEndIs(s, pos + 1, to);
    }
  }

  lemma WordIsRead(s: ByteString, pos: nat, word: ByteString)
    requires pos + |word| <= |s| && s[pos..pos + |word|] == word && IsWord(word)
    requires pos + |word| < |s| ==> IsSpace(s[pos + |word|])
    ensures ReadWord(s, pos) == Some((word, pos + |word|))
    ensures pos > 0 && IsSpace(s[pos - 1]) ==> ReadWord(s, pos - 1) == Some((word, pos + |word|))
  {
    forall i | pos <= i < pos + |word| ensures !IsSpace(s[i]) {
      assert s[i] == word[i - pos];
    }
    WordEndIs(s, pos, pos + |word|);
    assert SkipSpaces(s, pos) == pos;
  }

  lemma NumberIsRead(s: ByteString, pos: nat, n: nat)
    requires var to := pos + 1 + |Digits(n)|;
      to < |s| && s[pos] == 32 && s[pos + 1..to] == Digits(n) && s[to] == 32
    ensures ReadInt(s, pos) == if n <= INT_MAX then Some((n, pos + 1 + |Digits(n)|)) else None
  {
    var to := pos + 1 + |Digits(n)|;
    forall i | pos + 1 <= i < to ensures IsDigit(s[i]) {
      assert s[i] == Digits(n)[i - pos - 1];
    }
    DigitsEndIs(s, pos + 1, to);
    assert SkipSpaces(s, pos) == SkipSpaces(s, pos + 1) == pos + 1;
    DecimalOfDigits(n);
  }

  lemma LineParts(op: ByteString, d: ByteString, file: ByteString, s: ByteString)
    requires |op| == 3 && s == op + [32] + d + [32] + file
    ensures |s| == 5 + |d| + |file| && s[0..3] == op && s[3] == 32 && s[4..4 + |d|] == d && s[4 + |d|] == 32
    ensures s[5 + |d|..5 + |d| + |file|] == file
  {
  }

  /** A written line adds its file when it is an addition to one of the seven levels, and nothing otherwise. */
  lemma LineIsRead(op: ByteString, level: nat, file: ByteString)
    requires IsWord(op) && |op| == 3 && IsWord(file)
    ensures LineAdds(LineOf(op, level, file)) == if op == ADD && level < 7 then Some((level, file)) else None
  {
    var s, d := LineOf(op, level, file), Digits(level);
    LineParts(op, d, file, s);
    WordIsRead(s, 0, op);
    NumberIsRead(s, 3, level);
    WordIsRead(s, 5 + |d|, file);
  }

  /** The bytes of a line: `ADD level file`, the levels being single digits. */
  lemma LineBytes(level: nat, file: ByteString)
    requires level < 7
    ensures LineOf(ADD, level, file) + [NEWLINE] == [65, 68, 68, 32, 48 + level, 32] + file + [10]
    ensures LineOf(DEL, level, file) + [NEWLINE] == [68, 69, 76, 32, 48 + level, 32] + file + [10]
  {
    assert Digits(level) == [48 + level];
  }

  // ----- a manifest cut by a crash -----

  function TextOf(lines: seq<ByteString>): ByteString {
    if lines == [] then [] else lines[0] + [NEWLINE] + TextOf(lines[1..])
  }

  /** How many lines lie wholly, newline included, in the first `n` bytes. */
  function WholeLines(lines: seq<ByteString>, n: nat): (c: nat)
    ensures c <= |lines|
  {
    if lines == [] || n < |lines[0]| + 1 then 0 else 1 + WholeLines(lines[1..], n - (|lines[0]| + 1))
  }

  lemma OneLineMore(line: ByteString, later: ByteString)
    requires NEWLINE !in line
    ensures Lines(line + [NEWLINE] + later) == [line] + Lines(later)
  {
    var s := line + [NEWLINE] + later;
    FindIs(s, NEWLINE, 0, |line|);
    LinesStep(s, 0, |line|, line);
    assert s[|line| + 1..] == later;
    LinesShift(s, later, |line| + 1, 0);
  }

  /** Any prefix of a file of lines holds exactly the lines whose newline lies in it. */
  lemma {:induction false} PrefixLines(lines: seq<ByteString>, n: nat)
    requires (forall line :: line in lines ==> NEWLINE !in line) && n <= |TextOf(lines)|
    ensures Lines(TextOf(lines)[..n]) == lines[..WholeLines(lines, n)]
  {
    if lines == [] {
      OpenText([]);
    } else {
      var line, later := lines[0], TextOf(lines[1..]);
      assert line in lines;
      if n < |line| + 1 {
        assert TextOf(lines)[..n] == line[..n];
        OpenText(line[..n]);
      } else {
        var m := n - (|line| + 1);
        PrefixLines(lines[1..], m);
        assert TextOf(lines)[..n] == line + [NEWLINE] + later[..m];
        OneLineMore(line, later[..m]);
        assert [line] + lines[1..][..WholeLines(lines[1..], m)] == lines[..WholeLines(lines[1..], m) + 1];
      }
    }
  }

  lemma OpenText(s: ByteString)
    requires NEWLINE !in s
    ensures Lines(s) == []
  {
    FindIs(s, NEWLINE, 0, |s|);
  }

  // ----- the records as lines -----

  function RecordLine(r: Record, name: nat -> ByteString): ByteString {
    match r
    case Add(level, n) => LineOf(ADD, level, name(n))
    case Del(level, n) => LineOf(DEL, level, name(n))
  }

  function RecordLines(records: seq<Record>, name: nat -> ByteString): (lines: seq<ByteString>)
    ensures |lines| == |records|
  {
    seq(|records|, i requires 0 <= i < |records| => RecordLine(records[i], name))
  }

  function FileNames(names: seq<nat>, name: nat -> ByteString): (files: seq<ByteString>)
    ensures |files| == |names|
  {
    seq(|names|, i requires 0 <= i < |names| => name(names[i]))
  }

  function Named(levels: seq<seq<nat>>, name: nat -> ByteString): (files: LevelFiles)
    ensures |files| == |levels|
  {
    seq(|levels|, l requires 0 <= l < |levels| => FileNames(levels[l], name))
  }

  /** File names are single words. */
  ghost predicate AreWords(name: nat -> ByteString) {
    forall n :: IsWord(name(n))
  }

  lemma RecordIsRead(levels: seq<seq<nat>>, r: Record, name: nat -> ByteString)
    requires |levels| == 7 && AreWords(name)
    ensures AddLine(Named(levels, name), RecordLine(r, name)) ==
      Named(if r.Add? && r.level < 7 then levels[r.level := levels[r.level] + [r.name]] else levels, name)
  {
    assert IsWord(name(r.name)) && IsWord(ADD) && IsWord(DEL);
    match r
    case Add(level, n) =>
      LineIsRead(ADD, level, name(n));
      if level < 7 {
        assert FileNames(levels[level] + [n], name) == FileNames(levels[level], name) + [name(n)];
        assert Named(levels[level := levels[level] + [n]], name)
            == Named(levels, name)[level := FileNames(levels[level] + [n], name)];
      }
    case Del(level, n) => LineIsRead(DEL, level, name(n));
  }

  /** Reading back written records makes of them what loading records makes. */
  lemma {:induction false} RecordsAreRead(records: seq<Record>, name: nat -> ByteString)
    requires AreWords(name)
    ensures AddLines(RecordLines(records, name)) == Named(Loaded(records), name)
  {
    var lines := RecordLines(records, name);
    if records == [] {
      assert lines == [];
      assert Named(seq(7, _ => []), name) == seq(7, _ => []);
    } else {
      var n := |records| - 1;
      RecordsAreRead(records[..n], name);
      assert lines[..n] == RecordLines(records[..n], name);
      RecordIsRead(Loaded(records[..n]), records[n], name);
    }
  }

  lemma NoNewline(s: ByteString)
    requires forall i :: 0 <= i < |s| ==> IsDigit(s[i]) || !IsSpace(s[i])
    ensures NEWLINE !in s
  {
  }

  lemma RecordHasNoNewline(r: Record, name: nat -> ByteString)
    requires AreWords(name)
    ensures NEWLINE !in RecordLine(r, name)
  {
    assert IsWord(name(r.name));
    NoNewline(Digits(r.level));
  }

  /** Loading any prefix of the bytes of a manifest, as a crash may leave it, gives the files of exactly the
      records whose newline lies in the prefix. */
  lemma PrefixLoads(records: seq<Record>, name: nat -> ByteString, n: nat)
    requires AreWords(name) && n <= |TextOf(RecordLines(records, name))|
    ensures var lines := RecordLines(records, name);
      LoadedText(TextOf(lines)[..n]) == Named(Loaded(records[..WholeLines(lines, n)]), name)
  {
    var lines := RecordLines(records, name);
    var c := WholeLines(lines, n);
    forall line | line in lines ensures NEWLINE !in line {
      var i :| 0 <= i < |lines| && lines[i] == line;
      RecordHasNoNewline(records[i], name);
    }
    PrefixLines(lines, n);
    assert lines[..c] == RecordLines(records[..c], name);
    RecordsAreRead(records[..c], name);
  }

  // ----- the object -----

  lemma LinesOfNext(done: seq<ByteString>, leftover: ByteString, bytes: ByteString, from: nat, to: nat)
    requires from <= to <= |bytes| && done + Lines(leftover + bytes[from..]) == Lines(bytes)
    ensures var s := leftover + bytes[from..to];
      (done + Lines(s)) + Lines(Rest(s) + bytes[to..]) == Lines(bytes) && NEWLINE !in Rest(s)
  {
    var s := leftover + bytes[from..to];
    NextChunk(leftover, bytes, from, to);
    RestIsOpen(s, 0);
    LinesAppend(s, bytes[to..], 0);
    Reassociate(done, Lines(s), Lines(Rest(s) + bytes[to..]));
  }

  class Manifest {
    var file: ByteString

    constructor ()
      ensures file == []
    {
      file := [];
    }

    method AddSSTable(level: nat, filename: ByteString)
      modifies this
      ensures file == old(file) + TextOf([LineOf(ADD, level, filename)])
    {
      file := file + (LineOf(ADD, level, filename) + [NEWLINE]);
      assert TextOf([]) == [];
    }

    method Replace(level: nat, oldFiles: seq<ByteString>, newFiles: seq<ByteString>)
      modifies this
      ensures file == old(file) + TextOf(OpLines(DEL, level, oldFiles)) + TextOf(OpLines(ADD, level, newFiles))
    {
      var i := 0;
      assert OpLines(DEL, level, oldFiles)[..0] == [] && OpLines(ADD, level, newFiles)[..0] == [];
      while i < |oldFiles|
        invariant i <= |oldFiles| && file == old(file) + TextOf(OpLines(DEL, level, oldFiles)[..i])
      {
        OneMoreLine(OpLines(DEL, level, oldFiles), i);
        file := file + (LineOf(DEL, level, oldFiles[i]) + [NEWLINE]);
        i := i + 1;
      }
      var j := 0;
      assert OpLines(DEL, level, oldFiles)[..i] == OpLines(DEL, level, oldFiles);
      while j < |newFiles|
        invariant j <= |newFiles|
        invariant file == old(file) + TextOf(OpLines(DEL, level, oldFiles)) + TextOf(OpLines(ADD, level, newFiles)[..j])
      {
        OneMoreLine(OpLines(ADD, level, newFiles), j);
        file := file + (LineOf(ADD, level, newFiles[j]) + [NEWLINE]);
        j := j + 1;
      }
      assert OpLines(ADD, level, newFiles)[..j] == OpLines(ADD, level, newFiles);
    }

    static method LoadLine(levels0: LevelFiles, line: ByteString) returns (levels: LevelFiles)
      requires |levels0| == 7
      ensures levels == AddLine(levels0, line)
    {
      levels := levels0;
      if line == [] {
        return;
      }
      var op := ReadWord(line, 0);
      if op.None? {
        return;
      }
      var level := ReadInt(line, op.value.1);
      if level.None? {
        return;
      }
      if op.value.0 == ADD {
        var file := ReadWord(line, level.value.1);
        if file.Some? && 0 <= level.value.0 < |levels| {
          levels := levels[level.value.0 := levels[level.value.0] + [file.value.0]];
        }
      }
    }

    /** All complete lines of the buffer; the incomplete one is handed back. */
    static method LoadBuffer(levels0: LevelFiles, ghost done: seq<ByteString>, buffer: ByteString)
      returns (levels: LevelFiles, leftover: ByteString)
      requires levels0 == AddLines(done)
      ensures levels == AddLines(done + Lines(buffer)) && leftover == Rest(buffer)
    {
      hide AddLine, Find;
      levels := levels0;
      var pos: nat := 0;
      ghost var read: seq<ByteString> := [];
      assert done + [] == done;
      while true
        invariant pos <= |buffer| && RestFrom(buffer, pos) == RestFrom(buffer, 0)
        invariant read + LinesFrom(buffer, pos) == Lines(buffer) && levels == AddLines(done + read)
        decreases |buffer| - pos
      {
        var nl := Find(buffer, NEWLINE, pos);
        if nl == |buffer| {
          LinesEnd(buffer, pos);
          assert read + [] == read;
          return levels, buffer[pos..];
        }
        var line := buffer[pos..nl];
        LinesStep(buffer, pos, nl, line);
        Reassociate(read, [line], LinesFrom(buffer, nl + 1));
        AddOneLine(done + read, line);
        Reassociate(done, read, [line]);
        read := read + [line];
        levels := LoadLine(levels, line);
        pos := nl + 1;
      }
    }

    /** The file is read in pieces of at most 4096 bytes; a line cut by a piece is carried over. */
    method Load() returns (levels: LevelFiles)
      ensures levels == LoadedText(file)
    {
      var pos, leftover := 0, [];
      ghost var done: seq<ByteString> := [];
      levels := seq(7, _ => []);
      assert [] + file[0..] == file;
      assert [] + Lines(file) == Lines(file);
      while true
        invariant pos <= |file| && NEWLINE !in leftover
        invariant done + Lines(leftover + file[pos..]) == Lines(file) && levels == AddLines(done)
        decreases |file| - pos
      {
        var to := Read(file, pos, 4096);
        if to == pos {
          assert leftover + file[pos..] == leftover;
          OpenText(leftover);
          assert done + [] == done;
          break;
        }
        LinesOfNext(done, leftover, file, pos, to);
        leftover := leftover + file[pos..to];
        pos := to;
        ghost var lines := done + Lines(leftover);
        levels, leftover := LoadBuffer(levels, done, leftover);
        done := lines;
      }
    }
  }

  function OpLines(op: ByteString, level: nat, files: seq<ByteString>): (lines: seq<ByteString>)
    ensures |lines| == |files|
  {
    seq(|files|, i requires 0 <= i < |files| => LineOf(op, level, files[i]))
  }

  lemma AddOneLine(lines: seq<ByteString>, line: ByteString)
    ensures AddLines(lines + [line]) == AddLine(AddLines(lines), line)
  {
    assert (lines + [line])[..|lines|] == lines;
  }

  lemma {:induction false} TextOfAppend(a: seq<ByteString>, b: seq<ByteString>)
    ensures TextOf(a + b) == TextOf(a) + TextOf(b)
    decreases a
  {
    if a == [] {
      assert a + b == b;
    } else {
      assert (a + b)[1..] == a[1..] + b;
      TextOfAppend(a[1..], b);
      Reassociate(a[0] + [NEWLINE], TextOf(a[1..]), TextOf(b));
    }
  }

  lemma OneMoreLine(lines: seq<ByteString>, i: nat)
    requires i < |lines|
    ensures TextOf(lines[..i + 1]) == TextOf(lines[..i]) + (lines[i] + [NEWLINE])
  {
    assert lines[..i + 1] == lines[..i] + [lines[i]];
    TextOfAppend(lines[..i], [lines[i]]);
    assert TextOf([lines[i]]) == lines[i] + [NEWLINE] + TextOf([]);
  }
}
