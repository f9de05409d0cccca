/** From a sorted list to a file and back, and the file that loses a key. */
module SSTableRoundTrip {
  import opened Bytes
  import opened SSTableFormat
  import opened SSTableReads
  import opened SSTables
  import opened SSTableReader

  // ----- write, open, read -----

  method WriteAndOpen(entries: seq<Row>) returns (t: SSTable)
    requires forall blocks :: IsSplit(blocks, entries) ==> Representable(blocks)
    ensures fresh(t) && t.Valid() && IsSplit(t.blocks, entries) && t.file == TableBytes(t.blocks)
  {
    var file;
    ghost var blocks;
    file, blocks := Create(entries);
    TableParts(blocks);
    t := new SSTable(file, blocks);
  }

  /** Full scan round trip: no hypothesis on how the blocks close. */
  method ScanBack(entries: seq<Row>, top: Key) returns (out: seq<Row>)
    requires Ascending(entries)
    requires forall blocks :: IsSplit(blocks, entries) ==> Representable(blocks)
    ensures out == Select(entries, [], top)
  {
    var t := WriteAndOpen(entries);
    FullScanExact(t.blocks, top);
    out := t.Scan([], top);
  }

  /** Point and range round trip under the exact condition. */
  method ReadBack(entries: seq<Row>, key: Key, start: Key, end: Key)
    returns (found: Option<ByteString>, out: seq<Row>)
    requires Ascending(entries)
    requires forall blocks :: IsSplit(blocks, entries) ==> Representable(blocks) && AllSearchable(blocks)
    ensures found == Lookup(entries, key) && out == Select(entries, start, end)
  {
    var t := WriteAndOpen(entries);
    FileGetIsLookup(t.blocks, key);
    FileScanIsSelect(t.blocks, start, end);
    found := t.Get(key);
    out := t.Scan(start, end);
  }

  /** A file none of whose inner blocks closes on a multiple of sixteen rows is searchable throughout. */
  lemma NoMultipleOfSixteenIsEnough(blocks: seq<Block>)
    requires forall b :: 0 <= b < |blocks| - 1 ==> |blocks[b]| % 16 != 0
    ensures AllSearchable(blocks)
  {
    forall b | 0 <= b < |blocks| ensures Searchable(blocks[b], IsLast(blocks, b)) {
      DanglingIsInner(blocks[b], IsLast(blocks, b));
    }
  }

  // ----- a file that loses a key -----

  function SampleRow(i: nat): Row
    requires i < 56
  {
    ([200 + i], seq(240, _ => 0))
  }

  function SampleRows(n: nat): seq<Row>
    requires n < 56
  {
    seq(n, i requires 0 <= i < n => SampleRow(i))
  }

  lemma {:induction false} SampleSize(n: nat)
    requires n < 56
    ensures |RowsBytes(SampleRows(n))| == 249 * n
  {
    if n > 0 {
      SampleSize(n - 1);
      assert SampleRows(n) == SampleRows(n - 1) + [SampleRow(n - 1)];
      RowsBytesSnoc(SampleRows(n - 1), SampleRow(n - 1));
    }
  }

  lemma SampleOffset(n: nat)
    requires n < 56
    ensures RowOffset(SampleRows(n), n) == 8 + 249 * n
  {
    SampleSize(n);
    FullOffset(SampleRows(n));
  }

  function SampleBlocks(): seq<Block> {
    [SampleRows(16), [SampleRow(16)]]
  }

  lemma SampleSplit()
    ensures IsSplit(SampleBlocks(), SampleRows(17))
  {
    var rows, blocks := SampleRows(16), SampleBlocks();
    forall i | 0 < i < 16 ensures RowFits(rows[..i], rows[i]) {
      assert rows[..i] == SampleRows(i);
      SampleOffset(i);
    }
    SampleOffset(16);
    assert blocks[1..] == [[SampleRow(16)]];
    assert Flatten(blocks[1..]) == [SampleRow(16)] + Flatten([]);
    assert SampleRows(17) == rows + [SampleRow(16)];
    assert FilledGreedily(blocks[1]);
  }

  lemma SampleSorted()
    ensures Ascending(SampleRows(17))
  {
    forall i, j | 0 <= i < j < 17 ensures Less(SampleRows(17)[i].0, SampleRows(17)[j].0) {
      assert SampleRows(17)[i].0[0] < SampleRows(17)[j].0[0];
    }
  }

  lemma SampleGhost()
    ensures !Searchable(SampleRows(16), false)
  {
    var rows: Block := SampleRows(16);
    SampleOffset(16);
    assert rows[..16] == rows;
    assert Tail(rows, false)[1] == RowOffset(rows, 16) == 3992;
    var ghostKey := GhostKey(rows, false);
    assert ghostKey[0] == PutU32(3992)[0];
    assert Shift(3992, 0) == 3992;
    assert ghostKey[0] == 152;
    assert rows[15].0 == [215];
  }

  lemma SampleMissed()
    ensures FileGet(SampleBlocks(), [215]) == None && Lookup(SampleRows(17), [215]).Some?
  {
    SampleSplit();
    SampleSorted();
    SampleGhost();
    assert SampleBlocks()[0][15].0 == [215];
    LastKeyIsMissed(SampleBlocks(), 0);
  }

  /** Seventeen rows of one key byte and 240 value bytes: the sixteenth key is written and not found. */
  lemma AWrittenKeyIsNotFound(blocks: seq<Block>)
    requires IsSplit(blocks, SampleRows(17))
    ensures Lookup(SampleRows(17), [215]).Some? && FileGet(blocks, [215]) == None
  {
    SampleMissed();
    SampleSplit();
    SplitIsUnique(blocks, SampleBlocks(), SampleRows(17));
  }
}
