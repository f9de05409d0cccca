/** The writer of sorted tables: loops over buffers, proved against the format. */
module SSTables {
  import opened Bytes
  import opened SSTableFormat
  import opened SSTableReads

  // ----- writing -----

  /** The data region while more blocks are still to come. */
  function OpenBytes(blocks: seq<Block>): ByteString {
    if blocks == [] then [] else BlockBytes(blocks[0], false) + OpenBytes(blocks[1..])
  }

  lemma {:induction false} OpenBytesAppend(blocks: seq<Block>, rows: Block)
    ensures OpenBytes(blocks + [rows]) == OpenBytes(blocks) + BlockBytes(rows, false)
  {
    if blocks != [] {
      assert (blocks + [rows])[1..] == blocks[1..] + [rows];
      OpenBytesAppend(blocks[1..], rows);
    }
  }

  lemma {:induction false} ClosedBytes(blocks: seq<Block>, rows: Block)
    ensures BlocksBytes(blocks + [rows]) == OpenBytes(blocks) + BlockBytes(rows, true)
  {
    if blocks != [] {
      assert (blocks + [rows])[1..] == blocks[1..] + [rows];
      ClosedBytes(blocks[1..], rows);
    } else {
      assert BlocksBytes([rows]) == BlockBytes(rows, true) + BlocksBytes([]);
    }
  }

  lemma {:induction false} OffsetIsOpenLength(blocks: seq<Block>, b: nat)
    requires b < |blocks|
    ensures BlockOffset(blocks, b) == |OpenBytes(blocks[..b])|
  {
    if b > 0 {
      OffsetIsOpenLength(blocks[1..], b - 1);
      assert blocks[..b][1..] == blocks[1..][..b - 1];
    }
  }

  lemma RestartsStable(rows: seq<Row>, r: Row, m: nat)
    requires m == 0 || 16 * (m - 1) <= |rows|
    ensures Restarts(rows + [r], m) == Restarts(rows, m)
  {
    forall j | 0 <= j < m ensures RowOffset(rows + [r], 16 * j) == RowOffset(rows, 16 * j) {
      assert (rows + [r])[..16 * j] == rows[..16 * j];
    }
  }

  /** The restarts pushed before row `n` is considered. */
  function RestartsSoFar(rows: seq<Row>): seq<nat> {
    Restarts(rows, if rows == [] then 1 else (|rows| + 15) / 16)
  }

  lemma RestartPushed(rows: seq<Row>)
    ensures Restarts(rows, |rows| / 16 + 1) ==
      if rows != [] && |rows| % 16 == 0 then RestartsSoFar(rows) + [RowOffset(rows, |rows|)]
      else RestartsSoFar(rows)
  {
    if rows != [] && |rows| % 16 == 0 {
      var m := |rows| / 16;
      assert (|rows| + 15) / 16 == m;
      assert 16 * m == |rows|;
    }
  }

  lemma RestartsKept(rows: seq<Row>, r: Row)
    ensures RestartsSoFar(rows + [r]) == Restarts(rows, |rows| / 16 + 1)
  {
    var m := |rows| / 16 + 1;
    assert (|rows + [r]| + 15) / 16 == m;
    RestartsStable(rows, r, m);
  }

  lemma GreedyGrows(rows: seq<Row>, r: Row)
    requires FilledGreedily(rows) && (rows == [] || RowFits(rows, r))
    ensures FilledGreedily(rows + [r])
  {
    forall j | 0 < j < |rows + [r]| ensures RowFits((rows + [r])[..j], (rows + [r])[j]) {
      assert (rows + [r])[..j] == rows[..j];
      assert rows[..|rows|] == rows;
    }
  }

  /** `buf` is an unfilled header followed by the encoding of these rows. */
  ghost predicate Holds(buf: ByteString, body: ByteString) {
    |buf| == 8 + |body| && buf[8..] == body
  }

  lemma HoldsMore(buf: ByteString, body: ByteString, more: ByteString)
    requires Holds(buf, body)
    ensures Holds(buf + more, body + more)
  {
    assert (buf + more)[8..] == buf[8..] + more;
  }

  lemma AppendInFour(buf: ByteString, a: ByteString, b: ByteString, c: ByteString, d: ByteString)
    ensures buf + a + b + c + d == buf + (a + b + c + d)
  {
  }

  lemma RowAppended(buf: ByteString, rows: seq<Row>, kv: Row, longer: ByteString)
    requires Holds(buf, RowsBytes(rows)) && longer == buf + RowBytes(kv)
    ensures Holds(longer, RowsBytes(rows + [kv]))
  {
    HoldsMore(buf, RowsBytes(rows), RowBytes(kv));
    RowsBytesSnoc(rows, kv);
  }

  /** One pass of the outer loop of the writer: fill a block from `entries[start]` on and encode it. */
  lemma HoldsUpTo(buf: ByteString, rows: seq<Row>)
    requires Holds(buf, RowsBytes(rows))
    ensures |buf| == RowOffset(rows, |rows|)
  {
    hide RowsBytes, RowOffset;
    FullOffset(rows);
  }

  lemma SliceGrows(entries: seq<Row>, start: nat, i: nat)
    requires start <= i < |entries|
    ensures entries[start..i + 1] == entries[start..i] + [entries[i]]
  {
  }

  lemma FitsWhen(rows: seq<Row>, kv: Row, size: nat, count: nat)
    requires size == RowOffset(rows, |rows|) && count == |rows| / 16 + 1
    ensures RowFits(rows, kv) <==> size + 8 + |kv.0| + |kv.1| + count * 4 <= BLOCK_TARGET_BYTES
  {
    hide RowOffset;
  }

  method AppendRow(dataBuf0: ByteString, ghost rows: seq<Row>, kv: Row) returns (dataBuf: ByteString)
    requires Holds(dataBuf0, RowsBytes(rows))
    ensures Holds(dataBuf, RowsBytes(rows + [kv]))
  {
    dataBuf := dataBuf0 + PutU32(|kv.0|);
    dataBuf := dataBuf + kv.0;
    dataBuf := dataBuf + PutU32(|kv.1|);
    dataBuf := dataBuf + kv.1;
    AppendInFour(dataBuf0, PutU32(|kv.0|), kv.0, PutU32(|kv.1|), kv.1);
    RowAppended(dataBuf0, rows, kv, dataBuf);
  }

  /** The restarts of a closed block, the last one of the file or not. */
  lemma RestartsClosed(rows: seq<Row>)
    requires rows != []
    ensures RestartsSoFar(rows) == Restarts(rows, RestartCount(|rows|, true))
    ensures RestartCount(|rows|, false) == |rows| / 16 + 1
  {
  }

  method WriteBlock(entries: seq<Row>, start: nat) returns (dataBuf: ByteString, next: nat)
    requires start < |entries|
    ensures start < next <= |entries|
    ensures FilledGreedily(entries[start..next])
    ensures next < |entries| ==> !RowFits(entries[start..next], entries[next])
    ensures dataBuf == BlockBytes(entries[start..next], next == |entries|)
  {
    dataBuf := [0, 0, 0, 0, 0, 0, 0, 0];
    var restarts: seq<nat> := [8];
    var numEntries, i := 0, start;
    ghost var rows: seq<Row> := [];
    assert RestartsSoFar([]) == [8] && FilledGreedily([]);
    assert Holds(dataBuf, RowsBytes(rows));
    hide RestartsSoFar, Restarts, FilledGreedily, RowsBytes, RestartCount, Holds, RowOffset, RowFits, BlockBytes;
    while i < |entries|
      invariant i == start + numEntries <= |entries| && rows == entries[start..i] && numEntries == |rows|
      invariant Holds(dataBuf, RowsBytes(rows))
      invariant restarts == RestartsSoFar(rows)
      invariant FilledGreedily(rows)
    {
      var kv := entries[i];
      HoldsUpTo(dataBuf, rows);
      RestartPushed(rows);
      SliceGrows(entries, start, i);
      if numEntries > 0 && numEntries % 16 == 0 {
        restarts := restarts + [|dataBuf|];
      }
      FitsWhen(rows, kv, |dataBuf|, |restarts|);
      if numEntries > 0 && |dataBuf| + 8 + |kv.0| + |kv.1| + |restarts| * 4 > BLOCK_TARGET_BYTES {
        break;
      }
      dataBuf := AppendRow(dataBuf, rows, kv);
      RestartsKept(rows, kv);
      GreedyGrows(rows, kv);
      rows := rows + [kv];
      numEntries, i := numEntries + 1, i + 1;
    }
    next := i;
    RestartsClosed(rows);
    dataBuf := AppendTail(rows, next == |entries|, dataBuf, restarts, numEntries);
  }

  lemma WordAppended(buf: ByteString, rows: seq<Row>, words: seq<nat>, w: nat)
    requires Holds(buf, RowsBytes(rows) + WordsBytes(words))
    ensures Holds(buf + PutU32(w), RowsBytes(rows) + WordsBytes(words + [w]))
  {
    WordsBytesAppend(words, [w]);
    assert WordsBytes([w]) == PutU32(w) + WordsBytes([]);
    hide RowsBytes, WordsBytes, PutU32, Holds;
    HoldsMore(buf, RowsBytes(rows) + WordsBytes(words), PutU32(w));
    assert (RowsBytes(rows) + WordsBytes(words)) + PutU32(w) == RowsBytes(rows) + (WordsBytes(words) + PutU32(w));
  }

  /** Restart array, restart count, and the header patched into the first eight bytes. */
  method AppendTail(ghost rows: Block, ghost last: bool, dataBuf0: ByteString, restarts: seq<nat>,
      numEntries: nat)
    returns (dataBuf: ByteString)
    requires Holds(dataBuf0, RowsBytes(rows)) && numEntries == |rows|
    requires restarts == Restarts(rows, RestartCount(|rows|, last))
    ensures dataBuf == BlockBytes(rows, last)
  {
    dataBuf := dataBuf0;
    var j := 0;
    assert RowsBytes(rows) + WordsBytes([]) == RowsBytes(rows);
    while j < |restarts|
      invariant 0 <= j <= |restarts|
      invariant Holds(dataBuf, RowsBytes(rows) + WordsBytes(restarts[..j]))
    {
      WordAppended(dataBuf, rows, restarts[..j], restarts[j]);
      assert restarts[..j + 1] == restarts[..j] + [restarts[j]];
      dataBuf := dataBuf + PutU32(restarts[j]);
      j := j + 1;
    }
    assert restarts[..|restarts|] == restarts;
    WordAppended(dataBuf, rows, restarts, |restarts|);
    dataBuf := dataBuf + PutU32(|restarts|);
    var finalSize := |dataBuf|;
    BlockSizeIs(rows, last);
    ConcatAssociates(PutU32(numEntries), PutU32(finalSize), RowsBytes(rows), WordsBytes(Tail(rows, last)));
    dataBuf := PutU32(numEntries) + PutU32(finalSize) + dataBuf[8..];
  }

  lemma ConcatAssociates(a: ByteString, b: ByteString, c: ByteString, d: ByteString)
    ensures a + b + (c + d) == a + b + c + d
  {
  }

  lemma BlockSizeIs(rows: Block, last: bool)
    ensures BlockSize(rows, last) == 8 + |RowsBytes(rows)| + |WordsBytes(Tail(rows, last))|
  {
    FullOffset(rows);
  }

  // ----- Bloom filter loops -----

  method BloomHashCore(k: Key) returns (h: nat)
    ensures h == HashFrom(1469598103934665603, k)
  {
    h := 1469598103934665603;
    var i := 0;
    while i < |k|
      invariant 0 <= i <= |k|
      invariant HashFrom(h, k[i..]) == HashFrom(1469598103934665603, k)
    {
      assert k[i..][1..] == k[i + 1..];
      h := Xor(h, k[i]) * 1099511628211 % U64;
      i := i + 1;
    }
  }

  method ComputeBloomHash(k: Key, i: nat) returns (h: nat)
    ensures h == BloomHash(k, i)
  {
    var core := BloomHashCore(k);
    h := (core + i * 0x9e37_79b9_7f4a_7c15) % U64;
  }

  method BuildFilter(entries: seq<Row>) returns (bloom: ByteString)
    ensures bloom == Filter(entries)
  {
    var rawBits := if |entries| * 10 < 8 then 8 else |entries| * 10;
    var bloomBytes := (rawBits + 7) / 8;
    bloom := seq(bloomBytes, _ => 0);
    var i := 0;
    while i < |entries|
      invariant 0 <= i <= |entries| && |bloom| == FilterBytes(|entries|)
      invariant AddKeys(bloom, entries[i..]) == Filter(entries)
    {
      ghost var before := bloom;
      assert entries[i..][1..] == entries[i + 1..];
      var h := 0;
      while h < 7
        invariant 0 <= h <= 7 && |bloom| == FilterBytes(|entries|)
        invariant AddHashes(bloom, entries[i].0, h) == AddHashes(before, entries[i].0, 0)
      {
        var hash := ComputeBloomHash(entries[i].0, h);
        bloom := SetBit(bloom, hash % (8 * |bloom|));
        h := h + 1;
      }
      i := i + 1;
    }
  }

  // ----- the whole file -----

  lemma {:induction false} IndexBytesAppend(a: seq<IndexEntry>, e: IndexEntry)
    ensures IndexBytes(a + [e]) == IndexBytes(a) + IndexEntryBytes(e)
  {
    if a == [] {
      assert IndexBytes([e]) == IndexEntryBytes(e) + IndexBytes([]);
    } else {
      assert (a + [e])[1..] == a[1..] + [e];
      IndexBytesAppend(a[1..], e);
    }
  }

  method BuildIndex(index: seq<IndexEntry>) returns (buf: ByteString)
    ensures buf == IndexRegion(index)
  {
    buf := PutU32(|index|);
    ghost var head := buf;
    var i := 0;
    while i < |index|
      invariant 0 <= i <= |index|
      invariant buf == head + IndexBytes(index[..i])
    {
      var e := index[i];
      ghost var before := buf;
      buf := buf + PutU32(|e.0|);
      buf := buf + e.0;
      buf := buf + PutU64(e.1);
      AppendInFour(before, PutU32(|e.0|), e.0, PutU64(e.1), []);
      assert buf == before + IndexEntryBytes(e);
      IndexBytesAppend(index[..i], e);
      assert index[..i + 1] == index[..i] + [e];
      i := i + 1;
    }
    assert index[..|index|] == index;
  }

  /** The index entries pushed while the data region is still open. */
  ghost function OpenIndex(blocks: seq<Block>): seq<IndexEntry> {
    seq(|blocks|, b requires 0 <= b < |blocks| => (blocks[b][0].0, |OpenBytes(blocks[..b])|))
  }

  lemma OpenIndexIsIndex(blocks: seq<Block>)
    ensures OpenIndex(blocks) == IndexOf(blocks)
  {
    forall b | 0 <= b < |blocks| ensures OpenIndex(blocks)[b] == IndexOf(blocks)[b] {
      OffsetIsOpenLength(blocks, b);
    }
  }

  lemma OpenIndexGrows(blocks: seq<Block>, rows: Block)
    ensures OpenIndex(blocks + [rows]) == OpenIndex(blocks) + [(rows[0].0, |OpenBytes(blocks)|)]
  {
    forall b | 0 <= b <= |blocks|
      ensures OpenIndex(blocks + [rows])[b] == (OpenIndex(blocks) + [(rows[0].0, |OpenBytes(blocks)|)])[b]
    {
      assert (blocks + [rows])[..b] == blocks[..b];
      assert blocks[..|blocks|] == blocks;
    }
  }

  /** What the blocks written so far have in common with a finished split. */
  ghost predicate SplitSoFar(blocks: seq<Block>, entries: seq<Row>, i: nat) {
    && i <= |entries|
    && Flatten(blocks) == entries[..i]
    && (forall b :: 0 <= b < |blocks| ==> FilledGreedily(blocks[b]))
    && (forall b :: 0 <= b < |blocks| - 1 ==> !RowFits(blocks[b], blocks[b + 1][0]))
    && (blocks != [] && i < |entries| ==> !RowFits(blocks[|blocks| - 1], entries[i]))
  }

  lemma SplitGrows(blocks: seq<Block>, entries: seq<Row>, i: nat, next: nat)
    requires SplitSoFar(blocks, entries, i) && i < next <= |entries|
    requires FilledGreedily(entries[i..next])
    requires next < |entries| ==> !RowFits(entries[i..next], entries[next])
    ensures SplitSoFar(blocks + [entries[i..next]], entries, next)
  {
    var rows: Block := entries[i..next];
    FlattenAppend(blocks, [rows]);
    assert Flatten([rows]) == rows + Flatten([]);
    assert entries[..next] == entries[..i] + rows;
  }

  // ----- the split into blocks is a function of the rows -----

  lemma RowsInFirstBlockFit(a: seq<Block>, entries: seq<Row>, n: nat)
    requires IsSplit(a, entries) && a != [] && 0 < n < |a[0]|
    ensures n < |entries| && RowFits(entries[..n], entries[n])
  {
    assert RowFits(a[0][..n], a[0][n]);
    assert a[0][..n] == entries[..n];
  }

  lemma RowAfterFirstBlockDoesNot(a: seq<Block>, entries: seq<Row>)
    requires IsSplit(a, entries) && a != []
    ensures var n := |a[0]|; n < |entries| ==> !RowFits(entries[..n], entries[n])
  {
    var n := |a[0]|;
    assert a[0] == entries[..n];
    if |a| == 1 {
      assert Flatten(a[1..]) == [];
    } else {
      assert a[1..][0] == a[1];
      assert Flatten(a[1..])[0] == entries[n];
    }
  }

  lemma FirstBlockNoLonger(a: seq<Block>, b: seq<Block>, entries: seq<Row>)
    requires IsSplit(a, entries) && IsSplit(b, entries) && a != [] && b != []
    ensures |b[0]| <= |a[0]|
  {
    RowAfterFirstBlockDoesNot(a, entries);
    if |a[0]| < |b[0]| {
      RowsInFirstBlockFit(b, entries, |a[0]|);
    }
  }

  lemma RestOfSplit(a: seq<Block>, entries: seq<Row>)
    requires IsSplit(a, entries) && a != []
    ensures IsSplit(a[1..], entries[|a[0]|..])
  {
    forall b | 0 <= b < |a[1..]| - 1 ensures !RowFits(a[1..][b], a[1..][b + 1][0]) {
      assert a[1..][b] == a[b + 1] && a[1..][b + 1] == a[b + 2];
    }
  }

  lemma {:induction false} SplitIsUnique(a: seq<Block>, b: seq<Block>, entries: seq<Row>)
    requires IsSplit(a, entries) && IsSplit(b, entries)
    ensures a == b
    decreases a
  {
    if a != [] && b != [] {
      FirstBlockNoLonger(a, b, entries);
      FirstBlockNoLonger(b, a, entries);
      assert a[0] == entries[..|a[0]|] == b[0];
      RestOfSplit(a, entries);
      RestOfSplit(b, entries);
      SplitIsUnique(a[1..], b[1..], entries[|a[0]|..]);
      assert a == [a[0]] + a[1..] && b == [b[0]] + b[1..];
    }
  }

  /** The data region and the sparse index, block by block. */
  method WriteBlocks(entries: seq<Row>)
    returns (data: ByteString, indexEntries: seq<IndexEntry>, ghost blocks: seq<Block>)
    ensures IsSplit(blocks, entries)
    ensures forall split :: IsSplit(split, entries) ==> data == BlocksBytes(split) && indexEntries == IndexOf(split)
  {
    data, indexEntries, blocks := [], [], [];
    var i := 0;
    while i < |entries|
      invariant SplitSoFar(blocks, entries, i)
      invariant indexEntries == OpenIndex(blocks)
      invariant i < |entries| ==> data == OpenBytes(blocks)
      invariant i == |entries| ==> data == BlocksBytes(blocks)
    {
      var minKey, blockStart := entries[i].0, |data|;
      var dataBuf, next := WriteBlock(entries, i);
      ghost var rows: Block := entries[i..next];
      SplitGrows(blocks, entries, i, next);
      OpenIndexGrows(blocks, rows);
      if next < |entries| {
        OpenBytesAppend(blocks, rows);
      } else {
        ClosedBytes(blocks, rows);
      }
      data := data + dataBuf;
      indexEntries := indexEntries + [(minKey, blockStart)];
      blocks := blocks + [rows];
      i := next;
    }
    assert entries[..|entries|] == entries;
    OpenIndexIsIndex(blocks);
    OnlySplit(blocks, entries);
  }

  lemma OnlySplit(blocks: seq<Block>, entries: seq<Row>)
    requires IsSplit(blocks, entries)
    ensures forall split :: IsSplit(split, entries) ==> split == blocks
  {
    forall split | IsSplit(split, entries) ensures split == blocks {
      SplitIsUnique(split, blocks, entries);
    }
  }

  /** The file is the format function of the one way to split the rows. */
  method Create(entries: seq<Row>) returns (file: ByteString, ghost blocks: seq<Block>)
    ensures IsSplit(blocks, entries)
    ensures forall split :: IsSplit(split, entries) ==> file == TableBytes(split)
  {
    var data, indexEntries;
    data, indexEntries, blocks := WriteBlocks(entries);
    var bloom := BuildFilter(entries);
    var indexBuf := BuildIndex(indexEntries);
    file := WriteRegions(data, bloom, indexBuf);
    OnlySplit(blocks, entries);
  }

  method WriteRegions(data: ByteString, bloom: ByteString, indexBuf: ByteString) returns (file: ByteString)
    ensures file == Assemble(data, bloom, indexBuf)
  {
    file := data;
    var bloomOffset := |file|;
    file := file + bloom;
    var indexOffset := |file|;
    file := file + indexBuf;
    file := file + (PutU64(bloomOffset) + PutU64(bloomOffset) + PutU64(indexOffset) + PutU64(MAGIC));
  }
}
