/** Opening a table and reading it back: pointer-advancing loops over the bytes. */
module SSTableReader {
  import opened Bytes
  import opened SSTableFormat
  import opened SSTableReads

  // ----- where things are in an encoded block -----

  lemma FourParts(a: ByteString, b: ByteString, c: ByteString, d: ByteString)
    ensures var s := a + b + c + d;
      && s[..|a|] == a
      && s[|a|..|a| + |b|] == b
      && s[|a| + |b|..|a| + |b| + |c|] == c
      && s[|a| + |b| + |c|..] == d
  {
  }

  lemma SliceOfSlice(s: ByteString, lo: nat, hi: nat, from: nat, to: nat)
    requires lo <= hi <= |s| && from <= to <= hi - lo
    ensures s[lo..hi][from..to] == s[lo + from..lo + to]
  {
    var mid := s[lo..hi];
    assert forall i :: 0 <= i < to - from ==> mid[from..to][i] == mid[from + i] == s[lo + from + i];
  }

  function TableStart(rows: Block): nat {
    RowOffset(rows, |rows|)
  }

  lemma BlockParts(rows: Block, last: bool)
    requires BlockSize(rows, last) < U32
    ensures var blk := BlockBytes(rows, last);
      && TableStart(rows) + |WordsBytes(Tail(rows, last))| == |blk|
      && GetU32(blk[4..8]) == |blk|
      && blk[8..TableStart(rows)] == RowsBytes(rows)
      && blk[TableStart(rows)..] == WordsBytes(Tail(rows, last))
  {
    var a, b, c, d := PutU32(|rows|), PutU32(BlockSize(rows, last)), RowsBytes(rows), WordsBytes(Tail(rows, last));
    FullOffset(rows);
    U32RoundTrip(BlockSize(rows, last));
    assert BlockBytes(rows, last) == a + b + c + d && |a| == 4 && |b| == 4;
    FourParts(a, b, c, d);
  }

  lemma MiddleSlice(s: ByteString, a: ByteString, b: ByteString, c: ByteString)
    requires s == a + b + c
    ensures |a| + |b| <= |s| && s[|a|..|a| + |b|] == b
  {
  }

  lemma RowsBytesSplit(rows: seq<Row>, i: nat)
    requires i <= |rows|
    ensures RowsBytes(rows) == RowsBytes(rows[..i]) + RowsBytes(rows[i..])
  {
    hide RowsBytes;
    assert rows[..i] + rows[i..] == rows;
    RowsBytesAppend(rows[..i], rows[i..]);
  }

  lemma RowSlice(rows: seq<Row>, i: nat)
    requires i < |rows|
    ensures var lo := RowOffset(rows, i) - 8; var hi := lo + |RowBytes(rows[i])|;
      && RowOffset(rows, i + 1) == 8 + hi
      && hi <= |RowsBytes(rows)|
      && RowsBytes(rows)[lo..hi] == RowBytes(rows[i])
  {
    NextRowOffset(rows, i);
    RowsBytesSplit(rows, i + 1);
    MiddleSlice(RowsBytes(rows), RowsBytes(rows[..i]), RowBytes(rows[i]), RowsBytes(rows[i + 1..]));
  }

  lemma RowParts(r: Row)
    requires |r.0| < U32 && |r.1| < U32
    ensures var s, k := RowBytes(r), |r.0|;
      && GetU32(s[0..4]) == k
      && s[4..4 + k] == r.0
      && GetU32(s[4 + k..8 + k]) == |r.1|
      && s[8 + k..8 + k + |r.1|] == r.1
  {
    FourParts(PutU32(|r.0|), r.0, PutU32(|r.1|), r.1);
    U32RoundTrip(|r.0|);
    U32RoundTrip(|r.1|);
  }

  /** What the pointer arithmetic of the readers finds at a row. */
  ghost predicate DecodesRow(blk: ByteString, off: nat, r: Row) {
    var k, v := |r.0|, |r.1|;
    && off + 8 + k + v <= |blk|
    && GetU32(blk[off..off + 4]) == k
    && blk[off + 4..off + 4 + k] == r.0
    && GetU32(blk[off + 4 + k..off + 8 + k]) == v
    && blk[off + 8 + k..off + 8 + k + v] == r.1
  }

  lemma SliceDecodes(blk: ByteString, off: nat, r: Row)
    requires |r.0| < U32 && |r.1| < U32 && off + |RowBytes(r)| <= |blk|
    requires blk[off..off + |RowBytes(r)|] == RowBytes(r)
    ensures DecodesRow(blk, off, r)
  {
    var n, k := |RowBytes(r)|, |r.0|;
    RowParts(r);
    SliceOfSlice(blk, off, off + n, 0, 4);
    SliceOfSlice(blk, off, off + n, 4, 4 + k);
    SliceOfSlice(blk, off, off + n, 4 + k, 8 + k);
    SliceOfSlice(blk, off, off + n, 8 + k, n);
  }

  lemma RowAt(rows: Block, last: bool, i: nat)
    requires i < |rows| && BlockSize(rows, last) < U32
    ensures var off := RowOffset(rows, i);
      && DecodesRow(BlockBytes(rows, last), off, rows[i])
      && RowOffset(rows, i + 1) == off + 8 + |rows[i].0| + |rows[i].1| <= TableStart(rows)
  {
    var blk, off := BlockBytes(rows, last), RowOffset(rows, i);
    BlockParts(rows, last);
    RowSlice(rows, i);
    FullOffset(rows);
    SliceOfSlice(blk, 8, TableStart(rows), off - 8, off - 8 + |RowBytes(rows[i])|);
    SliceDecodes(blk, off, rows[i]);
  }

  lemma WordBytesOfBlock(rows: Block, last: bool, j: nat)
    requires BlockSize(rows, last) < U32 && j <= RestartCount(|rows|, last)
    ensures var at := TableStart(rows) + 4 * j;
      && at + 4 <= |BlockBytes(rows, last)|
      && BlockBytes(rows, last)[at..at + 4] == PutU32(Tail(rows, last)[j])
  {
    var blk, t := BlockBytes(rows, last), TableStart(rows);
    BlockParts(rows, last);
    WordAt(Tail(rows, last), j);
    SliceOfSlice(blk, t, |blk|, 4 * j, 4 * j + 4);
    assert blk[t..|blk|] == blk[t..];
  }

  /** Word `j` of the restart array, the last word being the count. */
  lemma WordOfBlock(rows: Block, last: bool, j: nat)
    requires BlockSize(rows, last) < U32 && j <= RestartCount(|rows|, last)
    ensures var at := TableStart(rows) + 4 * j;
      && at + 4 <= |BlockBytes(rows, last)|
      && GetU32(BlockBytes(rows, last)[at..at + 4]) == Tail(rows, last)[j]
  {
    WordBytesOfBlock(rows, last, j);
    TailFits(rows, last, j);
    U32RoundTrip(Tail(rows, last)[j]);
  }

  lemma TailFits(rows: Block, last: bool, j: nat)
    requires BlockSize(rows, last) < U32 && j <= RestartCount(|rows|, last)
    ensures Tail(rows, last)[j] < U32
  {
    if j < RestartCount(|rows|, last) && 16 * j < |rows| {
      RowOffsetsGrow(rows, 16 * j, |rows|);
    }
  }

  /** What the binary searches find at a restart offset. */
  ghost predicate DecodesKey(blk: ByteString, off: nat, key: Key) {
    && off + 4 + |key| <= |blk|
    && GetU32(blk[off..off + 4]) == |key|
    && blk[off + 4..off + 4 + |key|] == key
  }

  /** The key the binary search reads at restart `j`, whether or not it dangles. */
  lemma RestartKeyAt(rows: Block, last: bool, j: nat)
    requires BlockSize(rows, last) < U32 && j < RestartCount(|rows|, last)
    ensures DecodesKey(BlockBytes(rows, last), RowOffset(rows, 16 * j), RestartKeys(rows, last)[j])
  {
    if 16 * j < |rows| {
      RowAt(rows, last, 16 * j);
      hide BlockBytes, RowOffset, TableStart, GhostKey, BlockSize;
    } else {
      DanglesAt(rows, last, j);
      GhostKeyAt(rows, last);
      hide BlockBytes, RowOffset, TableStart, GhostKey, BlockSize, Dangling, DecodesKey;
    }
  }

  /** A restart past the rows is the one that dangles, and it points at the restart table. */
  lemma DanglesAt(rows: Block, last: bool, j: nat)
    requires j < RestartCount(|rows|, last) && 16 * j >= |rows|
    ensures Dangling(rows, last) && RowOffset(rows, 16 * j) == TableStart(rows)
  {
  }

  lemma GhostKeyAt(rows: Block, last: bool)
    requires BlockSize(rows, last) < U32 && Dangling(rows, last)
    ensures DecodesKey(BlockBytes(rows, last), TableStart(rows), GhostKey(rows, last))
  {
    var blk, t := BlockBytes(rows, last), TableStart(rows);
    DanglingIsInner(rows, last);
    WordOfBlock(rows, last, 0);
    WordBytesOfBlock(rows, last, 1);
    WordBytesOfBlock(rows, last, 2);
    assert Tail(rows, last)[0] == RowOffset(rows, 0) == 8;
    hide BlockBytes, RowOffset, TableStart, BlockSize, PutU32, GetU32, RowsBytes, Tail, RestartCount;
    assert blk[t + 4..t + 12] == blk[t + 4..t + 8] + blk[t + 8..t + 12];
  }

  // ----- where things are in the file -----

  ghost predicate HasRegions(file: ByteString, data: ByteString, filter: ByteString, index: ByteString) {
    var d, f := |data|, |filter|;
    && |file| == d + f + |index| + FOOTER_SIZE
    && file[0..d] == data
    && file[d..d + f] == filter
    && file[d + f..|file| - FOOTER_SIZE] == index
    && file[|file| - FOOTER_SIZE..] == FooterBytes(d, d, d + f)
  }

  lemma AssembleParts(data: ByteString, filter: ByteString, index: ByteString)
    ensures HasRegions(Assemble(data, filter, index), data, filter, index)
  {
    FourParts(data, filter, index, FooterBytes(|data|, |data|, |data| + |filter|));
  }

  lemma TableParts(blocks: seq<Block>)
    ensures HasRegions(TableBytes(blocks), BlocksBytes(blocks), Filter(Flatten(blocks)), IndexRegion(IndexOf(blocks)))
  {
    AssembleParts(BlocksBytes(blocks), Filter(Flatten(blocks)), IndexRegion(IndexOf(blocks)));
  }

  lemma FooterParts(a: nat, b: nat, c: nat)
    requires a < U64 && b < U64 && c < U64
    ensures var s := FooterBytes(a, b, c);
      GetU64(s[0..8]) == a && GetU64(s[8..16]) == b && GetU64(s[16..24]) == c && GetU64(s[24..32]) == MAGIC
  {
    FourParts(PutU64(a), PutU64(b), PutU64(c), PutU64(MAGIC));
    U64RoundTrip(a);
    U64RoundTrip(b);
    U64RoundTrip(c);
    U64RoundTrip(MAGIC);
    assert FooterBytes(a, b, c)[24..32] == FooterBytes(a, b, c)[24..];
  }

  lemma BlockInFile(blocks: seq<Block>, b: nat, file: ByteString, data: ByteString)
    requires b < |blocks| && data == BlocksBytes(blocks)
    requires |data| <= |file| && file[0..|data|] == data
    ensures var off, size := BlockOffset(blocks, b), BlockSize(blocks[b], IsLast(blocks, b));
      && off + size <= |data|
      && file[off..off + size] == BlockBytes(blocks[b], IsLast(blocks, b))
  {
    hide BlockBytes, BlocksBytes;
    BlocksTile(blocks, b);
    PartOfRegion(file, data, BlockOffset(blocks, b), BlockBytes(blocks[b], IsLast(blocks, b)));
  }

  lemma PartOfRegion(file: ByteString, data: ByteString, off: nat, part: ByteString)
    requires |data| <= |file| && file[0..|data|] == data
    requires off + |part| <= |data| && data[off..off + |part|] == part
    ensures file[off..off + |part|] == part
  {
    SliceOfSlice(file, 0, |data|, off, off + |part|);
  }

  function IndexAt(index: seq<IndexEntry>, i: nat): nat
    requires i <= |index|
  {
    4 + |IndexBytes(index[..i])|
  }

  lemma {:induction false} IndexBytesSplit(index: seq<IndexEntry>, i: nat)
    requires i < |index|
    ensures IndexBytes(index) == IndexBytes(index[..i]) + IndexEntryBytes(index[i]) + IndexBytes(index[i + 1..])
    ensures IndexAt(index, i + 1) == IndexAt(index, i) + |index[i].0| + 12
  {
    if i == 0 {
      assert index[..1][1..] == [];
      assert IndexBytes(index[..1]) == IndexEntryBytes(index[0]) + IndexBytes([]);
    } else {
      IndexBytesSplit(index[1..], i - 1);
      assert index[..i][1..] == index[1..][..i - 1];
      assert index[..i + 1][1..] == index[1..][..i];
      assert index[1..][i..] == index[i + 1..];
    }
  }

  ghost predicate DecodesIndexEntry(region: ByteString, p: nat, e: IndexEntry) {
    var k := |e.0|;
    && p + 12 + k <= |region|
    && GetU32(region[p..p + 4]) == k
    && region[p + 4..p + 4 + k] == e.0
    && GetU64(region[p + 4 + k..p + 12 + k]) == e.1
  }

  predicate IndexEntryFits(e: IndexEntry) {
    |e.0| < U32 && e.1 < U64
  }

  lemma IndexEntryParts(e: IndexEntry)
    requires IndexEntryFits(e)
    ensures DecodesIndexEntry(IndexEntryBytes(e), 0, e)
  {
    FourParts(PutU32(|e.0|), e.0, PutU64(e.1), []);
    assert IndexEntryBytes(e) + [] == IndexEntryBytes(e);
    U32RoundTrip(|e.0|);
    U64RoundTrip(e.1);
  }

  lemma IndexEntryAt(index: seq<IndexEntry>, i: nat)
    requires i < |index| && IndexEntryFits(index[i])
    ensures DecodesIndexEntry(IndexRegion(index), IndexAt(index, i), index[i])
  {
    var region, p, e := IndexRegion(index), IndexAt(index, i), index[i];
    var n := |IndexEntryBytes(e)|;
    IndexBytesSplit(index, i);
    IndexEntryParts(e);
    RegionSlice(PutU32(|index|), IndexBytes(index[..i]), IndexEntryBytes(e), IndexBytes(index[i + 1..]));
    assert region[p..p + n] == IndexEntryBytes(e);
    hide IndexRegion, IndexEntryBytes, IndexBytes;
    EntryOfSlice(region, p, e);
  }

  lemma EntryOfSlice(region: ByteString, p: nat, e: IndexEntry)
    requires p + 12 + |e.0| <= |region| && DecodesIndexEntry(region[p..p + 12 + |e.0|], 0, e)
    ensures DecodesIndexEntry(region, p, e)
  {
    var k := |e.0|;
    SliceOfSlice(region, p, p + 12 + k, 0, 4);
    SliceOfSlice(region, p, p + 12 + k, 4, 4 + k);
    SliceOfSlice(region, p, p + 12 + k, 4 + k, 12 + k);
    hide GetU32, GetU64;
  }

  lemma RegionSlice(a: ByteString, b: ByteString, c: ByteString, d: ByteString)
    ensures (a + (b + c + d))[|a| + |b|..|a| + |b| + |c|] == c
  {
  }

  lemma IndexFits(blocks: seq<Block>, b: nat)
    requires b < |blocks| && Representable(blocks)
    ensures IndexEntryFits(IndexOf(blocks)[b])
  {
    BlocksTile(blocks, b);
    TableParts(blocks);
    RowAt(blocks[b], IsLast(blocks, b), 0);
  }

  lemma FilterBytesBound(blocks: seq<Block>)
    requires Representable(blocks)
    ensures |BlocksBytes(blocks)| + |Filter(Flatten(blocks))| < U64
    ensures 0 < |Filter(Flatten(blocks))|
  {
    TableParts(blocks);
  }

  // ----- loops over bytes -----

  ghost predicate RowDecodes(blk: ByteString, rows: Block, i: nat)
    requires i < |rows|
  {
    && DecodesRow(blk, RowOffset(rows, i), rows[i])
    && RowOffset(rows, i + 1) == RowOffset(rows, i) + 8 + |rows[i].0| + |rows[i].1|
    && RowOffset(rows, i) < TableStart(rows)
  }

  ghost predicate WordIs(blk: ByteString, at: nat, w: nat) {
    at + 4 <= |blk| && GetU32(blk[at..at + 4]) == w
  }

  ghost predicate RestartDecodes(blk: ByteString, rows: Block, last: bool, j: nat)
    requires j < RestartCount(|rows|, last)
  {
    && WordIs(blk, TableStart(rows) + j * 4, RowOffset(rows, 16 * j))
    && DecodesKey(blk, RowOffset(rows, 16 * j), RestartKeys(rows, last)[j])
  }

  /** Everything the readers rely on about the bytes of a block. */
  ghost predicate Encodes(blk: ByteString, rows: Block, last: bool) {
    && |blk| == BlockSize(rows, last)
    && (forall i :: 0 <= i < |rows| ==> RowDecodes(blk, rows, i))
    && (forall j :: 0 <= j < RestartCount(|rows|, last) ==> RestartDecodes(blk, rows, last, j))
    && WordIs(blk, |blk| - 4, RestartCount(|rows|, last))
  }

  lemma RowDecodesAt(rows: Block, last: bool, i: nat)
    requires i < |rows| && BlockSize(rows, last) < U32
    ensures RowDecodes(BlockBytes(rows, last), rows, i)
  {
    RowAt(rows, last, i);
    RowOffsetsGrow(rows, i, |rows|);
  }

  lemma TailIsRestart(rows: Block, last: bool, j: nat)
    requires j < RestartCount(|rows|, last)
    ensures Tail(rows, last)[j] == RowOffset(rows, 16 * j)
  {
  }

  lemma RestartDecodesAt(rows: Block, last: bool, j: nat)
    requires j < RestartCount(|rows|, last) && BlockSize(rows, last) < U32
    ensures RestartDecodes(BlockBytes(rows, last), rows, last, j)
  {
    WordOfBlock(rows, last, j);
    RestartKeyAt(rows, last, j);
    TailIsRestart(rows, last, j);
    hide BlockBytes, RowOffset, TableStart, RestartKeys, DecodesKey, Tail, GetU32;
  }

  lemma CountAt(rows: Block, last: bool)
    requires BlockSize(rows, last) < U32
    ensures WordIs(BlockBytes(rows, last), |BlockBytes(rows, last)| - 4, RestartCount(|rows|, last))
  {
    WordOfBlock(rows, last, RestartCount(|rows|, last));
  }

  lemma BlockEncodes(rows: Block, last: bool, blk: ByteString)
    requires BlockSize(rows, last) < U32 && blk == BlockBytes(rows, last)
    ensures Encodes(blk, rows, last)
  {
    forall i | 0 <= i < |rows| ensures RowDecodes(blk, rows, i) {
      RowDecodesAt(rows, last, i);
    }
    forall j | 0 <= j < RestartCount(|rows|, last) ensures RestartDecodes(blk, rows, last, j) {
      RestartDecodesAt(rows, last, j);
    }
    CountAt(rows, last);
  }

  method ReadWord(blk: ByteString, at: nat, ghost w: nat) returns (r: nat)
    requires WordIs(blk, at, w)
    ensures r == w
  {
    r := GetU32(blk[at..at + 4]);
  }

  method ReadKey(blk: ByteString, off: nat, ghost key: Key) returns (k: Key)
    requires DecodesKey(blk, off, key)
    ensures k == key
  {
    var klen := GetU32(blk[off..off + 4]);
    k := blk[off + 4..off + 4 + klen];
  }

  method ReadRow(blk: ByteString, from: nat, ghost row: Row) returns (k: Key, v: ByteString, next: nat)
    requires DecodesRow(blk, from, row)
    ensures (k, v) == row && next == from + 8 + |row.0| + |row.1|
  {
    var ptr := from;
    var klen := GetU32(blk[ptr..ptr + 4]);
    ptr := ptr + 4;
    k := blk[ptr..ptr + klen];
    ptr := ptr + klen;
    var vlen := GetU32(blk[ptr..ptr + 4]);
    ptr := ptr + 4;
    v := blk[ptr..ptr + vlen];
    next := ptr + vlen;
  }

  /** Restart `j` of the array at `restarts` holds this offset, and this key is found there. */
  ghost predicate RestartLeads(blk: ByteString, restarts: nat, j: nat, off: nat, key: Key) {
    WordIs(blk, restarts + j * 4, off) && DecodesKey(blk, off, key)
  }

  ghost predicate LeadsTo(blk: ByteString, restarts: nat, offs: seq<nat>, keys: seq<Key>) {
    |offs| == |keys| && forall j :: 0 <= j < |keys| ==> RestartLeads(blk, restarts, j, offs[j], keys[j])
  }

  function RestartOffsets(rows: Block, last: bool): (s: seq<nat>)
    ensures |s| == RestartCount(|rows|, last)
  {
    Restarts(rows, RestartCount(|rows|, last))
  }

  /** What the readers know about the restart array. */
  ghost predicate TailReadable(blk: ByteString, rows: Block, last: bool) {
    var m := RestartCount(|rows|, last);
    && |blk| == TableStart(rows) + m * 4 + 4
    && WordIs(blk, |blk| - 4, m)
    && LeadsTo(blk, TableStart(rows), RestartOffsets(rows, last), RestartKeys(rows, last))
  }

  lemma EncodesTail(blk: ByteString, rows: Block, last: bool)
    requires Encodes(blk, rows, last)
    ensures TailReadable(blk, rows, last)
  {
    var offs, keys := RestartOffsets(rows, last), RestartKeys(rows, last);
    forall j | 0 <= j < |keys| ensures RestartLeads(blk, TableStart(rows), j, offs[j], keys[j]) {
      assert RestartDecodes(blk, rows, last, j);
    }
  }

  method ReadRestartKey(blk: ByteString, restarts: nat, j: nat, ghost off: nat, ghost key: Key) returns (k: Key)
    requires RestartLeads(blk, restarts, j, off, key)
    ensures k == key
  {
    var at := ReadWord(blk, restarts + j * 4, off);
    k := ReadKey(blk, at, key);
  }

  /** The search both readers make over the restart array of an encoded block. */
  lemma ProbeStep(keys: seq<Key>, key: Key, left: nat, right: nat)
    requires left < right <= |keys|
    ensures var mid := (left + right) / 2;
      && left <= mid < right
      && Probe(keys, key, left, right) ==
           if Less(keys[mid], key) then Probe(keys, key, mid + 1, right) else Probe(keys, key, left, mid)
  {
    hide Less;
  }

  method SearchRestarts(blk: ByteString, restarts: nat, num: nat, key: Key, ghost offs: seq<nat>, ghost keys: seq<Key>)
    returns (left: nat)
    requires LeadsTo(blk, restarts, offs, keys) && num == |keys|
    ensures left == Probe(keys, key, 0, num)
  {
    hide Probe, RestartLeads, Less;
    left := 0;
    var right := num;
    while left < right
      invariant left <= right <= num
      invariant Probe(keys, key, left, right) == Probe(keys, key, 0, num)
      decreases right - left
    {
      var mid := (left + right) / 2;
      ProbeStep(keys, key, left, right);
      assert RestartLeads(blk, restarts, mid, offs[mid], keys[mid]);
      var midKey := ReadRestartKey(blk, restarts, mid, offs[mid], keys[mid]);
      if Less(midKey, key) {
        left := mid + 1;
      } else {
        right := mid;
      }
    }
  }

  lemma StartOffsetIs(rows: Block, last: bool, key: Key)
    ensures |RestartKeys(rows, last)| > 0
    ensures var left := Probe(RestartKeys(rows, last), key, 0, |RestartKeys(rows, last)|);
      RowOffset(rows, StartRow(rows, last, key)) == RestartOffsets(rows, last)[if left > 0 then left - 1 else 0]
  {
    DanglingIsInner(rows, last);
  }

  /** The row offset both readers start decoding at. */
  method FindStart(ghost rows: Block, ghost last: bool, blk: ByteString, key: Key) returns (from: nat, limit: nat)
    requires TailReadable(blk, rows, last)
    ensures from == RowOffset(rows, StartRow(rows, last, key)) && limit == TableStart(rows)
  {
    StartOffsetIs(rows, last, key);
    from, limit := StartByTable(blk, key, TableStart(rows), RestartOffsets(rows, last), RestartKeys(rows, last));
  }

  method StartByTable(blk: ByteString, key: Key, ghost table: nat, ghost offs: seq<nat>, ghost keys: seq<Key>)
    returns (from: nat, limit: nat)
    requires |keys| > 0 && LeadsTo(blk, table, offs, keys)
    requires |blk| == table + |keys| * 4 + 4 && WordIs(blk, |blk| - 4, |keys|)
    ensures limit == table
    ensures var left := Probe(keys, key, 0, |keys|); from == offs[if left > 0 then left - 1 else 0]
  {
    var num := ReadWord(blk, |blk| - 4, |keys|);
    limit := |blk| - 4 - num * 4;
    from := StartOffset(blk, limit, num, key, offs, keys);
  }

  lemma TableEntry(blk: ByteString, restarts: nat, offs: seq<nat>, keys: seq<Key>, j: nat)
    requires LeadsTo(blk, restarts, offs, keys) && j < |keys|
    ensures WordIs(blk, restarts + j * 4, offs[j])
  {
    assert RestartLeads(blk, restarts, j, offs[j], keys[j]);
  }

  method StartOffset(blk: ByteString, restarts: nat, num: nat, key: Key, ghost offs: seq<nat>, ghost keys: seq<Key>)
    returns (from: nat)
    requires LeadsTo(blk, restarts, offs, keys) && num == |keys| > 0
    ensures var left := Probe(keys, key, 0, num); from == offs[if left > 0 then left - 1 else 0]
  {
    var left := SearchRestarts(blk, restarts, num, key, offs, keys);
    var startIdx := if left > 0 then left - 1 else 0;
    TableEntry(blk, restarts, offs, keys, startIdx);
    from := ReadWord(blk, restarts + startIdx * 4, offs[startIdx]);
  }

  lemma AtEnd(rows: seq<Row>, i: nat)
    requires i <= |rows|
    ensures RowOffset(rows, i) >= RowOffset(rows, |rows|) <==> i == |rows|
  {
    if i < |rows| {
      RowOffsetsGrow(rows, i, |rows|);
    }
  }

  /** Decoding forward from a row until the key is found or passed. */
  method FindForward(ghost rows: Block, ghost last: bool, blk: ByteString, from: nat, limit: nat, key: Key, ghost i0: nat)
    returns (r: Option<ByteString>)
    requires Encodes(blk, rows, last)
    requires i0 <= |rows| && from == RowOffset(rows, i0) && limit == TableStart(rows)
    ensures r == FindFrom(rows, i0, key)
  {
    var ptr := from;
    ghost var i := i0;
    while ptr < limit
      invariant i0 <= i <= |rows| && ptr == RowOffset(rows, i)
      invariant FindFrom(rows, i, key) == FindFrom(rows, i0, key)
      decreases |rows| - i
    {
      assert RowDecodes(blk, rows, i);
      var entryKey, entryVal, next := ReadRow(blk, ptr, rows[i]);
      ptr := next;
      if entryKey == key { return Some(entryVal); }
      if Less(key, entryKey) { return None; }
      i := i + 1;
    }
    AtEnd(rows, i);
    return None;
  }

  /** Decoding forward from a row and collecting the keys in range. */
  method CollectForward(ghost rows: Block, ghost last: bool, blk: ByteString, from: nat, limit: nat,
      start: Key, end: Key, ghost i0: nat)
    returns (out: seq<Row>)
    requires Encodes(blk, rows, last)
    requires i0 <= |rows| && from == RowOffset(rows, i0) && limit == TableStart(rows)
    ensures out == ScanFrom(rows, i0, start, end)
  {
    out := [];
    var ptr := from;
    ghost var i := i0;
    while ptr < limit
      invariant i0 <= i <= |rows| && ptr == RowOffset(rows, i)
      invariant out + ScanFrom(rows, i, start, end) == ScanFrom(rows, i0, start, end)
      decreases |rows| - i
    {
      assert RowDecodes(blk, rows, i);
      var k, v, next := ReadRow(blk, ptr, rows[i]);
      ptr := next;
      if Less(end, k) { return; }
      if AtMost(start, k) {
        out := out + [(k, v)];
      }
      i := i + 1;
    }
    AtEnd(rows, i);
  }

  lemma HeaderInFile(file: ByteString, offset: nat, rows: Block, last: bool)
    requires BlockSize(rows, last) < U32 && offset + BlockSize(rows, last) <= |file|
    requires file[offset..offset + BlockSize(rows, last)] == BlockBytes(rows, last)
    ensures offset + 8 <= |file|
    ensures GetU32(file[offset..offset + 8][4..8]) == BlockSize(rows, last)
  {
    var size := BlockSize(rows, last);
    BlockParts(rows, last);
    SliceOfSlice(file, offset, offset + size, 4, 8);
    SliceOfSlice(file, offset, offset + 8, 4, 8);
  }

  class SSTable {
    const file: ByteString
    var dataEnd: nat
    var index: seq<IndexEntry>
    var bloomFilter: ByteString
    var minKey: Key  // the largest key is never filled in for an indexed file, so it prunes nothing
    ghost const blocks: seq<Block>

    ghost predicate Valid()
      reads this
    {
      && Sized(blocks)
      && dataEnd == |BlocksBytes(blocks)| <= |file|
      && file[0..dataEnd] == BlocksBytes(blocks)
      && index == IndexOf(blocks)
      && bloomFilter == Filter(Flatten(blocks))
      && minKey == if index == [] then [] else index[0].0
    }

    /** Opening a file the writer produced; `Open` below checks size and magic number first. */
    constructor (bytes: ByteString, ghost written: seq<Block>)
      requires Representable(written)
      requires HasRegions(bytes, BlocksBytes(written), Filter(Flatten(written)), IndexRegion(IndexOf(written)))
      ensures Valid() && file == bytes && blocks == written
    {
      FilterBytesBound(written);
      var d, f, region := ParseFooter(bytes, BlocksBytes(written), Filter(Flatten(written)), IndexRegion(IndexOf(written)));
      var index0 := ParseIndex(region, written);
      file := bytes;
      blocks := written;
      dataEnd := d;
      bloomFilter := f;
      index := index0;
      minKey := if index0 != [] then index0[0].0 else [];
    }

    static method ParseFooter(bytes: ByteString, ghost data: ByteString, ghost filter: ByteString, ghost index: ByteString)
      returns (dataEnd: nat, bloom: ByteString, region: ByteString)
      requires HasRegions(bytes, data, filter, index) && |data| + |filter| < U64
      ensures dataEnd == |data| <= |bytes| && bytes[0..dataEnd] == data && bloom == filter && region == index
    {
      var footer := bytes[|bytes| - FOOTER_SIZE..];
      FooterParts(|data|, |data|, |data| + |filter|);
      dataEnd := GetU64(footer[0..8]);
      var bloomOffset := GetU64(footer[8..16]);
      var indexOffset := GetU64(footer[16..24]);
      bloom := bytes[bloomOffset..indexOffset];
      region := bytes[indexOffset..|bytes| - FOOTER_SIZE];
    }

    static method ParseIndex(region: ByteString, ghost written: seq<Block>) returns (index: seq<IndexEntry>)
      requires Representable(written) && region == IndexRegion(IndexOf(written))
      ensures index == IndexOf(written)
    {
      ghost var whole := IndexOf(written);
      forall i | 0 <= i < |whole| ensures IndexEntryFits(whole[i]) {
        IndexFits(written, i);
      }
      index := ParseIndexEntries(region, whole);
    }

    static method ParseIndexEntries(region: ByteString, ghost whole: seq<IndexEntry>) returns (index: seq<IndexEntry>)
      requires |whole| < U32 && region == IndexRegion(whole)
      requires forall i :: 0 <= i < |whole| ==> IndexEntryFits(whole[i])
      ensures index == whole
    {
      IndexCount(whole);
      var blockCount := GetU32(region[0..4]);
      var p := 4;
      index := [];
      var i := 0;
      while i < blockCount
        invariant 0 <= i <= blockCount == |whole|
        invariant p == IndexAt(whole, i) && index == whole[..i]
      {
        assert IndexEntryFits(whole[i]);
        IndexEntryAt(whole, i);
        IndexBytesSplit(whole, i);
        var e, next := ReadIndexEntry(region, p, whole[i]);
        p := next;
        index := index + [e];
        i := i + 1;
      }
    }

    static lemma IndexCount(index: seq<IndexEntry>)
      requires |index| < U32
      ensures |IndexRegion(index)| >= 4 && GetU32(IndexRegion(index)[0..4]) == |index|
      ensures IndexAt(index, 0) == 4
    {
      U32RoundTrip(|index|);
      assert IndexRegion(index)[0..4] == PutU32(|index|);
    }

    static method ReadIndexEntry(region: ByteString, from: nat, ghost e: IndexEntry) returns (r: IndexEntry, next: nat)
      requires DecodesIndexEntry(region, from, e)
      ensures r == e && next == from + |e.0| + 12
    {
      var p := from;
      var keyLen := GetU32(region[p..p + 4]);
      p := p + 4;
      var minKey := region[p..p + keyLen];
      p := p + keyLen;
      var off := GetU64(region[p..p + 8]);
      p := p + 8;
      return (minKey, off), p;
    }

    method CheckBloom(key: Key) returns (b: bool)
      requires Valid()
      ensures b == MayContain(Filter(Flatten(blocks)), key)
    {
      b := TestHashes(bloomFilter, key);
    }

    static method TestHashes(filter: ByteString, key: Key) returns (b: bool)
      ensures b == MayContain(filter, key)
    {
      if filter == [] { return true; }
      var i := 0;
      while i < 7
        invariant 0 <= i <= 7
        invariant forall h :: 0 <= h < i ==> HashIsSet(filter, key, h)
      {
        var isSet := TestHash(filter, key, i);
        if !isSet { return false; }
        i := i + 1;
      }
      return true;
    }

    static method TestHash(filter: ByteString, key: Key, h: nat) returns (b: bool)
      requires filter != []
      ensures b == HashIsSet(filter, key, h)
    {
      var bit := HashBit(|filter|, key, h);
      b := TestBit(filter[bit / 8], bit % 8);
    }

    /** The two header reads both block readers start with. */
    method LoadBlock(offset: nat, ghost b: nat) returns (blk: ByteString)
      requires Valid() && b < |blocks| && offset == BlockOffset(blocks, b)
      ensures Encodes(blk, blocks[b], IsLast(blocks, b))
    {
      BlockInFile(blocks, b, file, BlocksBytes(blocks));
      blk := CutBlock(offset, blocks[b], IsLast(blocks, b));
      BlockEncodes(blocks[b], IsLast(blocks, b), blk);
    }

    method CutBlock(offset: nat, ghost rows: Block, ghost last: bool) returns (blk: ByteString)
      requires BlockSize(rows, last) < U32 && offset + BlockSize(rows, last) <= |file|
      requires file[offset..offset + BlockSize(rows, last)] == BlockBytes(rows, last)
      ensures blk == BlockBytes(rows, last)
    {
      HeaderInFile(file, offset, rows, last);
      var header := file[offset..offset + 8];
      var blockSize := GetU32(header[4..8]);
      blk := file[offset..offset + blockSize];
    }

    method FindInBlock(offset: nat, key: Key, ghost b: nat) returns (r: Option<ByteString>)
      requires Valid()
      requires if blocks == [] then offset == 0 else b < |blocks| && offset == BlockOffset(blocks, b)
      ensures r == if blocks == [] then None else BlockGet(blocks[b], IsLast(blocks, b), key)
    {
      EmptyOrInside(b, offset);
      if offset + 8 > dataEnd { return None; }
      ghost var rows: Block, last := blocks[b], IsLast(blocks, b);
      var blk := LoadBlock(offset, b);
      EncodesTail(blk, rows, last);
      var from, limit := FindStart(rows, last, blk, key);
      r := FindForward(rows, last, blk, from, limit, key, StartRow(rows, last, key));
    }

    method ScanBlock(offset: nat, start: Key, end: Key, ghost b: nat) returns (out: seq<Row>)
      requires Valid()
      requires if blocks == [] then offset == 0 else b < |blocks| && offset == BlockOffset(blocks, b)
      ensures out == if blocks == [] then [] else BlockScan(blocks[b], IsLast(blocks, b), start, end)
    {
      EmptyOrInside(b, offset);
      if offset + 8 > dataEnd { return []; }
      ghost var rows: Block, last := blocks[b], IsLast(blocks, b);
      var blk := LoadBlock(offset, b);
      EncodesTail(blk, rows, last);
      var from, limit := FindStart(rows, last, blk, start);
      out := CollectForward(rows, last, blk, from, limit, start, end, StartRow(rows, last, start));
    }

    lemma EmptyOrInside(b: nat, offset: nat)
      requires Valid()
      requires if blocks == [] then offset == 0 else b < |blocks| && offset == BlockOffset(blocks, b)
      ensures blocks == [] <==> offset + 8 > dataEnd
    {
      if blocks != [] {
        BlocksTile(blocks, b);
      }
    }

    /** `std::upper_bound` over the index. */
    method UpperBoundOfIndex(key: Key) returns (u: nat)
      requires Valid()
      ensures u == UpperBound(IndexOf(blocks), key)
    {
      u := 0;
      while u < |index| && !Less(key, index[u].0)
        invariant u <= |index|
        invariant UpperBound(index, key) == u + UpperBound(index[u..], key)
      {
        assert index[u..][1..] == index[u + 1..];
        u := u + 1;
      }
    }

    method Get(key: Key) returns (r: Option<ByteString>)
      requires Valid()
      ensures r == FileGet(blocks, key)
    {
      var possible := CheckBloom(key);
      if !possible { return None; }
      if index == [] {
        r := FindInBlock(0, key, 0);
        return;
      }
      var u := UpperBoundOfIndex(key);
      var b := if u == 0 then 0 else u - 1;
      r := FindInBlock(index[b].1, key, b);
    }

    method Scan(start: Key, end: Key) returns (out: seq<Row>)
      requires Valid()
      ensures out == FileScan(blocks, start, end)
    {
      hide BlocksBytes, Filter, Flatten, Sized, ScanBlocks, Less;
      if Less(end, start) { return []; }
      if minKey != [] && Less(end, minKey) {
        ScanBelowMin(blocks, start, end);
        return [];
      }
      if index == [] {
        out := ScanBlock(0, start, end, 0);
        return;
      }
      var it := UpperBoundOfIndex(start);
      if it != 0 { it := it - 1; }
      out := ScanFromBlock(it, start, end);
    }

    method ScanFromBlock(first: nat, start: Key, end: Key) returns (out: seq<Row>)
      requires Valid() && first < |index|
      ensures out == ScanBlocks(blocks, first, start, end)
    {
      hide BlocksBytes, Filter, Flatten, Sized, BlockScan, BlockOffset, Less;
      out := [];
      var it := first;
      while it < |index|
        invariant first <= it <= |index|
        invariant out + ScanBlocks(blocks, it, start, end) == ScanBlocks(blocks, first, start, end)
      {
        if Less(end, index[it].0) { return; }
        var part := ScanBlock(index[it].1, start, end, it);
        AppendAssociates(out, part, ScanBlocks(blocks, it + 1, start, end));
        out := out + part;
        it := it + 1;
      }
    }
  }

  lemma AppendAssociates(a: seq<Row>, b: seq<Row>, c: seq<Row>)
    ensures a + b + c == a + (b + c)
  {
  }

  lemma ScanBelowMin(blocks: seq<Block>, start: Key, end: Key)
    requires blocks != [] && !Less(end, start) && Less(end, blocks[0][0].0)
    ensures FileScan(blocks, start, end) == []
  {
    StrictTotalOrder();
    assert Less(start, IndexOf(blocks)[0].0);
  }

  /** Opening any bytes: too short or without the magic number is refused, as the exceptions do. */
  method Open(bytes: ByteString) returns (table: Option<SSTable>)
    requires |bytes| >= FOOTER_SIZE && GetU64(bytes[|bytes| - 8..]) == MAGIC ==>
      exists written :: Representable(written) && bytes == TableBytes(written)
    ensures table.None? <==> |bytes| < FOOTER_SIZE || GetU64(bytes[|bytes| - 8..]) != MAGIC
    ensures table.Some? ==> table.value.Valid() && table.value.file == bytes
  {
    if |bytes| < FOOTER_SIZE { return None; }
    var footer := bytes[|bytes| - FOOTER_SIZE..];
    assert footer[24..32] == bytes[|bytes| - 8..];
    if GetU64(footer[24..32]) != MAGIC { return None; }
    ghost var written :| Representable(written) && bytes == TableBytes(written);
    TableParts(written);
    var t := new SSTable(bytes, written);
    return Some(t);
  }
}
