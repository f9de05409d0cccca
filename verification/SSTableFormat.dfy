/** The bytes of a sorted table: rows, blocks with restart points, Bloom filter, index and footer. */
module SSTableFormat {
  import opened Bytes

  type Block = rows: seq<Row> | rows != [] witness [([], [])]

  const BLOCK_TARGET_BYTES := 4096
  const MAGIC := 0xDB55_CA1E
  const FOOTER_SIZE := 32

  // ----- rows -----

  function RowBytes(r: Row): (s: ByteString)
    ensures |s| == 8 + |r.0| + |r.1|
  {
    PutU32(|r.0|) + r.0 + PutU32(|r.1|) + r.1
  }

  function RowsBytes(rows: seq<Row>): ByteString {
    if rows == [] then [] else RowBytes(rows[0]) + RowsBytes(rows[1..])
  }

  /** Where row `i` starts in a block whose rows these are. */
  function RowOffset(rows: seq<Row>, i: nat): nat
    requires i <= |rows|
  {
    8 + |RowsBytes(rows[..i])|
  }

  lemma {:induction false} RowsBytesAppend(a: seq<Row>, b: seq<Row>)
    ensures RowsBytes(a + b) == RowsBytes(a) + RowsBytes(b)
  {
    if a == [] {
      assert a + b == b;
    } else {
      assert (a + b)[1..] == a[1..] + b;
      RowsBytesAppend(a[1..], b);
    }
  }

  lemma RowsBytesSnoc(rows: seq<Row>, r: Row)
    ensures RowsBytes(rows + [r]) == RowsBytes(rows) + RowBytes(r)
  {
    RowsBytesAppend(rows, [r]);
    assert RowsBytes([r]) == RowBytes(r);
  }

  lemma FullOffset(rows: seq<Row>)
    ensures RowOffset(rows, |rows|) == 8 + |RowsBytes(rows)|
  {
    assert rows[..|rows|] == rows;
  }

  lemma NextRowOffset(rows: seq<Row>, i: nat)
    requires i < |rows|
    ensures RowOffset(rows, i + 1) == RowOffset(rows, i) + |RowBytes(rows[i])|
    ensures RowsBytes(rows[..i + 1]) == RowsBytes(rows[..i]) + RowBytes(rows[i])
  {
    assert rows[..i + 1] == rows[..i] + [rows[i]];
    RowsBytesSnoc(rows[..i], rows[i]);
  }

  lemma {:induction false} RowOffsetsGrow(rows: seq<Row>, i: nat, j: nat)
    requires i < j <= |rows|
    ensures RowOffset(rows, i) + 8 <= RowOffset(rows, j)
    decreases j
  {
    NextRowOffset(rows, j - 1);
    if i < j - 1 {
      RowOffsetsGrow(rows, i, j - 1);
    }
  }

  // ----- restart arrays -----

  function WordsBytes(words: seq<nat>): (s: ByteString)
    ensures |s| == 4 * |words|
  {
    if words == [] then [] else PutU32(words[0]) + WordsBytes(words[1..])
  }

  lemma {:induction false} WordAt(words: seq<nat>, j: nat)
    requires j < |words|
    ensures WordsBytes(words)[4 * j..4 * j + 4] == PutU32(words[j])
  {
    var s, rest := WordsBytes(words), WordsBytes(words[1..]);
    if j == 0 {
      assert s[0..4] == PutU32(words[0]);
    } else {
      WordAt(words[1..], j - 1);
      assert s[4 * j..4 * j + 4] == rest[4 * (j - 1)..4 * (j - 1) + 4];
    }
  }

  lemma {:induction false} WordsBytesAppend(a: seq<nat>, b: seq<nat>)
    ensures WordsBytes(a + b) == WordsBytes(a) + WordsBytes(b)
  {
    if a == [] {
      assert a + b == b;
    } else {
      assert (a + b)[1..] == a[1..] + b;
      WordsBytesAppend(a[1..], b);
    }
  }

  // ----- blocks -----

  /** A block that was closed because the next row did not fit has already pushed the restart for that
      row when its count is a multiple of the interval; the last block has not. */
  function RestartCount(n: nat, last: bool): nat {
    if last then (n + 15) / 16 else n / 16 + 1
  }

  function Restarts(rows: seq<Row>, m: nat): (s: seq<nat>)
    requires m == 0 || 16 * (m - 1) <= |rows|
    ensures |s| == m
  {
    seq(m, j requires 0 <= j < m => RowOffset(rows, 16 * j))
  }

  /** The last restart points past the rows, at the restart array itself. */
  predicate Dangling(rows: seq<Row>, last: bool) {
    16 * (RestartCount(|rows|, last) - 1) == |rows|
  }

  function Tail(rows: Block, last: bool): seq<nat> {
    var m := RestartCount(|rows|, last);
    Restarts(rows, m) + [m]
  }

  function BlockSize(rows: Block, last: bool): nat {
    RowOffset(rows, |rows|) + 4 * RestartCount(|rows|, last) + 4
  }

  function BlockBytes(rows: Block, last: bool): (s: ByteString)
    ensures |s| == BlockSize(rows, last)
  {
    var s := PutU32(|rows|) + PutU32(BlockSize(rows, last)) + RowsBytes(rows) + WordsBytes(Tail(rows, last));
    assert rows[..|rows|] == rows;
    s
  }

  predicate IsLast(blocks: seq<Block>, b: nat) {
    b + 1 == |blocks|
  }

  function BlocksBytes(blocks: seq<Block>): ByteString {
    if blocks == [] then []
    else BlockBytes(blocks[0], |blocks| == 1) + BlocksBytes(blocks[1..])
  }

  function BlockOffset(blocks: seq<Block>, b: nat): nat
    requires b <= |blocks|
  {
    if b == 0 then 0 else BlockSize(blocks[0], |blocks| == 1) + BlockOffset(blocks[1..], b - 1)
  }

  lemma {:induction false} BlocksAreAdjacent(blocks: seq<Block>, b: nat)
    requires b < |blocks|
    ensures BlockOffset(blocks, b) + BlockSize(blocks[b], IsLast(blocks, b)) == BlockOffset(blocks, b + 1)
  {
    if b == 0 {
      assert BlockOffset(blocks[1..], 0) == 0;
    } else {
      BlocksAreAdjacent(blocks[1..], b - 1);
      assert IsLast(blocks[1..], b - 1) <==> IsLast(blocks, b);
    }
  }

  lemma {:induction false} BlocksFillData(blocks: seq<Block>)
    ensures BlockOffset(blocks, |blocks|) == |BlocksBytes(blocks)|
  {
    if blocks != [] {
      BlocksFillData(blocks[1..]);
    }
  }

  lemma {:induction false} BlockOffsetsGrow(blocks: seq<Block>, b: nat, c: nat)
    requires b <= c <= |blocks|
    ensures BlockOffset(blocks, b) <= BlockOffset(blocks, c)
  {
    if b < c {
      BlockOffsetsGrow(blocks, b, c - 1);
      BlocksAreAdjacent(blocks, c - 1);
    }
  }

  lemma SliceOfConcat(a: ByteString, s: ByteString, lo: nat, hi: nat)
    requires lo <= hi <= |s|
    ensures (a + s)[|a| + lo..|a| + hi] == s[lo..hi]
  {
  }

  lemma BlocksStep(blocks: seq<Block>)
    requires blocks != []
    ensures BlocksBytes(blocks) == BlockBytes(blocks[0], IsLast(blocks, 0)) + BlocksBytes(blocks[1..])
    ensures |BlockBytes(blocks[0], IsLast(blocks, 0))| == BlockSize(blocks[0], IsLast(blocks, 0))
    ensures BlockOffset(blocks, 0) == 0
  {
  }

  lemma OffsetStep(blocks: seq<Block>, b: nat)
    requires 0 < b < |blocks|
    ensures BlockOffset(blocks, b) == BlockSize(blocks[0], IsLast(blocks, 0)) + BlockOffset(blocks[1..], b - 1)
    ensures IsLast(blocks[1..], b - 1) <==> IsLast(blocks, b)
  {
  }

  lemma {:induction false} BlockAtOffset(blocks: seq<Block>, b: nat)
    requires b < |blocks|
    ensures var lo, size := BlockOffset(blocks, b), BlockSize(blocks[b], IsLast(blocks, b));
      && lo + size <= |BlocksBytes(blocks)|
      && BlocksBytes(blocks)[lo..lo + size] == BlockBytes(blocks[b], IsLast(blocks, b))
  {
    hide *;
    var first, rest := BlockBytes(blocks[0], IsLast(blocks, 0)), BlocksBytes(blocks[1..]);
    BlocksStep(blocks);
    if b == 0 {
      FirstOfConcat(first, rest);
    } else {
      BlockAtOffset(blocks[1..], b - 1);
      OffsetStep(blocks, b);
      assert blocks[1..][b - 1] == blocks[b];
      var lo := BlockOffset(blocks[1..], b - 1);
      SliceOfConcat(first, rest, lo, lo + BlockSize(blocks[b], IsLast(blocks, b)));
    }
  }

  lemma FirstOfConcat(a: ByteString, s: ByteString)
    ensures (a + s)[0..0 + |a|] == a
  {
  }

  /** The blocks tile the data region exactly, each encoded in its own slice. */
  lemma BlocksTile(blocks: seq<Block>, b: nat)
    requires b < |blocks|
    ensures var lo, size := BlockOffset(blocks, b), BlockSize(blocks[b], IsLast(blocks, b));
      && lo + size == BlockOffset(blocks, b + 1) <= |BlocksBytes(blocks)|
      && BlocksBytes(blocks)[lo..lo + size] == BlockBytes(blocks[b], IsLast(blocks, b))
    ensures BlockOffset(blocks, 0) == 0 && BlockOffset(blocks, |blocks|) == |BlocksBytes(blocks)|
  {
    BlocksAreAdjacent(blocks, b);
    BlocksFillData(blocks);
    BlockAtOffset(blocks, b);
  }

  // ----- how the writer splits rows into blocks -----

  function Flatten(blocks: seq<Block>): seq<Row> {
    if blocks == [] then [] else blocks[0] + Flatten(blocks[1..])
  }

  /** The size check made before a row is added to a nonempty block. */
  predicate RowFits(rows: seq<Row>, r: Row) {
    RowOffset(rows, |rows|) + |RowBytes(r)| + 4 * (|rows| / 16 + 1) <= BLOCK_TARGET_BYTES
  }

  predicate FilledGreedily(rows: seq<Row>) {
    forall i :: 0 < i < |rows| ==> RowFits(rows[..i], rows[i])
  }

  predicate IsSplit(blocks: seq<Block>, entries: seq<Row>) {
    && Flatten(blocks) == entries
    && (forall b :: 0 <= b < |blocks| ==> FilledGreedily(blocks[b]))
    && (forall b :: 0 <= b < |blocks| - 1 ==> !RowFits(blocks[b], blocks[b + 1][0]))
  }

  /** A block with two or more rows overshoots the target by at most one stray restart and the count. */
  lemma BlockSizeBound(rows: Block, last: bool)
    requires FilledGreedily(rows) && |rows| >= 2
    ensures BlockSize(rows, last) <= 4104
  {
    var n := |rows| - 1;
    assert RowFits(rows[..n], rows[n]);
    assert rows[..n][..n] == rows[..n];
    NextRowOffset(rows, n);
  }

  /** A block that is not the last one was closed because the next row would have passed the target. */
  lemma ClosedBlockIsFull(blocks: seq<Block>, entries: seq<Row>, b: nat)
    requires IsSplit(blocks, entries) && b + 1 < |blocks|
    ensures var rows, next := blocks[b], blocks[b + 1][0];
      RowOffset(rows, |rows|) + 8 + |next.0| + |next.1| + 4 * (|rows| / 16 + 1) > 4096
  {
  }

  // ----- Bloom filter -----

  function Xor(a: nat, b: nat): nat
    decreases a + b
  {
    if a == 0 && b == 0 then 0
    else (if a % 2 != b % 2 then 1 else 0) + 2 * Xor(a / 2, b / 2)
  }

  function HashFrom(h: nat, k: Key): nat
    decreases k
  {
    if k == [] then h else HashFrom(Xor(h, k[0]) * 1099511628211 % U64, k[1..])
  }

  function BloomHash(k: Key, i: nat): nat {
    (HashFrom(1469598103934665603, k) + i * 0x9e37_79b9_7f4a_7c15) % U64
  }

  function TestBit(b: nat, i: nat): bool {
    if i == 0 then b % 2 == 1 else TestBit(b / 2, i - 1)
  }

  /** `b | (1 << i)` */
  function WithBit(b: nat, i: nat): nat {
    if i == 0 then b / 2 * 2 + 1 else WithBit(b / 2, i - 1) * 2 + b % 2
  }

  function Pow2(w: nat): nat {
    if w == 0 then 1 else 2 * Pow2(w - 1)
  }

  lemma HalfFits(b: nat, p: nat)
    requires b < 2 * p
    ensures b / 2 < p && b / 2 * 2 + 1 < 2 * p
  {
  }

  lemma DoubleFits(x: nat, p: nat, b: nat)
    requires x < p
    ensures x * 2 + b % 2 < 2 * p
  {
  }

  lemma {:induction false} WithBitFits(b: nat, i: nat, w: nat)
    requires i < w && b < Pow2(w)
    ensures WithBit(b, i) < Pow2(w)
  {
    var p := Pow2(w - 1);
    assert Pow2(w) == 2 * p;
    HalfFits(b, p);
    if i != 0 {
      WithBitFits(b / 2, i - 1, w - 1);
      DoubleFits(WithBit(b / 2, i - 1), p, b);
    }
  }

  lemma {:induction false} WithBitSets(b: nat, i: nat, j: nat)
    ensures TestBit(WithBit(b, i), j) <==> i == j || TestBit(b, j)
    decreases i
  {
    if i > 0 && j > 0 {
      WithBitSets(b / 2, i - 1, j - 1);
      assert WithBit(b, i) / 2 == WithBit(b / 2, i - 1);
    } else if j > 0 {
      assert WithBit(b, i) / 2 == b / 2;
    }
  }

  predicate HasBit(filter: ByteString, bit: nat)
    requires bit < 8 * |filter|
  {
    TestBit(filter[bit / 8], bit % 8)
  }

  function SetBit(filter: ByteString, bit: nat): (f: ByteString)
    requires bit < 8 * |filter|
    ensures |f| == |filter|
  {
    WithBitFits(filter[bit / 8], bit % 8, 8);
    assert Pow2(8) == 256;
    filter[bit / 8 := WithBit(filter[bit / 8], bit % 8)]
  }

  ghost predicate Covers(f: ByteString, g: ByteString) {
    |f| == |g| && forall bit :: 0 <= bit < 8 * |f| && HasBit(f, bit) ==> HasBit(g, bit)
  }

  lemma SetBitSets(filter: ByteString, bit: nat)
    requires bit < 8 * |filter|
    ensures Covers(filter, SetBit(filter, bit)) && HasBit(SetBit(filter, bit), bit)
  {
    var f := SetBit(filter, bit);
    WithBitSets(filter[bit / 8], bit % 8, bit % 8);
    forall other | 0 <= other < 8 * |filter| && HasBit(filter, other) ensures HasBit(f, other) {
      WithBitSets(filter[bit / 8], bit % 8, other % 8);
    }
  }

  /** ... and sets no other bit. */
  lemma SetBitOnly(filter: ByteString, bit: nat, other: nat)
    requires bit < 8 * |filter| && other < 8 * |filter|
    ensures HasBit(SetBit(filter, bit), other) <==> HasBit(filter, other) || other == bit
  {
    WithBitSets(filter[bit / 8], bit % 8, other % 8);
  }

  /** The filter length the writer picks: ten bits a key, rounded up to whole bytes, at least one. */
  function FilterBytes(keys: nat): (n: nat)
    ensures n > 0
  {
    ((if keys * 10 < 8 then 8 else keys * 10) + 7) / 8
  }

  function HashBit(filterBytes: nat, k: Key, h: nat): (bit: nat)
    requires filterBytes > 0
    ensures bit < 8 * filterBytes
  {
    BloomHash(k, h) % (8 * filterBytes)
  }

  function AddHashes(filter: ByteString, k: Key, h: nat): (f: ByteString)
    requires filter != [] && h <= 7
    ensures |f| == |filter|
    decreases |filter|, 7 - h
  {
    if h == 7 then filter else AddHashes(SetBit(filter, HashBit(|filter|, k, h)), k, h + 1)
  }

  function AddKeys(filter: ByteString, entries: seq<Row>): (f: ByteString)
    requires filter != []
    ensures |f| == |filter|
    decreases entries
  {
    if entries == [] then filter else AddKeys(AddHashes(filter, entries[0].0, 0), entries[1..])
  }

  function Filter(entries: seq<Row>): (f: ByteString)
    ensures |f| == FilterBytes(|entries|)
  {
    AddKeys(seq(FilterBytes(|entries|), _ => 0), entries)
  }

  predicate HashIsSet(filter: ByteString, k: Key, h: nat) {
    filter != [] && HasBit(filter, HashBit(|filter|, k, h))
  }

  predicate MayContain(filter: ByteString, k: Key) {
    filter == [] || forall h :: 0 <= h < 7 ==> HashIsSet(filter, k, h)
  }

  lemma {:induction false} AddHashesCovers(filter: ByteString, k: Key, h: nat)
    requires filter != [] && h <= 7
    ensures Covers(filter, AddHashes(filter, k, h))
    decreases 7 - h
  {
    if h < 7 {
      SetBitSets(filter, HashBit(|filter|, k, h));
      AddHashesCovers(SetBit(filter, HashBit(|filter|, k, h)), k, h + 1);
    }
  }

  lemma {:induction false} AddHashesSets(filter: ByteString, k: Key, h: nat, i: nat)
    requires filter != [] && h <= i < 7
    ensures HashIsSet(AddHashes(filter, k, h), k, i)
    decreases 7 - h
  {
    var bit := HashBit(|filter|, k, h);
    var next := SetBit(filter, bit);
    if i == h {
      SetBitSets(filter, bit);
      AddHashesCovers(next, k, h + 1);
    } else {
      AddHashesSets(next, k, h + 1, i);
    }
  }

  lemma CoveringKeepsKeys(f: ByteString, g: ByteString, k: Key)
    requires f != [] && Covers(f, g) && MayContain(f, k)
    ensures MayContain(g, k)
  {
    forall h | 0 <= h < 7 ensures HashIsSet(g, k, h) {
      assert HashIsSet(f, k, h);
    }
  }

  lemma {:induction false} AddKeysCovers(filter: ByteString, entries: seq<Row>)
    requires filter != []
    ensures Covers(filter, AddKeys(filter, entries))
    decreases entries
  {
    if entries != [] {
      AddHashesCovers(filter, entries[0].0, 0);
      AddKeysCovers(AddHashes(filter, entries[0].0, 0), entries[1..]);
    }
  }

  lemma AddedKeyIsContained(filter: ByteString, k: Key)
    requires filter != []
    ensures MayContain(AddHashes(filter, k, 0), k)
  {
    forall h | 0 <= h < 7 ensures HashIsSet(AddHashes(filter, k, 0), k, h) {
      AddHashesSets(filter, k, 0, h);
    }
  }

  lemma {:induction false} AddKeysAppend(filter: ByteString, before: seq<Row>, later: seq<Row>)
    requires filter != []
    ensures AddKeys(filter, before + later) == AddKeys(AddKeys(filter, before), later)
    decreases before
  {
    if before == [] {
      assert before + later == later;
    } else {
      var next, all := AddHashes(filter, before[0].0, 0), before + later;
      AddKeysAppend(next, before[1..], later);
      assert all[0] == before[0] && all[1..] == before[1..] + later;
    }
  }

  lemma KeyAddedStays(filter: ByteString, key: Key, value: ByteString, later: seq<Row>)
    requires filter != []
    ensures MayContain(AddKeys(filter, [(key, value)] + later), key)
  {
    var next, all := AddHashes(filter, key, 0), [(key, value)] + later;
    assert all[0].0 == key && all[1..] == later;
    AddedKeyIsContained(filter, key);
    AddKeysCovers(next, later);
    CoveringKeepsKeys(next, AddKeys(next, later), key);
  }

  /** No written key is ever rejected. */
  lemma FilterHasNoFalseNegatives(entries: seq<Row>, i: nat)
    requires i < |entries|
    ensures MayContain(Filter(entries), entries[i].0)
  {
    var empty := seq(FilterBytes(|entries|), _ => 0);
    assert entries == entries[..i] + entries[i..];
    assert entries[i..] == [(entries[i].0, entries[i].1)] + entries[i + 1..];
    AddKeysAppend(empty, entries[..i], entries[i..]);
    KeyAddedStays(AddKeys(empty, entries[..i]), entries[i].0, entries[i].1, entries[i + 1..]);
  }

  ghost predicate HashesTo(size: nat, k: Key, from: nat, bit: nat)
    requires size > 0
  {
    exists h :: from <= h < 7 && HashBit(size, k, h) == bit
  }

  ghost predicate SomeKeyHashesTo(size: nat, entries: seq<Row>, bit: nat)
    requires size > 0
  {
    exists i :: 0 <= i < |entries| && HashesTo(size, entries[i].0, 0, bit)
  }

  lemma {:induction false} AddHashesOnly(filter: ByteString, k: Key, h: nat, bit: nat)
    requires filter != [] && h <= 7 && bit < 8 * |filter|
    ensures HasBit(AddHashes(filter, k, h), bit) <==> HasBit(filter, bit) || HashesTo(|filter|, k, h, bit)
    decreases 7 - h
  {
    if h < 7 {
      hide HasBit, HashBit;
      var first := HashBit(|filter|, k, h);
      AddHashesOnly(SetBit(filter, first), k, h + 1, bit);
      SetBitOnly(filter, first, bit);
      assert HashesTo(|filter|, k, h, bit) <==> first == bit || HashesTo(|filter|, k, h + 1, bit);
    }
  }

  lemma {:induction false} AddKeysOnly(filter: ByteString, entries: seq<Row>, bit: nat)
    requires filter != [] && bit < 8 * |filter|
    ensures HasBit(AddKeys(filter, entries), bit) <==> HasBit(filter, bit) || SomeKeyHashesTo(|filter|, entries, bit)
    decreases entries
  {
    if entries != [] {
      hide HasBit, HashesTo;
      var next, rest := AddHashes(filter, entries[0].0, 0), entries[1..];
      AddKeysOnly(next, rest, bit);
      AddHashesOnly(filter, entries[0].0, 0, bit);
      if SomeKeyHashesTo(|filter|, rest, bit) {
        var i :| 0 <= i < |rest| && HashesTo(|filter|, rest[i].0, 0, bit);
        assert entries[i + 1] == rest[i];
      }
      if SomeKeyHashesTo(|filter|, entries, bit) && !HashesTo(|filter|, entries[0].0, 0, bit) {
        var i :| 0 <= i < |entries| && HashesTo(|filter|, entries[i].0, 0, bit);
        assert rest[i - 1] == entries[i];
      }
    }
  }

  lemma {:induction false} ZeroHasNoBit(i: nat)
    ensures !TestBit(0, i)
  {
    if i > 0 {
      ZeroHasNoBit(i - 1);
    }
  }

  /** A bit of a file's filter is set if and only if one of the seven hashes of one of its keys falls on it, and
      the filter has ten bits a key, rounded up to whole bytes. */
  lemma FilterBitIff(entries: seq<Row>, bit: nat)
    requires bit < 8 * |Filter(entries)|
    ensures HasBit(Filter(entries), bit) <==>
      exists i, h :: 0 <= i < |entries| && 0 <= h < 7 && BloomHash(entries[i].0, h) % (8 * |Filter(entries)|) == bit
    ensures 10 * |entries| <= 8 * |Filter(entries)| < 10 * |entries| + 9
  {
    var size := FilterBytes(|entries|);
    var empty: ByteString := seq(size, _ => 0);
    ZeroHasNoBit(bit % 8);
    AddKeysOnly(empty, entries, bit);
    hide HasBit, AddKeys, BloomHash;
    if SomeKeyHashesTo(size, entries, bit) {
      var i :| 0 <= i < |entries| && HashesTo(size, entries[i].0, 0, bit);
      var h :| 0 <= h < 7 && HashBit(size, entries[i].0, h) == bit;
      assert BloomHash(entries[i].0, h) % (8 * size) == bit;
    }
    if i, h :| 0 <= i < |entries| && 0 <= h < 7 && BloomHash(entries[i].0, h) % (8 * size) == bit {
      assert HashBit(size, entries[i].0, h) == bit;
      assert HashesTo(size, entries[i].0, 0, bit);
    }
  }

  // ----- index and footer -----

  type IndexEntry = (Key, nat)

  function IndexOf(blocks: seq<Block>): (s: seq<IndexEntry>)
    ensures |s| == |blocks|
  {
    seq(|blocks|, b requires 0 <= b < |blocks| => (blocks[b][0].0, BlockOffset(blocks, b)))
  }

  function IndexEntryBytes(e: IndexEntry): (s: ByteString)
    ensures |s| == |e.0| + 12
  {
    PutU32(|e.0|) + e.0 + PutU64(e.1)
  }

  function IndexBytes(index: seq<IndexEntry>): ByteString {
    if index == [] then [] else IndexEntryBytes(index[0]) + IndexBytes(index[1..])
  }

  function FooterBytes(dataEnd: nat, bloomOffset: nat, indexOffset: nat): (s: ByteString)
    ensures |s| == FOOTER_SIZE
  {
    PutU64(dataEnd) + PutU64(bloomOffset) + PutU64(indexOffset) + PutU64(MAGIC)
  }

  function IndexRegion(index: seq<IndexEntry>): ByteString {
    PutU32(|index|) + IndexBytes(index)
  }

  function Assemble(data: ByteString, filter: ByteString, index: ByteString): ByteString {
    data + filter + index + FooterBytes(|data|, |data|, |data| + |filter|)
  }

  function TableBytes(blocks: seq<Block>): ByteString {
    Assemble(BlocksBytes(blocks), Filter(Flatten(blocks)), IndexRegion(IndexOf(blocks)))
  }

  predicate Sized(blocks: seq<Block>) {
    forall b :: 0 <= b < |blocks| ==> BlockSize(blocks[b], IsLast(blocks, b)) < U32
  }

  /** Sizes within the 32- and 64-bit fields of the format. */
  predicate Representable(blocks: seq<Block>) {
    && |blocks| < U32
    && |TableBytes(blocks)| < U64
    && Sized(blocks)
  }
}
