/** What the table readers compute, on the rows the bytes stand for, and exactly when that is the
    sorted list that was written. */
module SSTableReads {
  import opened Bytes
  import opened SSTableFormat

  // ----- reference meaning of a read -----

  function Lookup(rows: seq<Row>, key: Key): Option<ByteString> {
    if rows == [] then None
    else if rows[0].0 == key then Some(rows[0].1)
    else Lookup(rows[1..], key)
  }

  function Select(rows: seq<Row>, start: Key, end: Key): seq<Row> {
    if rows == [] then []
    else (if AtMost(start, rows[0].0) && AtMost(rows[0].0, end) then [rows[0]] else []) + Select(rows[1..], start, end)
  }

  // ----- reads inside one block -----

  lemma DanglingIsInner(rows: Block, last: bool)
    ensures RestartCount(|rows|, last) >= 1
    ensures Dangling(rows, last) <==> !last && |rows| % 16 == 0
    ensures Dangling(rows, last) ==> RestartCount(|rows|, last) >= 2
  {
  }

  /** The eight bytes a dangling restart is read as: the restart array taken for a row. */
  function GhostKey(rows: Block, last: bool): Key
    requires Dangling(rows, last)
  {
    DanglingIsInner(rows, last);
    PutU32(Tail(rows, last)[1]) + PutU32(Tail(rows, last)[2])
  }

  function RestartKeys(rows: Block, last: bool): (keys: seq<Key>)
    ensures |keys| == RestartCount(|rows|, last)
  {
    seq(RestartCount(|rows|, last), j requires 0 <= j < RestartCount(|rows|, last) =>
      if 16 * j < |rows| then rows[16 * j].0 else GhostKey(rows, last))
  }

  /** The binary search of both readers: the first index in [left, right) whose key is not below. */
  function Probe(keys: seq<Key>, key: Key, left: nat, right: nat): (i: nat)
    requires left <= right <= |keys|
    ensures left <= i <= right
    decreases right - left
  {
    if left == right then left else
      var mid := (left + right) / 2;
      if Less(keys[mid], key) then Probe(keys, key, mid + 1, right) else Probe(keys, key, left, mid)
  }

  function StartRow(rows: Block, last: bool, key: Key): (i: nat)
    ensures i <= |rows|
  {
    DanglingIsInner(rows, last);
    var i := Probe(RestartKeys(rows, last), key, 0, RestartCount(|rows|, last));
    16 * (if i > 0 then i - 1 else 0)
  }

  function FindFrom(rows: seq<Row>, i: nat, key: Key): Option<ByteString>
    decreases |rows| - i
  {
    if i >= |rows| then None
    else if rows[i].0 == key then Some(rows[i].1)
    else if Less(key, rows[i].0) then None
    else FindFrom(rows, i + 1, key)
  }

  function ScanFrom(rows: seq<Row>, i: nat, start: Key, end: Key): seq<Row>
    decreases |rows| - i
  {
    if i >= |rows| || Less(end, rows[i].0) then []
    else (if AtMost(start, rows[i].0) then [rows[i]] else []) + ScanFrom(rows, i + 1, start, end)
  }

  function BlockGet(rows: Block, last: bool, key: Key): Option<ByteString> {
    FindFrom(rows, StartRow(rows, last, key), key)
  }

  function BlockScan(rows: Block, last: bool, start: Key, end: Key): seq<Row> {
    ScanFrom(rows, StartRow(rows, last, start), start, end)
  }

  /** No restart dangles, or the bytes it is read as do not sort below the block's last key. */
  predicate Searchable(rows: Block, last: bool) {
    Dangling(rows, last) ==> AtMost(rows[|rows| - 1].0, GhostKey(rows, last))
  }

  predicate SplitsAt(keys: seq<Key>, key: Key, p: nat) {
    && p <= |keys|
    && (forall j :: 0 <= j < p ==> Less(keys[j], key))
    && (forall j :: p <= j < |keys| ==> !Less(keys[j], key))
  }

  lemma {:induction false} ProbeFinds(keys: seq<Key>, key: Key, left: nat, right: nat, p: nat)
    requires left <= p <= right <= |keys| && SplitsAt(keys, key, p)
    ensures Probe(keys, key, left, right) == p
    decreases right - left
  {
    if left < right {
      var mid := (left + right) / 2;
      if Less(keys[mid], key) {
        ProbeFinds(keys, key, mid + 1, right, p);
      } else {
        ProbeFinds(keys, key, left, mid, p);
      }
    }
  }

  predicate DownwardClosed(keys: seq<Key>, key: Key) {
    forall i, j :: 0 <= i < j < |keys| && Less(keys[j], key) ==> Less(keys[i], key)
  }

  lemma {:induction false} DownwardClosedSplits(keys: seq<Key>, key: Key) returns (p: nat)
    requires DownwardClosed(keys, key)
    ensures SplitsAt(keys, key, p)
  {
    var n := |keys| - 1;
    if n < 0 {
      p := 0;
    } else if Less(keys[n], key) {
      p := |keys|;
    } else {
      p := DownwardClosedSplits(keys[..n], key);
      assert forall j :: p <= j < n ==> keys[..n][j] == keys[j];
    }
  }

  /** On a searchable block the binary search is monotone for every key up to the last row. */
  lemma RestartsSplit(rows: Block, last: bool, key: Key) returns (p: nat)
    requires Ascending(rows) && Searchable(rows, last) && AtMost(key, rows[|rows| - 1].0)
    ensures SplitsAt(RestartKeys(rows, last), key, p)
  {
    StrictTotalOrder();
    var keys := RestartKeys(rows, last);
    forall i, j | 0 <= i < j < |keys| && Less(keys[j], key) ensures Less(keys[i], key) {
      assert 16 * j < |rows|;
      assert Less(rows[16 * i].0, rows[16 * j].0);
    }
    p := DownwardClosedSplits(keys, key);
  }

  /** Rows before the starting point of a searchable block are all below the key. */
  lemma StartSkipsOnlySmaller(rows: Block, last: bool, key: Key)
    requires Ascending(rows) && Searchable(rows, last) && AtMost(key, rows[|rows| - 1].0)
    ensures forall i :: 0 <= i < StartRow(rows, last, key) ==> Less(rows[i].0, key)
  {
    StrictTotalOrder();
    var keys, m := RestartKeys(rows, last), RestartCount(|rows|, last);
    var p := RestartsSplit(rows, last, key);
    ProbeFinds(keys, key, 0, m, p);
    if p > 0 {
      assert Less(keys[p - 1], key);
      var s := 16 * (p - 1);
      assert s < |rows|;
      forall i | 0 <= i < s ensures Less(rows[i].0, key) {
        assert Less(rows[i].0, rows[s].0);
      }
    }
  }

  lemma {:induction false} FindFromIsLookup(rows: seq<Row>, i: nat, key: Key)
    requires Ascending(rows) && i <= |rows|
    ensures FindFrom(rows, i, key) == Lookup(rows[i..], key)
    decreases |rows| - i
  {
    if i < |rows| {
      FindFromIsLookup(rows, i + 1, key);
      assert rows[i..][1..] == rows[i + 1..];
      if Less(key, rows[i].0) {
        StrictTotalOrder();
        LookupAbsent(rows[i + 1..], key);
      }
    }
  }

  lemma {:induction false} LookupAbsent(rows: seq<Row>, key: Key)
    requires forall i :: 0 <= i < |rows| ==> rows[i].0 != key
    ensures Lookup(rows, key) == None
  {
    if rows != [] {
      LookupAbsent(rows[1..], key);
    }
  }

  lemma {:induction false} LookupPresent(rows: seq<Row>, i: nat)
    requires Ascending(rows) && i < |rows|
    ensures Lookup(rows, rows[i].0) == Some(rows[i].1)
  {
    StrictTotalOrder();
    if i > 0 {
      assert Less(rows[0].0, rows[i].0);
      LookupPresent(rows[1..], i - 1);
    }
  }

  lemma {:induction false} LookupSkips(rows: seq<Row>, i: nat, key: Key)
    requires i <= |rows| && forall j :: 0 <= j < i ==> rows[j].0 != key
    ensures Lookup(rows, key) == Lookup(rows[i..], key)
  {
    if i > 0 {
      LookupSkips(rows[1..], i - 1, key);
      assert rows[1..][i - 1..] == rows[i..];
    } else {
      assert rows[0..] == rows;
    }
  }

  lemma BlockGetIsLookup(rows: Block, last: bool, key: Key)
    requires Ascending(rows)
    requires Searchable(rows, last) || Less(rows[|rows| - 1].0, key)
    ensures BlockGet(rows, last, key) == Lookup(rows, key)
  {
    StrictTotalOrder();
    var i := StartRow(rows, last, key);
    FindFromIsLookup(rows, i, key);
    if Less(rows[|rows| - 1].0, key) {
      forall j | 0 <= j < |rows| ensures rows[j].0 != key {
        assert j < |rows| - 1 ==> Less(rows[j].0, rows[|rows| - 1].0);
      }
    } else {
      StartSkipsOnlySmaller(rows, last, key);
    }
    LookupSkips(rows, i, key);
  }

  /** In an unsearchable block the search for the last key runs past the rows. */
  lemma UnsearchableLosesLastKey(rows: Block, last: bool)
    requires Ascending(rows) && !Searchable(rows, last)
    ensures StartRow(rows, last, rows[|rows| - 1].0) == |rows|
  {
    StrictTotalOrder();
    DanglingIsInner(rows, last);
    var keys, m, key := RestartKeys(rows, last), RestartCount(|rows|, last), rows[|rows| - 1].0;
    forall j | 0 <= j < m ensures Less(keys[j], key) {
      if j < m - 1 {
        assert 16 * j < |rows| - 1;
        assert Less(rows[16 * j].0, key);
      }
    }
    ProbeFinds(keys, key, 0, m, m);
  }

  lemma MissedFromTheEnd(rows: Block, last: bool, key: Key)
    requires StartRow(rows, last, key) == |rows|
    ensures BlockGet(rows, last, key) == None
  {
  }

  lemma UnsearchableBlockMisses(rows: Block, last: bool)
    requires Ascending(rows) && !Searchable(rows, last)
    ensures var key := rows[|rows| - 1].0; BlockGet(rows, last, key) == None && Lookup(rows, key).Some?
  {
    hide *;
    UnsearchableLosesLastKey(rows, last);
    MissedFromTheEnd(rows, last, rows[|rows| - 1].0);
    LookupPresent(rows, |rows| - 1);
  }

  /** Point reads in a block are right for every key exactly when the block is searchable. */
  lemma BlockGetExactIff(rows: Block, last: bool)
    requires Ascending(rows)
    ensures (forall key :: BlockGet(rows, last, key) == Lookup(rows, key)) <==> Searchable(rows, last)
  {
    if Searchable(rows, last) {
      forall key ensures BlockGet(rows, last, key) == Lookup(rows, key) {
        BlockGetIsLookup(rows, last, key);
      }
    } else {
      UnsearchableBlockMisses(rows, last);
    }
  }

  // ----- scans of one block -----

  lemma {:induction false} SelectNothing(rows: seq<Row>, start: Key, end: Key)
    requires forall i :: 0 <= i < |rows| ==> Less(rows[i].0, start) || Less(end, rows[i].0)
    ensures Select(rows, start, end) == []
  {
    if rows != [] {
      SelectNothing(rows[1..], start, end);
    }
  }

  lemma {:induction false} SelectAppend(a: seq<Row>, b: seq<Row>, start: Key, end: Key)
    ensures Select(a + b, start, end) == Select(a, start, end) + Select(b, start, end)
  {
    if a == [] {
      assert a + b == b;
    } else {
      assert (a + b)[1..] == a[1..] + b;
      SelectAppend(a[1..], b, start, end);
    }
  }

  lemma {:induction false} ScanFromIsSelect(rows: seq<Row>, i: nat, start: Key, end: Key)
    requires Ascending(rows) && i <= |rows|
    ensures ScanFrom(rows, i, start, end) == Select(rows[i..], start, end)
    decreases |rows| - i
  {
    if i < |rows| {
      ScanFromIsSelect(rows, i + 1, start, end);
      assert rows[i..][1..] == rows[i + 1..];
      if Less(end, rows[i].0) {
        StrictTotalOrder();
        SelectNothing(rows[i..], start, end);
      }
    }
  }

  predicate AllBelow(rows: seq<Row>, key: Key) {
    forall i :: 0 <= i < |rows| ==> Less(rows[i].0, key)
  }

  predicate AllAbove(rows: seq<Row>, key: Key) {
    forall i :: 0 <= i < |rows| ==> Less(key, rows[i].0)
  }

  lemma ScanStartIsSafe(rows: Block, last: bool, start: Key)
    requires Ascending(rows) && (Searchable(rows, last) || start == [])
    ensures AllBelow(rows[..StartRow(rows, last, start)], start)
  {
    StrictTotalOrder();
    if start == [] {
      ProbeFinds(RestartKeys(rows, last), start, 0, RestartCount(|rows|, last), 0);
    } else if AtMost(start, rows[|rows| - 1].0) {
      StartSkipsOnlySmaller(rows, last, start);
    } else {
      forall j | 0 <= j < |rows| ensures Less(rows[j].0, start) {
        assert j < |rows| - 1 ==> Less(rows[j].0, rows[|rows| - 1].0);
      }
    }
  }

  lemma BlockScanIsSelect(rows: Block, last: bool, start: Key, end: Key)
    requires Ascending(rows) && (Searchable(rows, last) || start == [])
    ensures BlockScan(rows, last, start, end) == Select(rows, start, end)
  {
    hide Searchable, StartRow, Select, ScanFrom;
    var i := StartRow(rows, last, start);
    ScanFromIsSelect(rows, i, start, end);
    assert rows == rows[..i] + rows[i..];
    SelectAppend(rows[..i], rows[i..], start, end);
    ScanStartIsSafe(rows, last, start);
    SelectNothing(rows[..i], start, end);
  }

  // ----- the whole file -----

  /** First index entry whose key is above `key`. */
  function UpperBound(index: seq<IndexEntry>, key: Key): (u: nat)
    ensures u <= |index|
    ensures forall b :: 0 <= b < u ==> AtMost(index[b].0, key)
    ensures u < |index| ==> Less(key, index[u].0)
    decreases index
  {
    if index == [] || Less(key, index[0].0) then 0 else 1 + UpperBound(index[1..], key)
  }

  function ChosenBlock(blocks: seq<Block>, key: Key): (b: nat)
    ensures blocks != [] ==> b < |blocks|
  {
    var u := UpperBound(IndexOf(blocks), key);
    if u > 0 then u - 1 else 0
  }

  function FileGet(blocks: seq<Block>, key: Key): Option<ByteString> {
    if blocks == [] || !MayContain(Filter(Flatten(blocks)), key) then None
    else var b := ChosenBlock(blocks, key); BlockGet(blocks[b], IsLast(blocks, b), key)
  }

  function ScanBlocks(blocks: seq<Block>, b: nat, start: Key, end: Key): seq<Row>
    decreases |blocks| - b
  {
    if b >= |blocks| || Less(end, blocks[b][0].0) then []
    else BlockScan(blocks[b], IsLast(blocks, b), start, end) + ScanBlocks(blocks, b + 1, start, end)
  }

  function FileScan(blocks: seq<Block>, start: Key, end: Key): seq<Row> {
    if Less(end, start) || blocks == [] then [] else ScanBlocks(blocks, ChosenBlock(blocks, start), start, end)
  }

  predicate AllSearchable(blocks: seq<Block>) {
    forall b :: 0 <= b < |blocks| ==> Searchable(blocks[b], IsLast(blocks, b))
  }

  lemma {:induction false} FlattenAppend(a: seq<Block>, b: seq<Block>)
    ensures Flatten(a + b) == Flatten(a) + Flatten(b)
  {
    if a == [] {
      assert a + b == b;
    } else {
      assert (a + b)[1..] == a[1..] + b;
      FlattenAppend(a[1..], b);
    }
  }

  /** Cutting the file at a block: the rows before, in and after it. */
  lemma CutAt(blocks: seq<Block>, b: nat)
    requires b < |blocks|
    ensures Flatten(blocks) == Flatten(blocks[..b]) + blocks[b] + Flatten(blocks[b + 1..])
  {
    assert blocks == blocks[..b] + blocks[b..];
    FlattenAppend(blocks[..b], blocks[b..]);
    assert blocks[b..][1..] == blocks[b + 1..];
  }

  /** Each block is sorted, everything before it is smaller and everything after it is larger. */
  lemma CutIsSorted(blocks: seq<Block>, b: nat)
    requires b < |blocks| && Ascending(Flatten(blocks))
    ensures Ascending(blocks[b])
    ensures AllBelow(Flatten(blocks[..b]), blocks[b][0].0)
    ensures AllAbove(Flatten(blocks[b + 1..]), blocks[b][|blocks[b]| - 1].0)
    ensures AtMost(blocks[b][0].0, blocks[b][|blocks[b]| - 1].0)
  {
    StrictTotalOrder();
    CutAt(blocks, b);
    var all, pre, own, post := Flatten(blocks), Flatten(blocks[..b]), blocks[b], Flatten(blocks[b + 1..]);
    forall i, j | 0 <= i < j < |own| ensures Less(own[i].0, own[j].0) {
      assert all[|pre| + i] == own[i] && all[|pre| + j] == own[j];
    }
    forall i | 0 <= i < |pre| ensures Less(pre[i].0, own[0].0) {
      assert all[i] == pre[i] && all[|pre|] == own[0];
    }
    var n := |own| - 1;
    forall i | 0 <= i < |post| ensures Less(own[n].0, post[i].0) {
      assert all[|pre| + n] == own[n] && all[|pre| + |own| + i] == post[i];
    }
  }

  lemma IndexIsSorted(blocks: seq<Block>, b: nat, c: nat)
    requires b < c < |blocks| && Ascending(Flatten(blocks))
    ensures Less(blocks[b][|blocks[b]| - 1].0, blocks[c][0].0)
    ensures Less(blocks[b][0].0, blocks[c][0].0)
  {
    StrictTotalOrder();
    CutIsSorted(blocks, b);
    assert blocks[b + 1..][c - b - 1] == blocks[c];
    CutAt(blocks[b + 1..], c - b - 1);
    var post, pre := Flatten(blocks[b + 1..]), Flatten(blocks[b + 1..][..c - b - 1]);
    assert post[|pre|] == blocks[c][0];
  }

  /** Rows before the chosen block are below the key and rows after it are above. */
  lemma ChosenBlockSplits(blocks: seq<Block>, key: Key)
    requires blocks != [] && Ascending(Flatten(blocks))
    ensures var b := ChosenBlock(blocks, key);
      AllBelow(Flatten(blocks[..b]), key) && AllAbove(Flatten(blocks[b + 1..]), key)
  {
    StrictTotalOrder();
    var b := ChosenBlock(blocks, key);
    CutIsSorted(blocks, b);
    assert b > 0 ==> AtMost(IndexOf(blocks)[b].0, key);
    var post := Flatten(blocks[b + 1..]);
    if b + 1 < |blocks| {
      IndexIsSorted(blocks, b, b + 1);
      assert Less(key, IndexOf(blocks)[b].0) || Less(key, IndexOf(blocks)[b + 1].0);
      assert blocks[b + 1..][0] == blocks[b + 1];
      assert post[0] == blocks[b + 1][0];
      CutAt(blocks, b);
      var all := Flatten(blocks);
      forall i | 0 < i < |post| ensures Less(post[0].0, post[i].0) {
        var base := |all| - |post|;
        assert all[base] == post[0] && all[base + i] == post[i];
      }
    }
  }

  lemma LookupInChosenBlock(blocks: seq<Block>, key: Key)
    requires blocks != [] && Ascending(Flatten(blocks))
    ensures Lookup(Flatten(blocks), key) == Lookup(blocks[ChosenBlock(blocks, key)], key)
  {
    StrictTotalOrder();
    var b := ChosenBlock(blocks, key);
    ChosenBlockSplits(blocks, key);
    CutAt(blocks, b);
    var all, pre, own, post := Flatten(blocks), Flatten(blocks[..b]), blocks[b], Flatten(blocks[b + 1..]);
    LookupSkips(all, |pre|, key);
    assert all[|pre|..] == own + post;
    LookupAppend(own, post, key);
    LookupAbsent(post, key);
  }

  lemma {:induction false} LookupAppend(a: seq<Row>, b: seq<Row>, key: Key)
    ensures Lookup(a + b, key) == if Lookup(a, key).Some? then Lookup(a, key) else Lookup(b, key)
  {
    if a == [] {
      assert a + b == b;
    } else {
      assert (a + b)[1..] == a[1..] + b;
      LookupAppend(a[1..], b, key);
    }
  }

  lemma {:induction false} LookupMeansRow(rows: seq<Row>, key: Key) returns (i: nat)
    requires Lookup(rows, key).Some?
    ensures i < |rows| && rows[i].0 == key
  {
    if rows[0].0 == key {
      i := 0;
    } else {
      i := LookupMeansRow(rows[1..], key);
      i := i + 1;
    }
  }

  lemma FileGetIsLookup(blocks: seq<Block>, key: Key)
    requires Ascending(Flatten(blocks)) && AllSearchable(blocks)
    ensures FileGet(blocks, key) == Lookup(Flatten(blocks), key)
  {
    var entries := Flatten(blocks);
    if blocks != [] {
      if MayContain(Filter(entries), key) {
        var b := ChosenBlock(blocks, key);
        LookupInChosenBlock(blocks, key);
        CutIsSorted(blocks, b);
        BlockGetIsLookup(blocks[b], IsLast(blocks, b), key);
      } else if Lookup(entries, key).Some? {
        var i := LookupMeansRow(entries, key);
        FilterHasNoFalseNegatives(entries, i);
      }
    }
  }

  lemma ChosenForLastKey(blocks: seq<Block>, b: nat)
    requires b < |blocks| && Ascending(Flatten(blocks))
    ensures ChosenBlock(blocks, blocks[b][|blocks[b]| - 1].0) == b
  {
    StrictTotalOrder();
    var key, index := blocks[b][|blocks[b]| - 1].0, IndexOf(blocks);
    CutIsSorted(blocks, b);
    forall c | 0 <= c <= b ensures AtMost(index[c].0, key) {
      if c < b {
        IndexIsSorted(blocks, c, b);
      }
    }
    if b + 1 < |blocks| {
      IndexIsSorted(blocks, b, b + 1);
      assert Less(key, index[b + 1].0);
    }
  }

  lemma LastKeyIsMissed(blocks: seq<Block>, b: nat)
    requires b < |blocks| && Ascending(Flatten(blocks)) && !Searchable(blocks[b], IsLast(blocks, b))
    ensures var key := blocks[b][|blocks[b]| - 1].0;
      FileGet(blocks, key) == None && Lookup(Flatten(blocks), key).Some?
  {
    ChosenForLastKey(blocks, b);
    LookupInChosenBlock(blocks, blocks[b][|blocks[b]| - 1].0);
    CutIsSorted(blocks, b);
    UnsearchableBlockMisses(blocks[b], IsLast(blocks, b));
  }

  /** Point reads of a file equal list lookup for every key exactly when every block is searchable. */
  lemma PointReadsExactIff(blocks: seq<Block>)
    requires Ascending(Flatten(blocks))
    ensures (forall key :: FileGet(blocks, key) == Lookup(Flatten(blocks), key)) <==> AllSearchable(blocks)
  {
    if AllSearchable(blocks) {
      forall key ensures FileGet(blocks, key) == Lookup(Flatten(blocks), key) {
        FileGetIsLookup(blocks, key);
      }
    } else {
      var b :| 0 <= b < |blocks| && !Searchable(blocks[b], IsLast(blocks, b));
      LastKeyIsMissed(blocks, b);
    }
  }

  lemma {:induction false} ScanBlocksIsSelect(blocks: seq<Block>, b: nat, start: Key, end: Key)
    requires b <= |blocks| && Ascending(Flatten(blocks)) && (AllSearchable(blocks) || start == [])
    ensures ScanBlocks(blocks, b, start, end) == Select(Flatten(blocks[b..]), start, end)
    decreases |blocks| - b
  {
    if b < |blocks| {
      StrictTotalOrder();
      CutIsSorted(blocks, b);
      var own, post := blocks[b], Flatten(blocks[b + 1..]);
      assert blocks[b..][1..] == blocks[b + 1..];
      assert Flatten(blocks[b..]) == own + post;
      if Less(end, own[0].0) {
        SelectNothing(own + post, start, end);
      } else {
        BlockScanIsSelect(own, IsLast(blocks, b), start, end);
        ScanBlocksIsSelect(blocks, b + 1, start, end);
        SelectAppend(own, post, start, end);
      }
    }
  }

  lemma NothingInEmptyRange(rows: seq<Row>, start: Key, end: Key)
    requires Less(end, start)
    ensures Select(rows, start, end) == []
  {
    forall i | 0 <= i < |rows| ensures Less(rows[i].0, start) || Less(end, rows[i].0) {
      LessTrichotomy(rows[i].0, start);
      if Less(start, rows[i].0) {
        LessTransitive(end, start, rows[i].0);
      }
    }
    SelectNothing(rows, start, end);
  }

  lemma SkippedBlocksHoldNothing(blocks: seq<Block>, b: nat, start: Key, end: Key)
    requires b <= |blocks| && AllBelow(Flatten(blocks[..b]), start)
    ensures Select(Flatten(blocks), start, end) == Select(Flatten(blocks[b..]), start, end)
  {
    assert blocks == blocks[..b] + blocks[b..];
    FlattenAppend(blocks[..b], blocks[b..]);
    SelectAppend(Flatten(blocks[..b]), Flatten(blocks[b..]), start, end);
    SelectNothing(Flatten(blocks[..b]), start, end);
  }

  lemma FileScanIsSelect(blocks: seq<Block>, start: Key, end: Key)
    requires Ascending(Flatten(blocks)) && (AllSearchable(blocks) || start == [])
    ensures FileScan(blocks, start, end) == Select(Flatten(blocks), start, end)
  {
    if Less(end, start) {
      NothingInEmptyRange(Flatten(blocks), start, end);
    } else if blocks != [] {
      var b := ChosenBlock(blocks, start);
      ChosenBlockSplits(blocks, start);
      ScanBlocksIsSelect(blocks, b, start, end);
      SkippedBlocksHoldNothing(blocks, b, start, end);
    }
  }

  /** A scan from the empty key is right for every file, dangling restarts included. */
  lemma FullScanExact(blocks: seq<Block>, end: Key)
    requires Ascending(Flatten(blocks))
    ensures FileScan(blocks, [], end) == Select(Flatten(blocks), [], end)
  {
    FileScanIsSelect(blocks, [], end);
  }

  /** Range reads are right for every range exactly when point reads are right for every key. */
  lemma RangeReadsExactIff(blocks: seq<Block>)
    requires Ascending(Flatten(blocks))
    ensures (forall start, end :: FileScan(blocks, start, end) == Select(Flatten(blocks), start, end))
        <==> AllSearchable(blocks)
  {
    if AllSearchable(blocks) {
      forall start, end ensures FileScan(blocks, start, end) == Select(Flatten(blocks), start, end) {
        FileScanIsSelect(blocks, start, end);
      }
    } else {
      var b :| 0 <= b < |blocks| && !Searchable(blocks[b], IsLast(blocks, b));
      LastKeyScanIsEmpty(blocks, b);
      LastKeyIsSelected(blocks, b);
    }
  }

  lemma LastKeyIsSelected(blocks: seq<Block>, b: nat)
    requires b < |blocks|
    ensures var key := blocks[b][|blocks[b]| - 1].0; Select(Flatten(blocks), key, key) != []
  {
    StrictTotalOrder();
    var n := |blocks[b]| - 1;
    CutAt(blocks, b);
    var all, i := Flatten(blocks), |Flatten(blocks[..b])| + n;
    assert all[i] == blocks[b][n];
    SelectKeeps(all, i, blocks[b][n].0, blocks[b][n].0);
  }

  lemma {:induction false} SelectKeeps(rows: seq<Row>, i: nat, start: Key, end: Key)
    requires i < |rows| && AtMost(start, rows[i].0) && AtMost(rows[i].0, end)
    ensures Select(rows, start, end) != []
  {
    if i > 0 {
      SelectKeeps(rows[1..], i - 1, start, end);
    }
  }

  lemma LastKeyScanIsEmpty(blocks: seq<Block>, b: nat)
    requires b < |blocks| && Ascending(Flatten(blocks)) && !Searchable(blocks[b], IsLast(blocks, b))
    ensures var key := blocks[b][|blocks[b]| - 1].0; FileScan(blocks, key, key) == []
  {
    StrictTotalOrder();
    var key := blocks[b][|blocks[b]| - 1].0;
    ChosenForLastKey(blocks, b);
    CutIsSorted(blocks, b);
    UnsearchableLosesLastKey(blocks[b], IsLast(blocks, b));
    assert BlockScan(blocks[b], IsLast(blocks, b), key, key) == [];
    if b + 1 < |blocks| {
      IndexIsSorted(blocks, b, b + 1);
    }
    assert ScanBlocks(blocks, b + 1, key, key) == [];
  }
}
