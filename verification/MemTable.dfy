/** The memtable: a skip list and the range of its keys. */
module MemTables {
  import opened Bytes
  import opened SkipLists
  import Reads = SSTableReads

  class MemTable {
    const table: SkipList
    var hasRange: bool
    var minKey: Key
    var maxKey: Key

    ghost function Contents(): seq<Row>
      reads table`nodes, table.nodes
    {
      table.Contents()
    }

    /** The cached range is exactly the first and the last key. */
    ghost predicate RangeOk()
      reads this, table, table.nodes
    {
      var rows := Contents();
      && (hasRange <==> rows != [])
      && (hasRange ==> minKey == rows[0].0 && maxKey == rows[|rows| - 1].0)
    }

    ghost predicate Valid()
      reads this, table, table.head, table.nodes
    {
      table.Valid() && RangeOk()
    }

    constructor ()
      ensures Valid() && Contents() == [] && fresh(table) && fresh(table.head) && table.nodes == []
    {
      table := new SkipList();
      hasRange, minKey, maxKey := false, [], [];
    }

    method UpdateRange(key: Key)
      modifies `hasRange, `minKey, `maxKey
      ensures hasRange
      ensures minKey == if old(hasRange) && AtMost(old(minKey), key) then old(minKey) else key
      ensures maxKey == if old(hasRange) && AtMost(key, old(maxKey)) then old(maxKey) else key
    {
      if !hasRange {
        minKey, maxKey, hasRange := key, key, true;
      } else {
        if Less(key, minKey) { minKey := key; }
        if Less(maxKey, key) { maxKey := key; }
      }
    }

    method Put(key: Key, value: ByteString, height: nat)
      requires Valid() && 1 <= height <= 12
      modifies this, table, table.head, table.nodes
      ensures Valid()
      ensures forall n :: n in table.nodes ==> n in old(table.nodes) || fresh(n)
      ensures Contents() == Upsert(old(Contents()), key, value)
    {
      hide Upsert, Less, AtMost, SkipList.Valid, SkipList.Contents;
      ghost var rows := Contents();
      table.ContentsSorted();
      RangeAfterUpsert(rows, key, value);
      table.Insert(key, value, height);
      UpdateRange(key);
    }

    /** A delete is an insert of the empty value. */
    method Remove(key: Key, height: nat)
      requires Valid() && 1 <= height <= 12
      modifies this, table, table.head, table.nodes
      ensures Valid()
      ensures forall n :: n in table.nodes ==> n in old(table.nodes) || fresh(n)
      ensures Contents() == Upsert(old(Contents()), key, [])
    {
      Put(key, [], height);
    }

    method Get(key: Key) returns (value: Option<ByteString>)
      requires Valid()
      ensures value.Some? <==> HasRow(Contents(), key)
      ensures value.Some? ==> (key, value.value) in Contents()
    {
      value := table.Get(key);
    }

    method Scan(start: Key, end: Key) returns (out: seq<Row>)
      requires Valid()
      ensures out == Reads.Select(Contents(), start, end)
    {
      ghost var rows := Contents();
      table.ContentsSorted();
      if Less(end, start) {
        EmptyRange(rows, start, end);
        return [];
      }
      assert KeysOf(rows) == table.Keys();
      StartsAtRank(rows, start, end);
      Reads.ScanFromIsSelect(rows, Rank(KeysOf(rows), start), start, end);
      var iter := new Iterator(table);
      iter.Seek(start);
      out := Collect(iter, rows, start, end);
    }

    method Collect(iter: Iterator, ghost rows: seq<Row>, start: Key, end: Key) returns (out: seq<Row>)
      requires Valid() && rows == Contents() && Ascending(rows)
      requires iter.OnList() && iter.list == table && Rank(KeysOf(rows), start) <= iter.pos
      modifies iter
      ensures out == Reads.ScanFrom(rows, old(iter.pos), start, end)
    {
      out := [];
      ghost var first := iter.pos;
      while iter.IsValid()
        invariant iter.OnList() && first <= iter.pos <= |rows|
        invariant Collected(out, rows, first, iter.pos, start, end)
        decreases |rows| - iter.pos
      {
        var row := (iter.node.key, iter.node.value);
        assert rows[iter.pos] == row;
        if Less(end, row.0) {
          return;
        }
        CollectStep(out, rows, first, iter.pos, start, end);
        out := out + [row];
        iter.Next();
      }
    }

    method SortedEntries() returns (out: seq<Row>)
      requires Valid()
      ensures out == Contents() && Ascending(out)
    {
      out := [];
      ghost var rows := Contents();
      table.ContentsSorted();
      var iter := new Iterator(table);
      iter.SeekToFirst();
      while iter.IsValid()
        invariant iter.OnList() && iter.list == table && iter.pos <= |rows|
        invariant out == rows[..iter.pos]
        decreases |rows| - iter.pos
      {
        var row := (iter.node.key, iter.node.value);
        OneMoreRow(rows, iter.pos, row);
        out := out + [row];
        iter.Next();
      }
    }
  }

  /** `out` holds the rows of the scan between two positions. */
  ghost predicate Collected(out: seq<Row>, rows: seq<Row>, first: nat, pos: nat, start: Key, end: Key) {
    out + Reads.ScanFrom(rows, pos, start, end) == Reads.ScanFrom(rows, first, start, end)
  }

  lemma CollectStep(out: seq<Row>, rows: seq<Row>, first: nat, pos: nat, start: Key, end: Key)
    requires Ascending(rows) && Rank(KeysOf(rows), start) <= pos < |rows| && !Less(end, rows[pos].0)
    requires Collected(out, rows, first, pos, start, end)
    ensures Collected(out + [rows[pos]], rows, first, pos + 1, start, end)
  {
    AtOrAfterStart(rows, start, pos);
    var rest := Reads.ScanFrom(rows, pos + 1, start, end);
    assert out + ([rows[pos]] + rest) == (out + [rows[pos]]) + rest;
  }

  lemma OneMoreRow(rows: seq<Row>, i: nat, row: Row)
    requires i < |rows| && rows[i] == row
    ensures rows[..i + 1] == rows[..i] + [row]
  {
  }

  lemma RangeAfterUpsert(rows: seq<Row>, key: Key, value: ByteString)
    requires Ascending(rows)
    ensures var out := Upsert(rows, key, value);
      && out != []
      && out[0].0 == (if rows != [] && AtMost(rows[0].0, key) then rows[0].0 else key)
      && out[|out| - 1].0 == (if rows != [] && AtMost(key, rows[|rows| - 1].0) then rows[|rows| - 1].0 else key)
  {
    StrictTotalOrder();
    UpsertAt(rows, key, value);
  }

  /** The range check in front of a lookup never hides a key that is there. */
  lemma RangeCoversKeys(rows: seq<Row>, key: Key)
    requires Ascending(rows) && HasRow(rows, key)
    ensures AtMost(rows[0].0, key) && AtMost(key, rows[|rows| - 1].0)
  {
    StrictTotalOrder();
    var i :| 0 <= i < |rows| && rows[i].0 == key;
    assert 0 < i ==> Less(rows[0].0, rows[i].0);
    assert i < |rows| - 1 ==> Less(rows[i].0, rows[|rows| - 1].0);
  }

  lemma StartsAtRank(rows: seq<Row>, start: Key, end: Key)
    requires Ascending(rows)
    ensures var r := Rank(KeysOf(rows), start);
      Reads.Select(rows, start, end) == Reads.Select(rows[r..], start, end)
  {
    var r := Rank(KeysOf(rows), start);
    RankSplits(KeysOf(rows), start);
    Reads.SelectAppend(rows[..r], rows[r..], start, end);
    assert rows[..r] + rows[r..] == rows;
    forall i | 0 <= i < r ensures Less(rows[..r][i].0, start) {
      assert KeysOf(rows)[i] == rows[i].0;
    }
    Reads.SelectNothing(rows[..r], start, end);
  }

  lemma EmptyRange(rows: seq<Row>, start: Key, end: Key)
    requires Less(end, start)
    ensures Reads.Select(rows, start, end) == []
  {
    StrictTotalOrder();
    forall i | 0 <= i < |rows| ensures Less(rows[i].0, start) || Less(end, rows[i].0) {
      var k := rows[i].0;
      assert !Less(k, start) && k != start ==> Less(start, k);
    }
    Reads.SelectNothing(rows, start, end);
  }

  lemma AtOrAfterStart(rows: seq<Row>, start: Key, pos: nat)
    requires Ascending(rows) && Rank(KeysOf(rows), start) <= pos < |rows|
    ensures AtMost(start, rows[pos].0)
  {
    RankSplits(KeysOf(rows), start);
    assert KeysOf(rows)[pos] == rows[pos].0;
  }
}
