/** Byte strings, the order `std::string` compares them in, and little-endian integers. */
module Bytes {

  type Byte = b: int | 0 <= b < 256
  type ByteString = seq<Byte>

  type Key = ByteString
  type Row = (Key, ByteString)

  const U32 := 0x1_0000_0000
  const U64 := 0x1_0000_0000_0000_0000

  datatype Option<+T> = None | Some(value: T)

  // ----- lexicographic order on unsigned bytes -----

  predicate Less(a: ByteString, b: ByteString) {
    b != [] && (a == [] || a[0] < b[0] || (a[0] == b[0] && Less(a[1..], b[1..])))
  }

  predicate AtMost(a: ByteString, b: ByteString) {
    !Less(b, a)
  }

  lemma {:induction false} LessTransitive(a: ByteString, b: ByteString, c: ByteString)
    requires Less(a, b) && Less(b, c)
    ensures Less(a, c)
  {
    if a != [] && a[0] == b[0] && b[0] == c[0] {
      LessTransitive(a[1..], b[1..], c[1..]);
    }
  }

  lemma {:induction false} LessTrichotomy(a: ByteString, b: ByteString)
    ensures !(Less(a, b) && Less(b, a))
    ensures Less(a, b) || Less(b, a) <==> a != b
  {
    if a != [] && b != [] {
      assert a == [a[0]] + a[1..] && b == [b[0]] + b[1..];
      LessTrichotomy(a[1..], b[1..]);
    }
  }

  /** A bound of bytes 255 lets through every string but its own proper extensions. */
  lemma {:induction false} BelowBound(k: ByteString, bound: ByteString)
    requires forall i :: 0 <= i < |bound| ==> bound[i] == 255
    ensures AtMost(k, bound) <==> |k| <= |bound| || k[..|bound|] != bound
    decreases |bound|
  {
    if bound == [] {
      assert k[..0] == bound;
    } else if k != [] {
      assert bound[0] == 255;
      BelowBound(k[1..], bound[1..]);
      if |k| > |bound| {
        assert k[..|bound|][0] == k[0] && k[..|bound|][1..] == k[1..][..|bound| - 1];
        assert bound == [255] + bound[1..];
        assert k[..|bound|] == [k[0]] + k[1..][..|bound| - 1];
      }
    }
  }

  /** The order facts every search below relies on, as one bundle of quantifiers. */
  lemma StrictTotalOrder()
    ensures forall a, b, c :: Less(a, b) && Less(b, c) ==> Less(a, c)
    ensures forall a, b :: Less(a, b) ==> !Less(b, a)
    ensures forall a, b :: !Less(a, b) && !Less(b, a) ==> a == b
    ensures forall a :: !Less(a, a)
  {
    forall a, b, c | Less(a, b) && Less(b, c) ensures Less(a, c) {
      LessTransitive(a, b, c);
    }
    forall a, b ensures (Less(a, b) ==> !Less(b, a)) && (!Less(a, b) && !Less(b, a) ==> a == b) {
      LessTrichotomy(a, b);
    }
    forall a ensures !Less(a, a) {
      LessTrichotomy(a, a);
    }
  }

  predicate IsLeast(m: ByteString, s: set<ByteString>) {
    m in s && forall x :: x in s ==> AtMost(m, x)
  }

  lemma {:induction false} LeastExists(s: set<ByteString>)
    requires s != {}
    ensures exists m :: IsLeast(m, s)
  {
    StrictTotalOrder();
    var x :| x in s;
    if s == {x} {
      assert IsLeast(x, s);
    } else {
      LeastExists(s - {x});
      var m :| IsLeast(m, s - {x});
      assert s == (s - {x}) + {x};
      assert IsLeast(if Less(x, m) then x else m, s);
    }
  }

  // ----- sorted association lists -----

  ghost predicate Ascending<V>(rows: seq<(ByteString, V)>) {
    forall i, j :: 0 <= i < j < |rows| ==> Less(rows[i].0, rows[j].0)
  }

  /** Inserting the rows from the left, as `m[row.first] = row.second` does. */
  function FromRows<V>(m: map<ByteString, V>, rows: seq<(ByteString, V)>): map<ByteString, V>
    decreases rows
  {
    if rows == [] then m else FromRows(m[rows[0].0 := rows[0].1], rows[1..])
  }

  /** The rows of a map in the order a `std::map` is iterated. */
  ghost function Rows<V>(m: map<ByteString, V>): (rows: seq<(ByteString, V)>)
    decreases |m|
  {
    if m == map[] then [] else
      LeastExists(m.Keys);
      var k :| IsLeast(k, m.Keys);
      [(k, m[k])] + Rows(m - {k})
  }

  lemma RowsFirst<V>(m: map<ByteString, V>, k: ByteString)
    requires IsLeast(k, m.Keys)
    ensures m != map[] && Rows(m) == [(k, m[k])] + Rows(m - {k})
  {
    StrictTotalOrder();
  }

  ghost predicate RowsOf<V>(rows: seq<(ByteString, V)>, m: map<ByteString, V>) {
    forall i :: 0 <= i < |rows| ==> rows[i].0 in m && m[rows[i].0] == rows[i].1
  }

  ghost predicate HasRow<V>(rows: seq<(ByteString, V)>, k: ByteString) {
    exists i :: 0 <= i < |rows| && rows[i].0 == k
  }

  lemma PrependRow<V>(row: (ByteString, V), rest: seq<(ByteString, V)>)
    ensures HasRow([row] + rest, row.0)
    ensures forall k :: HasRow(rest, k) ==> HasRow([row] + rest, k)
    ensures Ascending(rest) && (forall i :: 0 <= i < |rest| ==> Less(row.0, rest[i].0)) ==> Ascending([row] + rest)
  {
    assert ([row] + rest)[0] == row;
    forall k | HasRow(rest, k) ensures HasRow([row] + rest, k) {
      var i :| 0 <= i < |rest| && rest[i].0 == k;
      assert ([row] + rest)[i + 1].0 == k;
    }
  }

  lemma RemoveLeast<V>(m: map<ByteString, V>, k: ByteString)
    requires k in m
    ensures |m - {k}| == |m| - 1
  {
    assert (m - {k}).Keys == m.Keys - {k};
    assert |m| == |m.Keys| && |m - {k}| == |(m - {k}).Keys|;
  }

  lemma PrependLeast<V>(m: map<ByteString, V>, least: ByteString, rows: seq<(ByteString, V)>)
    requires IsLeast(least, m.Keys) && Ascending(rows)
    requires RowsOf(rows, m - {least}) && forall k :: k in m - {least} ==> HasRow(rows, k)
    ensures var all := [(least, m[least])] + rows;
      Ascending(all) && RowsOf(all, m) && forall k :: k in m ==> HasRow(all, k)
  {
    hide Less, HasRow;
    forall i | 0 <= i < |rows| ensures Less(least, rows[i].0) {
      assert rows[i].0 in m && AtMost(least, rows[i].0);
      LessTrichotomy(least, rows[i].0);
    }
    PrependRow((least, m[least]), rows);
  }

  lemma {:induction false} RowsAreMap<V>(m: map<ByteString, V>)
    ensures |Rows(m)| == |m|
    ensures RowsOf(Rows(m), m)
    ensures forall k :: k in m ==> HasRow(Rows(m), k)
    ensures Ascending(Rows(m))
    decreases |m|
  {
    if m != map[] {
      LeastExists(m.Keys);
      var least :| IsLeast(least, m.Keys);
      var rest := m - {least};
      RowsFirst(m, least);
      RemoveLeast(m, least);
      RowsAreMap(rest);
      PrependLeast(m, least, Rows(rest));
    }
  }

  /** An ascending list of the entries of a map: its first key is the least, the rest lists the others. */
  lemma FirstRow<V>(rows: seq<(ByteString, V)>, m: map<ByteString, V>)
    requires rows != [] && Ascending(rows) && RowsOf(rows, m) && forall k :: k in m ==> HasRow(rows, k)
    ensures IsLeast(rows[0].0, m.Keys)
    ensures RowsOf(rows[1..], m - {rows[0].0}) && forall k :: k in m - {rows[0].0} ==> HasRow(rows[1..], k)
  {
    var first, rest := rows[0].0, rows[1..];
    forall k | k in m ensures AtMost(first, k) && (k != first ==> HasRow(rest, k)) {
      assert HasRow(rows, k);
      var i :| 0 <= i < |rows| && rows[i].0 == k;
      LessTrichotomy(first, k);
      assert i > 0 ==> rest[i - 1].0 == k && Less(first, k);
    }
    forall i | 0 <= i < |rest| ensures rest[i].0 != first {
      LessTrichotomy(first, rest[i].0);
    }
  }

  /** The rows of a map are the only ascending list of exactly its entries. */
  lemma {:induction false} RowsAreUnique<V>(rows: seq<(ByteString, V)>, m: map<ByteString, V>)
    requires Ascending(rows) && RowsOf(rows, m) && forall k :: k in m ==> HasRow(rows, k)
    ensures rows == Rows(m)
    decreases |rows|
  {
    if rows == [] {
      assert forall k :: k in m ==> !HasRow(rows, k);
      assert m == map[];
    } else {
      FirstRow(rows, m);
      RowsFirst(m, rows[0].0);
      RowsAreUnique(rows[1..], m - {rows[0].0});
      assert rows == [rows[0]] + rows[1..];
    }
  }

  lemma {:induction false} FromRowsOfMap<V>(acc: map<ByteString, V>, m: map<ByteString, V>)
    ensures FromRows(acc, Rows(m)) == acc + m
    decreases |m|
  {
    if m == map[] {
      assert acc + m == acc;
    } else {
      LeastExists(m.Keys);
      var least :| IsLeast(least, m.Keys);
      RowsFirst(m, least);
      RemoveLeast(m, least);
      FromRowsOfMap(acc[least := m[least]], m - {least});
      assert Rows(m)[1..] == Rows(m - {least});
      MoveOut(acc, m, least);
    }
  }

  lemma MoveOut<V>(acc: map<ByteString, V>, m: map<ByteString, V>, k: ByteString)
    requires k in m
    ensures acc[k := m[k]] + (m - {k}) == acc + m
  {
  }

  // ----- little-endian encodings -----

  function Pow256(width: nat): (p: nat)
    ensures p > 0
  {
    if width == 0 then 1 else 256 * Pow256(width - 1)
  }

  /** `n >> (8 * i)` */
  function Shift(n: nat, i: nat): nat {
    if i == 0 then n else Shift(n / 256, i - 1)
  }

  /** The low `width` bytes of `n`, least significant first: higher bytes are cut off, as a cast does. */
  function PutLE(n: nat, width: nat): (s: ByteString)
    ensures |s| == width
  {
    seq(width, i requires 0 <= i < width => Shift(n, i) % 256)
  }

  function GetLE(s: ByteString, i: nat): (n: nat)
    requires i <= |s|
    ensures n < Pow256(|s| - i)
    decreases |s| - i
  {
    if i == |s| then 0 else s[i] as int + 256 * GetLE(s, i + 1)
  }

  lemma {:induction false} ShiftOnce(n: nat, i: nat)
    ensures Shift(n, i + 1) == Shift(n, i) / 256
  {
    if i > 0 {
      ShiftOnce(n / 256, i - 1);
    }
  }

  lemma {:induction false} ShiftedOut(n: nat, width: nat)
    requires n < Pow256(width)
    ensures Shift(n, width) == 0
  {
    if width > 0 {
      ShiftedOut(n / 256, width - 1);
    }
  }

  lemma {:induction false} RoundTripLE(n: nat, width: nat, i: nat)
    requires n < Pow256(width) && i <= width
    ensures GetLE(PutLE(n, width), i) == Shift(n, i)
    decreases width - i
  {
    if i == width {
      ShiftedOut(n, width);
    } else {
      RoundTripLE(n, width, i + 1);
      ShiftOnce(n, i);
    }
  }

  function PutU32(n: nat): (s: ByteString)
    ensures |s| == 4
  {
    PutLE(n, 4)
  }

  function GetU32(s: ByteString): (n: nat)
    requires |s| == 4
    ensures n < U32
  {
    GetLE(s, 0)
  }

  function PutU64(n: nat): (s: ByteString)
    ensures |s| == 8
  {
    PutLE(n, 8)
  }

  function GetU64(s: ByteString): (n: nat)
    requires |s| == 8
    ensures n < U64
  {
    GetLE(s, 0)
  }

  lemma U32RoundTrip(n: nat)
    requires n < U32
    ensures GetU32(PutU32(n)) == n
  {
    RoundTripLE(n, 4, 0);
  }

  lemma U64RoundTrip(n: nat)
    requires n < U64
    ensures GetU64(PutU64(n)) == n
  {
    RoundTripLE(n, 8, 0);
  }
}
