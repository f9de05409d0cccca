/** The skip list of the memtable: nodes linked in place on up to twelve levels. */
module SkipLists {
  import opened Bytes

  // ----- the sorted list it stands for -----

  /** How many rows have a smaller key. */
  function Rank(keys: seq<Key>, key: Key): (r: nat)
    ensures r <= |keys|
    decreases keys
  {
    if keys == [] || !Less(keys[0], key) then 0 else 1 + Rank(keys[1..], key)
  }

  ghost predicate Sorted(keys: seq<Key>) {
    forall i, j :: 0 <= i < j < |keys| ==> Less(keys[i], keys[j])
  }

  function KeysOf(rows: seq<Row>): (keys: seq<Key>)
    ensures |keys| == |rows|
  {
    seq(|rows|, i requires 0 <= i < |rows| => rows[i].0)
  }

  lemma {:induction false} RankSplits(keys: seq<Key>, key: Key)
    requires Sorted(keys)
    ensures forall i :: 0 <= i < Rank(keys, key) ==> Less(keys[i], key)
    ensures forall i :: Rank(keys, key) <= i < |keys| ==> !Less(keys[i], key)
    decreases keys
  {
    StrictTotalOrder();
    if keys != [] && Less(keys[0], key) {
      RankSplits(keys[1..], key);
    }
  }

  lemma {:induction false} RankOfMember(keys: seq<Key>, i: nat)
    requires Sorted(keys) && i < |keys|
    ensures Rank(keys, keys[i]) == i
    decreases keys
  {
    StrictTotalOrder();
    if i > 0 {
      assert keys[1..][i - 1] == keys[i];
      RankOfMember(keys[1..], i - 1);
    }
  }

  lemma InsertedSorted(keys: seq<Key>, key: Key)
    requires Sorted(keys)
    requires var r := Rank(keys, key); r < |keys| ==> keys[r] != key
    ensures var r := Rank(keys, key); Sorted(keys[..r] + [key] + keys[r..])
  {
    StrictTotalOrder();
    var r := Rank(keys, key);
    RankSplits(keys, key);
    forall i | r <= i < |keys| ensures Less(key, keys[i]) {
      assert r < i ==> Less(keys[r], keys[i]);
    }
  }

  /** Overwrite the row of an existing key, or insert a row where it belongs. */
  function Upsert(rows: seq<Row>, key: Key, value: ByteString): seq<Row> {
    var r := Rank(KeysOf(rows), key);
    if r < |rows| && rows[r].0 == key then rows[r := (key, value)]
    else rows[..r] + [(key, value)] + rows[r..]
  }

  ghost predicate Maps(rows: seq<Row>, m: map<Key, ByteString>) {
    RowsOf(rows, m) && forall k :: k in m ==> HasRow(rows, k)
  }

  /** All rows before the rank of a key sort below it; all later ones above, the one at the rank itself
      unless it is the key's own. */
  lemma RankParts(rows: seq<Row>, key: Key)
    requires Ascending(rows)
    ensures var r := Rank(KeysOf(rows), key);
      && r <= |rows|
      && (forall i :: 0 <= i < r ==> Less(rows[i].0, key))
      && (forall i :: r <= i < |rows| ==> Less(key, rows[i].0) || (i == r && rows[i].0 == key))
  {
    var r, keys := Rank(KeysOf(rows), key), KeysOf(rows);
    RankSplits(keys, key);
    forall i | 0 <= i < r ensures Less(rows[i].0, key) {
      assert keys[i] == rows[i].0;
    }
    forall i | r <= i < |rows| ensures Less(key, rows[i].0) || (i == r && rows[i].0 == key) {
      assert keys[i] == rows[i].0 && keys[r] == rows[r].0;
      LessTrichotomy(rows[i].0, key);
      LessTrichotomy(rows[r].0, key);
      assert i > r ==> Less(rows[r].0, rows[i].0);
      LessTrichotomy(rows[r].0, rows[i].0);
    }
  }

  /** The row at index `i` after the upsert, and where the key went. */
  lemma UpsertAt(rows: seq<Row>, key: Key, value: ByteString)
    requires Ascending(rows)
    ensures var r, out := Rank(KeysOf(rows), key), Upsert(rows, key, value);
      && r < |out| && out[r] == (key, value)
      && (forall i :: 0 <= i < r ==> out[i] == rows[i] && Less(rows[i].0, key))
      && (forall i :: r < i < |out| ==> out[i] == rows[i - (|out| - |rows|)] && Less(key, out[i].0))
      && (|out| == |rows| ==> rows[r].0 == key)
      && |rows| <= |out| <= |rows| + 1
  {
    var r, out := Rank(KeysOf(rows), key), Upsert(rows, key, value);
    RankParts(rows, key);
    forall i | r < i < |out| ensures out[i] == rows[i - (|out| - |rows|)] && Less(key, out[i].0) {
      assert out[i] == rows[i - (|out| - |rows|)];
    }
  }

  lemma UpsertKeepsSorted(rows: seq<Row>, key: Key, value: ByteString)
    requires Ascending(rows)
    ensures Ascending(Upsert(rows, key, value))
  {
    StrictTotalOrder();
    UpsertAt(rows, key, value);
  }

  lemma UpsertHasRow(rows: seq<Row>, key: Key, value: ByteString, k: Key)
    requires Ascending(rows) && (k == key || HasRow(rows, k))
    ensures HasRow(Upsert(rows, key, value), k)
  {
    UpsertAt(rows, key, value);
    var r, out := Rank(KeysOf(rows), key), Upsert(rows, key, value);
    if k == key {
      assert out[r].0 == k;
    } else {
      var i :| 0 <= i < |rows| && rows[i].0 == k;
      var j := if i < r then i else i + (|out| - |rows|);
      assert j > r || i < r;
      assert out[j].0 == k;
    }
  }

  /** Inserting changes the map at that key and nowhere else. */
  lemma UpsertIsMapUpdate(rows: seq<Row>, key: Key, value: ByteString, m: map<Key, ByteString>)
    requires Ascending(rows) && Maps(rows, m)
    ensures Maps(Upsert(rows, key, value), m[key := value])
  {
    StrictTotalOrder();
    UpsertAt(rows, key, value);
    forall k | k in m[key := value] ensures HasRow(Upsert(rows, key, value), k) {
      UpsertHasRow(rows, key, value, k);
    }
  }

  // ----- heights and links -----

  /** The next position after `p` whose tower reaches level `l`. */
  ghost function After(hs: seq<nat>, p: nat, l: nat): (q: nat)
    requires p < |hs|
    ensures p < q <= |hs|
    ensures forall r :: p < r < q ==> hs[r] <= l
    ensures q < |hs| ==> hs[q] > l
    decreases |hs| - p
  {
    if p + 1 == |hs| || hs[p + 1] > l then p + 1 else After(hs, p + 1, l)
  }

  lemma AfterIs(hs: seq<nat>, p: nat, l: nat, q: nat)
    requires p < q <= |hs| && (forall r :: p < r < q ==> hs[r] <= l) && (q < |hs| ==> hs[q] > l)
    ensures After(hs, p, l) == q
  {
  }

  /** The last position up to `p` whose tower reaches level `l`. */
  ghost predicate IsBefore(hs: seq<nat>, p: nat, l: nat, q: nat) {
    q <= p < |hs| && hs[q] > l && forall r :: q < r <= p ==> hs[r] <= l
  }

  ghost function Spliced<T>(s: seq<T>, at: nat, x: T): (r: seq<T>)
    requires at < |s|
    ensures |r| == |s| + 1
    ensures forall i :: 0 <= i < |r| ==> r[i] == if i <= at then s[i] else if i == at + 1 then x else s[i - 1]
  {
    s[..at + 1] + [x] + s[at + 1..]
  }

  lemma AfterBehindSplice(hs: seq<nat>, at: nat, h: nat, p: nat, l: nat)
    requires at < p < |hs|
    ensures After(Spliced(hs, at, h), p + 1, l) == After(hs, p, l) + 1
  {
    AfterIs(Spliced(hs, at, h), p + 1, l, After(hs, p, l) + 1);
  }

  lemma AfterInFrontOfSplice(hs: seq<nat>, at: nat, h: nat, p: nat, l: nat)
    requires at < |hs| && p < |hs| && After(hs, p, l) <= at
    ensures After(Spliced(hs, at, h), p, l) == After(hs, p, l)
  {
    AfterIs(Spliced(hs, at, h), p, l, After(hs, p, l));
  }

  lemma AfterAcrossSplice(hs: seq<nat>, at: nat, h: nat, p: nat, l: nat)
    requires p <= at < |hs| && at < After(hs, p, l)
    ensures After(Spliced(hs, at, h), p, l) == if l < h then at + 1 else After(hs, p, l) + 1
  {
    AfterIs(Spliced(hs, at, h), p, l, if l < h then at + 1 else After(hs, p, l) + 1);
  }

  /** How splicing a tower of height `h` in behind position `at` moves the links. */
  lemma AfterSplice(hs: seq<nat>, at: nat, h: nat, p: nat, l: nat)
    requires at < |hs| && p < |hs| && hs[p] > l
    ensures var hs', q := Spliced(hs, at, h), After(hs, p, l);
      && (p > at ==> After(hs', p + 1, l) == q + 1)
      && (p <= at && q <= at ==> After(hs', p, l) == q)
      && (p <= at < q && l < h ==> After(hs', p, l) == at + 1)
      && (p <= at < q && l >= h ==> After(hs', p, l) == q + 1)
  {
    if p > at {
      AfterBehindSplice(hs, at, h, p, l);
    } else if After(hs, p, l) <= at {
      AfterInFrontOfSplice(hs, at, h, p, l);
    } else {
      AfterAcrossSplice(hs, at, h, p, l);
    }
  }

  lemma AfterNew(hs: seq<nat>, at: nat, h: nat, p: nat, l: nat)
    requires at < |hs| && l < h && IsBefore(hs, at, l, p)
    ensures After(Spliced(hs, at, h), at + 1, l) == After(hs, p, l) + 1
    ensures After(hs, p, l) > at
  {
    var hs', q := Spliced(hs, at, h), After(hs, p, l);
    AfterIs(hs', at + 1, l, q + 1);
  }

  /** The positions met by following the links of level `l` from position `p`. */
  ghost function Chain(hs: seq<nat>, p: nat, l: nat): (c: seq<nat>)
    requires p < |hs|
    ensures forall i :: 0 <= i < |c| ==> p < c[i] < |hs|
    decreases |hs| - p
  {
    var q := After(hs, p, l);
    if q == |hs| then [] else [q] + Chain(hs, q, l)
  }

  /** A level meets exactly the towers that reach it, in order. */
  lemma {:induction false} ChainIsLevel(hs: seq<nat>, p: nat, l: nat)
    requires p < |hs|
    ensures forall i, j :: 0 <= i < j < |Chain(hs, p, l)| ==> Chain(hs, p, l)[i] < Chain(hs, p, l)[j]
    ensures forall q :: q in Chain(hs, p, l) <==> p < q < |hs| && hs[q] > l
    decreases |hs| - p
  {
    var q := After(hs, p, l);
    if q < |hs| {
      ChainIsLevel(hs, q, l);
    }
  }

  /** Each level is a sublist of the level below, and the ground level is the whole list. */
  lemma LevelsNest(hs: seq<nat>, l: nat)
    requires hs != [] && forall q :: 0 < q < |hs| ==> hs[q] > 0
    ensures forall q :: q in Chain(hs, 0, l + 1) ==> q in Chain(hs, 0, l)
    ensures forall q :: 0 < q < |hs| ==> q in Chain(hs, 0, 0)
  {
    ChainIsLevel(hs, 0, l);
    ChainIsLevel(hs, 0, l + 1);
    ChainIsLevel(hs, 0, 0);
  }

  class Node {
    const key: Key
    var value: ByteString
    var next: seq<Node?>

    constructor (k: Key, v: ByteString, height: nat)
      ensures key == k && value == v && next == seq(height, _ => null)
    {
      key, value := k, v;
      next := seq(height, _ => null);
    }

    method SetNext(i: nat, x: Node?)
      requires i < |next|
      modifies this`next
      ensures next == old(next)[i := x]
    {
      next := next[i := x];
    }
  }

  ghost function Links(all: seq<Node>): (links: seq<seq<Node?>>)
    reads all
    ensures |links| == |all|
    ensures forall i :: 0 <= i < |all| ==> links[i] == all[i].next
  {
    seq(|all|, i requires 0 <= i < |all| reads all => all[i].next)
  }

  ghost function Heights(links: seq<seq<Node?>>): (hs: seq<nat>)
    ensures |hs| == |links|
    ensures forall i :: 0 <= i < |hs| ==> hs[i] == |links[i]|
  {
    seq(|links|, i requires 0 <= i < |links| => |links[i]|)
  }

  /** The link of position `p` at level `l` leads to the next tower that is tall enough. */
  ghost predicate Linked(all: seq<Node>, links: seq<seq<Node?>>, p: nat, l: nat)
    requires p < |all| == |links| && l < |links[p]|
  {
    var q := After(Heights(links), p, l);
    links[p][l] == if q < |all| then all[q] else null
  }

  ghost predicate AllLinked(all: seq<Node>, links: seq<seq<Node?>>)
    requires |all| == |links|
  {
    forall p, l :: 0 <= p < |all| && 0 <= l < |links[p]| ==> Linked(all, links, p, l)
  }

  ghost function KeysIn(nodes: seq<Node>): (keys: seq<Key>)
    ensures |keys| == |nodes|
  {
    seq(|nodes|, i requires 0 <= i < |nodes| => nodes[i].key)
  }

  ghost function RowsIn(nodes: seq<Node>): (rows: seq<Row>)
    reads nodes
    ensures |rows| == |nodes|
  {
    seq(|nodes|, i requires 0 <= i < |nodes| reads nodes => (nodes[i].key, nodes[i].value))
  }

  lemma KeysInserted(nodes: seq<Node>, r: nat, x: Node)
    requires r <= |nodes|
    ensures KeysIn(nodes[..r] + [x] + nodes[r..]) == KeysIn(nodes)[..r] + [x.key] + KeysIn(nodes)[r..]
  {
    var more, keys := nodes[..r] + [x] + nodes[r..], KeysIn(nodes)[..r] + [x.key] + KeysIn(nodes)[r..];
    forall i | 0 <= i < |more| ensures more[i].key == keys[i] {
      assert more[i] == if i < r then nodes[i] else if i == r then x else nodes[i - 1];
    }
  }

  lemma RowInserted(nodes: seq<Node>, r: nat, x: Node)
    requires r <= |nodes|
    ensures RowsIn(nodes[..r] + [x] + nodes[r..]) == RowsIn(nodes)[..r] + [(x.key, x.value)] + RowsIn(nodes)[r..]
  {
    var more, rows := nodes[..r] + [x] + nodes[r..], RowsIn(nodes)[..r] + [(x.key, x.value)] + RowsIn(nodes)[r..];
    forall i | 0 <= i < |more| ensures RowsIn(more)[i] == rows[i] {
      assert more[i] == if i < r then nodes[i] else if i == r then x else nodes[i - 1];
    }
  }

  lemma UpsertInserts(rows: seq<Row>, key: Key, value: ByteString, r: nat)
    requires r == Rank(KeysOf(rows), key) && (r < |rows| ==> rows[r].0 != key)
    ensures Upsert(rows, key, value) == rows[..r] + [(key, value)] + rows[r..]
  {
  }

  lemma RowsInserted(nodes: seq<Node>, r: nat, x: Node)
    requires r == Rank(KeysIn(nodes), x.key) && (r < |nodes| ==> nodes[r].key != x.key)
    ensures RowsIn(nodes[..r] + [x] + nodes[r..]) == Upsert(RowsIn(nodes), x.key, x.value)
    ensures KeysIn(nodes[..r] + [x] + nodes[r..]) == KeysIn(nodes)[..r] + [x.key] + KeysIn(nodes)[r..]
  {
    assert KeysOf(RowsIn(nodes)) == KeysIn(nodes);
    KeysInserted(nodes, r, x);
    RowInserted(nodes, r, x);
    UpsertInserts(RowsIn(nodes), x.key, x.value, r);
  }

  ghost predicate AllDistinct(all: seq<Node>) {
    forall i, j :: 0 <= i < j < |all| ==> all[i] != all[j]
  }

  /** Where position `p` ends up when one is inserted behind `r`. */
  function Shifted(p: nat, r: nat): nat {
    if p <= r then p else p + 1
  }

  lemma DistinctSpliced(all: seq<Node>, r: nat, x: Node)
    requires r < |all| && AllDistinct(all) && x !in all
    ensures AllDistinct(Spliced(all, r, x))
  {
    var more := Spliced(all, r, x);
    forall i, j | 0 <= i < j < |more| ensures more[i] != more[j] {
      assert i != r + 1 ==> more[i] == all[if i <= r then i else i - 1];
      assert j != r + 1 ==> more[j] == all[if j <= r then j else j - 1];
    }
  }

  /** What setting the links of a new tower `x` behind position `r` does: level by level, `x` takes over
      the link of the last tower before it and that tower points to `x`. */
  ghost predicate OldLinks(links: seq<seq<Node?>>, r: nat, x: Node, h: nat, prevAt: seq<nat>, links': seq<seq<Node?>>, p: nat)
    requires p < |links| && |links'| == |links| + 1 && |prevAt| == h
  {
    && |links'[Shifted(p, r)]| == |links[p]|
    && forall l :: 0 <= l < |links[p]| ==>
         links'[Shifted(p, r)][l] == if l < h && p == prevAt[l] then x else links[p][l]
  }

  ghost predicate SplicedLinks(links: seq<seq<Node?>>, r: nat, x: Node, h: nat, prevAt: seq<nat>, links': seq<seq<Node?>>)
    requires r < |links|
  {
    && |prevAt| == h
    && |links'| == |links| + 1
    && (forall l :: 0 <= l < h ==> IsBefore(Heights(links), r, l, prevAt[l]))
    && |links'[r + 1]| == h
    && (forall l :: 0 <= l < h ==> links'[r + 1][l] == links[prevAt[l]][l])
    && (forall p :: 0 <= p < |links| ==> OldLinks(links, r, x, h, prevAt, links', p))
  }

  lemma SplicedHeights(links: seq<seq<Node?>>, r: nat, x: Node, h: nat, prevAt: seq<nat>, links': seq<seq<Node?>>)
    requires r < |links| && SplicedLinks(links, r, x, h, prevAt, links')
    ensures Heights(links') == Spliced(Heights(links), r, h)
  {
    var hs' := Spliced(Heights(links), r, h);
    forall i | 0 <= i < |links'| ensures |links'[i]| == hs'[i] {
      if i != r + 1 {
        assert OldLinks(links, r, x, h, prevAt, links', if i <= r then i else i - 1);
      }
    }
  }

  lemma NotPrevStaysBefore(hs: seq<nat>, r: nat, l: nat, b: nat, p: nat)
    requires IsBefore(hs, r, l, b) && p <= r && hs[p] > l
    ensures p <= b
    ensures p != b ==> After(hs, p, l) <= r
    ensures p == b ==> After(hs, p, l) > r
  {
  }

  /** One old link before and after the splice, `b` being the tower the new one is linked from. */
  lemma OldLinkLeads(all: seq<Node>, hs: seq<nat>, r: nat, x: Node, h: nat, b: nat, p: nat, l: nat,
      link: Node?, link': Node?)
    requires r < |all| == |hs| && p < |hs| && l < hs[p]
    requires l < h ==> IsBefore(hs, r, l, b)
    requires var q := After(hs, p, l); link == if q < |all| then all[q] else null
    requires link' == if l < h && p == b then x else link
    ensures var q' := After(Spliced(hs, r, h), Shifted(p, r), l);
      link' == if q' < |all| + 1 then Spliced(all, r, x)[q'] else null
  {
    if l < h && p == b {
      AfterSplice(hs, r, h, p, l);
      PrevReachesPast(hs, r, l, b);
    } else {
      KeptLinkLeads(hs, r, h, b, p, l);
      SplicedTarget(all, r, x, After(hs, p, l));
    }
  }

  /** A link that the new tower does not take over reaches the same node, which may stand one further on. */
  lemma KeptLinkLeads(hs: seq<nat>, r: nat, h: nat, b: nat, p: nat, l: nat)
    requires r < |hs| && p < |hs| && l < hs[p] && !(l < h && p == b)
    requires l < h ==> IsBefore(hs, r, l, b)
    ensures After(Spliced(hs, r, h), Shifted(p, r), l) == Shifted(After(hs, p, l), r)
  {
    AfterSplice(hs, r, h, p, l);
    if l < h && p <= r {
      NotPrevStaysBefore(hs, r, l, b, p);
    }
    hide After;
  }

  lemma SplicedTarget(all: seq<Node>, r: nat, x: Node, q: nat)
    requires r < |all| && q <= |all|
    ensures q < |all| <==> Shifted(q, r) < |all| + 1
    ensures q < |all| ==> Spliced(all, r, x)[Shifted(q, r)] == all[q]
  {
  }

  lemma PrevReachesPast(hs: seq<nat>, r: nat, l: nat, b: nat)
    requires r < |hs| && IsBefore(hs, r, l, b)
    ensures b <= r < After(hs, b, l)
  {
  }

  lemma OldTowerLinked(all: seq<Node>, links: seq<seq<Node?>>, r: nat, x: Node, h: nat, prevAt: seq<nat>,
      links': seq<seq<Node?>>, p: nat, l: nat)
    requires r < |all| == |links| && AllLinked(all, links) && SplicedLinks(links, r, x, h, prevAt, links')
    requires p < |links| && l < |links[p]|
    ensures l < |links'[Shifted(p, r)]| && Linked(Spliced(all, r, x), links', Shifted(p, r), l)
  {
    SplicedHeights(links, r, x, h, prevAt, links');
    assert Linked(all, links, p, l);
    assert OldLinks(links, r, x, h, prevAt, links', p);
    var b := if l < h then prevAt[l] else 0;
    assert l < h ==> IsBefore(Heights(links), r, l, b);
    OldLinkLeads(all, Heights(links), r, x, h, b, p, l, links[p][l], links'[Shifted(p, r)][l]);
  }

  lemma NewTowerLinked(all: seq<Node>, links: seq<seq<Node?>>, r: nat, x: Node, h: nat, prevAt: seq<nat>,
      links': seq<seq<Node?>>, l: nat)
    requires r < |all| == |links| && AllLinked(all, links) && SplicedLinks(links, r, x, h, prevAt, links')
    requires l < h
    ensures Linked(Spliced(all, r, x), links', r + 1, l)
  {
    var hs, p := Heights(links), prevAt[l];
    SplicedHeights(links, r, x, h, prevAt, links');
    assert IsBefore(hs, r, l, p);
    assert Linked(all, links, p, l);
    AfterNew(hs, r, h, p, l);
    var q := After(hs, p, l);
    assert links'[r + 1][l] == if q < |all| then all[q] else null;
    assert q < |all| ==> Spliced(all, r, x)[q + 1] == all[q];
  }

  /** Splicing keeps every level a list of exactly the towers that reach it. */
  lemma SpliceKeepsLinks(all: seq<Node>, links: seq<seq<Node?>>, r: nat, x: Node, h: nat, prevAt: seq<nat>,
      links': seq<seq<Node?>>)
    requires r < |all| == |links| && AllLinked(all, links) && SplicedLinks(links, r, x, h, prevAt, links')
    ensures AllLinked(Spliced(all, r, x), links')
  {
    forall p', l | 0 <= p' < |links'| && 0 <= l < |links'[p']| ensures Linked(Spliced(all, r, x), links', p', l) {
      if p' == r + 1 {
        NewTowerLinked(all, links, r, x, h, prevAt, links', l);
      } else {
        var p := if p' <= r then p' else p' - 1;
        assert OldLinks(links, r, x, h, prevAt, links', p);
        OldTowerLinked(all, links, r, x, h, prevAt, links', p, l);
      }
    }
  }

  /** On levels [from, to) `prev` holds the last node at or before position `r` that reaches the level. */
  ghost predicate PrevUpTo(all: seq<Node>, hs: seq<nat>, prev: seq<Node?>, r: nat, from: nat, to: nat)
    requires |hs| == |all|
  {
    to <= |prev| && forall l :: from <= l < to ==> IsPrev(all, hs, prev[l], r, l)
  }

  ghost predicate IsPrev(all: seq<Node>, hs: seq<nat>, n: Node?, r: nat, l: nat)
    requires |hs| == |all|
  {
    exists p :: 0 <= p < |all| && n == all[p] && IsBefore(hs, r, l, p)
  }

  lemma PrevFound(all: seq<Node>, hs: seq<nat>, prev: seq<Node?>, r: nat, level: nat, to: nat, p: nat)
    requires |hs| == |all| && p < |all| && level < to && IsBefore(hs, r, level, p)
    requires PrevUpTo(all, hs, prev, r, level + 1, to)
    ensures PrevUpTo(all, hs, prev[level := all[p]], r, level, to)
  {
    assert IsPrev(all, hs, all[p], r, level);
  }

  lemma {:induction false} PrevPositions(all: seq<Node>, hs: seq<nat>, prev: seq<Node?>, r: nat, h: nat)
    returns (prevAt: seq<nat>)
    requires |hs| == |all| && PrevUpTo(all, hs, prev, r, 0, h)
    ensures |prevAt| == h
    ensures forall l :: 0 <= l < h ==> prevAt[l] < |all| && prev[l] == all[prevAt[l]] && IsBefore(hs, r, l, prevAt[l])
  {
    if h == 0 {
      prevAt := [];
    } else {
      prevAt := PrevPositions(all, hs, prev, r, h - 1);
      assert IsPrev(all, hs, prev[h - 1], r, h - 1);
      var p: nat :| 0 <= p < |all| && prev[h - 1] == all[p] && IsBefore(hs, r, h - 1, p);
      prevAt := prevAt + [p];
    }
  }

  /** The linking loop of an insertion, level by level from the ground up. */
  method LinkIn(x: Node, prev: seq<Node?>, ghost all: seq<Node>, ghost prevAt: seq<nat>)
    requires x !in all && AllDistinct(all)
    requires |prevAt| == |x.next| <= |prev|
    requires forall l :: 0 <= l < |prevAt| ==> prevAt[l] < |all| && prev[l] == all[prevAt[l]] && l < |all[prevAt[l]].next|
    modifies x`next, all`next
    ensures |x.next| == |prevAt|
    ensures forall l :: 0 <= l < |prevAt| ==> x.next[l] == old(all[prevAt[l]].next[l])
    ensures forall p :: 0 <= p < |all| ==> |all[p].next| == old(|all[p].next|)
    ensures forall p, l :: 0 <= p < |all| && 0 <= l < |all[p].next| ==>
      all[p].next[l] == if l < |prevAt| && p == prevAt[l] then x else old(all[p].next[l])
  {
    var i := 0;
    while i < |x.next|
      invariant 0 <= i <= |x.next| == |prevAt|
      invariant forall l :: 0 <= l < i ==> x.next[l] == old(all[prevAt[l]].next[l])
      invariant forall p :: 0 <= p < |all| ==> |all[p].next| == old(|all[p].next|)
      invariant forall p, l :: 0 <= p < |all| && 0 <= l < |all[p].next| ==>
        all[p].next[l] == if l < i && p == prevAt[l] then x else old(all[p].next[l])
    {
      var before := prev[i];
      x.SetNext(i, before.next[i]);
      before.SetNext(i, x);
      i := i + 1;
    }
  }

  /** Linking a new tower behind position `r` leaves every level complete. */
  method LinkNew(node: Node, prev: seq<Node?>, ghost all: seq<Node>, ghost r: nat)
    requires node !in all && AllDistinct(all) && r < |all| && AllLinked(all, Links(all))
    requires |node.next| <= |prev| && PrevUpTo(all, Heights(Links(all)), prev, r, 0, |node.next|)
    modifies node`next, all`next
    ensures |node.next| == old(|node.next|)
    ensures forall n :: n in all ==> |n.next| == old(|n.next|)
    ensures AllLinked(Spliced(all, r, node), Links(Spliced(all, r, node)))
  {
    ghost var links, h := Links(all), |node.next|;
    ghost var prevAt := PrevPositions(all, Heights(links), prev, r, h);
    LinkIn(node, prev, all, prevAt);
    LinkedInIsSpliced(node, all, r, links, h, prevAt);
    SpliceKeepsLinks(all, links, r, node, h, prevAt, Links(Spliced(all, r, node)));
  }

  lemma LinkedInIsSpliced(node: Node, all: seq<Node>, r: nat, links: seq<seq<Node?>>, h: nat, prevAt: seq<nat>)
    requires r < |all| == |links| && |prevAt| == h == |node.next|
    requires forall l :: 0 <= l < h ==> IsBefore(Heights(links), r, l, prevAt[l]) && node.next[l] == links[prevAt[l]][l]
    requires forall p :: 0 <= p < |all| ==> |all[p].next| == |links[p]|
    requires forall p, l :: 0 <= p < |all| && 0 <= l < |all[p].next| ==>
      all[p].next[l] == if l < h && p == prevAt[l] then node else links[p][l]
    ensures SplicedLinks(links, r, node, h, prevAt, Links(Spliced(all, r, node)))
  {
    var all' := Spliced(all, r, node);
    forall p | 0 <= p < |all| ensures OldLinks(links, r, node, h, prevAt, Links(all'), p) {
      assert all'[Shifted(p, r)] == all[p];
    }
    assert all'[r + 1] == node;
  }

  class SkipList {
    const head: Node
    var maxHeight: nat
    ghost var nodes: seq<Node>

    ghost function All(): (all: seq<Node>)
      reads this`nodes
    {
      [head] + nodes
    }

    ghost function Keys(): (keys: seq<Key>)
      reads this`nodes
      ensures |keys| == |nodes|
    {
      KeysIn(nodes)
    }

    ghost function Contents(): (rows: seq<Row>)
      reads this`nodes, nodes
      ensures |rows| == |nodes|
    {
      RowsIn(nodes)
    }

    ghost predicate HeightsOk()
      reads this, head, nodes
    {
      && 1 <= maxHeight <= 12
      && |head.next| == 12
      && forall i :: 0 <= i < |nodes| ==> 1 <= |nodes[i].next| <= maxHeight
    }

    ghost predicate Valid()
      reads this, head, nodes
    {
      AllDistinct(All()) && HeightsOk() && Sorted(Keys()) && AllLinked(All(), Links(All()))
    }

    constructor ()
      ensures Valid() && Contents() == [] && nodes == [] && fresh(head)
    {
      head := new Node([], [], 12);
      maxHeight := 1;
      nodes := [];
    }

    ghost function Towers(): (hs: seq<nat>)
      reads this`nodes, head, nodes
      ensures |hs| == |All()|
    {
      Heights(Links(All()))
    }

    lemma LinkOf(p: nat, level: nat)
      requires Valid() && p < |All()| && level < |All()[p].next|
      ensures var q := After(Towers(), p, level);
        All()[p].next[level] == if q < |All()| then All()[q] else null
    {
      assert Linked(All(), Links(All()), p, level);
      assert Links(All())[p] == All()[p].next;
    }

    /** Looking ahead from a node below the key: either the next tower is below it as well, or this is
        the last node of its level below it. */
    lemma LookAhead(p: nat, level: nat, key: Key)
      requires Valid() && p <= Rank(Keys(), key) && level < |All()[p].next|
      ensures var r, q, next := Rank(Keys(), key), After(Towers(), p, level), All()[p].next[level];
        if next != null && Less(next.key, key) then p < q <= r && next == All()[q] && |next.next| > level
        else IsBefore(Towers(), r, level, p)
    {
      var q := After(Towers(), p, level);
      LinkOf(p, level);
      RankSplits(Keys(), key);
      assert q <= |nodes| ==> Keys()[q - 1] == nodes[q - 1].key && Towers()[q] == |nodes[q - 1].next|;
    }

    lemma TowerAbove(i: nat)
      requires Valid() && i < |nodes|
      ensures Towers()[i + 1] == |nodes[i].next| > 0
    {
      assert All()[i + 1] == nodes[i];
    }

    /** On the ground level nothing is skipped. */
    lemma GroundLevel(p: nat, r: nat)
      requires Valid() && r <= |nodes| && IsBefore(Towers(), r, 0, p)
      ensures p == r && All()[p].next[0] == if r < |nodes| then nodes[r] else null
    {
      if p < r {
        TowerAbove(r - 1);
      }
      LinkOf(r, 0);
      if r < |nodes| {
        TowerAbove(r);
        assert After(Towers(), r, 0) == r + 1;
      }
    }

    /** The first node not below `key`, and on every level in use the last node below it. */
    method FindGreaterOrEqual(key: Key) returns (x: Node?, prev: seq<Node?>)
      requires Valid()
      ensures var r := Rank(Keys(), key);
        x == if r < |nodes| then nodes[r] else null
      ensures |prev| == 12
      ensures PrevUpTo(All(), Towers(), prev, Rank(Keys(), key), 0, maxHeight)
    {
      var y: Node, level: nat := head, maxHeight - 1;
      prev := seq(12, _ => null);
      ghost var p: nat, r: nat := 0, Rank(Keys(), key);
      while true
        invariant 0 <= level < maxHeight && |prev| == 12
        invariant p <= r && y == All()[p] && |y.next| > level
        invariant PrevUpTo(All(), Towers(), prev, r, level + 1, maxHeight)
        decreases level, |nodes| - p
      {
        LookAhead(p, level, key);
        var next := y.next[level];
        if next != null && Less(next.key, key) {
          y, p := next, After(Towers(), p, level);
        } else {
          PrevFound(All(), Towers(), prev, r, level, maxHeight, p);
          prev := prev[level := y];
          if level == 0 {
            GroundLevel(p, r);
            return next, prev;
          }
          level := level - 1;
        }
      }
    }

    /** The last node below `key`, the head when there is none. */
    method FindLessThan(key: Key) returns (x: Node)
      requires Valid()
      ensures x == All()[Rank(Keys(), key)]
    {
      x := head;
      var level: nat := maxHeight - 1;
      ghost var p: nat, r: nat := 0, Rank(Keys(), key);
      while true
        invariant 0 <= level < maxHeight
        invariant p <= r && x == All()[p] && |x.next| > level
        decreases level, |nodes| - p
      {
        LookAhead(p, level, key);
        var next := x.next[level];
        if next == null || AtMost(key, next.key) {
          if level == 0 {
            GroundLevel(p, r);
            return;
          }
          level := level - 1;
        } else {
          x, p := next, After(Towers(), p, level);
        }
      }
    }

    /** The last node, the head when the list is empty. */
    method FindLast() returns (x: Node)
      requires Valid()
      ensures x == All()[|nodes|]
    {
      x := head;
      var level: nat := maxHeight - 1;
      ghost var p: nat := 0;
      while true
        invariant 0 <= level < maxHeight
        invariant p <= |nodes| && x == All()[p] && |x.next| > level
        decreases level, |nodes| - p
      {
        LinkOf(p, level);
        var next := x.next[level];
        if next == null {
          if level == 0 {
            GroundLevel(p, |nodes|);
            return;
          }
          level := level - 1;
        } else {
          x, p := next, After(Towers(), p, level);
        }
      }
    }

    lemma HeadIsPrev(r: nat, l: nat)
      requires Valid() && r <= |nodes| && maxHeight <= l < 12
      ensures IsPrev(All(), Towers(), head, r, l)
    {
      forall i | 0 < i <= r ensures Towers()[i] <= l {
        TowerAbove(i - 1);
      }
      assert IsBefore(Towers(), r, l, 0) && All()[0] == head;
    }

    /** Insert or overwrite; `height` is what the random height turned out to be. */
    method Insert(key: Key, value: ByteString, height: nat)
      requires Valid() && 1 <= height <= 12
      modifies this, head, nodes
      ensures Valid()
      ensures forall n :: n in nodes ==> n in old(nodes) || fresh(n)
      ensures Contents() == Upsert(old(Contents()), key, value)
    {
      assert KeysOf(Contents()) == Keys();
      var x, prev := FindGreaterOrEqual(key);
      if x != null && x.key == key {
        Overwrite(x, Rank(Keys(), key), value);
      } else {
        InsertNew(key, value, height, prev);
      }
    }

    method Overwrite(x: Node, ghost r: nat, value: ByteString)
      requires Valid() && r < |nodes| && x == nodes[r] && r == Rank(KeysOf(Contents()), x.key)
      modifies x`value
      ensures Valid()
      ensures Contents() == Upsert(old(Contents()), x.key, value)
    {
      x.value := value;
      forall i | 0 <= i < |nodes| && i != r ensures nodes[i] != x {
        assert All()[i + 1] == nodes[i] && All()[r + 1] == x;
      }
      assert Links(All()) == old(Links(All()));
    }

    /** Levels never used before start at the head. */
    method RaiseTo(height: nat, prev0: seq<Node?>, ghost r: nat) returns (prev: seq<Node?>)
      requires Valid() && 1 <= height <= 12 && r <= |nodes|
      requires |prev0| == 12 && PrevUpTo(All(), Towers(), prev0, r, 0, maxHeight)
      modifies this`maxHeight
      ensures Valid() && maxHeight >= height
      ensures |prev| == 12 && PrevUpTo(All(), Towers(), prev, r, 0, height)
    {
      prev := prev0;
      if height > maxHeight {
        var i := maxHeight;
        while i < height
          invariant Valid() && maxHeight == old(maxHeight) <= i <= height && |prev| == 12
          invariant PrevUpTo(All(), Towers(), prev, r, 0, i)
        {
          HeadIsPrev(r, i);
          prev := prev[i := head];
          i := i + 1;
        }
        maxHeight := height;
      }
    }

    method InsertNew(key: Key, value: ByteString, height: nat, prev0: seq<Node?>)
      requires Valid() && 1 <= height <= 12
      requires var r := Rank(Keys(), key);
        && (r < |nodes| ==> nodes[r].key != key)
        && |prev0| == 12 && PrevUpTo(All(), Towers(), prev0, r, 0, maxHeight)
      modifies this, head, nodes
      ensures Valid()
      ensures forall n :: n in nodes ==> n in old(nodes) || fresh(n)
      ensures Contents() == Upsert(old(Contents()), key, value)
    {
      ghost var r := Rank(Keys(), key);
      var prev := RaiseTo(height, prev0, r);
      AddNode(key, value, height, prev, r);
    }

    method AddNode(key: Key, value: ByteString, height: nat, prev: seq<Node?>, ghost r: nat)
      requires Valid() && 1 <= height <= maxHeight && |prev| == 12
      requires r == Rank(Keys(), key) && (r < |nodes| ==> nodes[r].key != key)
      requires PrevUpTo(All(), Towers(), prev, r, 0, height)
      modifies this`nodes, head`next, nodes`next
      ensures Valid()
      ensures forall n :: n in nodes ==> n in old(nodes) || fresh(n)
      ensures Contents() == Upsert(old(Contents()), key, value)
    {
      var node := new Node(key, value, height);
      Weave(node, prev, r);
    }

    method Weave(node: Node, prev: seq<Node?>, ghost r: nat)
      requires Valid() && node !in All() && 1 <= |node.next| <= maxHeight && |prev| == 12
      requires r == Rank(Keys(), node.key) && (r < |nodes| ==> nodes[r].key != node.key)
      requires PrevUpTo(All(), Towers(), prev, r, 0, |node.next|)
      modifies this`nodes, node`next, head`next, nodes`next
      ensures Valid() && nodes == old(nodes[..r]) + [node] + old(nodes[r..])
      ensures Contents() == Upsert(old(Contents()), node.key, node.value)
    {
      ghost var more := nodes[..r] + [node] + nodes[r..];
      LinkTower(node, prev, r);
      NewTowerFits(node, r);
      Attach(more);
    }

    lemma AllIsHeadAndNodes()
      ensures head in All() && (forall n :: n in nodes ==> n in All())
      ensures forall n :: n in All() ==> n == head || n in nodes
    {
    }

    method LinkTower(node: Node, prev: seq<Node?>, ghost r: nat)
      requires Valid() && node !in All() && r <= |nodes|
      requires |node.next| <= |prev| && PrevUpTo(All(), Towers(), prev, r, 0, |node.next|)
      modifies node`next, head`next, nodes`next
      ensures |node.next| == old(|node.next|) && HeightsOk() && RowsIn(nodes) == old(RowsIn(nodes))
      ensures AllLinked(Spliced(All(), r, node), Links(Spliced(All(), r, node)))
    {
      AllIsHeadAndNodes();
      LinkNew(node, prev, All(), r);
    }

    /** `more` could take the place of `nodes`. */
    ghost predicate Fits(more: seq<Node>)
      reads this`maxHeight, head, more
    {
      && AllDistinct([head] + more) && Sorted(KeysIn(more)) && AllLinked([head] + more, Links([head] + more))
      && 1 <= maxHeight <= 12 && |head.next| == 12
      && forall i :: 0 <= i < |more| ==> 1 <= |more[i].next| <= maxHeight
    }

    lemma NewTowerFits(node: Node, r: nat)
      requires AllDistinct(All()) && HeightsOk() && Sorted(Keys()) && node !in All()
      requires r == Rank(Keys(), node.key) && (r < |nodes| ==> nodes[r].key != node.key)
      requires 1 <= |node.next| <= maxHeight && AllLinked(Spliced(All(), r, node), Links(Spliced(All(), r, node)))
      ensures Fits(nodes[..r] + [node] + nodes[r..])
      ensures RowsIn(nodes[..r] + [node] + nodes[r..]) == Upsert(RowsIn(nodes), node.key, node.value)
    {
      RowsInserted(nodes, r, node);
      InsertedSorted(Keys(), node.key);
      TowersInserted(r, node);
    }

    /** The new tower becomes part of the list. */
    ghost method Attach(more: seq<Node>)
      requires Fits(more)
      modifies this`nodes
      ensures Valid() && nodes == more && Contents() == old(RowsIn(more))
    {
      nodes := more;
      assert All() == [head] + more;
    }

    lemma TowersInserted(r: nat, x: Node)
      requires r <= |nodes| && HeightsOk() && 1 <= |x.next| <= maxHeight && AllDistinct(All()) && x !in All()
      ensures var more := nodes[..r] + [x] + nodes[r..];
        && (forall i :: 0 <= i < |more| ==> 1 <= |more[i].next| <= maxHeight)
        && AllDistinct([head] + more)
        && [head] + more == Spliced(All(), r, x)
    {
      var more := nodes[..r] + [x] + nodes[r..];
      assert [head] + more == Spliced(All(), r, x);
      DistinctSpliced(All(), r, x);
      forall i | 0 <= i < |more| ensures 1 <= |more[i].next| <= maxHeight {
        assert more[i] == if i < r then nodes[i] else if i == r then x else nodes[i - 1];
      }
    }

    method Contains(key: Key) returns (b: bool)
      requires Valid()
      ensures b == HasRow(Contents(), key)
    {
      var x, _ := FindGreaterOrEqual(key);
      b := x != null && x.key == key;
      RankDecides(key);
    }

    method Get(key: Key) returns (value: Option<ByteString>)
      requires Valid()
      ensures value.Some? <==> HasRow(Contents(), key)
      ensures value.Some? ==> (key, value.value) in Contents()
    {
      var x, _ := FindGreaterOrEqual(key);
      RankDecides(key);
      if x != null && x.key == key {
        assert Contents()[Rank(Keys(), key)] == (key, x.value);
        return Some(x.value);
      }
      return None;
    }

    lemma RankDecides(key: Key)
      requires Valid()
      ensures var r := Rank(Keys(), key); HasRow(Contents(), key) <==> r < |nodes| && nodes[r].key == key
    {
      StrictTotalOrder();
      var r := Rank(Keys(), key);
      RankSplits(Keys(), key);
      if r < |nodes| && nodes[r].key == key {
        assert Contents()[r].0 == key;
      }
      forall i | 0 <= i < |nodes| && Contents()[i].0 == key ensures i == r {
        RankOfMember(Keys(), i);
      }
    }

    lemma ContentsSorted()
      requires Valid()
      ensures Ascending(Contents())
    {
      forall i, j | 0 <= i < j < |nodes| ensures Less(Contents()[i].0, Contents()[j].0) {
        assert Less(Keys()[i], Keys()[j]);
      }
    }

    lemma RankOf(i: nat)
      requires Valid() && i < |nodes|
      ensures Rank(Keys(), nodes[i].key) == i
    {
      RankOfMember(Keys(), i);
    }

    lemma AllAt(i: nat)
      requires i <= |nodes|
      ensures All()[i] == if i == 0 then head else nodes[i - 1]
    {
    }

    lemma HeadIsNoNode()
      requires Valid()
      ensures head !in nodes
    {
      forall i | 0 <= i < |nodes| ensures nodes[i] != head {
        assert All()[0] == head && All()[i + 1] == nodes[i];
      }
    }

    lemma HeadOnGround()
      requires Valid()
      ensures head.next[0] == if nodes == [] then null else nodes[0]
    {
      assert All()[0] == head;
      assert IsBefore(Towers(), 0, 0, 0);
      GroundLevel(0, 0);
    }

    lemma NextOnGround(i: nat)
      requires Valid() && i < |nodes|
      ensures |nodes[i].next| > 0 && nodes[i].next[0] == if i + 1 < |nodes| then nodes[i + 1] else null
    {
      TowerAbove(i);
      assert IsBefore(Towers(), i + 1, 0, i + 1);
      GroundLevel(i + 1, i + 1);
    }
  }

  /** A cursor; `pos` is the position it stands at, `|list.nodes|` when it is not valid. */
  class Iterator {
    const list: SkipList
    var node: Node?
    ghost var pos: nat

    ghost predicate OnList()
      reads this, list, list.head, list.nodes
    {
      list.Valid() && pos <= |list.nodes| && node == if pos < |list.nodes| then list.nodes[pos] else null
    }

    constructor (l: SkipList)
      requires l.Valid()
      ensures list == l && OnList() && pos == |l.nodes|
    {
      list, node, pos := l, null, |l.nodes|;
    }

    predicate IsValid()
      reads this
    {
      node != null
    }

    method Next()
      requires OnList() && IsValid()
      modifies `node, `pos
      ensures OnList() && pos == old(pos) + 1
    {
      list.NextOnGround(pos);
      node, pos := node.next[0], pos + 1;
    }

    method Prev()
      requires OnList() && IsValid()
      modifies `node, `pos
      ensures OnList() && pos == if old(pos) == 0 then |list.nodes| else old(pos) - 1
    {
      list.RankOf(pos);
      list.HeadIsNoNode();
      list.AllAt(pos);
      hide SkipList.Valid, SkipList.All, SkipList.Keys, Rank;
      var before := list.FindLessThan(node.key);
      node := if before == list.head then null else before;
      pos := if pos == 0 then |list.nodes| else pos - 1;
    }

    method Seek(target: Key)
      requires OnList()
      modifies `node, `pos
      ensures OnList() && pos == Rank(list.Keys(), target)
    {
      var x, _ := list.FindGreaterOrEqual(target);
      node, pos := x, Rank(list.Keys(), target);
    }

    method SeekToFirst()
      requires OnList()
      modifies `node, `pos
      ensures OnList() && pos == 0
    {
      list.HeadOnGround();
      node, pos := list.head.next[0], 0;
    }

    method SeekToLast()
      requires OnList()
      modifies `node, `pos
      ensures OnList() && pos == if list.nodes == [] then 0 else |list.nodes| - 1
    {
      var last := list.FindLast();
      list.HeadIsNoNode();
      list.AllAt(|list.nodes|);
      node := if last == list.head then null else last;
      pos := if list.nodes == [] then 0 else |list.nodes| - 1;
    }
  }
}
