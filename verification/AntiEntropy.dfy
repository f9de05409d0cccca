/** Mutual gossip between two nodes. What a node sends for a key is some merge of the registers it has stored,
    the newest one among them. */
module AntiEntropy {
  import opened Bytes
  import opened VectorClocks
  import opened Crdt
  import opened Database
  import opened MergeTrees
  import opened Confluence
  import opened Replication

  function Absorbed(d: Db, rows: seq<(Key, Register)>): Db
    decreases rows
  {
    if rows == [] then d else Absorbed(RemotePut(d, rows[0].0, rows[0].1), rows[1..])
  }

  /** Draining one node's gossip applies its rows to the target and to nothing else. */
  lemma {:induction false} DrainGossip(nodes: Nodes, cut: set<NodeID>, from: NodeID, to: NodeID,
      rows: seq<(Key, Register)>, rest: seq<Message>)
    requires to in nodes && to !in cut
    ensures Drain(nodes, cut, GossipMessages(from, to, rows) + rest)
         == Drain(nodes[to := Absorbed(nodes[to], rows)], cut, rest)
    decreases rows
  {
    var queue := GossipMessages(from, to, rows) + rest;
    if rows == [] {
      assert queue == rest;
      assert nodes[to := nodes[to]] == nodes;
    } else {
      var next := Receive(nodes, queue[0]);
      assert queue[1..] == GossipMessages(from, to, rows[1..]) + rest;
      DrainGossip(next, cut, from, to, rows[1..], rest);
      assert next[to := Absorbed(next[to], rows[1..])] == nodes[to := Absorbed(nodes[to], rows)];
    }
  }

  ghost predicate RowFor(rows: seq<(Key, Register)>, k: Key, r: Register) {
    exists i :: 0 <= i < |rows| && rows[i] == (k, r)
  }

  /** Each key is met at most once, so it is merged with what the node held at the start. */
  lemma {:induction false} AbsorbedKey(d: Db, rows: seq<(Key, Register)>, k: Key)
    requires Ascending(rows)
    ensures !HasRow(rows, k) ==>
      (k in Absorbed(d, rows).store <==> k in d.store) && (k in d.store ==> Absorbed(d, rows).store[k] == d.store[k])
    ensures forall r :: RowFor(rows, k, r) ==>
      k in Absorbed(d, rows).store && Absorbed(d, rows).store[k] == Winner(d, k, r)
    decreases rows
  {
    if rows != [] {
      var d', rest := RemotePut(d, rows[0].0, rows[0].1), rows[1..];
      AbsorbedKey(d', rest, k);
      StrictTotalOrder();
      assert HasRow(rest, k) ==> HasRow(rows, k) && rows[0].0 != k;
      forall r | RowFor(rows, k, r)
        ensures k in Absorbed(d, rows).store && Absorbed(d, rows).store[k] == Winner(d, k, r)
      {
        var i :| 0 <= i < |rows| && rows[i] == (k, r);
        if i == 0 {
          assert !HasRow(rest, k);
          assert d'.store[k] == Winner(d, k, r);
        } else {
          assert rest[i - 1] == (k, r) && HasRow(rest, k);
          assert Winner(d', k, r) == Winner(d, k, r);
        }
      }
    }
  }

  // ----- what is known of the stored registers -----

  /** Without removals the registers a node has stored for a key are ordered by their clocks, up to the one
      it holds (ClusterLife.VersionsAreOrdered). */
  ghost predicate LiveHistory(newest: Register, stored: set<Register>) {
    IsNewest(newest, stored) && forall r :: r in stored ==> r.value != []
  }

  ghost predicate History(d: Db, stored: Stored) {
    forall k :: k in d.store ==> k in stored && LiveHistory(d.store[k], stored[k])
  }

  /** What a scan finds for a key is equivalent to one of the registers tied with the newest. */
  lemma FoundIsTied(found: map<Key, Register>, d: Db, stored: Stored, k: Key) returns (w: Register)
    requires History(d, stored) && IsScan(found, d, stored) && k in found
    ensures k in d.store && w in Tied(stored[k], d.store[k]) && Equiv(found[k], w) && found[k].value != []
    ensures Same(found[k].clock, d.store[k].clock)
  {
    var t :| Leaves(t) <= stored[k] && d.store[k] in Leaves(t) && Eval(t) == found[k];
    w := TreeIsTied(t, stored[k], d.store[k]);
    LeqTransitive(found[k].clock, w.clock, d.store[k].clock);
    LeqTransitive(d.store[k].clock, w.clock, found[k].clock);
  }

  /** For every register tied with the newest there is a scan that finds it. */
  lemma TiedIsFound(d: Db, stored: Stored, k: Key, w: Register) returns (found: map<Key, Register>)
    requires History(d, stored) && k in d.store && w in Tied(stored[k], d.store[k])
    ensures IsScan(found, d, stored) && Equiv(found[k], w)
  {
    var t := TiedIsReached(stored[k], d.store[k], w);
    found := d.store[k := Eval(t)];
    forall j | j in found ensures j in stored && IsFold(found[j], stored[j], d.store[j]) {
      if j == k {
        assert Leaves(t) <= stored[k] && d.store[k] in Leaves(t) && Eval(t) == found[k];
      } else {
        var leaf := Leaf(d.store[j]);
        assert Leaves(leaf) <= stored[j] && d.store[j] in Leaves(leaf) && Eval(leaf) == found[j];
      }
    }
  }

  /** The newest registers themselves are one possible result. */
  lemma StoreIsAScan(d: Db, stored: Stored)
    requires History(d, stored)
    ensures IsScan(d.store, d, stored)
  {
    forall j | j in d.store ensures IsFold(d.store[j], stored[j], d.store[j]) {
      var leaf := Leaf(d.store[j]);
      assert Leaves(leaf) <= stored[j] && d.store[j] in Leaves(leaf) && Eval(leaf) == d.store[j];
    }
  }

  // ----- one direction -----

  /** All of what the scan found delivered to the target. */
  ghost function GossipTo(nodes: Nodes, cut: set<NodeID>, from: NodeID, to: NodeID, found: map<Key, Register>): Nodes {
    Drain(nodes, cut, GossipMessages(from, to, Rows(Gossiped(found))))
  }

  lemma GossipedRows(found: map<Key, Register>, k: Key)
    ensures Ascending(Rows(Gossiped(found)))
    ensures k in Gossiped(found) ==> RowFor(Rows(Gossiped(found)), k, found[k])
    ensures k !in Gossiped(found) ==> !HasRow(Rows(Gossiped(found)), k)
  {
    var sent := Gossiped(found);
    var rows := Rows(sent);
    RowsAreMap(sent);
    if k in sent {
      var i :| 0 <= i < |rows| && rows[i].0 == k;
      assert rows[i] == (k, found[k]);
    }
  }

  lemma GossipedKey(nodes: Nodes, cut: set<NodeID>, from: NodeID, to: NodeID, found: map<Key, Register>, k: Key)
    requires to in nodes && to !in cut
    ensures var db, after := nodes[to], GossipTo(nodes, cut, from, to, found);
      && to in after && after == nodes[to := after[to]]
      && (k in Gossiped(found) ==> k in after[to].store && after[to].store[k] == Winner(db, k, found[k]))
      && (k !in Gossiped(found) ==>
            (k in after[to].store <==> k in db.store) && (k in db.store ==> after[to].store[k] == db.store[k]))
  {
    var rows := Rows(Gossiped(found));
    DrainGossip(nodes, cut, from, to, rows, []);
    assert GossipMessages(from, to, rows) + [] == GossipMessages(from, to, rows);
    GossipedRows(found, k);
    AbsorbedKey(nodes[to], rows, k);
  }

  // ----- both directions at once -----

  /** `a` and `b` gossip what their scans found to each other, nothing lost and nothing new. */
  ghost function Exchange(nodes: Nodes, cut: set<NodeID>, a: NodeID, b: NodeID,
      fa: map<Key, Register>, fb: map<Key, Register>): Nodes
  {
    Drain(nodes, cut, GossipMessages(a, b, Rows(Gossiped(fa))) + GossipMessages(b, a, Rows(Gossiped(fb))))
  }

  lemma ExchangeAbsorbs(nodes: Nodes, cut: set<NodeID>, a: NodeID, b: NodeID,
      fa: map<Key, Register>, fb: map<Key, Register>)
    requires a in nodes && b in nodes && a != b && a !in cut && b !in cut
    ensures Exchange(nodes, cut, a, b, fa, fb)
         == nodes[b := Absorbed(nodes[b], Rows(Gossiped(fa)))][a := Absorbed(nodes[a], Rows(Gossiped(fb)))]
  {
    var toB, toA := Rows(Gossiped(fa)), Rows(Gossiped(fb));
    DrainGossip(nodes, cut, a, b, toB, GossipMessages(b, a, toA));
    var mid := nodes[b := Absorbed(nodes[b], toB)];
    DrainGossip(mid, cut, b, a, toA, []);
    assert GossipMessages(b, a, toA) + [] == GossipMessages(b, a, toA);
  }

  /** The two nodes, their histories and what their scans found. */
  ghost predicate Setting(nodes: Nodes, cut: set<NodeID>, a: NodeID, b: NodeID, sa: Stored, sb: Stored) {
    && a in nodes && b in nodes && a != b && a !in cut && b !in cut
    && History(nodes[a], sa) && History(nodes[b], sb)
  }

  /** One side of the exchange for one key: the other's finding merged into what was held. */
  lemma ExchangedKey(nodes: Nodes, cut: set<NodeID>, a: NodeID, b: NodeID,
      fa: map<Key, Register>, fb: map<Key, Register>, k: Key)
    requires a in nodes && b in nodes && a != b && a !in cut && b !in cut
    ensures var da, db, after := nodes[a], nodes[b], Exchange(nodes, cut, a, b, fa, fb);
      && a in after && b in after
      && (k in Gossiped(fa) ==> k in after[b].store && after[b].store[k] == Winner(db, k, fa[k]))
      && (k in Gossiped(fb) ==> k in after[a].store && after[a].store[k] == Winner(da, k, fb[k]))
      && (k !in Gossiped(fa) && k in db.store ==> k in after[b].store && after[b].store[k] == db.store[k])
      && (k !in Gossiped(fb) && k in da.store ==> k in after[a].store && after[a].store[k] == da.store[k])
  {
    ExchangeAbsorbs(nodes, cut, a, b, fa, fb);
    GossipedRows(fa, k);
    GossipedRows(fb, k);
    AbsorbedKey(nodes[b], Rows(Gossiped(fa)), k);
    AbsorbedKey(nodes[a], Rows(Gossiped(fb)), k);
  }

  ghost predicate HoldsJoin(after: Db, k: Key, da: Db, db: Db) {
    && k in after.store
    && forall c :: Leq(after.store[k].clock, c) <==>
         (k in da.store ==> Leq(da.store[k].clock, c)) && (k in db.store ==> Leq(db.store[k].clock, c))
  }

  lemma WinnerHoldsJoin(d: Db, k: Key, f: Register, other: Db, after: Db)
    requires k in other.store && Same(f.clock, other.store[k].clock)
    requires k in after.store && after.store[k] == Winner(d, k, f) && (k in d.store ==> d.store[k].value != [])
    ensures HoldsJoin(after, k, other, d)
  {
    var g, r := f.clock, other.store[k].clock;
    forall c ensures Leq(after.store[k].clock, c) <==> Leq(r, c) && (k in d.store ==> Leq(d.store[k].clock, c)) {
      if k in d.store {
        MergeClock(f, d.store[k], c);
      }
      if Leq(g, c) { LeqTransitive(r, g, c); }
      if Leq(r, c) { LeqTransitive(g, r, c); }
    }
  }

  lemma HeldIsLive(d: Db, stored: Stored, k: Key, incoming: Register)
    requires History(d, stored) && k in d.store
    ensures d.store[k].value != [] && Winner(d, k, incoming) == MergeRegisters(incoming, d.store[k])
  {
    assert d.store[k] in stored[k];
  }

  lemma SentIfHeld(d: Db, stored: Stored, found: map<Key, Register>, k: Key)
    requires History(d, stored) && IsScan(found, d, stored) && AtMost(k, [255])
    ensures k in Gossiped(found) <==> k in d.store
    ensures k in d.store ==> k in found && Same(found[k].clock, d.store[k].clock)
  {
    if k in d.store {
      var w := FoundIsTied(found, d, stored, k);
    }
  }

  lemma BothHoldJoin(nodes: Nodes, cut: set<NodeID>, a: NodeID, b: NodeID, sa: Stored, sb: Stored,
      fa: map<Key, Register>, fb: map<Key, Register>, k: Key)
    requires Setting(nodes, cut, a, b, sa, sb) && IsScan(fa, nodes[a], sa) && IsScan(fb, nodes[b], sb)
    requires AtMost(k, [255]) && (k in nodes[a].store || k in nodes[b].store)
    ensures var after := Exchange(nodes, cut, a, b, fa, fb);
      && a in after && b in after
      && HoldsJoin(after[a], k, nodes[a], nodes[b]) && HoldsJoin(after[b], k, nodes[a], nodes[b])
  {
    var da, db, after := nodes[a], nodes[b], Exchange(nodes, cut, a, b, fa, fb);
    ExchangedKey(nodes, cut, a, b, fa, fb, k);
    SentIfHeld(da, sa, fa, k);
    SentIfHeld(db, sb, fb, k);
    assert k in da.store ==> da.store[k] in sa[k];
    assert k in db.store ==> db.store[k] in sb[k];
    if k in da.store {
      WinnerHoldsJoin(db, k, fa[k], da, after[b]);
    }
    if k in db.store {
      WinnerHoldsJoin(da, k, fb[k], db, after[a]);
    }
  }

  /** Whatever the scans find, after the round both nodes hold, for every gossiped key, the join of what they
      held ... */
  lemma AntiEntropyAgrees(nodes: Nodes, cut: set<NodeID>, a: NodeID, b: NodeID, sa: Stored, sb: Stored,
      fa: map<Key, Register>, fb: map<Key, Register>, k: Key)
    requires Setting(nodes, cut, a, b, sa, sb) && IsScan(fa, nodes[a], sa) && IsScan(fb, nodes[b], sb)
    requires AtMost(k, [255]) && (k in nodes[a].store || k in nodes[b].store)
    ensures var after := Exchange(nodes, cut, a, b, fa, fb);
      && a in after && b in after
      && HoldsJoin(after[a], k, nodes[a], nodes[b]) && HoldsJoin(after[b], k, nodes[a], nodes[b])
      && Same(after[a].store[k].clock, after[b].store[k].clock)
  {
    BothHoldJoin(nodes, cut, a, b, sa, sb, fa, fb, k);
    var after := Exchange(nodes, cut, a, b, fa, fb);
    var ca, cb := after[a].store[k].clock, after[b].store[k].clock;
    assert Leq(ca, ca) && Leq(cb, cb);
  }

  // ----- values -----

  /** The exchange ends with equivalent registers for `k`. */
  ghost predicate Agree(nodes: Nodes, a: NodeID, b: NodeID, k: Key) {
    a in nodes && b in nodes && k in nodes[a].store && k in nodes[b].store && Equiv(nodes[a].store[k], nodes[b].store[k])
  }

  /** However the two scans come out. */
  ghost predicate AlwaysAgree(nodes: Nodes, cut: set<NodeID>, a: NodeID, b: NodeID, sa: Stored, sb: Stored, k: Key)
    requires a in nodes && b in nodes
  {
    forall fa, fb :: IsScan(fa, nodes[a], sa) && IsScan(fb, nodes[b], sb) ==>
      Agree(Exchange(nodes, cut, a, b, fa, fb), a, b, k)
  }

  /** Any two tied registers, each merged into the other side, come out equivalent. */
  ghost predicate TiesAgree(da: Db, db: Db, sa: Stored, sb: Stored, k: Key)
    requires k in da.store && k in db.store && k in sa && k in sb
  {
    forall x, y :: x in Tied(sa[k], da.store[k]) && y in Tied(sb[k], db.store[k]) ==>
      Equiv(MergeRegisters(x, db.store[k]), MergeRegisters(y, da.store[k]))
  }

  lemma EquivToItself(r: Register)
    ensures Equiv(r, r)
  {
  }

  lemma AgreeByTies(nodes: Nodes, cut: set<NodeID>, a: NodeID, b: NodeID, sa: Stored, sb: Stored,
      fa: map<Key, Register>, fb: map<Key, Register>, x: Register, y: Register, k: Key)
    requires Setting(nodes, cut, a, b, sa, sb) && IsScan(fa, nodes[a], sa) && IsScan(fb, nodes[b], sb)
    requires AtMost(k, [255]) && k in nodes[a].store && k in nodes[b].store
    requires Equiv(fa[k], x) && Equiv(fb[k], y)
    ensures Agree(Exchange(nodes, cut, a, b, fa, fb), a, b, k)
      <==> Equiv(MergeRegisters(x, nodes[b].store[k]), MergeRegisters(y, nodes[a].store[k]))
  {
    hide Exchange, IsScan, Gossiped, History, Winner, MergeRegisters, AtMost;
    var ra, rb := nodes[a].store[k], nodes[b].store[k];
    ExchangedKey(nodes, cut, a, b, fa, fb, k);
    SentIfHeld(nodes[a], sa, fa, k);
    SentIfHeld(nodes[b], sb, fb, k);
    HeldIsLive(nodes[a], sa, k, fb[k]);
    HeldIsLive(nodes[b], sb, k, fa[k]);
    EquivToItself(ra);
    EquivToItself(rb);
    hide Equiv;
    MergeRespectsEquiv(fa[k], x, rb, rb);
    MergeRespectsEquiv(fb[k], y, ra, ra);
    SameOnBothSides(MergeRegisters(fa[k], rb), MergeRegisters(x, rb), MergeRegisters(fb[k], ra), MergeRegisters(y, ra));
  }

  lemma SameOnBothSides(p: Register, p': Register, q: Register, q': Register)
    requires Equiv(p, p') && Equiv(q, q')
    ensures Equiv(q, p) <==> Equiv(p', q')
  {
    if Equiv(q, p) {
      EquivThrough(p', p, q, q');
    }
    if Equiv(p', q') {
      EquivThrough(q, q', p', p);
    }
  }

  /** ... and the same register, however the scans come out, if and only if all registers tied with the newest
      ones agree when merged across. */
  lemma AntiEntropyConvergesIff(nodes: Nodes, cut: set<NodeID>, a: NodeID, b: NodeID, sa: Stored, sb: Stored, k: Key)
    requires Setting(nodes, cut, a, b, sa, sb)
    requires AtMost(k, [255]) && k in nodes[a].store && k in nodes[b].store
    ensures AlwaysAgree(nodes, cut, a, b, sa, sb, k) <==> TiesAgree(nodes[a], nodes[b], sa, sb, k)
  {
    var ra, rb := nodes[a].store[k], nodes[b].store[k];
    if TiesAgree(nodes[a], nodes[b], sa, sb, k) {
      forall fa, fb | IsScan(fa, nodes[a], sa) && IsScan(fb, nodes[b], sb)
        ensures Agree(Exchange(nodes, cut, a, b, fa, fb), a, b, k)
      {
        var x := FoundIsTied(fa, nodes[a], sa, k);
        var y := FoundIsTied(fb, nodes[b], sb, k);
        AgreeByTies(nodes, cut, a, b, sa, sb, fa, fb, x, y, k);
      }
    }
    if AlwaysAgree(nodes, cut, a, b, sa, sb, k) {
      forall x, y | x in Tied(sa[k], ra) && y in Tied(sb[k], rb)
        ensures Equiv(MergeRegisters(x, rb), MergeRegisters(y, ra))
      {
        var fa := TiedIsFound(nodes[a], sa, k, x);
        var fb := TiedIsFound(nodes[b], sb, k, y);
        AgreeByTies(nodes, cut, a, b, sa, sb, fa, fb, x, y, k);
      }
    }
  }

  /** No other value stands under the clock of the newest register. */
  predicate TieFree(stored: set<Register>, newest: Register) {
    forall w :: w in Tied(stored, newest) ==> w.value == newest.value
  }

  /** When neither side has such ties, the nodes agree unless they held different values under one clock. */
  lemma WithoutTiesConvergesIff(nodes: Nodes, cut: set<NodeID>, a: NodeID, b: NodeID, sa: Stored, sb: Stored,
      fa: map<Key, Register>, fb: map<Key, Register>, k: Key)
    requires Setting(nodes, cut, a, b, sa, sb) && IsScan(fa, nodes[a], sa) && IsScan(fb, nodes[b], sb)
    requires AtMost(k, [255]) && k in nodes[a].store && k in nodes[b].store
    requires TieFree(sa[k], nodes[a].store[k]) && TieFree(sb[k], nodes[b].store[k])
    ensures Agree(Exchange(nodes, cut, a, b, fa, fb), a, b, k) <==>
      (Same(nodes[a].store[k].clock, nodes[b].store[k].clock) ==> nodes[a].store[k].value == nodes[b].store[k].value)
  {
    var ra, rb := nodes[a].store[k], nodes[b].store[k];
    var x := FoundIsTied(fa, nodes[a], sa, k);
    var y := FoundIsTied(fb, nodes[b], sb, k);
    EquivBoth(fa[k], x, ra);
    EquivBoth(fb[k], y, rb);
    AgreeByTies(nodes, cut, a, b, sa, sb, fa, fb, ra, rb, k);
    MergeCommutesIff(ra, rb);
  }

  // ----- one side answers after it has merged -----

  /** The registers stored once the node holds `store` too. */
  function RememberAll(stored: Stored, store: map<Key, Register>): Stored {
    map k | k in store :: (if k in stored then stored[k] else {}) + {store[k]}
  }

  /** What `b` holds for `k` after `a`'s gossip has arrived. */
  lemma AnsweredState(nodes: Nodes, cut: set<NodeID>, a: NodeID, b: NodeID, sa: Stored, sb: Stored,
      fa: map<Key, Register>, k: Key)
    requires Setting(nodes, cut, a, b, sa, sb) && IsScan(fa, nodes[a], sa)
    ensures var mid := GossipTo(nodes, cut, a, b, fa);
      && b in mid && mid == nodes[b := mid[b]]
      && (k in nodes[b].store ==> k in mid[b].store && Leq(nodes[b].store[k].clock, mid[b].store[k].clock))
      && (k in mid[b].store ==> mid[b].store[k].value != [])
      && (k in nodes[a].store && AtMost(k, [255]) ==>
            k in mid[b].store && Leq(nodes[a].store[k].clock, mid[b].store[k].clock))
      && (k in mid[b].store && k !in nodes[b].store ==> k in nodes[a].store)
  {
    hide GossipTo, IsScan, History, Winner, MergeRegisters, AtMost, Leq;
    GossipedKey(nodes, cut, a, b, fa, k);
    if k in nodes[a].store && AtMost(k, [255]) {
      SentIfHeld(nodes[a], sa, fa, k);
    }
    if k in nodes[b].store {
      HeldIsLive(nodes[b], sb, k, if k in fa then fa[k] else nodes[b].store[k]);
    }
    if k in Gossiped(fa) {
      SentWins(nodes[a], sa, fa, nodes[b], k);
    } else if k in nodes[b].store {
      LeqItself(nodes[b].store[k].clock);
    }
  }

  lemma LeqItself(c: Clock)
    ensures Leq(c, c)
  {
  }

  /** What is sent and merged covers both what the sender and what the receiver held. */
  lemma SentWins(da: Db, sa: Stored, fa: map<Key, Register>, db: Db, k: Key)
    requires History(da, sa) && IsScan(fa, da, sa) && k in Gossiped(fa)
    requires k in db.store ==> db.store[k].value != []
    ensures k in da.store && Winner(db, k, fa[k]).value != []
    ensures Leq(da.store[k].clock, Winner(db, k, fa[k]).clock)
    ensures k in db.store ==> Leq(db.store[k].clock, Winner(db, k, fa[k]).clock)
  {
    hide IsScan, LiveHistory, Tied, InRange, Leq, MergeRegisters;
    var w := FoundIsTied(fa, da, sa, k);
    if k in db.store {
      MergeBounds(fa[k], db.store[k]);
      LeqTransitive(da.store[k].clock, fa[k].clock, Winner(db, k, fa[k]).clock);
      MergePicksValue(fa[k], db.store[k]);
    }
  }

  lemma NewestOfMore(m: Register, stored: set<Register>, newest: Register)
    requires LiveHistory(newest, stored) && Leq(newest.clock, m.clock) && m.value != []
    ensures LiveHistory(m, stored + {m})
  {
    forall x | x in stored ensures Leq(x.clock, m.clock) {
      LeqTransitive(x.clock, newest.clock, m.clock);
    }
  }

  lemma NewestAlone(m: Register)
    requires m.value != []
    ensures LiveHistory(m, {} + {m})
  {
  }

  /** `b`'s history, once it only counts the keys `b` had before or `a` sent. */
  lemma AnswererHistory(nodes: Nodes, cut: set<NodeID>, a: NodeID, b: NodeID, sa: Stored, sb: Stored,
      fa: map<Key, Register>)
    requires Setting(nodes, cut, a, b, sa, sb) && IsScan(fa, nodes[a], sa) && sb.Keys == nodes[b].store.Keys
    ensures var mid := GossipTo(nodes, cut, a, b, fa); b in mid && History(mid[b], RememberAll(sb, mid[b].store))
  {
    hide GossipTo, IsScan, LiveHistory, AtMost, Leq;
    AnsweredState(nodes, cut, a, b, sa, sb, fa, []);
    var m := GossipTo(nodes, cut, a, b, fa)[b];
    var s := RememberAll(sb, m.store);
    forall k | k in m.store ensures k in s && LiveHistory(m.store[k], s[k]) {
      AnsweredState(nodes, cut, a, b, sa, sb, fa, k);
      if k in nodes[b].store {
        NewestOfMore(m.store[k], sb[k], nodes[b].store[k]);
      } else {
        NewestAlone(m.store[k]);
      }
    }
  }

  lemma MergeBack(m: Register, r: Register)
    requires Leq(r.clock, m.clock)
    ensures Equiv(MergeRegisters(m, r), m)
  {
    MergeBounds(m, r);
    MergeClock(m, r, m.clock);
  }

  /** The answer replaces what `a` held. */
  lemma AnswerWins(nodes: Nodes, cut: set<NodeID>, a: NodeID, b: NodeID, sa: Stored, sb: Stored,
      fa: map<Key, Register>, fb: map<Key, Register>, y: Register, k: Key)
    requires Setting(nodes, cut, a, b, sa, sb) && IsScan(fa, nodes[a], sa) && sb.Keys == nodes[b].store.Keys
    requires var m := GossipTo(nodes, cut, a, b, fa); b in m && IsScan(fb, m[b], RememberAll(sb, m[b].store))
    requires AtMost(k, [255]) && (k in nodes[a].store || k in nodes[b].store) && k in fb && Equiv(fb[k], y)
    ensures var mid := GossipTo(nodes, cut, a, b, fa); var after := GossipTo(mid, cut, b, a, fb);
      && k in mid[b].store && (Agree(after, a, b, k) <==> Equiv(y, mid[b].store[k]))
  {
    hide GossipTo, IsScan, History, RememberAll, Gossiped, AtMost, Leq, Winner, MergeRegisters;
    var mid := GossipTo(nodes, cut, a, b, fa);
    AnsweredState(nodes, cut, a, b, sa, sb, fa, k);
    AnswererHistory(nodes, cut, a, b, sa, sb, fa);
    GossipedKey(mid, cut, b, a, fb, k);
    SentIfHeld(mid[b], RememberAll(sb, mid[b].store), fb, k);
    var after, m := GossipTo(mid, cut, b, a, fb), mid[b].store[k];
    if k in nodes[a].store {
      HeldIsLive(nodes[a], sa, k, fb[k]);
      CoveredIsReplaced(fb[k], nodes[a].store[k], m.clock);
    } else {
      NothingHeld(nodes[a], k, fb[k]);
    }
    AnswerDecides(m, after[a].store[k], fb[k], y);
  }

  lemma NothingHeld(d: Db, k: Key, incoming: Register)
    requires k !in d.store
    ensures Equiv(Winner(d, k, incoming), incoming)
  {
  }

  lemma CoveredIsReplaced(f: Register, r: Register, newest: Clock)
    requires Leq(r.clock, newest) && Same(f.clock, newest)
    ensures Equiv(MergeRegisters(f, r), f)
  {
    LeqTransitive(r.clock, newest, f.clock);
    MergeBack(f, r);
  }

  lemma AnswerDecides(m: Register, w: Register, f: Register, y: Register)
    requires Equiv(w, f) && Equiv(f, y)
    ensures Equiv(w, m) <==> Equiv(y, m)
  {
    EquivBoth(w, f, y);
    if Equiv(w, m) {
      EquivBoth(y, w, m);
    }
    if Equiv(y, m) {
      EquivBoth(w, y, m);
    }
  }

  /** When `b` answers after merging what `a` sent, the two end with equivalent registers, however the answering
      scan comes out, if and only if `b` had stored no other value under the clock it now holds. */
  lemma AnsweredGossipAgreesIff(nodes: Nodes, cut: set<NodeID>, a: NodeID, b: NodeID, sa: Stored, sb: Stored,
      fa: map<Key, Register>, k: Key)
    requires Setting(nodes, cut, a, b, sa, sb) && IsScan(fa, nodes[a], sa) && sb.Keys == nodes[b].store.Keys
    requires AtMost(k, [255]) && (k in nodes[a].store || k in nodes[b].store)
    ensures var mid := GossipTo(nodes, cut, a, b, fa);
      b in mid && k in mid[b].store &&
      var s := RememberAll(sb, mid[b].store);
      (forall fb :: IsScan(fb, mid[b], s) ==> Agree(GossipTo(mid, cut, b, a, fb), a, b, k))
        <==> TieFree(s[k], mid[b].store[k])
  {
    var mid := GossipTo(nodes, cut, a, b, fa);
    AnsweredState(nodes, cut, a, b, sa, sb, fa, k);
    AnswererHistory(nodes, cut, a, b, sa, sb, fa);
    var s, m := RememberAll(sb, mid[b].store), mid[b].store[k];
    if TieFree(s[k], m) {
      forall fb | IsScan(fb, mid[b], s) ensures Agree(GossipTo(mid, cut, b, a, fb), a, b, k) {
        var y := FoundIsTied(fb, mid[b], s, k);
        AnswerWins(nodes, cut, a, b, sa, sb, fa, fb, y, k);
      }
    }
    if forall fb :: IsScan(fb, mid[b], s) ==> Agree(GossipTo(mid, cut, b, a, fb), a, b, k) {
      forall y | y in Tied(s[k], m) ensures y.value == m.value {
        var fb := TiedIsFound(mid[b], s, k, y);
        AnswerWins(nodes, cut, a, b, sa, sb, fa, fb, y, k);
      }
    }
  }

  // ----- a tie that undoes an agreement -----

  /** Both nodes read `now`, but `a` has also stored `before` under the same clock. If `a`'s scan merges that
      register first, the exchange leaves `b` with `before` and `a` with `now`. */
  lemma TieUndoesAgreement(nodes: Nodes, a: NodeID, b: NodeID, k: Key, clock: Clock, before: ByteString, now: ByteString)
    returns (fa: map<Key, Register>, fb: map<Key, Register>)
    requires a in nodes && b in nodes && a != b && AtMost(k, [255])
    requires before != now && before != [] && now != []
    requires nodes[a].store == map[k := Register(now, clock)] && nodes[b].store == map[k := Register(now, clock)]
    ensures var sa: Stored := map[k := {Register(before, clock), Register(now, clock)}];
      var sb: Stored := map[k := {Register(now, clock)}];
      Setting(nodes, {}, a, b, sa, sb) && IsScan(fa, nodes[a], sa) && IsScan(fb, nodes[b], sb)
    ensures var after := Exchange(nodes, {}, a, b, fa, fb);
      && a in after && b in after && k in after[a].store && k in after[b].store
      && after[a].store[k].value == now && after[b].store[k].value == before
  {
    hide Exchange, AtMost, LiveHistory, MergeRegisters, IsFold, Gossiped, Winner;
    var before', now' := Register(before, clock), Register(now, clock);
    var sa: Stored := map[k := {before', now'}];
    var sb: Stored := map[k := {now'}];
    fa, fb := map[k := MergeRegisters(before', now')], map[k := now'];
    TiedPair(before', now');
    var da, db := nodes[a], nodes[b];
    assert History(da, sa) && IsScan(fa, da, sa);
    assert History(db, sb) && IsScan(fb, db, sb);
    ExchangedKey(nodes, {}, a, b, fa, fb, k);
    SentIfHeld(da, sa, fa, k);
    SentIfHeld(db, sb, fb, k);
    HeldIsLive(da, sa, k, fb[k]);
    HeldIsLive(db, sb, k, fa[k]);
  }

  lemma TiedPair(before: Register, now: Register)
    requires before.clock == now.clock && before.value != [] && now.value != []
    ensures LiveHistory(now, {before, now}) && LiveHistory(now, {now})
    ensures IsFold(MergeRegisters(before, now), {before, now}, now) && IsFold(now, {now}, now)
    ensures MergeRegisters(now, now).value == now.value
    ensures MergeRegisters(MergeRegisters(before, now), now).value == before.value
  {
    assert Leq(now.clock, now.clock);
    var t, u := Node(Leaf(before), Leaf(now)), Leaf(now);
    EvalPair(before, now);
    assert Leaves(t) == {before, now};
    assert Leaves(u) == {now} && Eval(u) == now;
    MergeBounds(before, now);
  }
}
