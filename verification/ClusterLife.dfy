/** Runs without removals: what a node has stored for a key only moves up, its versions are ordered by their
    clocks, and the writes behind what it holds are exactly those that have reached it. */
module ClusterLife {
  import opened Bytes
  import opened VectorClocks
  import opened Crdt
  import opened Database
  import opened Replication
  import opened MergeTrees
  import opened ClusterRuns
  import opened Convergence
  import opened AntiEntropy

  predicate NoRemovals(actions: seq<Action>) {
    forall a :: a in actions && a.ClientPut? ==> a.value != []
  }

  function RegsOf(versions: set<Version>): set<Register> {
    set v | v in versions :: v.reg
  }

  /** What gossip may find at a node, in the terms of AntiEntropy. */
  function StoredAt(c: Cluster, n: NodeID): Stored
    requires n in c.nodes
  {
    map k | k in c.nodes[n].store :: RegsOf(VersionsOf(c, n, k))
  }

  ghost predicate KeyLives(c: Cluster, n: NodeID, k: Key)
    requires n in c.nodes && k in c.nodes[n].store
  {
    && LiveHistory(c.nodes[n].store[k], RegsOf(VersionsOf(c, n, k)))
    && forall v :: v in VersionsOf(c, n, k) ==> Leaves(v.origin) <= Seen(c, n, k)
  }

  ghost predicate Lives(c: Cluster) {
    && (forall n, k :: Stores(c, n, k) ==> KeyLives(c, n, k))
    && forall n, k :: VersionsOf(c, n, k) != {} ==> Stores(c, n, k)
  }

  // ----- storing keeps it -----

  /** A register above the one that was held, live, and with a history that includes the old one's. */
  lemma HoldLives(c: Cluster, n: NodeID, k: Key, d: Db, t: Tree)
    requires Lives(c) && n in c.nodes && k in d.store && d.store == c.nodes[n].store[k := d.store[k]]
    requires d.store[k].value != [] && Seen(c, n, k) <= Leaves(t)
    requires k in c.nodes[n].store ==> Leq(c.nodes[n].store[k].clock, d.store[k].clock)
    ensures Lives(Hold(c, n, k, d, t))
  {
    hide KeyLives, Leq, Leaves;
    var c' := Hold(c, n, k, d, t);
    forall m, key | Stores(c', m, key) ensures KeyLives(c', m, key) {
      if (m, key) == (n, k) {
        HeldLives(c, n, k, d, t);
      } else {
        SameKeyLives(c, c', m, key);
      }
    }
    forall m, key | VersionsOf(c', m, key) != {} ensures Stores(c', m, key) {
      if (m, key) != (n, k) {
        assert VersionsOf(c, m, key) != {};
      }
    }
  }

  lemma SameKeyLives(c: Cluster, c': Cluster, n: NodeID, k: Key)
    requires Lives(c) && Stores(c, n, k) && Stores(c', n, k) && c'.nodes[n].store[k] == c.nodes[n].store[k]
    requires VersionsOf(c', n, k) == VersionsOf(c, n, k) && Seen(c', n, k) == Seen(c, n, k)
    ensures KeyLives(c', n, k)
  {
    assert KeyLives(c, n, k);
  }

  lemma RegsOfMore(versions: set<Version>, v: Version)
    ensures RegsOf(versions + {v}) == RegsOf(versions) + {v.reg}
  {
  }

  lemma MoreHistory(c: Cluster, n: NodeID, k: Key, r: Register)
    requires Lives(c) && n in c.nodes && r.value != []
    requires k in c.nodes[n].store ==> Leq(c.nodes[n].store[k].clock, r.clock)
    ensures LiveHistory(r, RegsOf(VersionsOf(c, n, k)) + {r})
  {
    var was := VersionsOf(c, n, k);
    if k in c.nodes[n].store {
      assert Stores(c, n, k) && KeyLives(c, n, k);
      NewestOfMore(r, RegsOf(was), c.nodes[n].store[k]);
    } else {
      assert was == {} && RegsOf(was) == {};
      NewestAlone(r);
    }
  }

  lemma HeldLives(c: Cluster, n: NodeID, k: Key, d: Db, t: Tree)
    requires Lives(c) && n in c.nodes && k in d.store && d.store == c.nodes[n].store[k := d.store[k]]
    requires d.store[k].value != [] && Seen(c, n, k) <= Leaves(t)
    requires k in c.nodes[n].store ==> Leq(c.nodes[n].store[k].clock, d.store[k].clock)
    ensures KeyLives(Hold(c, n, k, d, t), n, k)
  {
    var c', r, was := Hold(c, n, k, d, t), d.store[k], VersionsOf(c, n, k);
    assert VersionsOf(c', n, k) == was + {Version(r, t)} && Seen(c', n, k) == Leaves(t);
    MoreHistory(c, n, k, r);
    RegsOfMore(was, Version(r, t));
    forall v | v in was ensures Leaves(v.origin) <= Leaves(t) {
      assert Stores(c, n, k) && KeyLives(c, n, k);
    }
    hide Hold, Lives, LiveHistory, RegsOf, VersionsOf, Leaves;
  }

  lemma FlightDoesNotMatter(c: Cluster, c': Cluster)
    requires Lives(c) && c' == c.(queue := c'.queue, flight := c'.flight, writes := c'.writes)
    ensures Lives(c')
  {
    forall n, k | Stores(c', n, k) ensures KeyLives(c', n, k) {
      SameKeyLives(c, c', n, k);
    }
    forall n, k | VersionsOf(c', n, k) != {} ensures Stores(c', n, k) {
      assert VersionsOf(c, n, k) != {};
    }
  }

  // ----- every step keeps it -----

  lemma PutLives(c: Cluster, n: NodeID, k: Key, v: ByteString, peers: seq<NodeID>, steps: nat)
    requires Inv(c, steps) && Lives(c) && n in c.nodes && steps < U64 - 1 && v != []
    ensures Lives(AfterPut(c, n, k, v, peers))
  {
    assert c.nodes[n].id == n;
    hide Inv, Lives;
    var d := LocalPut(c.nodes[n], k, v);
    var t := Overwritten(c, n, k, Leaf(d.store[k]));
    LocalPutDominates(c, n, steps);
    HoldLives(c, n, k, d, t);
    FlightDoesNotMatter(Hold(c, n, k, d, t), AfterPut(c, n, k, v, peers));
  }

  lemma LiveWinner(d: Db, k: Key, incoming: Register)
    requires incoming.value != [] && (k in d.store ==> d.store[k].value != [])
    ensures Winner(d, k, incoming).value != []
    ensures k in d.store ==> Leq(d.store[k].clock, Winner(d, k, incoming).clock)
  {
    if k in d.store {
      MergeBounds(incoming, d.store[k]);
    }
  }

  /** Nothing a live node holds is overwritten, so a delivery always merges. */
  lemma LiveIsMerged(c: Cluster, n: NodeID, k: Key, incoming: Tree)
    requires StoresOk(c) && Lives(c) && n in c.nodes
    ensures k in c.nodes[n].store ==> c.nodes[n].store[k].value != []
    ensures Leaves(Merged(c, n, k, incoming)) == Seen(c, n, k) + Leaves(incoming)
  {
    if k in c.nodes[n].store {
      assert KeyLives(c, n, k) && StoredOk(c, n, k);
      var v := Version(c.nodes[n].store[k], c.held[(n, k)]);
      assert v in VersionsOf(c, n, k) && v.reg in RegsOf(VersionsOf(c, n, k));
    }
  }

  lemma DeliveryLives(c: Cluster, i: nat, steps: nat)
    requires Inv(c, steps) && Lives(c) && i < |c.queue|
    ensures Lives(AfterDelivery(c, i))
  {
    var msg := c.queue[i];
    if msg.receiver in c.nodes {
      var n, k := msg.receiver, msg.key;
      assert MessageOk(c, msg, c.flight[i]);
      LiveIsMerged(c, n, k, c.flight[i]);
      hide Inv, Lives, Merged;
      LiveWinner(c.nodes[n], k, msg.payload);
      HoldLives(c, n, k, RemotePut(c.nodes[n], k, msg.payload), Merged(c, n, k, c.flight[i]));
    }
  }

  lemma StepLives(c: Cluster, a: Action, steps: nat)
    requires Inv(c, steps) && Lives(c) && Enabled(c, a) && steps < U64 - 1
    requires a.ClientPut? ==> a.value != []
    ensures Lives(Step(c, a))
  {
    match a
    case ClientPut(n, k, v, peers) => PutLives(c, n, k, v, peers, steps);
    case Gossip(n, target, folds) => FlightDoesNotMatter(c, Step(c, a));
    case Deliver(i, keep) =>
      DeliveryLives(c, i, steps);
      FlightDoesNotMatter(AfterDelivery(c, i), Step(c, a));
    case Drop(i) => FlightDoesNotMatter(c, Step(c, a));
  }

  lemma {:induction false} RunLives(ids: set<NodeID>, actions: seq<Action>)
    requires IsRun(ids, actions) && |actions| < U64 && NoRemovals(actions)
    ensures Lives(Outcome(ids, actions))
  {
    if actions != [] {
      var last := |actions| - 1;
      RunLives(ids, actions[..last]);
      RunKeepsInv(ids, actions[..last]);
      StepLives(Outcome(ids, actions[..last]), actions[last], last);
    }
  }

  /** After every run without removals, all a node has ever stored for a key is live and ordered by its clocks,
      with what it holds on top: the hypothesis of the anti-entropy theorems. */
  lemma VersionsAreOrdered(ids: set<NodeID>, actions: seq<Action>, n: NodeID)
    requires IsRun(ids, actions) && |actions| < U64 && NoRemovals(actions)
    requires n in Outcome(ids, actions).nodes
    ensures var c := Outcome(ids, actions); History(c.nodes[n], StoredAt(c, n))
  {
    var c := Outcome(ids, actions);
    RunLives(ids, actions);
    forall k | k in c.nodes[n].store ensures LiveHistory(c.nodes[n].store[k], StoredAt(c, n)[k]) {
      assert Stores(c, n, k) && KeyLives(c, n, k);
    }
  }

  // ----- what reaches a node -----

  /** The client writes to `k` that a step brings to `n`. */
  function Reaching(c: Cluster, a: Action, n: NodeID, k: Key): set<Register>
    requires Enabled(c, a)
  {
    match a
    case ClientPut(m, key, v, _) => if (m, key) == (n, k) then {LocalPut(c.nodes[m], key, v).store[key]} else {}
    case Deliver(i, _) =>
      if c.queue[i].receiver == n && c.queue[i].key == k && n in c.nodes then Leaves(c.flight[i]) else {}
    case _ => {}
  }

  lemma DeliverySeen(c: Cluster, i: nat, keep: bool, n: NodeID, k: Key)
    requires StoresOk(c) && Lives(c) && Enabled(c, Deliver(i, keep))
    ensures Seen(Step(c, Deliver(i, keep)), n, k) == Seen(c, n, k) + Reaching(c, Deliver(i, keep), n, k)
  {
    var msg := c.queue[i];
    if msg.receiver in c.nodes {
      LiveIsMerged(c, msg.receiver, msg.key, c.flight[i]);
    }
  }

  lemma PutSeen(c: Cluster, m: NodeID, key: Key, v: ByteString, peers: seq<NodeID>, n: NodeID, k: Key)
    requires m in c.nodes
    ensures Seen(AfterPut(c, m, key, v, peers), n, k) == Seen(c, n, k) + Reaching(c, ClientPut(m, key, v, peers), n, k)
  {
    var c', r := AfterPut(c, m, key, v, peers), LocalPut(c.nodes[m], key, v).store[key];
    assert Leaves(Leaf(r)) == {r};
    assert c'.held == c.held[(m, key) := Overwritten(c, m, key, Leaf(r))];
    hide AfterPut, LocalPut;
  }

  /** What a node has seen grows by exactly what each step brings to it ... */
  lemma SeenGrowsByArrivals(ids: set<NodeID>, actions: seq<Action>, a: Action, n: NodeID, k: Key)
    requires IsRun(ids, actions) && |actions| < U64 && NoRemovals(actions) && Enabled(Outcome(ids, actions), a)
    ensures var c := Outcome(ids, actions); Seen(Step(c, a), n, k) == Seen(c, n, k) + Reaching(c, a, n, k)
  {
    var c := Outcome(ids, actions);
    RunLives(ids, actions);
    RunKeepsInv(ids, actions);
    assert StoresOk(c);
    hide Lives, Inv, StoresOk, IsRun, Outcome, RemotePut, GetCrdt, Gossiped;
    match a
    case ClientPut(m, key, v, peers) => PutSeen(c, m, key, v, peers, n, k);
    case Deliver(i, keep) => DeliverySeen(c, i, keep, n, k);
    case _ =>
  }

  lemma {:induction false} FoldLeaves(f: Fold, seen: set<Register>, newest: Version)
    requires forall v :: v in Parts(f) ==> Leaves(v.origin) <= seen
    ensures Leaves(Origin(f)) <= seen
    ensures newest in Parts(f) && Leaves(newest.origin) == seen ==> Leaves(Origin(f)) == seen
  {
    match f
    case One(v) =>
      assert v in Parts(f);
    case Both(l, r) =>
      FoldLeaves(l, seen, newest);
      FoldLeaves(r, seen, newest);
  }

  lemma FoldSeen(c: Cluster, n: NodeID, k: Key, f: Fold)
    requires Lives(c) && n in c.nodes && k in c.nodes[n].store && FoldOk(c, n, k, f)
    ensures Leaves(Origin(f)) == Seen(c, n, k)
  {
    assert Stores(c, n, k) && KeyLives(c, n, k);
    FoldLeaves(f, Seen(c, n, k), Version(c.nodes[n].store[k], c.held[(n, k)]));
  }

  lemma GossipSeen(c: Cluster, n: NodeID, target: NodeID, folds: map<Key, Fold>, i: nat)
    requires Lives(c) && |c.flight| == |c.queue| && Enabled(c, Gossip(n, target, folds))
    requires |c.queue| <= i < |AfterGossip(c, n, target, folds).queue|
    ensures var c' := AfterGossip(c, n, target, folds);
      |c'.flight| == |c'.queue| && Leaves(c'.flight[i]) == Seen(c', n, c'.queue[i].key)
  {
    hide Lives, Gossiped;
    GossipedRow(folds, i - |c.queue|);
    var k := AfterGossip(c, n, target, folds).queue[i].key;
    assert FoldOk(c, n, k, folds[k]);
    FoldSeen(c, n, k, folds[k]);
  }

  /** ... and whatever is sent brings exactly what its sender has seen of the key. */
  lemma MessagesBringAllSeen(ids: set<NodeID>, actions: seq<Action>, a: Action, i: nat)
    requires IsRun(ids, actions) && |actions| < U64 && NoRemovals(actions) && Enabled(Outcome(ids, actions), a)
    requires a.ClientPut? || a.Gossip?
    requires |Outcome(ids, actions).queue| <= i < |Step(Outcome(ids, actions), a).queue|
    ensures var c' := Step(Outcome(ids, actions), a);
      && |c'.flight| == |c'.queue| && c'.queue[i].sender == a.node
      && Leaves(c'.flight[i]) == Seen(c', a.node, c'.queue[i].key)
  {
    var c := Outcome(ids, actions);
    RunLives(ids, actions);
    RunKeepsInv(ids, actions);
    hide Lives, IsRun, Outcome;
    if a.Gossip? {
      GossipSeen(c, a.node, a.target, a.folds, i);
    }
  }

  // ----- the gossip of these runs and the scans of AntiEntropy are the same -----

  lemma {:induction false} RegTreeLeaves(f: Fold)
    ensures Leaves(RegTree(f)) == RegsOf(Parts(f))
  {
    match f
    case One(v) =>
    case Both(l, r) =>
      RegTreeLeaves(l);
      RegTreeLeaves(r);
      assert RegsOf(Parts(f)) == RegsOf(Parts(l)) + RegsOf(Parts(r));
  }

  lemma FoldsAreScans(c: Cluster, n: NodeID, folds: map<Key, Fold>)
    requires n in c.nodes && FoldsOk(c, n, folds)
    ensures IsScan(Found(folds), c.nodes[n], StoredAt(c, n))
  {
    var found, d, stored := Found(folds), c.nodes[n], StoredAt(c, n);
    forall k | k in found ensures k in stored && IsFold(found[k], stored[k], d.store[k]) {
      var f := folds[k];
      assert FoldOk(c, n, k, f);
      RegTreeLeaves(f);
      var v := Version(d.store[k], c.held[(n, k)]);
      assert v.reg in RegsOf(Parts(f)) && RegsOf(Parts(f)) <= stored[k];
      var t := RegTree(f);
      assert Leaves(t) <= stored[k] && d.store[k] in Leaves(t) && Eval(t) == found[k];
    }
  }

  lemma {:induction false} FoldOfTree(t: Tree, versions: set<Version>, newest: Version) returns (f: Fold)
    requires Leaves(t) <= RegsOf(versions) && newest in versions
    ensures RegTree(f) == t && Parts(f) <= versions && (newest.reg in Leaves(t) ==> newest in Parts(f))
  {
    match t
    case Leaf(w) =>
      assert w in RegsOf(versions);
      var v :| v in versions && v.reg == w;
      f := One(if newest.reg == w then newest else v);
    case Node(l, r) =>
      var x := FoldOfTree(l, versions, newest);
      var y := FoldOfTree(r, versions, newest);
      f := Both(x, y);
  }

  ghost predicate ComesTo(c: Cluster, n: NodeID, k: Key, f: Fold, r: Register)
    requires n in c.nodes && k in c.nodes[n].store
  {
    FoldOk(c, n, k, f) && Eval(RegTree(f)) == r
  }

  lemma ScanHasFold(c: Cluster, n: NodeID, found: map<Key, Register>, k: Key)
    requires StoresOk(c) && n in c.nodes && IsScan(found, c.nodes[n], StoredAt(c, n)) && k in found
    ensures exists f :: ComesTo(c, n, k, f, found[k])
  {
    var d := c.nodes[n];
    assert StoredOk(c, n, k);
    var t :| Leaves(t) <= StoredAt(c, n)[k] && d.store[k] in Leaves(t) && Eval(t) == found[k];
    var f := FoldOfTree(t, VersionsOf(c, n, k), Version(d.store[k], c.held[(n, k)]));
    assert ComesTo(c, n, k, f, found[k]);
  }

  ghost function FoldFor(c: Cluster, n: NodeID, found: map<Key, Register>, k: Key): (f: Fold)
    requires StoresOk(c) && n in c.nodes && IsScan(found, c.nodes[n], StoredAt(c, n)) && k in found
    ensures ComesTo(c, n, k, f, found[k])
  {
    ScanHasFold(c, n, found, k);
    var f :| ComesTo(c, n, k, f, found[k]);
    f
  }

  lemma ScansAreFolds(c: Cluster, n: NodeID, found: map<Key, Register>) returns (folds: map<Key, Fold>)
    requires StoresOk(c) && n in c.nodes && IsScan(found, c.nodes[n], StoredAt(c, n))
    ensures FoldsOk(c, n, folds) && Found(folds) == found
  {
    hide StoresOk, IsFold, FoldOk, StoredAt, Eval, RegTree;
    assert forall k :: k in found ==> k in c.nodes[n].store;
    folds := map k | k in found :: FoldFor(c, n, found, k);
    forall k | k in folds ensures FoldOk(c, n, k, folds[k]) && Eval(RegTree(folds[k])) == found[k] {
      assert ComesTo(c, n, k, folds[k], found[k]);
    }
    assert Found(folds) == found;
  }
}
