/** What the cluster promises after any run: causality, convergence and monotonicity. */
module Convergence {
  import opened Bytes
  import opened VectorClocks
  import opened Crdt
  import opened Database
  import opened Replication
  import opened MergeTrees
  import opened ClusterRuns

  /** The client writes to `k` that went into what node `n` holds. Without removals these are all that reached
      it, directly or through other nodes' registers: module ClusterLife. */
  function Seen(c: Cluster, n: NodeID, k: Key): set<Register> {
    if (n, k) in c.held then Leaves(c.held[(n, k)]) else {}
  }

  predicate Stores(c: Cluster, n: NodeID, k: Key) {
    n in c.nodes && k in c.nodes[n].store
  }

  lemma StoredFromTree(ids: set<NodeID>, actions: seq<Action>, n: NodeID, k: Key)
    requires IsRun(ids, actions) && |actions| < U64
    requires Stores(Outcome(ids, actions), n, k)
    ensures var c := Outcome(ids, actions);
      && (n, k) in c.held
      && Equiv(Eval(c.held[(n, k)]), c.nodes[n].store[k])
      && Seen(c, n, k) <= WritesTo(c.writes, k)
  {
    RunKeepsInv(ids, actions);
    HeldIsOk(Outcome(ids, actions), n, k);
  }

  // ----- causality -----

  ghost predicate ClocksKnown(c: Cluster) {
    && (forall n, k, m :: Stores(c, n, k) ==> Get(c.nodes[n].store[k].clock, m) <= Own(c.nodes, m))
    && (forall i, m :: 0 <= i < |c.queue| ==> Get(c.queue[i].payload.clock, m) <= Own(c.nodes, m))
  }

  ghost predicate StoresCovered(c: Cluster) {
    forall n, k :: Stores(c, n, k) ==> Leq(c.nodes[n].store[k].clock, c.nodes[n].clock)
  }

  ghost predicate CountersIdentifyWrites(c: Cluster) {
    forall w, x :: w in c.writes && x in c.writes && w != x && w.node == x.node
      ==> Get(w.reg.clock, w.node) != Get(x.reg.clock, x.node)
  }

  ghost predicate ValuesWereWritten(c: Cluster) {
    forall n, k :: Stores(c, n, k) ==> HasValue(WritesTo(c.writes, k), c.nodes[n].store[k].value)
  }

  lemma InvMeansKnown(c: Cluster, steps: nat)
    requires Inv(c, steps)
    ensures ClocksKnown(c) && StoresCovered(c)
  {
    forall n, k | Stores(c, n, k)
      ensures Leq(c.nodes[n].store[k].clock, c.nodes[n].clock)
      ensures forall m :: Get(c.nodes[n].store[k].clock, m) <= Own(c.nodes, m)
    {
      HeldIsOk(c, n, k);
      CoveredIsKnown(c, n, c.nodes[n].store[k].clock, steps);
    }
    forall i, m | 0 <= i < |c.queue| ensures Get(c.queue[i].payload.clock, m) <= Own(c.nodes, m) {
      assert MessageOk(c, c.queue[i], c.flight[i]);
    }
  }

  lemma InvMeansWritten(c: Cluster, steps: nat)
    requires Inv(c, steps)
    ensures CountersIdentifyWrites(c) && ValuesWereWritten(c)
  {
    forall n, k | Stores(c, n, k) ensures HasValue(WritesTo(c.writes, k), c.nodes[n].store[k].value) {
      HeldIsOk(c, n, k);
      var t := c.held[(n, k)];
      EvalValueIsWritten(t);
      var w :| w in Leaves(t) && w.value == Eval(t).value;
      assert w in WritesTo(c.writes, k);
    }
  }

  /** No stored or travelling clock runs ahead of the node it counts for, every node's clock covers its
      store, counters identify writes, and every stored value was written by a client to that key. */
  lemma CausalityHolds(ids: set<NodeID>, actions: seq<Action>)
    requires IsRun(ids, actions) && |actions| < U64
    ensures var c := Outcome(ids, actions);
      ClocksKnown(c) && StoresCovered(c) && CountersIdentifyWrites(c) && ValuesWereWritten(c)
  {
    var c := Outcome(ids, actions);
    RunKeepsInv(ids, actions);
    InvMeansKnown(c, |actions|);
    InvMeansWritten(c, |actions|);
  }

  /** A client write strictly dominates everything its node held before it. */
  lemma WriteDominatesStore(ids: set<NodeID>, actions: seq<Action>, n: NodeID, k: Key, v: ByteString)
    requires IsRun(ids, actions) && |actions| < U64 - 1 && n in Outcome(ids, actions).nodes
    ensures var d := Outcome(ids, actions).nodes[n];
      forall key :: key in d.store ==> Before(d.store[key].clock, LocalPut(d, k, v).store[k].clock)
  {
    RunKeepsInv(ids, actions);
    LocalPutDominates(Outcome(ids, actions), n, |actions|);
  }

  /** The one step that takes history back: a delivery overwrites a tombstone its register has not seen. */
  predicate OverwritesUnseen(c: Cluster, a: Action, n: NodeID, k: Key)
    requires Enabled(c, a) && Stores(c, n, k)
  {
    a.Deliver? &&
    var msg := c.queue[a.index];
    msg.receiver == n && msg.key == k && c.nodes[n].store[k].value == []
    && !Leq(c.nodes[n].store[k].clock, msg.payload.clock)
  }

  lemma DeliveryMovesUpIff(c: Cluster, i: nat, keep: bool, n: NodeID, k: Key)
    requires i < |c.queue| && i < |c.flight| && Stores(c, n, k)
    ensures var c' := AfterDelivery(c, i);
      Stores(c', n, k) &&
      (Leq(c.nodes[n].store[k].clock, c'.nodes[n].store[k].clock) <==> !OverwritesUnseen(c, Deliver(i, keep), n, k))
  {
    var msg := c.queue[i];
    if msg.receiver == n && msg.key == k {
      RemotePutKeepsHistoryIff(c.nodes[n], k, msg.payload);
    }
  }

  lemma PutMovesUp(c: Cluster, m: NodeID, key: Key, v: ByteString, peers: seq<NodeID>, n: NodeID, k: Key, steps: nat)
    requires Inv(c, steps) && steps < U64 - 1 && m in c.nodes && Stores(c, n, k)
    ensures var c' := AfterPut(c, m, key, v, peers);
      Stores(c', n, k) && Leq(c.nodes[n].store[k].clock, c'.nodes[n].store[k].clock)
  {
    LocalPutDominates(c, m, steps);
  }

  /** A stored clock goes back in a step if and only if the step overwrites an unseen tombstone. */
  lemma StoresNeverGoBackIff(ids: set<NodeID>, actions: seq<Action>, a: Action, n: NodeID, k: Key)
    requires IsRun(ids, actions) && |actions| < U64 - 1
    requires Enabled(Outcome(ids, actions), a) && Stores(Outcome(ids, actions), n, k)
    ensures var c := Outcome(ids, actions);
      Stores(Step(c, a), n, k) &&
      (Leq(c.nodes[n].store[k].clock, Step(c, a).nodes[n].store[k].clock) <==> !OverwritesUnseen(c, a, n, k))
  {
    hide Inv;
    RunKeepsInv(ids, actions);
    var c := Outcome(ids, actions);
    match a
    case ClientPut(m, key, v, peers) => PutMovesUp(c, m, key, v, peers, n, k, |actions|);
    case Gossip(_, _, _) =>
    case Drop(_) =>
    case Deliver(i, keep) => DeliveryMovesUpIff(c, i, keep, n, k);
  }

  // ----- convergence -----

  /** Nodes reached by the same writes agree on the clock, whatever the writes are. */
  lemma SameWritesSameClock(ids: set<NodeID>, actions: seq<Action>, n: NodeID, m: NodeID, k: Key)
    requires IsRun(ids, actions) && |actions| < U64
    requires var c := Outcome(ids, actions); Stores(c, n, k) && Stores(c, m, k) && Seen(c, n, k) == Seen(c, m, k)
    ensures var c := Outcome(ids, actions);
      Same(c.nodes[n].store[k].clock, c.nodes[m].store[k].clock)
  {
    var c := Outcome(ids, actions);
    StoredFromTree(ids, actions, n, k);
    StoredFromTree(ids, actions, m, k);
    SameLeavesSameClock(c.held[(n, k)], c.held[(m, k)]);
    var t, u := Eval(c.held[(n, k)]).clock, Eval(c.held[(m, k)]).clock;
    var r, s := c.nodes[n].store[k].clock, c.nodes[m].store[k].clock;
    LeqTransitive(r, t, u);
    LeqTransitive(r, u, s);
    LeqTransitive(s, u, t);
    LeqTransitive(s, t, r);
  }

  /** ... and on the whole register when those writes are confluent. */
  lemma ConfluentWritesConverge(ids: set<NodeID>, actions: seq<Action>, n: NodeID, m: NodeID, k: Key)
    requires IsRun(ids, actions) && |actions| < U64
    requires var c := Outcome(ids, actions); Stores(c, n, k) && Stores(c, m, k) && Seen(c, n, k) == Seen(c, m, k)
    requires Confluent(Seen(Outcome(ids, actions), n, k))
    ensures var c := Outcome(ids, actions);
      Equiv(c.nodes[n].store[k], c.nodes[m].store[k])
  {
    StoredFromTree(ids, actions, n, k);
    StoredFromTree(ids, actions, m, k);
    SameWritesSameClock(ids, actions, n, m, k);
  }

  /** Independent writes: every node's register is the join of the clocks and the greatest value of
      exactly the writes that reached it. */
  lemma IndependentWritesDecide(ids: set<NodeID>, actions: seq<Action>, n: NodeID, k: Key)
    requires IsRun(ids, actions) && |actions| < U64
    requires Stores(Outcome(ids, actions), n, k)
    requires Independent(WritesTo(Outcome(ids, actions).writes, k))
    ensures var c := Outcome(ids, actions);
      Represents(c.nodes[n].store[k], Seen(c, n, k))
  {
    var c := Outcome(ids, actions);
    StoredFromTree(ids, actions, n, k);
    var t, r, seen := c.held[(n, k)], c.nodes[n].store[k], Seen(c, n, k);
    SubsetIndependent(seen, WritesTo(c.writes, k));
    EvalValueIsWritten(t);
    var g := GreatestValueExists(seen);
    IndependentWritesKeepGreatest(seen, g);
    EvalClockIsJoin(t);
    forall d ensures Leq(r.clock, d) <==> Above(d, seen) {
      if Leq(r.clock, d) {
        LeqTransitive(Eval(t).clock, r.clock, d);
      }
      if Leq(Eval(t).clock, d) {
        LeqTransitive(r.clock, Eval(t).clock, d);
      }
    }
  }

  lemma SubsetIndependent(s: set<Register>, t: set<Register>)
    requires s <= t && Independent(t)
    ensures Independent(s)
  {
    forall w | w in s ensures !Leq(w.clock, JoinOf(s - {w})) {
      var small, large := JoinOf(s - {w}), JoinOf(t - {w});
      assert Leq(large, large) && Above(large, s - {w});
      if Leq(w.clock, small) {
        LeqTransitive(w.clock, small, large);
      }
    }
  }

  /** Strong eventual consistency for independent writes. */
  lemma IndependentWritesConvergeInRuns(ids: set<NodeID>, actions: seq<Action>, n: NodeID, m: NodeID, k: Key)
    requires IsRun(ids, actions) && |actions| < U64
    requires var c := Outcome(ids, actions); Stores(c, n, k) && Stores(c, m, k) && Seen(c, n, k) == Seen(c, m, k)
    requires Independent(WritesTo(Outcome(ids, actions).writes, k))
    ensures var c := Outcome(ids, actions);
      Equiv(c.nodes[n].store[k], c.nodes[m].store[k])
  {
    var c := Outcome(ids, actions);
    StoredFromTree(ids, actions, n, k);
    SubsetIndependent(Seen(c, n, k), WritesTo(c.writes, k));
    IndependentWritesConverge(Seen(c, n, k));
    ConfluentWritesConverge(ids, actions, n, m, k);
  }

  // ----- keys with a single writer -----

  predicate SingleWriter(c: Cluster, k: Key, owner: NodeID) {
    forall w :: w in c.writes && w.key == k ==> w.node == owner
  }

  predicate IsLatest(w: Register, writes: set<Register>, owner: NodeID) {
    w in writes && forall x :: x in writes ==> Get(x.clock, owner) <= Get(w.clock, owner)
  }

  lemma {:induction false} LatestExists(writes: set<Register>, owner: NodeID) returns (w: Register)
    requires writes != {}
    ensures IsLatest(w, writes, owner)
  {
    w :| w in writes;
    if writes != {w} {
      assert writes == (writes - {w}) + {w};
      var x := LatestExists(writes - {w}, owner);
      if Get(w.clock, owner) < Get(x.clock, owner) {
        w := x;
      }
    }
  }

  lemma LatestIsStrictlyAbove(w: Register, writes: set<Register>, owner: NodeID)
    requires w in writes
    requires forall x :: x in writes - {w} ==> Leq(x.clock, w.clock) && Get(x.clock, owner) < Get(w.clock, owner)
    ensures writes == {w} || StrictlyAbove(w, writes - {w})
  {
    var others := writes - {w};
    if others != {} {
      var x :| x in others;
      var below := w.clock[owner := Get(w.clock, owner) - 1];
      forall y | y in others ensures Leq(y.clock, below) {
        assert forall n :: n in y.clock && n != owner ==> Get(w.clock, n) == Get(below, n);
      }
      assert Above(below, others);
      assert Get(below, owner) < Get(w.clock, owner) && owner in w.clock;
      assert Leq(JoinOf(others), below);
      if Leq(w.clock, JoinOf(others)) {
        LeqTransitive(w.clock, JoinOf(others), below);
      }
    } else {
      assert writes == {w};
    }
  }

  /** Every other write to the key has a lower owner counter and a clock below the latest. */
  lemma OthersBelowLatest(ids: set<NodeID>, actions: seq<Action>, n: NodeID, k: Key, owner: NodeID, latest: Register)
    requires IsRun(ids, actions) && |actions| < U64
    requires Stores(Outcome(ids, actions), n, k) && SingleWriter(Outcome(ids, actions), k, owner)
    requires IsLatest(latest, Seen(Outcome(ids, actions), n, k), owner)
    ensures forall x :: x in Seen(Outcome(ids, actions), n, k) - {latest} ==>
      Leq(x.clock, latest.clock) && Get(x.clock, owner) < Get(latest.clock, owner)
  {
    var c := Outcome(ids, actions);
    RunKeepsInv(ids, actions);
    StoredFromTree(ids, actions, n, k);
    var seen := Seen(c, n, k);
    assert latest in WritesTo(c.writes, k);
    var w :| w in c.writes && w.key == k && w.reg == latest;
    forall x | x in seen - {latest}
      ensures Leq(x.clock, latest.clock) && Get(x.clock, owner) < Get(latest.clock, owner)
    {
      assert x in WritesTo(c.writes, k);
      var y :| y in c.writes && y.key == k && y.reg == x;
      assert Newer(w, y) || Newer(y, w);
    }
  }

  lemma LatestIsHeld(t: Tree, latest: Register)
    requires latest in Leaves(t) && (Leaves(t) == {latest} || StrictlyAbove(latest, Leaves(t) - {latest}))
    ensures Equiv(Eval(t), latest)
  {
    var seen := Leaves(t);
    if seen == {latest} {
      EvalClockIsJoin(t);
      EvalValueIsWritten(t);
      assert IsJoin(latest.clock, seen);
      JoinIsUnique(Eval(t).clock, latest.clock, seen);
    } else {
      DominatingWriteWins(seen, latest);
    }
  }

  /** A key written by one node only: every node holds exactly the owner's latest write it has seen. */
  lemma SingleWriterConverges(ids: set<NodeID>, actions: seq<Action>, n: NodeID, k: Key, owner: NodeID)
    returns (latest: Register)
    requires IsRun(ids, actions) && |actions| < U64
    requires Stores(Outcome(ids, actions), n, k) && SingleWriter(Outcome(ids, actions), k, owner)
    ensures var c := Outcome(ids, actions);
      && IsLatest(latest, Seen(c, n, k), owner)
      && (forall x :: IsLatest(x, Seen(c, n, k), owner) ==> x == latest)
      && Equiv(c.nodes[n].store[k], latest)
  {
    var c := Outcome(ids, actions);
    StoredFromTree(ids, actions, n, k);
    var seen, t := Seen(c, n, k), c.held[(n, k)];
    EvalValueIsWritten(t);
    latest := LatestExists(seen, owner);
    OthersBelowLatest(ids, actions, n, k, owner, latest);
    LatestIsStrictlyAbove(latest, seen, owner);
    LatestIsHeld(t, latest);
    EquivTransitive(c.nodes[n].store[k], Eval(t), latest);
  }

  lemma EquivTransitive(a: Register, b: Register, c: Register)
    requires Equiv(b, a) && Equiv(b, c)
    ensures Equiv(a, c)
  {
    LeqTransitive(a.clock, b.clock, c.clock);
    LeqTransitive(c.clock, b.clock, a.clock);
  }

  // ----- the bundled transport takes only steps of this network -----

  ghost predicate RunTo(ids: set<NodeID>, actions: seq<Action>, c: Cluster) {
    IsRun(ids, actions) && Outcome(ids, actions) == c
  }

  lemma RunAndThen(ids: set<NodeID>, actions: seq<Action>, c: Cluster, a: Action)
    requires RunTo(ids, actions, c) && Enabled(c, a)
    ensures RunTo(ids, actions + [a], Step(c, a))
  {
    assert (actions + [a])[..|actions + [a]| - 1] == actions;
  }

  lemma StepPairsHistory(c: Cluster, a: Action)
    requires Enabled(c, a) && |c.flight| == |c.queue|
    ensures |Step(c, a).flight| == |Step(c, a).queue|
  {
  }

  lemma {:induction false} HistoryFollowsQueue(ids: set<NodeID>, actions: seq<Action>)
    requires IsRun(ids, actions)
    ensures |Outcome(ids, actions).flight| == |Outcome(ids, actions).queue|
  {
    if actions != [] {
      var last := |actions| - 1;
      HistoryFollowsQueue(ids, actions[..last]);
      StepPairsHistory(Outcome(ids, actions[..last]), actions[last]);
    }
  }

  function FrontAction(c: Cluster, cut: set<NodeID>): Action
    requires c.queue != []
  {
    if c.queue[0].receiver in cut then Drop(0) else Deliver(0, false)
  }

  lemma FrontStep(c: Cluster, cut: set<NodeID>)
    requires c.queue != [] && |c.flight| == |c.queue|
    ensures Enabled(c, FrontAction(c, cut))
    ensures var c' := Step(c, FrontAction(c, cut));
      c'.queue == c.queue[1..] && Drain(c'.nodes, cut, c'.queue) == Drain(c.nodes, cut, c.queue)
  {
    var c' := Step(c, FrontAction(c, cut));
    assert c'.queue == c.queue[1..];
    assert c'.nodes == if c.queue[0].receiver in cut then c.nodes else Receive(c.nodes, c.queue[0]);
  }

  /** The front of the queue is delivered or lost by one more action of the run. */
  lemma DrainFront(ids: set<NodeID>, actions: seq<Action>, c: Cluster, cut: set<NodeID>) returns (a: Action, c': Cluster)
    requires RunTo(ids, actions, c) && c.queue != []
    ensures RunTo(ids, actions + [a], c') && c'.queue == c.queue[1..]
    ensures Drain(c'.nodes, cut, c'.queue) == Drain(c.nodes, cut, c.queue)
  {
    a := FrontAction(c, cut);
    HistoryFollowsQueue(ids, actions);
    FrontStep(c, cut);
    RunAndThen(ids, actions, c, a);
    c' := Step(c, a);
  }

  lemma AppendAction(actions: seq<Action>, a: Action, rest: seq<Action>)
    ensures actions + ([a] + rest) == (actions + [a]) + rest
  {
  }

  /** Delivering everything that is queued, with some nodes cut off, extends the run by deliveries and
      losses; so every theorem above covers it. */
  lemma {:induction false} DrainIsARun(ids: set<NodeID>, actions: seq<Action>, c: Cluster, cut: set<NodeID>)
    returns (more: seq<Action>, c': Cluster)
    requires RunTo(ids, actions, c)
    ensures RunTo(ids, actions + more, c')
    ensures c'.queue == [] && c'.nodes == Drain(c.nodes, cut, c.queue)
    decreases |c.queue|
  {
    if c.queue == [] {
      more, c' := [], c;
      assert actions + more == actions;
    } else {
      var a, next := DrainFront(ids, actions, c, cut);
      var rest;
      rest, c' := DrainIsARun(ids, actions + [a], next, cut);
      more := [a] + rest;
      AppendAction(actions, a, rest);
    }
  }
}
