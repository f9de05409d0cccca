/** When nodes reached by the same writes can end apart: exactly when the writes have no deciding layer. */
module Divergence {
  import opened Bytes
  import opened VectorClocks
  import opened Crdt
  import opened Database
  import opened Replication
  import opened MergeTrees
  import opened Confluence
  import opened ClusterRuns
  import opened Convergence

  /** A node holds the deciding value and the join of the clocks of what reached it. */
  lemma DecidedWritesDecide(ids: set<NodeID>, actions: seq<Action>, n: NodeID, k: Key, top: set<Register>, g: ByteString)
    requires IsRun(ids, actions) && |actions| < U64 && Stores(Outcome(ids, actions), n, k)
    requires Decides(top, g, Seen(Outcome(ids, actions), n, k))
    ensures var c := Outcome(ids, actions);
      c.nodes[n].store[k].value == g && IsJoin(c.nodes[n].store[k].clock, Seen(c, n, k))
  {
    var c := Outcome(ids, actions);
    StoredFromTree(ids, actions, n, k);
    var t, r := c.held[(n, k)], c.nodes[n].store[k];
    DecidedValue(t, top, g, Leaves(t));
    EvalClockIsJoin(t);
    forall d ensures Leq(r.clock, d) <==> Above(d, Leaves(t)) {
      if Leq(r.clock, d) {
        LeqTransitive(Eval(t).clock, r.clock, d);
      }
      if Leq(Eval(t).clock, d) {
        LeqTransitive(r.clock, Eval(t).clock, d);
      }
    }
  }

  // ----- no write's clock is the join of other writes -----

  predicate CameLater(w: Write, x: Write) {
    Get(x.reg.clock, w.node) < Get(w.reg.clock, w.node)
  }

  ghost predicate WritesApart(c: Cluster) {
    forall w, x :: w in c.writes && x in c.writes && w != x ==> CameLater(w, x) || CameLater(x, w)
  }

  lemma PutKeepsApart(c: Cluster, n: NodeID, k: Key, v: ByteString, peers: seq<NodeID>, steps: nat)
    requires Inv(c, steps) && WritesApart(c) && n in c.nodes && steps < U64 - 1
    ensures WritesApart(AfterPut(c, n, k, v, peers))
  {
    var w := Write(n, k, LocalPut(c.nodes[n], k, v).store[k]);
    LocalPutDominates(c, n, steps);
    forall x | x in c.writes ensures CameLater(w, x) {
      CoveredIsKnown(c, x.node, x.reg.clock, steps);
      assert Get(x.reg.clock, n) <= Own(c.nodes, n);
    }
  }

  lemma {:induction false} RunKeepsApart(ids: set<NodeID>, actions: seq<Action>)
    requires IsRun(ids, actions) && |actions| < U64
    ensures WritesApart(Outcome(ids, actions))
  {
    if actions != [] {
      var last := |actions| - 1;
      var c, a := Outcome(ids, actions[..last]), actions[last];
      RunKeepsApart(ids, actions[..last]);
      RunKeepsInv(ids, actions[..last]);
      if a.ClientPut? {
        PutKeepsApart(c, a.node, a.key, a.value, a.peers, last);
      } else {
        assert Step(c, a).writes == c.writes;
      }
    }
  }

  lemma NeverTied(c: Cluster, k: Key, t: Tree, w: Register)
    requires WritesApart(c) && Leaves(t) <= WritesTo(c.writes, k)
    requires w in WritesTo(c.writes, k) && w !in Leaves(t)
    ensures !Same(Eval(t).clock, w.clock)
  {
    var write :| write in c.writes && write.key == k && write.reg == w;
    var join, node := Eval(t).clock, write.node;
    EvalClockIsJoin(t);
    if Same(join, w.clock) {
      assert Leq(join, join);
      forall x | x in Leaves(t) ensures Leq(x.clock, w.clock) && Get(x.clock, node) < Get(w.clock, node) {
        LeqTransitive(x.clock, join, w.clock);
        assert x in WritesTo(c.writes, k);
        var other :| other in c.writes && other.key == k && other.reg == x;
        assert CameLater(write, other) || CameLater(other, write);
        LeqPointwise(x.clock, w.clock);
      }
      BelowAtOne(t, w.clock, node);
      LeqPointwise(w.clock, join);
    }
  }

  /** A join stays behind where all its parts do. */
  lemma BelowAtOne(t: Tree, c: Clock, node: NodeID)
    requires forall x :: x in Leaves(t) ==> Leq(x.clock, c) && Get(x.clock, node) < Get(c, node)
    ensures Get(Eval(t).clock, node) < Get(c, node)
  {
    EvalClockIsJoin(t);
    EvalValueIsWritten(t);
    var first :| first in Leaves(t);
    var below := c[node := Get(c, node) - 1];
    forall x | x in Leaves(t) ensures Leq(x.clock, below) {
      LeqPointwise(x.clock, c);
      LeqPointwise(x.clock, below);
      assert forall n :: n != node ==> Get(below, n) == Get(c, n);
    }
    assert Above(below, Leaves(t));
    LeqPointwise(Eval(t).clock, below);
  }

  // ----- merging as deliveries do: the arriving register on the left -----

  function Arrivals(t: Tree): Tree {
    match t
    case Leaf(_) => t
    case Node(l, r) => Node(r, Arrivals(l))
  }

  /** Without a tie it does not matter on which side the register arrives. */
  lemma ArriveOnEitherSide(w: Register, was: Register, now: Register)
    requires Equiv(now, was) && !Same(was.clock, w.clock)
    ensures Equiv(MergeRegisters(w, now), MergeRegisters(was, w))
  {
    MergeCommutesIff(w, was);
    assert Equiv(w, w);
    MergeRespectsEquiv(w, w, now, was);
    hide MergeRegisters;
    EquivThrough(MergeRegisters(w, now), MergeRegisters(w, now), MergeRegisters(w, was), MergeRegisters(was, w));
  }

  lemma {:induction false} ArrivalsAgree(c: Cluster, k: Key, t: Tree)
    requires WritesApart(c) && Comb(t) && Leaves(t) <= WritesTo(c.writes, k)
    ensures Equiv(Eval(Arrivals(t)), Eval(t))
  {
    match t
    case Leaf(_) =>
    case Node(l, r) =>
      hide WritesApart, MergeRegisters, Equiv;
      ArrivalsAgree(c, k, l);
      assert Arrivals(t) == Node(r, Arrivals(l));
      NeverTied(c, k, l, r.write);
      ArriveOnEitherSide(r.write, Eval(l), Eval(Arrivals(l)));
  }

  // ----- every order of delivery is a run -----

  /** Message `i` brings the write `w` to node `n`, and with it nothing from outside `writes`. */
  predicate Carries(c: Cluster, i: nat, n: NodeID, k: Key, w: Register, writes: set<Register>) {
    && i < |c.queue| && i < |c.flight|
    && c.queue[i].receiver == n && c.queue[i].key == k && c.queue[i].payload == w
    && w in Leaves(c.flight[i]) && Leaves(c.flight[i]) <= writes
  }

  ghost predicate OnItsWay(c: Cluster, n: NodeID, k: Key, w: Register, writes: set<Register>) {
    exists i :: Carries(c, i, n, k, w, writes)
  }

  /** Each of the writes is in flight to a node that has nothing for the key yet. */
  ghost predicate Awaits(c: Cluster, n: NodeID, k: Key, writes: set<Register>) {
    n in c.nodes && k !in c.nodes[n].store && forall w :: w in writes ==> OnItsWay(c, n, k, w, writes)
  }

  /** Only what `n` holds is different. */
  ghost predicate OnlyAt(c: Cluster, c': Cluster, n: NodeID) {
    && c'.queue == c.queue && c'.flight == c.flight && c'.writes == c.writes && c'.nodes.Keys == c.nodes.Keys
    && (forall m :: m in c.nodes && m != n ==> c'.nodes[m] == c.nodes[m])
    && forall m, k :: m != n ==> Seen(c', m, k) == Seen(c, m, k)
  }

  lemma DeliverOne(ids: set<NodeID>, actions: seq<Action>, c: Cluster, n: NodeID, k: Key, w: Register,
      writes: set<Register>) returns (a: Action, c': Cluster)
    requires RunTo(ids, actions, c) && |actions| < U64 && n in c.nodes && OnItsWay(c, n, k, w, writes)
    ensures RunTo(ids, actions + [a], c') && OnlyAt(c, c', n) && Stores(c', n, k)
    ensures c'.nodes[n].store[k] == Winner(c.nodes[n], k, w)
    ensures w.value != [] && w in Seen(c', n, k)
    ensures GetCrdt(c.nodes[n], k).Some? && (n, k) in c.held ==>
      Seen(c, n, k) <= Seen(c', n, k) && Seen(c', n, k) <= Seen(c, n, k) + writes
    ensures GetCrdt(c.nodes[n], k).None? ==> Seen(c', n, k) <= writes
  {
    hide Inv;
    var i :| Carries(c, i, n, k, w, writes);
    RunKeepsInv(ids, actions);
    PayloadIsLive(c, i, |actions|);
    a := Deliver(i, true);
    RunAndThen(ids, actions, c, a);
    c' := Step(c, a);
  }

  lemma PayloadIsLive(c: Cluster, i: nat, steps: nat)
    requires Inv(c, steps) && i < |c.queue|
    ensures c.queue[i].payload.value != []
  {
    assert MessageOk(c, c.queue[i], c.flight[i]);
  }

  /** The writes arriving in the order of `t` leave the merge of them in that order. */
  lemma {:induction false} CombDelivered(ids: set<NodeID>, actions: seq<Action>, c: Cluster, n: NodeID, k: Key,
      writes: set<Register>, t: Tree) returns (more: seq<Action>, c': Cluster)
    requires RunTo(ids, actions, c) && |actions| + |Leaves(t)| < U64
    requires Awaits(c, n, k, writes) && Comb(t) && Leaves(t) <= writes
    ensures RunTo(ids, actions + more, c') && |more| == |Leaves(t)| && OnlyAt(c, c', n)
    ensures Stores(c', n, k) && c'.nodes[n].store[k] == Eval(Arrivals(t)) && c'.nodes[n].store[k].value != []
    ensures Leaves(t) <= Seen(c', n, k) <= writes
  {
    hide IsRun, Outcome, Carries, OnItsWay, MergeRegisters;
    match t
    case Leaf(w) =>
      var a;
      a, c' := DeliverOne(ids, actions, c, n, k, w, writes);
      more := [a];
    case Node(l, r) =>
      var w := r.write;
      assert Leaves(t) == Leaves(l) + {w};
      var before, mid := CombDelivered(ids, actions, c, n, k, writes, l);
      StillOnItsWay(c, mid, n, k, w, writes);
      StoredFromTree(ids, actions + before, n, k);
      var a;
      a, c' := DeliverOne(ids, actions + before, mid, n, k, w, writes);
      more := before + [a];
      MergePicksValue(w, Eval(Arrivals(l)));
      assert actions + more == actions + before + [a];
  }

  lemma StillOnItsWay(c: Cluster, c': Cluster, n: NodeID, k: Key, w: Register, writes: set<Register>)
    requires OnItsWay(c, n, k, w, writes) && c'.queue == c.queue && c'.flight == c.flight
    ensures OnItsWay(c', n, k, w, writes)
  {
    var i :| Carries(c, i, n, k, w, writes);
    assert Carries(c', i, n, k, w, writes);
  }

  lemma StillAwaits(c: Cluster, c': Cluster, n: NodeID, m: NodeID, k: Key, writes: set<Register>)
    requires Awaits(c, m, k, writes) && OnlyAt(c, c', n) && n != m
    ensures Awaits(c', m, k, writes)
  {
    forall w | w in writes ensures OnItsWay(c', m, k, w, writes) {
      StillOnItsWay(c, c', m, k, w, writes);
    }
  }

  // ----- exactly when nodes can end apart -----

  ghost predicate EndApart(ids: set<NodeID>, actions: seq<Action>, more: seq<Action>, n: NodeID, m: NodeID, k: Key,
    writes: set<Register>)
  {
    IsRun(ids, actions + more) && |actions + more| < U64 &&
    var c := Outcome(ids, actions + more);
    && Stores(c, n, k) && Stores(c, m, k) && Seen(c, n, k) == writes && Seen(c, m, k) == writes
    && !Equiv(c.nodes[n].store[k], c.nodes[m].store[k])
  }

  lemma AwaitedAreWrites(ids: set<NodeID>, actions: seq<Action>, c: Cluster, n: NodeID, k: Key, writes: set<Register>)
    requires RunTo(ids, actions, c) && |actions| < U64 && Awaits(c, n, k, writes)
    ensures writes <= WritesTo(c.writes, k) && WritesApart(c)
  {
    RunKeepsInv(ids, actions);
    RunKeepsApart(ids, actions);
    forall w | w in writes ensures w in WritesTo(c.writes, k) {
      assert OnItsWay(c, n, k, w, writes);
      var i: nat :| Carries(c, i, n, k, w, writes);
      assert MessageOk(c, c.queue[i], c.flight[i]);
    }
  }

  /** One node receives the writes in the order of `t`, the other in the order of `u`. */
  lemma DeliverBoth(ids: set<NodeID>, actions: seq<Action>, c: Cluster, n: NodeID, m: NodeID, k: Key,
      writes: set<Register>, t: Tree, u: Tree) returns (more: seq<Action>, c': Cluster)
    requires RunTo(ids, actions, c) && |actions| + |writes| + |writes| < U64
    requires n != m && Awaits(c, n, k, writes) && Awaits(c, m, k, writes)
    requires Comb(t) && Comb(u) && Leaves(t) == writes && Leaves(u) == writes
    ensures RunTo(ids, actions + more, c') && |actions + more| < U64
    ensures Stores(c', n, k) && Stores(c', m, k) && Seen(c', n, k) == writes && Seen(c', m, k) == writes
    ensures Equiv(c'.nodes[n].store[k], Eval(t)) && Equiv(c'.nodes[m].store[k], Eval(u))
  {
    hide IsRun, Outcome, RunTo, Awaits, Comb, WritesApart, Equiv, Eval, Arrivals, Leaves, Seen;
    AwaitedAreWrites(ids, actions, c, n, k, writes);
    ArrivalsAgree(c, k, t);
    ArrivalsAgree(c, k, u);
    var first, mid := CombDelivered(ids, actions, c, n, k, writes, t);
    StillAwaits(c, mid, n, m, k, writes);
    var second;
    second, c' := CombDelivered(ids, actions + first, mid, m, k, writes, u);
    more := first + second;
    assert actions + more == actions + first + second;
  }

  /** Two nodes that await the same writes can end apart exactly when the writes have no deciding layer. */
  lemma NodesEndApartIff(ids: set<NodeID>, actions: seq<Action>, c: Cluster, n: NodeID, m: NodeID, k: Key,
      writes: set<Register>)
    requires RunTo(ids, actions, c) && |actions| + |writes| + |writes| < U64
    requires n != m && writes != {} && Awaits(c, n, k, writes) && Awaits(c, m, k, writes)
    ensures (exists more :: EndApart(ids, actions, more, n, m, k, writes)) <==> !exists top, g :: Decides(top, g, writes)
  {
    ConfluentIff(writes);
    if !exists top, g :: Decides(top, g, writes) {
      var t, u :| Comb(t) && Comb(u) && Leaves(t) == writes && Leaves(u) == writes && !Equiv(Eval(t), Eval(u));
      var more, c' := DeliverBoth(ids, actions, c, n, m, k, writes, t, u);
      ApartAsTheTrees(c'.nodes[n].store[k], Eval(t), c'.nodes[m].store[k], Eval(u));
      assert EndApart(ids, actions, more, n, m, k, writes);
    }
    if more :| EndApart(ids, actions, more, n, m, k, writes) {
      if Confluent(writes) {
        ConfluentWritesConverge(ids, actions + more, n, m, k);
      }
    }
  }

  lemma ApartAsTheTrees(r: Register, a: Register, s: Register, b: Register)
    requires Equiv(r, a) && Equiv(s, b) && !Equiv(a, b)
    ensures !Equiv(r, s)
  {
    if Equiv(r, s) {
      EquivThrough(a, r, s, b);
    }
  }

  // ----- a run in which they do -----

  function PushTo(w: NodeID, p: NodeID, q: NodeID, k: Key, r: Register): seq<Message> {
    [Message(PUT, w, p, k, r), Message(PUT, w, q, k, r)]
  }

  /** A write is pushed to both peers with the history of its key. */
  lemma PushedToBoth(c: Cluster, w: NodeID, k: Key, v: ByteString, p: NodeID, q: NodeID)
    requires w in c.nodes && c.nodes[w].id == w && v != []
    ensures var c', r := AfterPut(c, w, k, v, [p, q]), Register(v, Tick(c.nodes[w].clock, w));
      var t := Overwritten(c, w, k, Leaf(r));
      && c'.queue == c.queue + PushTo(w, p, q, k, r) && c'.flight == c.flight + [t, t]
      && c'.nodes == c.nodes[w := LocalPut(c.nodes[w], k, v)] && c'.held == c.held[(w, k) := t]
  {
    var r := Register(v, Tick(c.nodes[w].clock, w));
    var t := Overwritten(c, w, k, Leaf(r));
    assert LocalPut(c.nodes[w], k, v).store[k] == r;
    assert PushMessages(w, [p, q], k, r) == PushTo(w, p, q, k, r);
    assert seq(2, _ => t) == [t, t];
  }

  lemma OneWrite(ids: set<NodeID>, actions: seq<Action>, c: Cluster, w: NodeID, k: Key, r: Register, p: NodeID, q: NodeID)
    returns (c': Cluster, t: Tree)
    requires RunTo(ids, actions, c) && w in c.nodes && c.nodes[w].id == w && w !in {p, q} && r.value != []
    requires r.clock == Tick(c.nodes[w].clock, w)
    ensures RunTo(ids, actions + [ClientPut(w, k, r.value, [p, q])], c')
    ensures c'.queue == c.queue + PushTo(w, p, q, k, r) && c'.flight == c.flight + [t, t]
    ensures c'.held == c.held[(w, k) := t]
    ensures t == if (w, k) in c.held then Node(c.held[(w, k)], Leaf(r)) else Leaf(r)
    ensures c'.nodes.Keys == c.nodes.Keys && c'.nodes[w].id == w && c'.nodes[w].clock == r.clock
    ensures forall n :: n in c.nodes && n != w ==> c'.nodes[n] == c.nodes[n]
  {
    hide Tick;
    PushedToBoth(c, w, k, r.value, p, q);
    RunAndThen(ids, actions, c, ClientPut(w, k, r.value, [p, q]));
    c', t := AfterPut(c, w, k, r.value, [p, q]), Overwritten(c, w, k, Leaf(r));
  }

  /** The first write at `a` and the one that replaces it. */
  lemma TwoWrites(ids: set<NodeID>, a: NodeID, p: NodeID, q: NodeID, k: Key, stale: Register, current: Register)
    returns (actions: seq<Action>, c: Cluster)
    requires a in ids && a !in {p, q} && stale.value != [] && current.value != []
    requires stale.clock == Tick(map[], a) && current.clock == Tick(stale.clock, a)
    ensures RunTo(ids, actions, c) && |actions| == 2
    ensures c.queue == PushTo(a, p, q, k, stale) + PushTo(a, p, q, k, current)
    ensures c.flight == [Leaf(stale), Leaf(stale)] + [Node(Leaf(stale), Leaf(current)), Node(Leaf(stale), Leaf(current))]
    ensures c.nodes.Keys == ids && c.held.Keys == {(a, k)}
    ensures forall n :: n in ids && n != a ==> c.nodes[n] == Db(n, map[], map[])
  {
    var c0 := Start(ids);
    assert RunTo(ids, [], c0);
    hide RunTo, PushTo, Tick;
    var c1, t1 := OneWrite(ids, [], c0, a, k, stale, p, q);
    actions := [] + [ClientPut(a, k, stale.value, [p, q])];
    var t2;
    c, t2 := OneWrite(ids, actions, c1, a, k, current, p, q);
    actions := actions + [ClientPut(a, k, current.value, [p, q])];
    assert c.flight == [t1, t1] + [t2, t2];
  }

  /** The three writes of `StaleValueReturns`, made at `a` and `b` and pushed to `p` and `q`. */
  lemma ThreeWrites(a: NodeID, b: NodeID, p: NodeID, q: NodeID, k: Key,
      stale: Register, current: Register, elsewhere: Register) returns (actions: seq<Action>, c: Cluster)
    requires a != b && {a, b} !! {p, q} && stale.value != [] && current.value != [] && elsewhere.value != []
    requires stale.clock == map[a := 1] && current.clock == map[a := 2] && elsewhere.clock == map[b := 1]
    ensures RunTo({a, b, p, q}, actions, c) && |actions| == 3
    ensures c.queue == PushTo(a, p, q, k, stale) + PushTo(a, p, q, k, current) + PushTo(b, p, q, k, elsewhere)
    ensures c.flight == [Leaf(stale), Leaf(stale)]
      + [Node(Leaf(stale), Leaf(current)), Node(Leaf(stale), Leaf(current))] + [Leaf(elsewhere), Leaf(elsewhere)]
    ensures forall n :: n in {p, q} ==> n in c.nodes && c.nodes[n].store == map[]
  {
    var ids := {a, b, p, q};
    assert Tick(map[], a) == stale.clock && Tick(stale.clock, a) == current.clock && Tick(map[], b) == elsewhere.clock;
    hide RunTo, PushTo, Tick;
    var c2, t;
    actions, c2 := TwoWrites(ids, a, p, q, k, stale, current);
    c, t := OneWrite(ids, actions, c2, b, k, elsewhere, p, q);
    actions := actions + [ClientPut(b, k, elsewhere.value, [p, q])];
  }

  /** Both peers await all three. */
  lemma BothAwait(c: Cluster, a: NodeID, b: NodeID, p: NodeID, q: NodeID, k: Key,
      stale: Register, current: Register, elsewhere: Register)
    requires c.queue == PushTo(a, p, q, k, stale) + PushTo(a, p, q, k, current) + PushTo(b, p, q, k, elsewhere)
    requires c.flight == [Leaf(stale), Leaf(stale)]
      + [Node(Leaf(stale), Leaf(current)), Node(Leaf(stale), Leaf(current))] + [Leaf(elsewhere), Leaf(elsewhere)]
    requires forall n :: n in {p, q} ==> n in c.nodes && c.nodes[n].store == map[]
    ensures Awaits(c, p, k, {stale, current, elsewhere}) && Awaits(c, q, k, {stale, current, elsewhere})
  {
    var writes := {stale, current, elsewhere};
    var both := Node(Leaf(stale), Leaf(current));
    assert Leaves(Leaf(stale)) == {stale} && Leaves(both) == {stale, current};
    assert Carries(c, 0, p, k, stale, writes) && Carries(c, 1, q, k, stale, writes);
    assert Carries(c, 2, p, k, current, writes) && Carries(c, 3, q, k, current, writes);
    assert Carries(c, 4, p, k, elsewhere, writes) && Carries(c, 5, q, k, elsewhere, writes);
  }

  lemma PairOfLeaves(a: Register, b: Register)
    requires a != b
    ensures Comb(Node(Leaf(a), Leaf(b))) && Leaves(Node(Leaf(a), Leaf(b))) == {a, b}
  {
    assert Leaves(Leaf(a)) == {a} && Leaves(Leaf(b)) == {b};
  }

  /** The order that keeps the overwritten value, and one that does not. */
  lemma TwoOrders(stale: Register, current: Register, elsewhere: Register) returns (t: Tree, u: Tree)
    requires stale != current && stale != elsewhere && current != elsewhere
    requires Leq(stale.clock, current.clock) && stale.value != current.value
    requires MergeRegisters(MergeRegisters(stale, elsewhere), current).value == stale.value
    requires MergeRegisters(stale, MergeRegisters(elsewhere, current)).value == current.value
    ensures Leaves(t) == {stale, current, elsewhere} && Leaves(u) == {stale, current, elsewhere}
    ensures Comb(t) && Comb(u) && Eval(t).value == stale.value && Eval(u).value == current.value
  {
    hide MergeRegisters, Leq;
    var s, v := Node(Leaf(stale), Leaf(elsewhere)), Node(Leaf(elsewhere), Leaf(current));
    t, u := Node(s, Leaf(current)), Node(v, Leaf(stale));
    PairOfLeaves(stale, elsewhere);
    PairOfLeaves(elsewhere, current);
    EvalPair(stale, elsewhere);
    EvalPair(elsewhere, current);
    MergeBounds(elsewhere, current);
    LeqTransitive(stale.clock, current.clock, Eval(v).clock);
    MergePicksValue(stale, MergeRegisters(elsewhere, current));
    AbsorbOne(v, stale);
  }

  lemma ThreeApart(a: NodeID, b: NodeID)
    requires a != b
    ensures var one, two, far: Clock := map[a := 1], map[a := 2], map[b := 1]; one != two && one != far && two != far
  {
    var one, two, far: Clock := map[a := 1], map[a := 2], map[b := 1];
    assert Get(one, a) == 1 && Get(two, a) == 2 && Get(far, a) == 0;
  }

  lemma ValuesApart(high: ByteString, mid: ByteString, low: ByteString)
    requires Less(low, mid) && Less(mid, high)
    ensures high != [] && mid != [] && high != mid
  {
    LessTrichotomy(mid, high);
  }

  /** The three writes are made, none has arrived, and merging them is order-sensitive. */
  lemma ThreeAwaited(a: NodeID, b: NodeID, p: NodeID, q: NodeID, k: Key,
      high: ByteString, mid: ByteString, low: ByteString)
    returns (actions: seq<Action>, c: Cluster, stale: Register, current: Register, elsewhere: Register)
    requires a != b && {a, b} !! {p, q} && low != [] && Less(low, mid) && Less(mid, high)
    ensures RunTo({a, b, p, q}, actions, c) && |actions| == 3
    ensures Awaits(c, p, k, {stale, current, elsewhere}) && Awaits(c, q, k, {stale, current, elsewhere})
    ensures stale != current && stale != elsewhere && current != elsewhere
    ensures Leq(stale.clock, current.clock) && stale.value == high && current.value == mid && high != mid
    ensures MergeRegisters(MergeRegisters(stale, elsewhere), current).value == high
    ensures MergeRegisters(stale, MergeRegisters(elsewhere, current)).value == mid
  {
    ValuesApart(high, mid, low);
    StaleValueReturns(a, b, high, mid, low);
    ThreeApart(a, b);
    hide *;
    stale, current, elsewhere := Register(high, map[a := 1]), Register(mid, map[a := 2]), Register(low, map[b := 1]);
    actions, c := ThreeWrites(a, b, p, q, k, stale, current, elsewhere);
    BothAwait(c, a, b, p, q, k, stale, current, elsewhere);
  }

  /** Two nodes reached by the same three writes, one reading the overwritten value, the other the one that
      replaced it, under equivalent clocks. */
  lemma StaleValueReturnsInARun(a: NodeID, b: NodeID, p: NodeID, q: NodeID, k: Key,
      high: ByteString, mid: ByteString, low: ByteString) returns (actions: seq<Action>, c: Cluster)
    requires a != b && p != q && {a, b} !! {p, q} && low != [] && Less(low, mid) && Less(mid, high)
    ensures RunTo({a, b, p, q}, actions, c) && |actions| < U64
    ensures Stores(c, p, k) && Stores(c, q, k) && Seen(c, p, k) == Seen(c, q, k)
    ensures Same(c.nodes[p].store[k].clock, c.nodes[q].store[k].clock)
    ensures c.nodes[p].store[k].value == high && c.nodes[q].store[k].value == mid
  {
    hide Awaits, Comb, Less, Leq, Seen, MergeRegisters, Eval, Leaves, IsRun, Outcome;
    var before, c0, stale, current, elsewhere := ThreeAwaited(a, b, p, q, k, high, mid, low);
    var t, u := TwoOrders(stale, current, elsewhere);
    var more;
    more, c := DeliverBoth({a, b, p, q}, before, c0, p, q, k, {stale, current, elsewhere}, t, u);
    actions := before + more;
    SameWritesSameClock({a, b, p, q}, actions, p, q, k);
  }
}
