/** Every run of a cluster of any size, over a network that may delay, reorder, repeat and lose
    messages. Each stored and each travelling register is paired with the merge tree of the client
    writes it came from, so that what a node holds can be compared with what reached it. */
module ClusterRuns {
  import opened Bytes
  import opened VectorClocks
  import opened Crdt
  import opened Database
  import opened Replication
  import opened MergeTrees

  datatype Write = Write(node: NodeID, key: Key, reg: Register)

  /** A register a node has stored, with the merge tree of client writes it came from. */
  datatype Version = Version(reg: Register, origin: Tree)

  /** The order in which a scan merges stored versions of one key. */
  datatype Fold = One(version: Version) | Both(left: Fold, right: Fold)

  datatype Cluster = Cluster(
    nodes: Nodes,
    queue: seq<Message>,
    held: map<(NodeID, Key), Tree>,               // history: where each stored register came from
    versions: map<(NodeID, Key), set<Version>>,   // history: every register a node has stored
    flight: seq<Tree>,                            // history: where each queued register came from
    writes: set<Write>)                           // history: every client write so far

  datatype Action =
    | ClientPut(node: NodeID, key: Key, value: ByteString, peers: seq<NodeID>)
    | Gossip(node: NodeID, target: NodeID, folds: map<Key, Fold>)
    | Deliver(index: nat, keep: bool)
    | Drop(index: nat)

  // ----- folds of versions -----

  function Parts(f: Fold): set<Version> {
    match f
    case One(v) => {v}
    case Both(l, r) => Parts(l) + Parts(r)
  }

  function RegTree(f: Fold): Tree {
    match f
    case One(v) => Leaf(v.reg)
    case Both(l, r) => Node(RegTree(l), RegTree(r))
  }

  /** The client writes behind a fold, merged as the fold merges the versions. */
  function Origin(f: Fold): Tree {
    match f
    case One(v) => v.origin
    case Both(l, r) => Node(Origin(l), Origin(r))
  }

  function Found(folds: map<Key, Fold>): map<Key, Register> {
    map k | k in folds :: Eval(RegTree(folds[k]))
  }

  // ----- steps -----

  function VersionsOf(c: Cluster, n: NodeID, k: Key): set<Version> {
    if (n, k) in c.versions then c.versions[(n, k)] else {}
  }

  /** A scan of a key merges versions the node has stored, the newest one among them. */
  predicate FoldOk(c: Cluster, n: NodeID, k: Key, f: Fold)
    requires n in c.nodes && k in c.nodes[n].store
  {
    Parts(f) <= VersionsOf(c, n, k) && (n, k) in c.held && Version(c.nodes[n].store[k], c.held[(n, k)]) in Parts(f)
  }

  predicate FoldsOk(c: Cluster, n: NodeID, folds: map<Key, Fold>)
    requires n in c.nodes
  {
    folds.Keys == c.nodes[n].store.Keys && forall k :: k in folds ==> FoldOk(c, n, k, folds[k])
  }

  predicate Enabled(c: Cluster, a: Action) {
    match a
    case ClientPut(n, _, _, _) => n in c.nodes
    case Gossip(n, _, folds) => n in c.nodes && FoldsOk(c, n, folds)
    case Deliver(i, _) => i < |c.queue| && i < |c.flight|
    case Drop(i) => i < |c.queue| && i < |c.flight|
  }

  /** The history of the register a delivery leaves behind: a tombstone is overwritten, not merged. */
  function Merged(c: Cluster, n: NodeID, k: Key, incoming: Tree): Tree {
    if n in c.nodes && GetCrdt(c.nodes[n], k).Some? && (n, k) in c.held then Node(incoming, c.held[(n, k)])
    else incoming
  }

  /** The history of a local write: it dominates what the node held. */
  function Overwritten(c: Cluster, n: NodeID, k: Key, w: Tree): Tree {
    if (n, k) in c.held then Node(c.held[(n, k)], w) else w
  }

  function Without<T>(s: seq<T>, i: nat): seq<T>
    requires i < |s|
  {
    s[..i] + s[i + 1..]
  }

  /** Node `n` now holds `d`, its register for `k` having come about as `t` says. */
  function Hold(c: Cluster, n: NodeID, k: Key, d: Db, t: Tree): Cluster
    requires k in d.store
  {
    c.(nodes := c.nodes[n := d], held := c.held[(n, k) := t],
       versions := c.versions[(n, k) := VersionsOf(c, n, k) + {Version(d.store[k], t)}])
  }

  function AfterPut(c: Cluster, n: NodeID, k: Key, v: ByteString, peers: seq<NodeID>): Cluster
    requires n in c.nodes
  {
    var d := LocalPut(c.nodes[n], k, v);
    var t := Overwritten(c, n, k, Leaf(d.store[k]));
    var sent := if v == [] then [] else PushMessages(n, peers, k, d.store[k]);
    Hold(c, n, k, d, t).(queue := c.queue + sent, flight := c.flight + seq(|sent|, _ => t),
      writes := c.writes + {Write(n, k, d.store[k])})
  }

  ghost function AfterGossip(c: Cluster, n: NodeID, target: NodeID, folds: map<Key, Fold>): Cluster
    requires n in c.nodes
  {
    var rows := Rows(Gossiped(Found(folds)));
    c.(queue := c.queue + GossipMessages(n, target, rows),
       flight := c.flight + seq(|rows|, i requires 0 <= i < |rows| =>
         if rows[i].0 in folds then Origin(folds[rows[i].0]) else Leaf(rows[i].1)))
  }

  function AfterDelivery(c: Cluster, i: nat): Cluster
    requires i < |c.queue| && i < |c.flight|
  {
    var msg := c.queue[i];
    if msg.receiver !in c.nodes then c else
      Hold(c, msg.receiver, msg.key, RemotePut(c.nodes[msg.receiver], msg.key, msg.payload),
        Merged(c, msg.receiver, msg.key, c.flight[i]))
  }

  function AfterLoss(c: Cluster, i: nat): Cluster
    requires i < |c.queue| && i < |c.flight|
  {
    c.(queue := Without(c.queue, i), flight := Without(c.flight, i))
  }

  ghost function Step(c: Cluster, a: Action): Cluster
    requires Enabled(c, a)
  {
    match a
    case ClientPut(n, k, v, peers) => AfterPut(c, n, k, v, peers)
    case Gossip(n, target, folds) => AfterGossip(c, n, target, folds)
    case Deliver(i, keep) => if keep then AfterDelivery(c, i) else AfterLoss(AfterDelivery(c, i), i)
    case Drop(i) => AfterLoss(c, i)
  }

  function Start(ids: set<NodeID>): Cluster {
    Cluster(map n | n in ids :: Db(n, map[], map[]), [], map[], map[], [], {})
  }

  /** The actions are taken in order, each enabled when its turn comes. */
  ghost predicate IsRun(ids: set<NodeID>, actions: seq<Action>)
    decreases |actions|, 0
  {
    actions == [] ||
    (IsRun(ids, actions[..|actions| - 1]) && Enabled(Outcome(ids, actions[..|actions| - 1]), actions[|actions| - 1]))
  }

  ghost function Outcome(ids: set<NodeID>, actions: seq<Action>): Cluster
    requires IsRun(ids, actions)
    decreases |actions|, 1
  {
    if actions == [] then Start(ids)
    else Step(Outcome(ids, actions[..|actions| - 1]), actions[|actions| - 1])
  }

  // ----- what the steps put on the wire -----

  /** A gossip step sends every live key up to the bound once, and nothing else. */
  lemma GossipStepSends(c: Cluster, n: NodeID, target: NodeID, folds: map<Key, Fold>)
    requires Enabled(c, Gossip(n, target, folds))
    ensures var queue := Step(c, Gossip(n, target, folds)).queue;
      && queue[..|c.queue|] == c.queue
      && forall k :: GossipsKey(queue[|c.queue|..], n, target, Found(folds), k)
  {
    var queue, sent := Step(c, Gossip(n, target, folds)).queue, GossipMessages(n, target, Rows(Gossiped(Found(folds))));
    assert queue == c.queue + sent;
    hide GossipsKey, Step, Found, Gossiped;
    assert queue[|c.queue|..] == sent;
    forall k ensures GossipsKey(queue[|c.queue|..], n, target, Found(folds), k) {
      GossipSendsEach(n, target, Found(folds), k);
    }
  }

  /** A put sends the register it stored to every peer once, in order, unless it is a removal. */
  lemma PutStepSends(c: Cluster, n: NodeID, k: Key, v: ByteString, peers: seq<NodeID>)
    requires n in c.nodes
    ensures var c' := Step(c, ClientPut(n, k, v, peers));
      && n in c'.nodes && k in c'.nodes[n].store && c'.nodes[n].store[k].value == v
      && |c'.queue| == |c.queue| + (if v == [] then 0 else |peers|) && c'.queue[..|c.queue|] == c.queue
      && forall i :: 0 <= i < |c'.queue| - |c.queue| ==>
           c'.queue[|c.queue| + i] == Message(PUT, n, peers[i], k, c'.nodes[n].store[k])
  {
  }

  // ----- the invariant -----

  /** The counter a node has given itself. */
  function Own(nodes: Nodes, n: NodeID): nat {
    if n in nodes then Get(nodes[n].clock, n) else 0
  }

  /** No clock runs ahead of the node it speaks about. */
  predicate Known(nodes: Nodes, c: Clock) {
    forall m :: m in c ==> c[m] <= Own(nodes, m)
  }

  function WritesTo(writes: set<Write>, k: Key): set<Register> {
    set w | w in writes && w.key == k :: w.reg
  }

  predicate Traces(t: Tree, r: Register, writes: set<Register>) {
    Equiv(Eval(t), r) && Leaves(t) <= writes
  }

  predicate Newer(a: Write, b: Write) {
    Leq(b.reg.clock, a.reg.clock) && Get(b.reg.clock, b.node) < Get(a.reg.clock, a.node)
  }

  predicate NodesOk(c: Cluster, steps: nat) {
    forall n :: n in c.nodes ==> c.nodes[n].id == n && Known(c.nodes, c.nodes[n].clock) && Own(c.nodes, n) <= steps
  }

  predicate VersionOk(c: Cluster, n: NodeID, k: Key, v: Version)
    requires n in c.nodes
  {
    Traces(v.origin, v.reg, WritesTo(c.writes, k)) && Leq(v.reg.clock, c.nodes[n].clock)
  }

  predicate StoredOk(c: Cluster, n: NodeID, k: Key)
    requires n in c.nodes && k in c.nodes[n].store
  {
    (n, k) in c.held && Version(c.nodes[n].store[k], c.held[(n, k)]) in VersionsOf(c, n, k)
  }

  predicate MessageOk(c: Cluster, msg: Message, t: Tree) {
    && Traces(t, msg.payload, WritesTo(c.writes, msg.key)) && Known(c.nodes, msg.payload.clock)
    && msg.payload.value != []
  }

  predicate WritesOk(c: Cluster) {
    && (forall w :: w in c.writes ==> w.node in c.nodes && Leq(w.reg.clock, c.nodes[w.node].clock))
    && (forall w, x :: w in c.writes && x in c.writes && w.node == x.node ==> w == x || Newer(w, x) || Newer(x, w))
  }

  ghost predicate StoresOk(c: Cluster) {
    && (forall n, k :: n in c.nodes && k in c.nodes[n].store ==> StoredOk(c, n, k))
    && (forall n, k :: (n, k) in c.held ==> n in c.nodes && k in c.nodes[n].store)
  }

  ghost predicate VersionsOk(c: Cluster) {
    forall n, k, v :: v in VersionsOf(c, n, k) ==> n in c.nodes && VersionOk(c, n, k, v)
  }

  predicate MessagesOk(c: Cluster) {
    && |c.flight| == |c.queue|
    && forall i :: 0 <= i < |c.queue| ==> MessageOk(c, c.queue[i], c.flight[i])
  }

  ghost predicate Inv(c: Cluster, steps: nat) {
    NodesOk(c, steps) && StoresOk(c) && VersionsOk(c) && MessagesOk(c) && WritesOk(c)
  }

  // ----- every step keeps it -----

  lemma KnownGrows(nodes: Nodes, nodes': Nodes, c: Clock)
    requires Known(nodes, c) && forall m :: Own(nodes, m) <= Own(nodes', m)
    ensures Known(nodes', c)
  {
  }

  lemma TracesGrows(t: Tree, r: Register, k: Key, writes: set<Write>, writes': set<Write>)
    requires Traces(t, r, WritesTo(writes, k)) && writes <= writes'
    ensures Traces(t, r, WritesTo(writes', k))
  {
    assert WritesTo(writes, k) <= WritesTo(writes', k);
  }

  lemma KnownJoin(nodes: Nodes, a: Clock, b: Clock)
    requires Known(nodes, a) && Known(nodes, b)
    ensures Known(nodes, Join(a, b))
  {
  }

  /** What a node holds for a key is a version, so it has a history and its clock is covered. */
  lemma HeldIsOk(c: Cluster, n: NodeID, k: Key)
    requires StoresOk(c) && VersionsOk(c) && n in c.nodes && k in c.nodes[n].store
    ensures (n, k) in c.held && VersionOk(c, n, k, Version(c.nodes[n].store[k], c.held[(n, k)]))
  {
    assert StoredOk(c, n, k);
  }

  /** A local write strictly dominates everything its node stores, while the counter does not wrap. */
  lemma LocalPutDominates(c: Cluster, n: NodeID, steps: nat)
    requires Inv(c, steps) && n in c.nodes && steps < U64 - 1
    ensures var now := Tick(c.nodes[n].clock, n);
      && Leq(c.nodes[n].clock, now) && Get(now, n) == Own(c.nodes, n) + 1
      && forall k :: k in c.nodes[n].store ==> Before(c.nodes[n].store[k].clock, now)
  {
    var d := c.nodes[n];
    var now := Tick(d.clock, n);
    IncrementAdvancesIff(d.clock, n);
    forall k | k in d.store ensures Before(d.store[k].clock, now) {
      HeldIsOk(c, n, k);
      LeqTransitive(d.store[k].clock, d.clock, now);
      assert Get(d.store[k].clock, n) <= Get(d.clock, n) < Get(now, n);
    }
  }

  // ----- storing a register -----

  /** Storing `d.store[k]` with history `t` at node `n`, whose clock moves up, keeps stores and versions. */
  lemma StoringKeeps(c: Cluster, n: NodeID, k: Key, d: Db, t: Tree, writes': set<Write>)
    requires StoresOk(c) && VersionsOk(c) && n in c.nodes && c.writes <= writes'
    requires k in d.store && d.store == c.nodes[n].store[k := d.store[k]] && Leq(c.nodes[n].clock, d.clock)
    requires Traces(t, d.store[k], WritesTo(writes', k)) && Leq(d.store[k].clock, d.clock)
    ensures var c' := Hold(c, n, k, d, t).(writes := writes'); StoresOk(c') && VersionsOk(c')
  {
    var c' := Hold(c, n, k, d, t).(writes := writes');
    forall m, key | m in c'.nodes && key in c'.nodes[m].store ensures StoredOk(c', m, key) {
      if m != n || key != k {
        assert StoredOk(c, m, key);
      }
    }
    forall m, key, v | v in VersionsOf(c', m, key) ensures m in c'.nodes && VersionOk(c', m, key, v) {
      if v in VersionsOf(c, m, key) {
        assert VersionOk(c, m, key, v);
        TracesGrows(v.origin, v.reg, key, c.writes, writes');
        if m == n {
          LeqTransitive(v.reg.clock, c.nodes[n].clock, d.clock);
        }
      }
    }
  }

  // ----- client writes -----

  lemma PutKeepsNodes(c: Cluster, n: NodeID, k: Key, v: ByteString, peers: seq<NodeID>, steps: nat)
    requires Inv(c, steps) && n in c.nodes && steps < U64 - 1
    ensures var c' := AfterPut(c, n, k, v, peers);
      NodesOk(c', steps + 1) && forall m :: Own(c.nodes, m) <= Own(c'.nodes, m)
  {
    var c' := AfterPut(c, n, k, v, peers);
    LocalPutDominates(c, n, steps);
    assert forall m :: Own(c.nodes, m) <= Own(c'.nodes, m);
    forall m | m in c.nodes ensures Known(c'.nodes, c.nodes[m].clock) {
      KnownGrows(c.nodes, c'.nodes, c.nodes[m].clock);
    }
    assert Known(c'.nodes, c'.nodes[n].clock);
  }

  lemma PutTree(c: Cluster, n: NodeID, k: Key, v: ByteString, steps: nat)
    requires Inv(c, steps) && n in c.nodes && steps < U64 - 1
    ensures var r := LocalPut(c.nodes[n], k, v).store[k]; Equiv(Eval(Overwritten(c, n, k, Leaf(r))), r)
  {
    LocalPutDominates(c, n, steps);
    if (n, k) in c.held {
      HeldIsOk(c, n, k);
      var held, now := Eval(c.held[(n, k)]).clock, Tick(c.nodes[n].clock, n);
      LeqTransitive(held, c.nodes[n].store[k].clock, now);
      if Leq(now, held) {
        LeqTransitive(now, held, c.nodes[n].store[k].clock);
      }
    }
  }

  lemma PutTraced(c: Cluster, n: NodeID, k: Key, v: ByteString, steps: nat, writes': set<Write>)
    requires Inv(c, steps) && n in c.nodes && steps < U64 - 1
    requires writes' == c.writes + {Write(n, k, LocalPut(c.nodes[n], k, v).store[k])}
    ensures var r := LocalPut(c.nodes[n], k, v).store[k];
      Traces(Overwritten(c, n, k, Leaf(r)), r, WritesTo(writes', k))
  {
    PutTree(c, n, k, v, steps);
    var w := Write(n, k, LocalPut(c.nodes[n], k, v).store[k]);
    assert w in writes' && w.reg in WritesTo(writes', k);
    if (n, k) in c.held {
      HeldIsOk(c, n, k);
      TracesGrows(c.held[(n, k)], c.nodes[n].store[k], k, c.writes, writes');
    }
  }

  lemma PutKeepsStores(c: Cluster, n: NodeID, k: Key, v: ByteString, peers: seq<NodeID>, steps: nat)
    requires Inv(c, steps) && n in c.nodes && steps < U64 - 1
    ensures StoresOk(AfterPut(c, n, k, v, peers)) && VersionsOk(AfterPut(c, n, k, v, peers))
  {
    var c', d := AfterPut(c, n, k, v, peers), LocalPut(c.nodes[n], k, v);
    var t := Overwritten(c, n, k, Leaf(d.store[k]));
    LocalPutDominates(c, n, steps);
    PutTraced(c, n, k, v, steps, c'.writes);
    assert Leq(d.store[k].clock, d.clock);
    StoringKeeps(c, n, k, d, t, c'.writes);
    SameHistory(Hold(c, n, k, d, t).(writes := c'.writes), c');
  }

  /** Stores and versions do not depend on what is in flight. */
  lemma SameHistory(c: Cluster, c': Cluster)
    requires StoresOk(c) && VersionsOk(c)
    requires c' == c.(queue := c'.queue, flight := c'.flight)
    ensures StoresOk(c') && VersionsOk(c')
  {
    forall n, k | n in c'.nodes && k in c'.nodes[n].store ensures StoredOk(c', n, k) {
      assert StoredOk(c, n, k);
    }
    forall n, k, v | v in VersionsOf(c', n, k) ensures n in c'.nodes && VersionOk(c', n, k, v) {
      assert v in VersionsOf(c, n, k) && VersionOk(c, n, k, v);
    }
  }

  lemma PutKeepsMessages(c: Cluster, n: NodeID, k: Key, v: ByteString, peers: seq<NodeID>, steps: nat)
    requires Inv(c, steps) && n in c.nodes && steps < U64 - 1
    ensures MessagesOk(AfterPut(c, n, k, v, peers))
  {
    var c' := AfterPut(c, n, k, v, peers);
    PutKeepsNodes(c, n, k, v, peers, steps);
    PutTraced(c, n, k, v, steps, c'.writes);
    forall i | 0 <= i < |c'.queue| ensures MessageOk(c', c'.queue[i], c'.flight[i]) {
      if i < |c.queue| {
        assert MessageOk(c, c.queue[i], c.flight[i]);
        KnownGrows(c.nodes, c'.nodes, c.queue[i].payload.clock);
        TracesGrows(c.flight[i], c.queue[i].payload, c.queue[i].key, c.writes, c'.writes);
      }
    }
  }

  lemma PutKeepsWrites(c: Cluster, n: NodeID, k: Key, v: ByteString, peers: seq<NodeID>, steps: nat)
    requires Inv(c, steps) && n in c.nodes && steps < U64 - 1
    ensures WritesOk(AfterPut(c, n, k, v, peers))
  {
    var now, c' := Tick(c.nodes[n].clock, n), AfterPut(c, n, k, v, peers);
    var w := Write(n, k, Register(v, now));
    LocalPutDominates(c, n, steps);
    assert c.nodes[n].id == n && c'.writes == c.writes + {w};
    assert forall m :: m in c.nodes ==> Leq(c.nodes[m].clock, c'.nodes[m].clock);
    hide Inv, Tick, AfterPut;
    forall x | x in c.writes
      ensures Leq(x.reg.clock, c'.nodes[x.node].clock) && (x.node == n ==> Newer(w, x))
    {
      LeqTransitive(x.reg.clock, c.nodes[x.node].clock, c'.nodes[x.node].clock);
      if x.node == n {
        LeqPointwise(x.reg.clock, c.nodes[n].clock);
      }
    }
  }

  lemma PutKeepsInv(c: Cluster, n: NodeID, k: Key, v: ByteString, peers: seq<NodeID>, steps: nat)
    requires Inv(c, steps) && n in c.nodes && steps < U64 - 1
    ensures Inv(AfterPut(c, n, k, v, peers), steps + 1)
  {
    hide StoresOk, VersionsOk, MessagesOk, WritesOk, NodesOk, AfterPut;
    PutKeepsNodes(c, n, k, v, peers, steps);
    PutKeepsStores(c, n, k, v, peers, steps);
    PutKeepsMessages(c, n, k, v, peers, steps);
    PutKeepsWrites(c, n, k, v, peers, steps);
  }

  // ----- gossip -----

  /** A fold of versions with a history has one, and stays below whatever covers the versions. */
  lemma {:induction false} FoldTraced(f: Fold, writes: set<Register>, cover: Clock)
    requires forall v :: v in Parts(f) ==> Traces(v.origin, v.reg, writes) && Leq(v.reg.clock, cover)
    ensures Traces(Origin(f), Eval(RegTree(f)), writes) && Leq(Eval(RegTree(f)).clock, cover)
  {
    match f
    case One(v) =>
      assert v in Parts(f);
    case Both(l, r) =>
      FoldTraced(l, writes, cover);
      FoldTraced(r, writes, cover);
      MergeRespectsEquiv(Eval(Origin(l)), Eval(RegTree(l)), Eval(Origin(r)), Eval(RegTree(r)));
      MergeClock(Eval(RegTree(l)), Eval(RegTree(r)), cover);
  }

  lemma CoveredIsKnown(c: Cluster, n: NodeID, r: Clock, steps: nat)
    requires NodesOk(c, steps) && n in c.nodes && Leq(r, c.nodes[n].clock)
    ensures Known(c.nodes, r)
  {
    var d := c.nodes[n].clock;
    forall m | m in r ensures r[m] <= Own(c.nodes, m) {
      assert r[m] <= Get(d, m);
    }
  }

  lemma GossipedRow(folds: map<Key, Fold>, i: nat)
    requires i < |Rows(Gossiped(Found(folds)))|
    ensures var row := Rows(Gossiped(Found(folds)))[i];
      row.0 in folds && row.1 == Eval(RegTree(folds[row.0])) && row.1.value != []
  {
    var found := Gossiped(Found(folds));
    RowsAreMap(found);
    assert Rows(found)[i].0 in found;
  }

  lemma GossipMessageOk(c: Cluster, n: NodeID, folds: map<Key, Fold>, steps: nat, i: nat)
    requires Inv(c, steps) && n in c.nodes && FoldsOk(c, n, folds) && i < |Rows(Gossiped(Found(folds)))|
    ensures var row := Rows(Gossiped(Found(folds)))[i];
      && row.0 in folds && Traces(Origin(folds[row.0]), row.1, WritesTo(c.writes, row.0))
      && Known(c.nodes, row.1.clock) && row.1.value != []
  {
    GossipedRow(folds, i);
    var k := Rows(Gossiped(Found(folds)))[i].0;
    forall v | v in Parts(folds[k]) ensures VersionOk(c, n, k, v) {
      assert v in VersionsOf(c, n, k);
    }
    FoldTraced(folds[k], WritesTo(c.writes, k), c.nodes[n].clock);
    CoveredIsKnown(c, n, Eval(RegTree(folds[k])).clock, steps);
  }

  lemma GossipKeepsMessages(c: Cluster, n: NodeID, target: NodeID, folds: map<Key, Fold>, steps: nat)
    requires Inv(c, steps) && n in c.nodes && FoldsOk(c, n, folds)
    ensures MessagesOk(AfterGossip(c, n, target, folds))
  {
    hide Traces, Gossiped, FoldsOk;
    var c', rows := AfterGossip(c, n, target, folds), Rows(Gossiped(Found(folds)));
    forall i | 0 <= i < |c'.queue| ensures MessageOk(c', c'.queue[i], c'.flight[i]) {
      if i < |c.queue| {
        assert MessageOk(c, c.queue[i], c.flight[i]);
      } else {
        GossipMessageOk(c, n, folds, steps, i - |c.queue|);
      }
    }
  }

  lemma GossipKeepsInv(c: Cluster, n: NodeID, target: NodeID, folds: map<Key, Fold>, steps: nat)
    requires Inv(c, steps) && n in c.nodes && FoldsOk(c, n, folds)
    ensures Inv(AfterGossip(c, n, target, folds), steps)
  {
    hide StoresOk, VersionsOk, MessagesOk;
    GossipKeepsMessages(c, n, target, folds, steps);
    SameHistory(c, AfterGossip(c, n, target, folds));
  }

  // ----- delivery -----

  lemma DeliveryTraced(c: Cluster, i: nat, steps: nat)
    requires Inv(c, steps) && i < |c.queue| && c.queue[i].receiver in c.nodes
    ensures var msg := c.queue[i]; var n, k := msg.receiver, msg.key;
      var d' := RemotePut(c.nodes[n], k, msg.payload);
      && Traces(Merged(c, n, k, c.flight[i]), d'.store[k], WritesTo(c.writes, k))
      && Leq(d'.store[k].clock, d'.clock) && Leq(c.nodes[n].clock, d'.clock)
  {
    var msg := c.queue[i];
    var n, k, d := msg.receiver, msg.key, c.nodes[msg.receiver];
    var d' := RemotePut(d, k, msg.payload);
    assert MessageOk(c, msg, c.flight[i]);
    JoinIsLeastUpperBound(d.clock, msg.payload.clock, d'.clock);
    if GetCrdt(d, k).Some? {
      HeldIsOk(c, n, k);
      MergeRespectsEquiv(Eval(c.flight[i]), msg.payload, Eval(c.held[(n, k)]), d.store[k]);
      MergeClock(msg.payload, d.store[k], d'.clock);
      LeqTransitive(d.store[k].clock, d.clock, d'.clock);
    }
  }

  lemma DeliveryKeepsNodes(c: Cluster, i: nat, steps: nat)
    requires Inv(c, steps) && i < |c.queue| && c.queue[i].receiver in c.nodes
    ensures var c' := AfterDelivery(c, i);
      && NodesOk(c', steps)
      && (forall m :: Own(c'.nodes, m) == Own(c.nodes, m))
      && forall m :: m in c.nodes ==> Leq(c.nodes[m].clock, c'.nodes[m].clock)
  {
    var msg, c' := c.queue[i], AfterDelivery(c, i);
    var n, d := msg.receiver, c.nodes[msg.receiver];
    var joined := Join(d.clock, msg.payload.clock);
    assert MessageOk(c, msg, c.flight[i]);
    JoinIsLeastUpperBound(d.clock, msg.payload.clock, joined);
    KnownJoin(c.nodes, d.clock, msg.payload.clock);
    assert Get(msg.payload.clock, n) <= Own(c.nodes, n);
    assert forall m :: Own(c'.nodes, m) == Own(c.nodes, m);
    forall m | m in c.nodes ensures Known(c'.nodes, c.nodes[m].clock) {
      KnownGrows(c.nodes, c'.nodes, c.nodes[m].clock);
    }
    KnownGrows(c.nodes, c'.nodes, joined);
  }

  lemma DeliveryKeepsMessages(c: Cluster, i: nat, steps: nat)
    requires Inv(c, steps) && i < |c.queue| && c.queue[i].receiver in c.nodes
    ensures MessagesOk(AfterDelivery(c, i)) && WritesOk(AfterDelivery(c, i))
  {
    var c' := AfterDelivery(c, i);
    DeliveryKeepsNodes(c, i, steps);
    forall j | 0 <= j < |c'.queue| ensures MessageOk(c', c'.queue[j], c'.flight[j]) {
      assert MessageOk(c, c.queue[j], c.flight[j]);
      KnownGrows(c.nodes, c'.nodes, c.queue[j].payload.clock);
    }
    forall w | w in c.writes ensures Leq(w.reg.clock, c'.nodes[w.node].clock) {
      LeqTransitive(w.reg.clock, c.nodes[w.node].clock, c'.nodes[w.node].clock);
    }
  }

  lemma DeliveryKeepsStores(c: Cluster, i: nat, steps: nat)
    requires Inv(c, steps) && i < |c.queue| && c.queue[i].receiver in c.nodes
    ensures StoresOk(AfterDelivery(c, i)) && VersionsOk(AfterDelivery(c, i))
  {
    var msg := c.queue[i];
    var n, k := msg.receiver, msg.key;
    DeliveryTraced(c, i, steps);
    StoringKeeps(c, n, k, RemotePut(c.nodes[n], k, msg.payload), Merged(c, n, k, c.flight[i]), c.writes);
  }

  lemma DeliveryKeepsInv(c: Cluster, i: nat, steps: nat)
    requires Inv(c, steps) && i < |c.queue|
    ensures Inv(AfterDelivery(c, i), steps)
  {
    if c.queue[i].receiver in c.nodes {
      hide StoresOk, VersionsOk, WritesOk, NodesOk;
      DeliveryKeepsNodes(c, i, steps);
      DeliveryKeepsStores(c, i, steps);
      DeliveryKeepsMessages(c, i, steps);
    }
  }

  lemma LossKeepsMessages(c: Cluster, i: nat)
    requires MessagesOk(c) && i < |c.queue|
    ensures MessagesOk(AfterLoss(c, i))
  {
    var c' := AfterLoss(c, i);
    forall j | 0 <= j < |c'.queue| ensures MessageOk(c', c'.queue[j], c'.flight[j]) {
      var j0 := if j < i then j else j + 1;
      assert c'.queue[j] == c.queue[j0] && c'.flight[j] == c.flight[j0];
      assert MessageOk(c, c.queue[j0], c.flight[j0]);
    }
  }

  lemma LossKeepsInv(c: Cluster, i: nat, steps: nat)
    requires Inv(c, steps) && i < |c.queue|
    ensures Inv(AfterLoss(c, i), steps)
  {
    LossKeepsMessages(c, i);
    SameHistory(c, AfterLoss(c, i));
  }

  lemma StepKeepsInv(c: Cluster, a: Action, steps: nat)
    requires Inv(c, steps) && Enabled(c, a) && steps < U64 - 1
    ensures Inv(Step(c, a), steps + 1)
  {
    match a
    case ClientPut(n, k, v, peers) => PutKeepsInv(c, n, k, v, peers, steps);
    case Gossip(n, target, folds) => GossipKeepsInv(c, n, target, folds, steps);
    case Deliver(i, keep) =>
      DeliveryKeepsInv(c, i, steps);
      if !keep {
        LossKeepsInv(AfterDelivery(c, i), i, steps);
      }
    case Drop(i) => LossKeepsInv(c, i, steps);
  }

  /** The causality invariants hold after every run short enough for the counters not to wrap. */
  lemma {:induction false} RunKeepsInv(ids: set<NodeID>, actions: seq<Action>)
    requires IsRun(ids, actions) && |actions| < U64
    ensures Inv(Outcome(ids, actions), |actions|)
  {
    if actions != [] {
      var last := |actions| - 1;
      RunKeepsInv(ids, actions[..last]);
      StepKeepsInv(Outcome(ids, actions[..last]), actions[last], last);
    }
  }
}
