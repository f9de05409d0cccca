/** Nodes, what they send each other, and the message bus between them. */
module Replication {
  import opened Bytes
  import opened VectorClocks
  import opened Crdt
  import opened Database
  import opened MergeTrees

  datatype Kind = PUT | GOSSIP

  // The payload is carried as the register itself; Crdt.RegisterRoundTrip covers its encoding.
  datatype Message = Message(kind: Kind, sender: NodeID, receiver: NodeID, key: Key, payload: Register)

  type Nodes = map<NodeID, Db>

  const TopOfGossip: Key := [255]

  // ----- what each operation does, on values -----

  function PushMessages(sender: NodeID, peers: seq<NodeID>, key: Key, reg: Register): (out: seq<Message>)
    ensures |out| == |peers|
  {
    seq(|peers|, i requires 0 <= i < |peers| => Message(PUT, sender, peers[i], key, reg))
  }

  function GossipMessages(sender: NodeID, target: NodeID, rows: seq<(Key, Register)>): (out: seq<Message>)
    ensures |out| == |rows|
  {
    seq(|rows|, i requires 0 <= i < |rows| => Message(GOSSIP, sender, target, rows[i].0, rows[i].1))
  }

  function Receive(nodes: Nodes, msg: Message): Nodes {
    if msg.receiver in nodes
    then nodes[msg.receiver := RemotePut(nodes[msg.receiver], msg.key, msg.payload)]
    else nodes
  }

  /** Draining the queue front to back; messages to partitioned nodes are lost. */
  function Drain(nodes: Nodes, cut: set<NodeID>, queue: seq<Message>): Nodes {
    if queue == [] then nodes
    else Drain(if queue[0].receiver in cut then nodes else Receive(nodes, queue[0]), cut, queue[1..])
  }

  /** The messages of a queue that are for one node. */
  function For(n: NodeID, queue: seq<Message>): seq<Message> {
    if queue == [] then []
    else (if queue[0].receiver == n then [queue[0]] else []) + For(n, queue[1..])
  }

  function AfterAll(d: Db, messages: seq<Message>): Db
    decreases messages
  {
    if messages == [] then d else AfterAll(RemotePut(d, messages[0].key, messages[0].payload), messages[1..])
  }

  /** Draining leaves a cut-off node as it was; any other node merges exactly its own messages, in order. */
  lemma {:induction false} DrainEach(nodes: Nodes, cut: set<NodeID>, queue: seq<Message>, n: NodeID)
    ensures Drain(nodes, cut, queue).Keys == nodes.Keys
    ensures n in nodes && n in cut ==> Drain(nodes, cut, queue)[n] == nodes[n]
    ensures n in nodes && n !in cut ==> Drain(nodes, cut, queue)[n] == AfterAll(nodes[n], For(n, queue))
    decreases queue
  {
    if queue != [] {
      hide RemotePut;
      var msg := queue[0];
      var next := if msg.receiver in cut then nodes else Receive(nodes, msg);
      DrainEach(next, cut, queue[1..], n);
      if msg.receiver == n {
        assert For(n, queue)[1..] == For(n, queue[1..]);
      } else {
        assert For(n, queue) == For(n, queue[1..]);
      }
    }
  }

  // ----- what a scan of a node may find -----

  /** Every register a node has stored, by key. Older ones may still lie in frozen tables and files. */
  type Stored = map<Key, set<Register>>

  function Remember(stored: Stored, key: Key, reg: Register): Stored {
    stored[key := (if key in stored then stored[key] else {}) + {reg}]
  }

  /** A scan merges stored registers of a key in some order, the newest one among them. */
  ghost predicate IsFold(r: Register, stored: set<Register>, newest: Register) {
    exists t :: Leaves(t) <= stored && newest in Leaves(t) && Eval(t) == r
  }

  ghost predicate IsScan(found: map<Key, Register>, d: Db, stored: Stored) {
    && found.Keys == d.store.Keys
    && forall k :: k in found ==> k in stored && IsFold(found[k], stored[k], d.store[k])
  }

  /** What gossip sends of it: the keys up to the byte 0xFF that are not tombstones. */
  function Gossiped(found: map<Key, Register>): map<Key, Register> {
    map k | k in found && InRange(k, [], TopOfGossip) && found[k].value != [] :: found[k]
  }

  // ----- which keys are gossiped -----

  /** The scan bound of gossip lets through every key but those that begin with byte 255 and go on. */
  lemma BelowGossipBound(k: Key)
    ensures AtMost(k, [255]) <==> k == [] || k[0] != 255 || k == [255]
  {
    BelowBound(k, [255]);
    if k != [] {
      assert k[..1] == [k[0]];
    }
  }

  ghost predicate SentOnce(out: seq<Message>, msg: Message) {
    exists i :: 0 <= i < |out| && out[i] == msg && forall j :: 0 <= j < |out| && out[j].key == msg.key ==> j == i
  }

  /** A live key is sent once, with what the scan found for it; a tombstone, or a key that begins with byte 255
      and goes on, not at all. */
  ghost predicate GossipsKey(out: seq<Message>, sender: NodeID, target: NodeID, found: map<Key, Register>, k: Key) {
    if k in found && found[k].value != [] && (k == [] || k[0] != 255 || k == [255])
    then SentOnce(out, Message(GOSSIP, sender, target, k, found[k]))
    else forall j :: 0 <= j < |out| ==> out[j].key != k
  }

  lemma GossipSendsEach(sender: NodeID, target: NodeID, found: map<Key, Register>, k: Key)
    ensures GossipsKey(GossipMessages(sender, target, Rows(Gossiped(found))), sender, target, found, k)
  {
    var sent := Gossiped(found);
    var rows, out := Rows(sent), GossipMessages(sender, target, Rows(sent));
    RowsAreMap(sent);
    BelowGossipBound(k);
    assert AtMost([], k);
    if k in sent {
      assert HasRow(rows, k);
      var i :| 0 <= i < |rows| && rows[i].0 == k;
      OneRowPerKey(rows, i);
      assert out[i] == Message(GOSSIP, sender, target, k, found[k]);
    }
  }

  lemma SendsAllKeys(queue: seq<Message>, sender: NodeID, target: NodeID, found: map<Key, Register>)
    ensures var out := queue + GossipMessages(sender, target, Rows(Gossiped(found)));
      forall k :: GossipsKey(out[|queue|..], sender, target, found, k)
  {
    hide GossipsKey;
    var sent := GossipMessages(sender, target, Rows(Gossiped(found)));
    assert (queue + sent)[|queue|..] == sent;
    forall k ensures GossipsKey(sent, sender, target, found, k) {
      GossipSendsEach(sender, target, found, k);
    }
  }

  lemma OneRowPerKey(rows: seq<(Key, Register)>, i: nat)
    requires Ascending(rows) && i < |rows|
    ensures forall j :: 0 <= j < |rows| && rows[j].0 == rows[i].0 ==> j == i
  {
    LessTrichotomy(rows[i].0, rows[i].0);
  }

  lemma NextGossip(sender: NodeID, target: NodeID, rows: seq<(Key, Register)>, i: nat)
    requires i < |rows|
    ensures var out := GossipMessages(sender, target, rows);
      out[..i + 1] == out[..i] + [Message(GOSSIP, sender, target, rows[i].0, rows[i].1)]
  {
  }

  // ----- the objects -----

  class Node {
    const id: NodeID
    const transport: MockTransport
    var db: Db
    var peers: seq<NodeID>
    ghost var stored: Stored

    constructor (nodeId: NodeID, bus: MockTransport)
      ensures id == nodeId && transport == bus && db == Db(nodeId, map[], map[]) && peers == [] && stored == map[]
    {
      id, transport := nodeId, bus;
      db, stored := Db(nodeId, map[], map[]), map[];
      peers := [];
    }

    method AddPeer(peer: NodeID)
      modifies this`peers
      ensures peers == if peer != id then old(peers) + [peer] else old(peers)
    {
      if peer != id { peers := peers + [peer]; }
    }

    method Put(key: Key, value: ByteString)
      modifies this`db, this`stored, transport`queue
      ensures db == LocalPut(old(db), key, value) && stored == Remember(old(stored), key, db.store[key])
      ensures transport.queue == old(transport.queue) +
        if value == [] then [] else PushMessages(id, peers, key, db.store[key])
    {
      db := LocalPut(db, key, value);
      stored := Remember(stored, key, db.store[key]);
      var crdt := GetCrdt(db, key);
      if crdt.Some? {
        PushToReplicas(key, crdt.value);
      }
    }

    method PushToReplicas(key: Key, crdt: Register)
      modifies transport`queue
      ensures transport.queue == old(transport.queue) + PushMessages(id, peers, key, crdt)
    {
      var i := 0;
      while i < |peers|
        invariant 0 <= i <= |peers|
        invariant transport.queue == old(transport.queue) + PushMessages(id, peers, key, crdt)[..i]
      {
        transport.Send(Message(PUT, id, peers[i], key, crdt));
        i := i + 1;
      }
    }

    /** `found` is what the scan of the database comes to. */
    method TriggerAntiEntropy(target: NodeID, found: map<Key, Register>)
      requires IsScan(found, db, stored)
      modifies transport`queue
      ensures transport.queue == old(transport.queue) + GossipMessages(id, target, Rows(Gossiped(found)))
      ensures forall k :: GossipsKey(transport.queue[|old(transport.queue)|..], id, target, found, k)
    {
      hide IsScan, Gossiped, Less, GossipsKey;
      var pending := Gossiped(found);
      ghost var rows, sent := Rows(pending), 0;
      while pending != map[]
        invariant 0 <= sent <= |rows| && rows[sent..] == Rows(pending)
        invariant transport.queue == old(transport.queue) + GossipMessages(id, target, rows)[..sent]
        decreases |pending|
      {
        LeastExists(pending.Keys);
        var k :| k in pending.Keys && IsLeast(k, pending.Keys);
        RowsFirst(pending, k);
        assert rows[sent] == rows[sent..][0] == (k, pending[k]);
        NextGossip(id, target, rows, sent);
        transport.Send(Message(GOSSIP, id, target, k, pending[k]));
        assert rows[sent + 1..] == rows[sent..][1..];
        RemoveLeast(pending, k);
        pending, sent := pending - {k}, sent + 1;
      }
      assert GossipMessages(id, target, rows)[..sent] == GossipMessages(id, target, rows);
      SendsAllKeys(old(transport.queue), id, target, found);
    }

    method OnMessage(msg: Message)
      modifies this`db, this`stored
      ensures db == RemotePut(old(db), msg.key, msg.payload) && stored == Remember(old(stored), msg.key, db.store[msg.key])
    {
      db := RemotePut(db, msg.key, msg.payload);
      stored := Remember(stored, msg.key, db.store[msg.key]);
    }
  }

  class MockTransport {
    var queue: seq<Message>
    var callbacks: map<NodeID, Node>
    var partitioned: map<NodeID, bool>

    constructor ()
      ensures queue == [] && callbacks == map[] && partitioned == map[]
    {
      queue, callbacks, partitioned := [], map[], map[];
    }

    predicate Valid()
      reads this
    {
      forall n :: n in callbacks ==> callbacks[n].id == n
    }

    function View(): Nodes
      reads this, callbacks.Values
    {
      map n | n in callbacks :: callbacks[n].db
    }

    function Cut(): set<NodeID>
      reads this
    {
      set n | n in partitioned && partitioned[n]
    }

    method Register(node: Node)
      requires Valid()
      modifies this`callbacks
      ensures Valid() && callbacks == old(callbacks)[node.id := node]
    {
      callbacks := callbacks[node.id := node];
    }

    method Send(msg: Message)
      modifies this`queue
      ensures queue == old(queue) + [msg]
    {
      queue := queue + [msg];
    }

    method Partition(node: NodeID, isPartitioned: bool)
      modifies this`partitioned
      ensures Cut() == if isPartitioned then old(Cut()) + {node} else old(Cut()) - {node}
    {
      partitioned := partitioned[node := isPartitioned];
    }

    /** Terminates because handling a message sends nothing. */
    method DeliverAll()
      requires Valid()
      modifies this`queue, callbacks.Values
      ensures Valid() && queue == []
      ensures View() == Drain(old(View()), Cut(), old(queue))
      ensures forall n :: n in Cut() && n in old(callbacks) ==> n in View() && View()[n] == old(View())[n]
    {
      ghost var nodes0, cut0, queue0 := View(), Cut(), queue;
      forall n | n in cut0 && n in nodes0
        ensures n in Drain(nodes0, cut0, queue0) && Drain(nodes0, cut0, queue0)[n] == nodes0[n]
      {
        DrainEach(nodes0, cut0, queue0, n);
      }
      hide RemotePut;
      while queue != []
        invariant Valid()
        invariant Drain(View(), Cut(), queue) == Drain(old(View()), Cut(), old(queue))
        decreases |queue|
      {
        var msg := queue[0];
        ghost var before, cut, pending := View(), Cut(), queue;
        queue := queue[1..];
        assert View() == before && Cut() == cut;
        if msg.receiver in callbacks {
          if msg.receiver in partitioned && partitioned[msg.receiver] {
            continue;
          }
          var node := callbacks[msg.receiver];
          node.OnMessage(msg);
          assert View() == Receive(before, msg);
        }
      }
    }
  }
}
