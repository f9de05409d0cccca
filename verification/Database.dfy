/** What one node's database means to its callers: a clock and one register per key.
    The storage engine is proved against these functions. */
module Database {
  import opened Bytes
  import opened VectorClocks
  import opened Crdt

  datatype Db = Db(id: NodeID, clock: Clock, store: map<Key, Register>)

  /** A local write: advance the clock and overwrite whatever the key held. */
  function LocalPut(d: Db, key: Key, value: ByteString): Db {
    var c := Tick(d.clock, d.id);
    Db(d.id, c, d.store[key := Register(value, c)])
  }

  /** What a read of the register returns: an empty value is a tombstone and stays hidden. */
  function GetCrdt(d: Db, key: Key): Option<Register> {
    if key in d.store && d.store[key].value != [] then Some(d.store[key]) else None
  }

  /** The register an incoming one leaves behind. */
  function Winner(d: Db, key: Key, incoming: Register): Register {
    match GetCrdt(d, key)
    case None => incoming
    case Some(existing) => MergeRegisters(incoming, existing)
  }

  /** A replicated write: absorb the sender's clock, then read, merge and write back. */
  function RemotePut(d: Db, key: Key, incoming: Register): Db {
    Db(d.id, Join(d.clock, incoming.clock), d.store[key := Winner(d, key, incoming)])
  }

  predicate InRange(key: Key, start: Key, end: Key) {
    AtMost(start, key) && AtMost(key, end)
  }

  function Live(d: Db, start: Key, end: Key): map<Key, Register> {
    map k | k in d.store && InRange(k, start, end) && d.store[k].value != [] :: d.store[k]
  }

  ghost function ScanCrdt(d: Db, start: Key, end: Key): seq<(Key, Register)> {
    Rows(Live(d, start, end))
  }

  predicate NonEmptyValues(d: Db) {
    forall k :: k in d.store ==> d.store[k].value != []
  }

  /** A remote write never loses causal history, except by overwriting a tombstone it has not seen. */
  lemma RemotePutKeepsHistoryIff(d: Db, key: Key, incoming: Register)
    requires key in d.store
    ensures Leq(incoming.clock, RemotePut(d, key, incoming).store[key].clock)
    ensures Leq(d.store[key].clock, RemotePut(d, key, incoming).store[key].clock)
        <==> d.store[key].value != [] || Leq(d.store[key].clock, incoming.clock)
  {
    MergeBounds(incoming, d.store[key]);
  }
}
