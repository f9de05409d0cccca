/** The byte-bounded LRU cache of file contents. */
module BlockCaches {
  import opened Bytes

  type Block = ByteString
  type Item = (Key, Block)

  const DEFAULT_CAP_BYTES: nat := 16777216

  // ----- the cache as a value: most recent first -----

  datatype Cache = Cache(items: seq<Item>, capacity: nat)

  function Size(items: seq<Item>): nat {
    if items == [] then 0 else |items[0].1| + Size(items[1..])
  }

  function Lookup(items: seq<Item>, key: Key): Option<Block> {
    if items == [] then None
    else if items[0].0 == key then Some(items[0].1)
    else Lookup(items[1..], key)
  }

  function Without(items: seq<Item>, key: Key): seq<Item> {
    if items == [] then []
    else (if items[0].0 == key then [] else [items[0]]) + Without(items[1..], key)
  }

  /** Drop from the back until what is left fits. */
  function Evict(items: seq<Item>, capacity: nat): seq<Item> {
    if items == [] || Size(items) <= capacity then items else Evict(items[..|items| - 1], capacity)
  }

  datatype Op = Put(key: Key, block: Block) | Get(key: Key) | SetCapacity(bytes: nat)

  function Apply(c: Cache, op: Op): Cache {
    match op
    case Put(key, block) => c.(items := Evict([(key, block)] + Without(c.items, key), c.capacity))
    case Get(key) =>
      (match Lookup(c.items, key)
       case None => c
       case Some(block) => c.(items := [(key, block)] + Without(c.items, key)))
    case SetCapacity(bytes) => Cache(Evict(c.items, bytes), bytes)
  }

  function Run(ops: seq<Op>): Cache {
    if ops == [] then Cache([], DEFAULT_CAP_BYTES)
    else Apply(Run(ops[..|ops| - 1]), ops[|ops| - 1])
  }

  // ----- what a caller remembers of the history -----

  function KeysOf(items: seq<Item>): (keys: seq<Key>)
    ensures |keys| == |items|
  {
    seq(|items|, i requires 0 <= i < |items| => items[i].0)
  }

  function Drop(keys: seq<Key>, key: Key): seq<Key> {
    if keys == [] then []
    else (if keys[0] == key then [] else [keys[0]]) + Drop(keys[1..], key)
  }

  /** Every key ever put, ordered by its last put or hit, most recent first. */
  function Recency(ops: seq<Op>): seq<Key> {
    if ops == [] then [] else
      var n := |ops| - 1;
      var before := Recency(ops[..n]);
      match ops[n]
      case Put(key, _) => [key] + Drop(before, key)
      case Get(key) => if Lookup(Run(ops[..n]).items, key).Some? then [key] + Drop(before, key) else before
      case SetCapacity(_) => before
  }

  function LastPut(ops: seq<Op>): map<Key, Block> {
    if ops == [] then map[] else
      var n := |ops| - 1;
      match ops[n]
      case Put(key, block) => LastPut(ops[..n])[key := block]
      case _ => LastPut(ops[..n])
  }

  // ----- properties of the parts -----

  predicate Distinct(keys: seq<Key>) {
    forall i, j :: 0 <= i < j < |keys| ==> keys[i] != keys[j]
  }

  lemma ConsDistinct(key: Key, keys: seq<Key>)
    requires key !in keys && Distinct(keys)
    ensures Distinct([key] + keys)
  {
  }

  lemma {:induction false} EvictIsPrefix(items: seq<Item>, capacity: nat) returns (n: nat)
    ensures n <= |items| && Evict(items, capacity) == items[..n]
    ensures Size(items[..n]) <= capacity
    ensures n < |items| ==> Size(items[..n + 1]) > capacity
    decreases |items|
  {
    if items == [] || Size(items) <= capacity {
      n := |items|;
      assert items[..n] == items;
    } else {
      var init := items[..|items| - 1];
      n := EvictIsPrefix(init, capacity);
      assert init[..n] == items[..n];
      if n < |init| {
        assert init[..n + 1] == items[..n + 1];
      } else {
        assert items[..n + 1] == items;
      }
    }
  }

  lemma {:induction false} SizeOfPrefix(items: seq<Item>, n: nat, m: nat)
    requires n <= m <= |items|
    ensures Size(items[..n]) <= Size(items[..m])
  {
    if n > 0 {
      assert items[..n][1..] == items[1..][..n - 1] && items[..m][1..] == items[1..][..m - 1];
      SizeOfPrefix(items[1..], n - 1, m - 1);
    }
  }

  /** What eviction keeps is the longest prefix of the recency order that fits. */
  lemma EvictKeepsLongestFit(items: seq<Item>, capacity: nat, m: nat)
    requires m <= |items|
    ensures Evict(items, capacity) <= items && Size(Evict(items, capacity)) <= capacity
    ensures Size(items[..m]) <= capacity <==> items[..m] <= Evict(items, capacity)
  {
    var n := EvictIsPrefix(items, capacity);
    if m <= n {
      SizeOfPrefix(items, m, n);
      assert items[..m] == items[..n][..m];
    } else {
      SizeOfPrefix(items, n + 1, m);
      assert |items[..m]| > |items[..n]|;
    }
  }

  lemma {:induction false} DropKeepsPrefix(keys: seq<Key>, order: seq<Key>, key: Key)
    requires keys <= order
    ensures Drop(keys, key) <= Drop(order, key)
  {
    if keys != [] {
      assert keys[1..] <= order[1..];
      DropKeepsPrefix(keys[1..], order[1..], key);
    }
  }

  lemma {:induction false} DropIsOthers(keys: seq<Key>, key: Key)
    ensures forall k :: k in Drop(keys, key) <==> k in keys && k != key
    ensures Distinct(keys) ==> Distinct(Drop(keys, key))
  {
    if keys != [] {
      DropIsOthers(keys[1..], key);
      if Distinct(keys) {
        assert keys[0] !in keys[1..];
        assert Distinct(keys[1..]);
        ConsDistinct(keys[0], Drop(keys[1..], key));
        assert [] + Drop(keys[1..], key) == Drop(keys[1..], key);
      }
    }
  }

  lemma {:induction false} KeysOfWithout(items: seq<Item>, key: Key)
    ensures KeysOf(Without(items, key)) == Drop(KeysOf(items), key)
    ensures forall x :: x in Without(items, key) ==> x in items
  {
    if items != [] {
      KeysOfWithout(items[1..], key);
      assert KeysOf(items)[1..] == KeysOf(items[1..]);
      var first := if items[0].0 == key then [] else [items[0]];
      assert KeysOf(first + Without(items[1..], key)) == KeysOf(first) + KeysOf(Without(items[1..], key));
    }
  }

  lemma {:induction false} LookupFinds(items: seq<Item>, key: Key)
    ensures Lookup(items, key).Some? ==> (key, Lookup(items, key).value) in items
    ensures Lookup(items, key) == None <==> key !in KeysOf(items)
  {
    if items != [] {
      LookupFinds(items[1..], key);
      assert KeysOf(items) == [items[0].0] + KeysOf(items[1..]);
    }
  }

  // ----- what every history keeps -----

  /** Every block is the last one put under its key. */
  predicate AllLast(items: seq<Item>, last: map<Key, Block>) {
    forall x :: x in items ==> x.0 in last && x.1 == last[x.0]
  }

  /** Bytes within the capacity, the newest keys of the whole history and no gap among them, every block
      the last one put. */
  ghost predicate Inv(c: Cache, order: seq<Key>, last: map<Key, Block>) {
    && Size(c.items) <= c.capacity
    && KeysOf(c.items) <= order && Distinct(order)
    && (forall k :: k in order ==> k in last)
    && AllLast(c.items, last)
  }

  lemma TouchKeepsPrefix(c: Cache, order: seq<Key>, key: Key, block: Block)
    requires KeysOf(c.items) <= order && Distinct(order)
    ensures KeysOf([(key, block)] + Without(c.items, key)) <= [key] + Drop(order, key)
    ensures Distinct([key] + Drop(order, key))
    ensures forall k :: k in [key] + Drop(order, key) <==> k == key || k in order
  {
    KeysOfWithout(c.items, key);
    DropKeepsPrefix(KeysOf(c.items), order, key);
    DropIsOthers(order, key);
    ConsDistinct(key, Drop(order, key));
    assert KeysOf([(key, block)] + Without(c.items, key)) == [key] + KeysOf(Without(c.items, key));
  }

  lemma {:induction false} SizeWithout(items: seq<Item>, key: Key)
    ensures Lookup(items, key).Some? ==> Size(Without(items, key)) + |Lookup(items, key).value| <= Size(items)
    ensures Size(Without(items, key)) <= Size(items)
  {
    if items != [] {
      SizeWithout(items[1..], key);
      assert items[0].0 != key ==> Without(items, key)[1..] == Without(items[1..], key);
      assert items[0].0 == key ==> Without(items, key) == Without(items[1..], key);
    }
  }

  lemma OthersAreNotKey(items: seq<Item>, key: Key, x: Item)
    requires x in Without(items, key)
    ensures x in items && x.0 != key
  {
    KeysOfWithout(items, key);
    DropIsOthers(KeysOf(items), key);
    var i :| 0 <= i < |Without(items, key)| && Without(items, key)[i] == x;
    assert KeysOf(Without(items, key))[i] == x.0;
  }

  lemma PutKeepsLast(items: seq<Item>, last: map<Key, Block>, key: Key, block: Block)
    requires AllLast(items, last)
    ensures AllLast([(key, block)] + Without(items, key), last[key := block])
  {
    forall x | x in Without(items, key) ensures x.0 != key && x.0 in last && x.1 == last[x.0] {
      OthersAreNotKey(items, key, x);
    }
  }

  lemma PutKeepsInv(c: Cache, order: seq<Key>, last: map<Key, Block>, key: Key, block: Block)
    requires Inv(c, order, last)
    ensures Inv(Apply(c, Put(key, block)), [key] + Drop(order, key), last[key := block])
  {
    var items := [(key, block)] + Without(c.items, key);
    TouchKeepsPrefix(c, order, key, block);
    PutKeepsLast(c.items, last, key, block);
    var n := EvictIsPrefix(items, c.capacity);
    assert KeysOf(items[..n]) == KeysOf(items)[..n];
  }

  lemma GetKeepsInv(c: Cache, order: seq<Key>, last: map<Key, Block>, key: Key)
    requires Inv(c, order, last) && Lookup(c.items, key).Some?
    ensures Inv(Apply(c, Get(key)), [key] + Drop(order, key), last)
  {
    var block := Lookup(c.items, key).value;
    LookupFinds(c.items, key);
    TouchKeepsPrefix(c, order, key, block);
    KeysOfWithout(c.items, key);
    SizeWithout(c.items, key);
    var items := [(key, block)] + Without(c.items, key);
    assert items[1..] == Without(c.items, key);
    assert (key, block) in c.items;
  }

  lemma SetCapacityKeepsInv(c: Cache, order: seq<Key>, last: map<Key, Block>, bytes: nat)
    requires Inv(c, order, last)
    ensures Inv(Apply(c, SetCapacity(bytes)), order, last)
  {
    var n := EvictIsPrefix(c.items, bytes);
    assert KeysOf(c.items[..n]) == KeysOf(c.items)[..n];
  }

  /** After every history of operations. */
  lemma {:induction false} RunKeepsInv(ops: seq<Op>)
    ensures Inv(Run(ops), Recency(ops), LastPut(ops))
  {
    if ops != [] {
      var n := |ops| - 1;
      var c, order, last := Run(ops[..n]), Recency(ops[..n]), LastPut(ops[..n]);
      RunKeepsInv(ops[..n]);
      match ops[n]
      case Put(key, block) => PutKeepsInv(c, order, last, key, block);
      case Get(key) =>
        if Lookup(c.items, key).Some? {
          GetKeepsInv(c, order, last, key);
        }
      case SetCapacity(bytes) => SetCapacityKeepsInv(c, order, last, bytes);
    }
  }

  /** A hit returns the last block put under the key, and every key the cache has lost was used less
      recently than every key it holds. */
  lemma HitsAreFreshAndRecent(ops: seq<Op>, key: Key, i: nat, j: nat)
    ensures Lookup(Run(ops).items, key).Some? ==>
      key in LastPut(ops) && Lookup(Run(ops).items, key).value == LastPut(ops)[key]
    ensures var held, order := KeysOf(Run(ops).items), Recency(ops);
      i < |order| && j < |order| && order[i] in held && order[j] !in held ==> i < j
  {
    RunKeepsInv(ops);
    LookupFinds(Run(ops).items, key);
    var held, order := KeysOf(Run(ops).items), Recency(ops);
    if i < |order| && order[i] in held {
      var p :| 0 <= p < |held| && held[p] == order[i];
      assert order[p] == order[i];
    }
  }

  // ----- what is lost, and what is not -----

  /** The bytes of the blocks used at least as recently as that of `k`, its own included, those of `skip` not. */
  function UpTo(items: seq<Item>, k: Key, skip: Option<Key>): nat {
    if items == [] then 0 else
      (if skip == Some(items[0].0) then 0 else |items[0].1|) + if items[0].0 == k then 0 else UpTo(items[1..], k, skip)
  }

  lemma DistinctRest(items: seq<Item>)
    requires items != [] && Distinct(KeysOf(items))
    ensures Distinct(KeysOf(items[1..])) && items[0].0 !in KeysOf(items[1..])
  {
    var keys := KeysOf(items);
    assert KeysOf(items[1..]) == keys[1..];
    forall j | 0 <= j < |items| - 1 ensures keys[1..][j] == keys[j + 1] && keys[j + 1] != keys[0] {
    }
  }

  lemma {:induction false} LookupAt(items: seq<Item>, i: nat)
    requires Distinct(KeysOf(items)) && i < |items|
    ensures Lookup(items, items[i].0) == Some(items[i].1)
    ensures UpTo(items, items[i].0, None) == Size(items[..i + 1])
  {
    DistinctRest(items);
    if i == 0 {
      assert items[..1][1..] == [];
    } else {
      assert KeysOf(items)[0] != KeysOf(items)[i];
      LookupAt(items[1..], i - 1);
      assert items[..i + 1][1..] == items[1..][..i];
    }
  }

  lemma PrefixIsDistinct(items: seq<Item>, n: nat)
    requires Distinct(KeysOf(items)) && n <= |items|
    ensures Distinct(KeysOf(items[..n]))
  {
    assert KeysOf(items[..n]) == KeysOf(items)[..n];
  }

  /** Eviction loses a key exactly when the blocks used at least as recently do not fit with its own. */
  lemma EvictLoses(items: seq<Item>, capacity: nat, k: Key)
    requires Distinct(KeysOf(items))
    ensures Lookup(Evict(items, capacity), k) ==
      if Lookup(items, k).Some? && UpTo(items, k, None) > capacity then None else Lookup(items, k)
  {
    var n := EvictIsPrefix(items, capacity);
    PrefixIsDistinct(items, n);
    LookupFinds(items, k);
    LookupFinds(items[..n], k);
    if k in KeysOf(items) {
      var i :| 0 <= i < |items| && KeysOf(items)[i] == k;
      LookupAt(items, i);
      if i < n {
        LookupAt(items[..n], i);
        SizeOfPrefix(items, i + 1, n);
      } else {
        SizeOfPrefix(items, n + 1, i + 1);
        LostIsAbsent(items, n, i);
      }
    } else {
      assert KeysOf(items[..n]) == KeysOf(items)[..n];
    }
  }

  lemma LostIsAbsent(items: seq<Item>, n: nat, i: nat)
    requires Distinct(KeysOf(items)) && n <= i < |items|
    ensures items[i].0 !in KeysOf(items[..n])
  {
    var keys := KeysOf(items);
    assert KeysOf(items[..n]) == keys[..n];
    forall j | 0 <= j < n ensures keys[j] != keys[i] {
    }
  }

  lemma {:induction false} WithoutOthers(items: seq<Item>, key: Key, k: Key)
    ensures Lookup(Without(items, key), k) == if k == key then None else Lookup(items, k)
    ensures k != key ==> UpTo(Without(items, key), k, None) == UpTo(items, k, Some(key))
  {
    if items != [] {
      WithoutOthers(items[1..], key, k);
      var rest := Without(items[1..], key);
      if items[0].0 == key {
        assert Without(items, key) == rest;
      } else {
        assert Without(items, key) == [items[0]] + rest && Without(items, key)[1..] == rest;
      }
    }
  }

  /** A key at the front, the others as they were. */
  lemma TouchedLookup(items: seq<Item>, key: Key, block: Block, k: Key)
    ensures var out := [(key, block)] + Without(items, key);
      && Lookup(out, k) == (if k == key then Some(block) else Lookup(items, k))
      && UpTo(out, k, None) == |block| + if k == key then 0 else UpTo(items, k, Some(key))
  {
    var out := [(key, block)] + Without(items, key);
    WithoutOthers(items, key, k);
    assert out[1..] == Without(items, key);
  }

  lemma TouchedIsDistinct(items: seq<Item>, key: Key, block: Block)
    requires Distinct(KeysOf(items))
    ensures Distinct(KeysOf([(key, block)] + Without(items, key)))
  {
    KeysOfWithout(items, key);
    DropIsOthers(KeysOf(items), key);
    ConsDistinct(key, Drop(KeysOf(items), key));
    assert KeysOf([(key, block)] + Without(items, key)) == [key] + KeysOf(Without(items, key));
  }

  /** What a put does to the block of any key. */
  function AfterPut(items: seq<Item>, capacity: nat, key: Key, block: Block, k: Key): Option<Block> {
    if k == key then (if |block| > capacity then None else Some(block))
    else if Lookup(items, k).Some? && |block| + UpTo(items, k, Some(key)) > capacity then None
    else Lookup(items, k)
  }

  lemma PutLoses(items: seq<Item>, capacity: nat, key: Key, block: Block, k: Key)
    requires Distinct(KeysOf(items))
    ensures Lookup(Evict([(key, block)] + Without(items, key), capacity), k) == AfterPut(items, capacity, key, block, k)
  {
    TouchedIsDistinct(items, key, block);
    TouchedLookup(items, key, block, k);
    EvictLoses([(key, block)] + Without(items, key), capacity, k);
  }

  lemma HitLosesNothing(items: seq<Item>, key: Key, k: Key)
    requires Lookup(items, key).Some?
    ensures Lookup([(key, Lookup(items, key).value)] + Without(items, key), k) == Lookup(items, k)
  {
    TouchedLookup(items, key, Lookup(items, key).value, k);
  }

  /** What an operation leaves of the block of any key. */
  function Left(c: Cache, op: Op, k: Key): Option<Block> {
    match op
    case Get(_) => Lookup(c.items, k)
    case Put(key, block) => AfterPut(c.items, c.capacity, key, block, k)
    case SetCapacity(bytes) =>
      if Lookup(c.items, k).Some? && UpTo(c.items, k, None) > bytes then None else Lookup(c.items, k)
  }

  /** After every history: a get loses nothing; a put or a new capacity loses a block exactly when it and those
      used at least as recently no longer fit together. */
  lemma StepLosesIff(ops: seq<Op>, op: Op, k: Key)
    ensures Lookup(Run(ops + [op]).items, k) == Left(Run(ops), op, k)
  {
    var c := Run(ops);
    assert (ops + [op])[..|ops|] == ops;
    RunKeepsInv(ops);
    match op
    case Get(key) =>
      if Lookup(c.items, key).Some? {
        HitLosesNothing(c.items, key, k);
      }
    case Put(key, block) => PutLoses(c.items, c.capacity, key, block, k);
    case SetCapacity(bytes) => EvictLoses(c.items, bytes, k);
  }

  // ----- a key that everything since leaves room for -----

  ghost function Total(m: map<Key, nat>): nat
    decreases |m|
  {
    if m == map[] then 0 else
      var k :| k in m;
      m[k] + Total(m - {k})
  }

  lemma {:induction false} TotalPick(m: map<Key, nat>, k: Key)
    requires k in m
    ensures Total(m) == m[k] + Total(m - {k})
    decreases |m|
  {
    var j :| j in m && Total(m) == m[j] + Total(m - {j});
    if j != k {
      TotalPick(m - {j}, k);
      assert (m - {j}) - {k} == (m - {k}) - {j};
      TotalPick(m - {k}, j);
    }
  }

  lemma {:induction false} TotalGrows(m: map<Key, nat>, m': map<Key, nat>)
    requires forall k :: k in m ==> k in m' && m[k] <= m'[k]
    ensures Total(m) <= Total(m')
    decreases |m|
  {
    if m != map[] {
      var k :| k in m;
      TotalPick(m, k);
      TotalPick(m', k);
      TotalGrows(m - {k}, m' - {k});
    }
  }

  function Larger(m: map<Key, nat>, k: Key, size: nat): map<Key, nat> {
    m[k := if k in m && m[k] > size then m[k] else size]
  }

  /** Every key put or hit after operation `p`, with the largest of its blocks since. */
  function Touched(ops: seq<Op>, p: nat): map<Key, nat>
    decreases |ops|
  {
    if |ops| <= p + 1 then map[] else
      var n := |ops| - 1;
      var before := Touched(ops[..n], p);
      match ops[n]
      case Put(k, block) => Larger(before, k, |block|)
      case Get(k) => (match Lookup(Run(ops[..n]).items, k) case None => before case Some(b) => Larger(before, k, |b|))
      case SetCapacity(_) => before
  }

  function CapacityAt(ops: seq<Op>): nat {
    if ops == [] then 16777216 else
      var n := |ops| - 1;
      match ops[n]
      case SetCapacity(bytes) => bytes
      case _ => CapacityAt(ops[..n])
  }

  /** In front of `key` stand only touched keys. */
  predicate Front(items: seq<Item>, key: Key, m: map<Key, nat>) {
    items == [] || items[0].0 == key ||
    (items[0].0 in m && |items[0].1| <= m[items[0].0] && Front(items[1..], key, m))
  }

  lemma {:induction false} FrontGrows(items: seq<Item>, key: Key, m: map<Key, nat>, m': map<Key, nat>, k: Key)
    requires Front(items, key, m) && (forall j :: j in m ==> j in m' && m[j] <= m'[j])
    ensures Front(Without(items, k), key, m') || k == key
    ensures Front(items, key, m')
  {
    if items != [] && items[0].0 != key {
      FrontGrows(items[1..], key, m, m', k);
      if items[0].0 == k {
        assert Without(items, k) == Without(items[1..], k);
      } else {
        assert Without(items, k)[1..] == Without(items[1..], k);
      }
    }
  }

  lemma {:induction false} FrontOfPrefix(items: seq<Item>, key: Key, m: map<Key, nat>, n: nat)
    requires Front(items, key, m) && n <= |items|
    ensures Front(items[..n], key, m)
  {
    if n > 0 && items[0].0 != key {
      FrontOfPrefix(items[1..], key, m, n - 1);
      assert items[..n][1..] == items[1..][..n - 1];
    }
  }

  lemma {:induction false} FrontLess(items: seq<Item>, key: Key, m: map<Key, nat>, x: Key)
    requires Front(items, key, m) && x !in KeysOf(items)
    ensures Front(items, key, m - {x})
  {
    if items != [] {
      assert KeysOf(items)[0] == items[0].0;
      if items[0].0 != key {
        assert KeysOf(items[1..]) == KeysOf(items)[1..];
        FrontLess(items[1..], key, m, x);
      }
    }
  }

  lemma {:induction false} FrontFits(items: seq<Item>, key: Key, m: map<Key, nat>)
    requires Distinct(KeysOf(items)) && Front(items, key, m) && Lookup(items, key).Some?
    ensures UpTo(items, key, None) <= |Lookup(items, key).value| + Total(m - {key})
  {
    if items[0].0 != key {
      var x := items[0].0;
      DistinctRest(items);
      FrontLess(items[1..], key, m, x);
      FrontFits(items[1..], key, m - {x});
      TotalPick(m - {key}, x);
      assert (m - {key}) - {x} == (m - {x}) - {key};
    }
  }

  /** `key` holds `block`, with nothing but touched keys in front. */
  predicate Stays(ops: seq<Op>, p: nat, key: Key, block: Block) {
    Lookup(Run(ops).items, key) == Some(block) && Front(Run(ops).items, key, Touched(ops, p))
  }

  /** Eviction spares a key in front of which everything fits. */
  lemma EvictSpares(items: seq<Item>, capacity: nat, key: Key, m: map<Key, nat>)
    requires Distinct(KeysOf(items)) && Front(items, key, m) && Lookup(items, key).Some?
    requires |Lookup(items, key).value| + Total(m - {key}) <= capacity
    ensures Lookup(Evict(items, capacity), key) == Lookup(items, key) && Front(Evict(items, capacity), key, m)
  {
    FrontFits(items, key, m);
    EvictLoses(items, capacity, key);
    var n := EvictIsPrefix(items, capacity);
    FrontOfPrefix(items, key, m, n);
  }

  lemma TouchKeepsFront(items: seq<Item>, key: Key, m: map<Key, nat>, k: Key, b: Block)
    requires Distinct(KeysOf(items)) && Front(items, key, m) && Lookup(items, key).Some?
    ensures var out := [(k, b)] + Without(items, k);
      Distinct(KeysOf(out)) && Front(out, key, Larger(m, k, |b|)) && (k != key ==> Lookup(out, key) == Lookup(items, key))
  {
    var out := [(k, b)] + Without(items, k);
    TouchedIsDistinct(items, k, b);
    TouchedLookup(items, k, b, key);
    FrontGrows(items, key, m, Larger(m, k, |b|), k);
    assert out[1..] == Without(items, k);
  }

  lemma ItemsAreDistinct(ops: seq<Op>)
    ensures Distinct(KeysOf(Run(ops).items))
  {
    RunKeepsInv(ops);
  }

  lemma {:induction false} CapacityIs(ops: seq<Op>)
    ensures Run(ops).capacity == CapacityAt(ops)
  {
    if ops != [] {
      CapacityIs(ops[..|ops| - 1]);
    }
  }

  lemma StayStep(ops: seq<Op>, p: nat, key: Key, block: Block)
    requires p + 1 < |ops| && Stays(ops[..|ops| - 1], p, key, block)
    requires ops[|ops| - 1].Put? ==> ops[|ops| - 1].key != key
    requires |block| + Total(Touched(ops, p) - {key}) <= CapacityAt(ops)
    ensures Stays(ops, p, key, block)
  {
    var n := |ops| - 1;
    var c, m := Run(ops[..n]), Touched(ops[..n], p);
    ItemsAreDistinct(ops[..n]);
    CapacityIs(ops);
    match ops[n]
    case Put(k, b) =>
      TouchKeepsFront(c.items, key, m, k, b);
      EvictSpares([(k, b)] + Without(c.items, k), c.capacity, key, Larger(m, k, |b|));
    case Get(k) =>
      if Lookup(c.items, k).Some? {
        TouchKeepsFront(c.items, key, m, k, Lookup(c.items, k).value);
        TouchedLookup(c.items, k, Lookup(c.items, k).value, key);
      }
    case SetCapacity(bytes) => EvictSpares(c.items, bytes, key, m);
  }

  lemma TouchedGrows(ops: seq<Op>, p: nat, key: Key)
    requires ops != []
    ensures Total(Touched(ops[..|ops| - 1], p) - {key}) <= Total(Touched(ops, p) - {key})
  {
    TotalGrows(Touched(ops[..|ops| - 1], p) - {key}, Touched(ops, p) - {key});
  }

  /** The block that operation `p` put, or found. */
  function Used(ops: seq<Op>, p: nat): Option<Block>
    requires p < |ops|
  {
    match ops[p]
    case Put(_, block) => Some(block)
    case Get(key) => Lookup(Run(ops[..p]).items, key)
    case SetCapacity(_) => None
  }

  lemma FirstStay(ops: seq<Op>, p: nat)
    requires |ops| == p + 1 && Used(ops, p).Some? && |Used(ops, p).value| <= CapacityAt(ops)
    ensures Stays(ops, p, ops[p].key, Used(ops, p).value)
  {
    var c, key, block := Run(ops[..p]), ops[p].key, Used(ops, p).value;
    var items := [(key, block)] + Without(c.items, key);
    ItemsAreDistinct(ops[..p]);
    CapacityIs(ops);
    TouchedIsDistinct(c.items, key, block);
    TouchedLookup(c.items, key, block, key);
    var none: map<Key, nat> := map[];
    assert Front(items, key, none) && none - {key} == none;
    EvictSpares(items, c.capacity, key, none);
  }

  /** After a put or a hit a key is still held, with that block, as long as it is not put again and its block and
      one block of every other key put or hit since, the largest, have always fitted in the capacity together. */
  lemma {:induction false} RecentKeysAreHeld(ops: seq<Op>, p: nat)
    requires p < |ops| && Used(ops, p).Some?
    requires forall j :: p < j < |ops| && ops[j].Put? ==> ops[j].key != ops[p].key
    requires forall j :: p < j <= |ops| ==>
      |Used(ops, p).value| + Total(Touched(ops, p) - {ops[p].key}) <= CapacityAt(ops[..j])
    ensures Stays(ops, p, ops[p].key, Used(ops, p).value)
    decreases |ops|
  {
    var n, key, block := |ops| - 1, ops[p].key, Used(ops, p).value;
    assert ops[..|ops|] == ops;
    if n == p {
      FirstStay(ops, p);
    } else {
      TouchedGrows(ops, p, key);
      assert ops[..n][..p] == ops[..p] && Used(ops[..n], p) == Used(ops, p);
      forall j | p < j <= n ensures |block| + Total(Touched(ops[..n], p) - {key}) <= CapacityAt(ops[..n][..j]) {
        assert ops[..n][..j] == ops[..j];
      }
      RecentKeysAreHeld(ops[..n], p);
      StayStep(ops, p, key, block);
    }
  }

  // ----- the cache object -----

  /** A list node: the map points at it, so it can be moved without a search. */
  class Entry {
    const key: Key
    var block: Block

    constructor (k: Key, b: Block)
      ensures key == k && block == b
    {
      key, block := k, b;
    }
  }

  lemma {:induction false} SizeSnoc(items: seq<Item>)
    requires items != []
    ensures Size(items) == Size(items[..|items| - 1]) + |items[|items| - 1].1|
  {
    if |items| > 1 {
      assert items[1..][..|items| - 2] == items[..|items| - 1][1..];
      SizeSnoc(items[1..]);
    }
  }

  lemma {:induction false} WithoutAt(items: seq<Item>, i: nat)
    requires i < |items| && Distinct(KeysOf(items))
    ensures Without(items, items[i].0) == items[..i] + items[i + 1..]
    ensures Lookup(items, items[i].0) == Some(items[i].1)
    ensures Size(items) == Size(items[..i] + items[i + 1..]) + |items[i].1|
  {
    var keys, rest := KeysOf(items), items[1..];
    assert KeysOf(rest) == keys[1..];
    if i == 0 {
      assert keys[0] !in keys[1..];
      AbsentStays(rest, items[0].0);
      assert items[..0] + items[1..] == rest;
    } else {
      WithoutAt(rest, i - 1);
      assert keys[0] != keys[i];
      var out := items[..i] + items[i + 1..];
      assert out[0] == items[0] && out[1..] == rest[..i - 1] + rest[i..];
      assert out == [items[0]] + (rest[..i - 1] + rest[i..]);
    }
  }

  lemma {:induction false} AbsentStays(items: seq<Item>, key: Key)
    requires key !in KeysOf(items)
    ensures Without(items, key) == items && Lookup(items, key) == None
  {
    if items != [] {
      assert KeysOf(items) == [items[0].0] + KeysOf(items[1..]);
      AbsentStays(items[1..], key);
    }
  }

  function ItemsOf(entries: seq<Entry>): (items: seq<Item>)
    reads entries
    ensures |items| == |entries|
  {
    seq(|entries|, i requires 0 <= i < |entries| reads entries => (entries[i].key, entries[i].block))
  }

  /** The index and the list hold the same entries, each key once. */
  ghost predicate Linked(lru: seq<Entry>, index: map<Key, Entry>) {
    && (forall e :: e in lru ==> e.key in index && index[e.key] == e)
    && (forall k :: k in index ==> index[k] in lru && index[k].key == k)
    && (forall i, j :: 0 <= i < j < |lru| ==> lru[i].key != lru[j].key)
  }

  function MoveFirst(lru: seq<Entry>, i: nat): (out: seq<Entry>)
    requires i < |lru|
    ensures |out| == |lru|
  {
    [lru[i]] + (lru[..i] + lru[i + 1..])
  }

  /** Where the entry at `p` stood before the move. */
  function MovedFrom(i: nat, p: nat): nat {
    if p == 0 then i else if p <= i then p - 1 else p
  }

  lemma MovedAt(lru: seq<Entry>, i: nat, p: nat)
    requires i < |lru| && p < |lru|
    ensures MoveFirst(lru, i)[p] == lru[MovedFrom(i, p)] && MovedFrom(i, p) < |lru|
  {
  }

  lemma MovedAreIndexed(lru: seq<Entry>, index: map<Key, Entry>, i: nat, e: Entry)
    requires Linked(lru, index) && i < |lru| && e in MoveFirst(lru, i)
    ensures e.key in index && index[e.key] == e
  {
    hide MoveFirst;
    var p :| 0 <= p < |lru| && MoveFirst(lru, i)[p] == e;
    MovedAt(lru, i, p);
  }

  lemma IndexedAreMoved(lru: seq<Entry>, index: map<Key, Entry>, i: nat, k: Key)
    requires Linked(lru, index) && i < |lru| && k in index
    ensures index[k] in MoveFirst(lru, i)
  {
    hide MoveFirst;
    var q :| 0 <= q < |lru| && lru[q] == index[k];
    MovedAt(lru, i, if q == i then 0 else if q < i then q + 1 else q);
  }

  lemma MovedKeysDiffer(lru: seq<Entry>, index: map<Key, Entry>, i: nat, p: nat, q: nat)
    requires Linked(lru, index) && i < |lru| && p < q < |lru|
    ensures MoveFirst(lru, i)[p].key != MoveFirst(lru, i)[q].key
  {
    hide MoveFirst;
    MovedAt(lru, i, p);
    MovedAt(lru, i, q);
    var x, y := MovedFrom(i, p), MovedFrom(i, q);
    assert lru[if x < y then x else y].key != lru[if x < y then y else x].key;
  }

  lemma MovedIsLinked(lru: seq<Entry>, index: map<Key, Entry>, i: nat)
    requires Linked(lru, index) && i < |lru|
    ensures Linked(MoveFirst(lru, i), index)
  {
    hide MoveFirst;
    var out := MoveFirst(lru, i);
    forall e | e in out ensures e.key in index && index[e.key] == e {
      MovedAreIndexed(lru, index, i, e);
    }
    forall k | k in index ensures index[k] in out && index[k].key == k {
      IndexedAreMoved(lru, index, i, k);
    }
    forall p, q | 0 <= p < q < |out| ensures out[p].key != out[q].key {
      MovedKeysDiffer(lru, index, i, p, q);
    }
  }

  lemma DroppedIsLinked(lru: seq<Entry>, index: map<Key, Entry>)
    requires Linked(lru, index) && lru != []
    ensures Linked(lru[..|lru| - 1], index - {lru[|lru| - 1].key})
  {
    var back := lru[|lru| - 1];
    var rest, index' := lru[..|lru| - 1], index - {back.key};
    assert lru == rest + [back];
    forall e | e in rest ensures e.key in index' && index'[e.key] == e {
      assert e in lru;
    }
  }

  lemma AddedIsLinked(lru: seq<Entry>, index: map<Key, Entry>, e: Entry)
    requires Linked(lru, index) && e.key !in index
    ensures Linked([e] + lru, index[e.key := e])
  {
  }

  lemma AddedItems(lru: seq<Entry>, e: Entry)
    ensures ItemsOf([e] + lru) == [(e.key, e.block)] + ItemsOf(lru)
  {
  }

  lemma KeysAreDistinct(lru: seq<Entry>, index: map<Key, Entry>)
    requires Linked(lru, index)
    ensures Distinct(KeysOf(ItemsOf(lru)))
  {
  }

  lemma MovedItems(lru: seq<Entry>, index: map<Key, Entry>, i: nat)
    requires Linked(lru, index) && i < |lru|
    ensures ItemsOf(MoveFirst(lru, i)) == [ItemsOf(lru)[i]] + Without(ItemsOf(lru), lru[i].key)
    ensures Size(ItemsOf(MoveFirst(lru, i))) == Size(ItemsOf(lru))
    ensures Lookup(ItemsOf(lru), lru[i].key) == Some(lru[i].block)
  {
    var items := ItemsOf(lru);
    KeysAreDistinct(lru, index);
    WithoutAt(items, i);
    MovedItemsAre(lru, i);
    hide ItemsOf, MoveFirst, Linked, Distinct, Without, Lookup;
    var rest := items[..i] + items[i + 1..];
    assert ([items[i]] + rest)[1..] == rest;
  }

  lemma MovedItemsAre(lru: seq<Entry>, i: nat)
    requires i < |lru|
    ensures ItemsOf(MoveFirst(lru, i)) == [ItemsOf(lru)[i]] + (ItemsOf(lru)[..i] + ItemsOf(lru)[i + 1..])
    ensures ItemsOf(lru)[i] == (lru[i].key, lru[i].block)
  {
  }

  class BlockCache {
    var lru: seq<Entry>
    var index: map<Key, Entry>
    var capacityBytes: nat
    var currentBytes: nat

    function Items(): (items: seq<Item>)
      reads this`lru, lru
    {
      ItemsOf(lru)
    }

    function Now(): Cache
      reads this, lru
    {
      Cache(Items(), capacityBytes)
    }

    /** List and index agree, and the byte count is exact. */
    ghost predicate Valid()
      reads this, lru
    {
      Linked(lru, index) && currentBytes == Size(Items())
    }

    constructor ()
      ensures Valid() && Now() == Cache([], DEFAULT_CAP_BYTES)
    {
      lru, index, capacityBytes, currentBytes := [], map[], DEFAULT_CAP_BYTES, 0;
    }

    method EvictLast()
      requires Valid() && lru != []
      modifies `lru, `index, `currentBytes
      ensures Valid() && Items() == old(Items())[..|old(lru)| - 1] && lru == old(lru)[..|old(lru)| - 1]
    {
      var back := lru[|lru| - 1];
      SizeSnoc(Items());
      DroppedIsLinked(lru, index);
      currentBytes := currentBytes - |back.block|;
      index := index - {back.key};
      lru := lru[..|lru| - 1];
      assert Items() == old(Items())[..|old(lru)| - 1];
    }

    method EvictIfNeeded()
      requires Valid()
      modifies `lru, `index, `currentBytes
      ensures Valid() && Items() == Evict(old(Items()), capacityBytes)
    {
      while currentBytes > capacityBytes && lru != []
        invariant Valid()
        invariant Evict(Items(), capacityBytes) == Evict(old(Items()), capacityBytes)
        decreases |lru|
      {
        EvictLast();
      }
    }

    /** Moves a node of the list to the front. */
    method Splice(e: Entry)
      requires Valid() && e in lru
      modifies `lru
      ensures Valid() && Items() == [(e.key, e.block)] + Without(old(Items()), e.key)
    {
      var i :| 0 <= i < |lru| && lru[i] == e;
      MovedItems(lru, index, i);
      MovedIsLinked(lru, index, i);
      lru := MoveFirst(lru, i);
    }

    method Get(key: Key) returns (block: Option<Block>)
      requires Valid()
      modifies this
      ensures Valid() && Now() == Apply(old(Now()), Op.Get(key)) && block == Lookup(old(Items()), key)
      ensures capacityBytes == old(capacityBytes) && forall k :: Lookup(Items(), k) == Lookup(old(Items()), k)
    {
      LookupIsIndex(key);
      if key !in index {
        return None;
      }
      block := Some(index[key].block);
      ghost var items := Items();
      forall k ensures Lookup([(key, block.value)] + Without(items, key), k) == Lookup(items, k) {
        HitLosesNothing(items, key, k);
      }
      Splice(index[key]);
    }

    lemma LookupIsIndex(key: Key)
      requires Valid()
      ensures Lookup(Items(), key) == if key in index then Some(index[key].block) else None
      ensures key !in index ==> Without(Items(), key) == Items()
    {
      if key in index {
        var i :| 0 <= i < |lru| && lru[i] == index[key];
        MovedItems(lru, index, i);
      } else {
        AbsentStays(Items(), key);
      }
    }

    method Put(key: Key, value: Option<Block>)
      requires Valid()
      modifies this, lru
      ensures Valid()
      ensures Now() == if value.None? then old(Now()) else Apply(old(Now()), Op.Put(key, value.value))
      ensures capacityBytes == old(capacityBytes)
      ensures forall k :: Lookup(Items(), k) ==
                          if value.None? then Lookup(old(Items()), k)
                          else AfterPut(old(Items()), capacityBytes, key, value.value, k)
    {
      if value.None? {
        return;
      }
      ghost var items := Items();
      KeysAreDistinct(lru, index);
      forall k ensures Lookup(Evict([(key, value.value)] + Without(items, key), capacityBytes), k)
        == AfterPut(items, capacityBytes, key, value.value, k)
      {
        PutLoses(items, capacityBytes, key, value.value, k);
      }
      if key in index {
        Replace(index[key], value.value);
      } else {
        AddFirst(key, value.value);
      }
      EvictIfNeeded();
    }

    method Replace(e: Entry, block: Block)
      requires Valid() && e in lru
      modifies `lru, `currentBytes, e
      ensures Valid() && Items() == [(e.key, block)] + Without(old(Items()), e.key)
    {
      ghost var i :| 0 <= i < |lru| && lru[i] == e;
      ghost var items := Items();
      KeysAreDistinct(lru, index);
      ReplacedItem(items, i, block);
      currentBytes := currentBytes - |e.block|;
      e.block := block;
      currentBytes := currentBytes + |block|;
      assert Items() == items[i := (items[i].0, block)];
      Splice(e);
    }

    method AddFirst(key: Key, block: Block)
      requires Valid() && key !in index
      modifies `lru, `index, `currentBytes
      ensures Valid() && Items() == [(key, block)] + Without(old(Items()), key)
    {
      LookupIsIndex(key);
      var e := new Entry(key, block);
      AddedIsLinked(lru, index, e);
      hide Linked, Without, Lookup;
      lru := [e] + lru;
      index := index[key := e];
      currentBytes := currentBytes + |block|;
      AddedItems(old(lru), e);
      assert ItemsOf(old(lru)) == old(Items());
      hide ItemsOf;
      assert Items()[1..] == old(Items());
    }

    method SetCapacity(bytes: nat)
      requires Valid()
      modifies this
      ensures Valid() && Now() == Apply(old(Now()), Op.SetCapacity(bytes))
      ensures capacityBytes == bytes
      ensures forall k :: Lookup(Items(), k) ==
                          if Lookup(old(Items()), k).Some? && UpTo(old(Items()), k, None) > bytes then None
                          else Lookup(old(Items()), k)
    {
      ghost var items := Items();
      KeysAreDistinct(lru, index);
      forall k ensures Lookup(Evict(items, bytes), k)
        == if Lookup(items, k).Some? && UpTo(items, k, None) > bytes then None else Lookup(items, k)
      {
        EvictLoses(items, bytes, k);
      }
      capacityBytes := bytes;
      EvictIfNeeded();
    }
  }

  lemma ReplacedItem(items: seq<Item>, i: nat, block: Block)
    requires i < |items| && Distinct(KeysOf(items))
    ensures var out := items[i := (items[i].0, block)];
      && |items[i].1| <= Size(items)
      && Size(out) + |items[i].1| == Size(items) + |block|
      && Without(out, items[i].0) == Without(items, items[i].0)
  {
    var out := items[i := (items[i].0, block)];
    assert KeysOf(out) == KeysOf(items);
    WithoutAt(items, i);
    WithoutAt(out, i);
    assert out[..i] == items[..i] && out[i + 1..] == items[i + 1..];
  }
}
