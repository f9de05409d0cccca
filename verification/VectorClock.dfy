/** Vector clocks: one `uint64_t` counter per node, a missing entry standing for zero. */
module VectorClocks {
  import opened Bytes

  type NodeID = ByteString
  type Counter = n: nat | n < U64
  type Clock = map<NodeID, Counter>

  datatype ClockOrder = Equal | HappensBefore | HappensAfter | Concurrent

  // ----- the causal order, on values -----

  function Get(c: Clock, n: NodeID): Counter {
    if n in c then c[n] else 0
  }

  predicate Leq(a: Clock, b: Clock) {
    forall n :: n in a ==> a[n] <= Get(b, n)
  }

  predicate Same(a: Clock, b: Clock) {
    Leq(a, b) && Leq(b, a)
  }

  predicate Before(a: Clock, b: Clock) {
    Leq(a, b) && !Leq(b, a)
  }

  function Max(a: Counter, b: Counter): Counter {
    if a < b then b else a
  }

  function Join(a: Clock, b: Clock): Clock {
    map n | n in a.Keys + b.Keys :: Max(Get(a, n), Get(b, n))
  }

  /** `clock[node]++` on an unsigned 64-bit counter. */
  function Tick(c: Clock, n: NodeID): Clock {
    c[n := (Get(c, n) + 1) % U64]
  }

  function Order(a: Clock, b: Clock): ClockOrder {
    if Same(a, b) then Equal
    else if Leq(b, a) then HappensAfter
    else if Leq(a, b) then HappensBefore
    else Concurrent
  }

  /** `Leq` is the pointwise order when a missing entry counts as zero. */
  lemma LeqPointwise(a: Clock, b: Clock)
    ensures Leq(a, b) <==> forall n :: Get(a, n) <= Get(b, n)
  {
    if forall n :: Get(a, n) <= Get(b, n) {
      forall n | n in a ensures a[n] <= Get(b, n) {
        assert Get(a, n) <= Get(b, n);
      }
    }
  }

  lemma LeqTransitive(a: Clock, b: Clock, c: Clock)
    requires Leq(a, b) && Leq(b, c)
    ensures Leq(a, c)
  {
    forall n | n in a ensures a[n] <= Get(c, n) {
      assert a[n] <= Get(b, n) <= Get(c, n);
    }
  }

  /** Merging is the least upper bound of the causal order. */
  lemma JoinIsLeastUpperBound(a: Clock, b: Clock, c: Clock)
    ensures forall n :: Get(Join(a, b), n) == Max(Get(a, n), Get(b, n))
    ensures Leq(a, Join(a, b)) && Leq(b, Join(a, b))
    ensures Leq(Join(a, b), c) <==> Leq(a, c) && Leq(b, c)
  {
    if Leq(a, c) && Leq(b, c) {
      forall n | n in Join(a, b) ensures Join(a, b)[n] <= Get(c, n) {
        assert Get(a, n) <= Get(c, n) && Get(b, n) <= Get(c, n);
      }
    }
    if Leq(Join(a, b), c) {
      forall n | n in a ensures a[n] <= Get(c, n) {
        assert n in Join(a, b);
      }
      forall n | n in b ensures b[n] <= Get(c, n) {
        assert n in Join(a, b);
      }
    }
  }

  /** A local event moves the clock strictly forward exactly when the counter does not wrap. */
  lemma IncrementAdvancesIff(c: Clock, n: NodeID)
    ensures Before(c, Tick(c, n)) <==> Get(c, n) != U64 - 1
  {
    var d := Tick(c, n);
    if Get(c, n) != U64 - 1 {
      assert n in d && d[n] == Get(c, n) + 1;
      assert forall m :: m in c && m != n ==> d[m] == c[m];
      assert Leq(c, d);
    } else {
      assert c[n] > Get(d, n);
    }
  }

  // ----- wire format: [count u32] ([length u32] [node] [counter u64])* -----

  type Entry = (NodeID, Counter)

  function EncodeEntry(e: Entry): ByteString {
    PutU32(|e.0|) + e.0 + PutU64(e.1)
  }

  function EncodeEntries(entries: seq<Entry>): ByteString {
    if entries == [] then [] else EncodeEntry(entries[0]) + EncodeEntries(entries[1..])
  }

  ghost function EncodeClock(c: Clock): ByteString {
    PutU32(|c|) + EncodeEntries(Rows(c))
  }

  function DecodeEntries(count: nat, s: ByteString, acc: Clock): Clock {
    if count == 0 || |s| < 4 then acc else
      var len := GetU32(s[..4]);
      if |s| < 4 + len + 8 then acc else
        DecodeEntries(count - 1, s[len + 12..], acc[s[4..len + 4] := GetU64(s[len + 4..len + 12])])
  }

  function DecodeClock(s: ByteString): Clock {
    if |s| < 4 then map[] else DecodeEntries(GetU32(s[..4]), s[4..], map[])
  }

  /** The sizes the 32-bit length fields can hold. */
  predicate Encodable(c: Clock) {
    |c| < U32 && forall n :: n in c ==> |n| < U32
  }

  ghost predicate ShortNames(entries: seq<Entry>) {
    forall i :: 0 <= i < |entries| ==> |entries[i].0| < U32
  }

  /** How many of these entries lie wholly inside the first `room` bytes. */
  function WholeEntries(entries: seq<Entry>, room: nat): (count: nat)
    ensures count <= |entries|
  {
    if entries == [] || room < |entries[0].0| + 12 then 0
    else 1 + WholeEntries(entries[1..], room - (|entries[0].0| + 12))
  }

  lemma EncodedEntry(e: Entry, tail: ByteString)
    requires |e.0| < U32
    ensures var s, len := EncodeEntry(e) + tail, |e.0|;
      && |EncodeEntry(e)| == len + 12
      && GetU32(s[..4]) == len
      && s[4..len + 4] == e.0
      && GetU64(s[len + 4..len + 12]) == e.1
      && s[len + 12..] == tail
  {
    var s, len := EncodeEntry(e) + tail, |e.0|;
    U32RoundTrip(len);
    U64RoundTrip(e.1);
    assert s[..4] == PutU32(len);
    assert s[4..len + 4] == e.0;
    assert s[len + 4..len + 12] == PutU64(e.1);
  }

  lemma SliceOfPrefix(s: ByteString, size: nat, lo: nat, hi: nat)
    requires lo <= hi <= size <= |s|
    ensures s[..size][lo..hi] == s[lo..hi]
  {
  }

  /** One step of the decoder on a prefix of an encoded entry and what follows it. */
  lemma DecodeOne(e: Entry, tail: ByteString, count: nat, acc: Clock, room: nat)
    requires |e.0| < U32 && 0 < count && room <= |e.0| + 12 + |tail|
    ensures |EncodeEntry(e)| == |e.0| + 12
    ensures DecodeEntries(count, (EncodeEntry(e) + tail)[..room], acc)
         == if room < |e.0| + 12 then acc
            else DecodeEntries(count - 1, tail[..room - (|e.0| + 12)], acc[e.0 := e.1])
  {
    var bytes, len := EncodeEntry(e) + tail, |e.0|;
    EncodedEntry(e, tail);
    var s := bytes[..room];
    if room >= 4 {
      SliceOfPrefix(bytes, room, 0, 4);
    }
    if room >= len + 12 {
      SliceOfPrefix(bytes, room, 4, len + 4);
      SliceOfPrefix(bytes, room, len + 4, len + 12);
      assert s[len + 12..] == tail[..room - (len + 12)];
    }
  }

  lemma {:induction false} DecodePrefixOfEntries(entries: seq<Entry>, acc: Clock, room: nat)
    requires ShortNames(entries)
    requires room <= |EncodeEntries(entries)|
    ensures DecodeEntries(|entries|, EncodeEntries(entries)[..room], acc)
         == FromRows(acc, entries[..WholeEntries(entries, room)])
    decreases entries
  {
    if entries != [] {
      var e, rest := entries[0], entries[1..];
      DecodeOne(e, EncodeEntries(rest), |entries|, acc, room);
      if room >= |e.0| + 12 {
        var more := room - (|e.0| + 12);
        DecodePrefixOfEntries(rest, acc[e.0 := e.1], more);
        var w := WholeEntries(rest, more);
        assert entries[..w + 1][1..] == rest[..w];
      }
    }
  }

  lemma EntriesAreShort(c: Clock)
    requires Encodable(c)
    ensures |Rows(c)| == |c| && ShortNames(Rows(c))
  {
    RowsAreMap(c);
  }

  /** Decoding a truncated clock keeps exactly the entries that survived whole, in node order. */
  lemma TruncatedClockDecodes(c: Clock, size: nat)
    requires Encodable(c) && size <= |EncodeClock(c)|
    ensures DecodeClock(EncodeClock(c)[..size])
         == FromRows(map[], Rows(c)[..if size < 4 then 0 else WholeEntries(Rows(c), size - 4)])
  {
    EntriesAreShort(c);
    if size >= 4 {
      U32RoundTrip(|c|);
      PrefixOfConcat(PutU32(|c|), EncodeEntries(Rows(c)), size);
      DecodePrefixOfEntries(Rows(c), map[], size - 4);
      hide EncodeEntries, DecodeEntries, WholeEntries, FromRows, Rows, PutU32, GetU32;
    }
  }

  lemma PrefixOfConcat(a: ByteString, b: ByteString, size: nat)
    requires |a| <= size <= |a| + |b|
    ensures (a + b)[..size][..|a|] == a && (a + b)[..size][|a|..] == b[..size - |a|]
  {
  }

  lemma {:induction false} AllEntriesWhole(entries: seq<Entry>)
    requires ShortNames(entries)
    ensures WholeEntries(entries, |EncodeEntries(entries)|) == |entries|
  {
    if entries != [] {
      EncodedEntry(entries[0], EncodeEntries(entries[1..]));
      AllEntriesWhole(entries[1..]);
    }
  }

  lemma ClockRoundTrip(c: Clock)
    requires Encodable(c)
    ensures DecodeClock(EncodeClock(c)) == c
  {
    TruncatedClockDecodes(c, |EncodeClock(c)|);
    EntriesAreShort(c);
    AllEntriesWhole(Rows(c));
    assert EncodeClock(c)[..|EncodeClock(c)|] == EncodeClock(c);
    assert Rows(c)[..|c|] == Rows(c);
    FromRowsOfMap(map[], c);
    assert map[] + c == c;
  }

  // ----- the clock object -----

  class VectorClock {
    var clock: Clock

    constructor (c: Clock)
      ensures clock == c
    {
      clock := c;
    }

    method Increment(node: NodeID)
      modifies this
      ensures clock == Tick(old(clock), node)
    {
      clock := clock[node := (Get(clock, node) + 1) % U64];
    }

    method Merge(other: VectorClock)
      modifies this
      ensures clock == Join(old(clock), old(other.clock))
    {
      ghost var mine := clock;
      var theirs := other.clock;
      var pending := theirs.Keys;
      while pending != {}
        invariant pending <= theirs.Keys
        invariant forall n :: Get(clock, n) == if n in pending then Get(mine, n) else Max(Get(mine, n), Get(theirs, n))
        invariant clock.Keys == mine.Keys + (theirs.Keys - pending)
      {
        var node :| node in pending;
        clock := clock[node := Max(Get(clock, node), theirs[node])];
        pending := pending - {node};
      }
      forall n | n in clock ensures clock[n] == Join(mine, theirs)[n] {
        assert clock[n] == Get(clock, n);
      }
    }

    method Compare(other: VectorClock) returns (order: ClockOrder)
      ensures order == Order(clock, other.clock)
    {
      var thisHasGreater, otherHasGreater := false, false;
      var nodes := clock.Keys + other.clock.Keys;
      var pending := nodes;
      while pending != {}
        invariant pending <= nodes
        invariant thisHasGreater <==> exists n :: n in nodes - pending && Get(clock, n) > Get(other.clock, n)
        invariant otherHasGreater <==> exists n :: n in nodes - pending && Get(other.clock, n) > Get(clock, n)
      {
        var node :| node in pending;
        ghost var seen := nodes - pending;
        var c1, c2 := Get(clock, node), Get(other.clock, node);
        pending := pending - {node};
        assert nodes - pending == seen + {node};
        if c1 > c2 { thisHasGreater := true; }
        if c2 > c1 { otherHasGreater := true; }
      }
      assert thisHasGreater <==> !Leq(clock, other.clock) by {
        assert nodes - pending == nodes;
      }
      assert otherHasGreater <==> !Leq(other.clock, clock) by {
        assert nodes - pending == nodes;
      }
      if !thisHasGreater && !otherHasGreater { return Equal; }
      if thisHasGreater && !otherHasGreater { return HappensAfter; }
      if !thisHasGreater && otherHasGreater { return HappensBefore; }
      return Concurrent;
    }

    method Serialize() returns (out: ByteString)
      ensures out == EncodeClock(clock)
    {
      out := PutU32(|clock|);
      var pending := clock;
      while pending != map[]
        invariant out + EncodeEntries(Rows(pending)) == EncodeClock(clock)
        decreases |pending|
      {
        LeastExists(pending.Keys);
        var node :| node in pending.Keys && IsLeast(node, pending.Keys);
        var e := (node, pending[node]);
        RowsFirst(pending, node);
        assert Rows(pending)[1..] == Rows(pending - {node});
        out := out + (PutU32(|e.0|) + e.0 + PutU64(e.1));
        pending := pending - {node};
      }
    }

    static method Deserialize(input: ByteString) returns (vc: VectorClock)
      ensures fresh(vc) && vc.clock == DecodeClock(input)
    {
      vc := new VectorClock(map[]);
      if |input| < 4 { return; }
      var size := GetU32(input[..4]);
      var ptr, i := 4, 0;
      while i < size
        invariant i <= size && 4 <= ptr <= |input|
        invariant DecodeEntries(size - i, input[ptr..], vc.clock) == DecodeClock(input)
      {
        var rest := input[ptr..];
        if ptr + 4 > |input| { break; }
        var len := GetU32(input[ptr..ptr + 4]);
        assert rest[..4] == input[ptr..ptr + 4];
        if ptr + 4 + len + 8 > |input| { break; }
        ptr := ptr + 4;
        var node := input[ptr..ptr + len];
        assert rest[4..len + 4] == node;
        ptr := ptr + len;
        var count := GetU64(input[ptr..ptr + 8]);
        assert rest[len + 4..len + 12] == input[ptr..ptr + 8];
        ptr := ptr + 8;
        assert rest[len + 12..] == input[ptr..];
        vc.clock := vc.clock[node := count];
        i := i + 1;
      }
    }
  }
}
