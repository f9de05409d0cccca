/** The last-write-wins register: its merge, its wire format, and the object that merges in place. */
module Crdt {
  import opened Bytes
  import opened VectorClocks

  datatype Register = Register(value: ByteString, clock: Clock)

  /** `a.merge(b)`: a dominated left side is replaced, a tie keeps the left value. */
  function MergeRegisters(a: Register, b: Register): Register {
    match Order(a.clock, b.clock)
    case HappensBefore => b
    case Concurrent => Register(if Less(a.value, b.value) then b.value else a.value, Join(a.clock, b.clock))
    case _ => Register(a.value, Join(a.clock, b.clock))
  }

  /** Equal up to counters that are explicitly zero on one side. */
  predicate Equiv(a: Register, b: Register) {
    a.value == b.value && Same(a.clock, b.clock)
  }

  lemma MergeClock(a: Register, b: Register, c: Clock)
    ensures Leq(MergeRegisters(a, b).clock, c) <==> Leq(a.clock, c) && Leq(b.clock, c)
  {
    JoinIsLeastUpperBound(a.clock, b.clock, c);
    if Leq(a.clock, b.clock) && Leq(b.clock, c) {
      LeqTransitive(a.clock, b.clock, c);
    }
  }

  lemma MergeBounds(a: Register, b: Register)
    ensures Leq(a.clock, MergeRegisters(a, b).clock) && Leq(b.clock, MergeRegisters(a, b).clock)
  {
    MergeClock(a, b, MergeRegisters(a, b).clock);
  }

  lemma MergePicksValue(a: Register, b: Register)
    ensures MergeRegisters(a, b).value in {a.value, b.value}
  {
  }

  lemma MergeRespectsEquiv(a: Register, a': Register, b: Register, b': Register)
    requires Equiv(a, a') && Equiv(b, b')
    ensures Equiv(MergeRegisters(a, b), MergeRegisters(a', b'))
  {
    OrderRespectsSame(a.clock, a'.clock, b.clock, b'.clock);
    var m, m' := MergeRegisters(a, b), MergeRegisters(a', b');
    MergeBounds(a, b);
    MergeBounds(a', b');
    LeqTransitive(a.clock, a'.clock, m'.clock);
    LeqTransitive(b.clock, b'.clock, m'.clock);
    LeqTransitive(a'.clock, a.clock, m.clock);
    LeqTransitive(b'.clock, b.clock, m.clock);
    MergeClock(a, b, m'.clock);
    MergeClock(a', b', m.clock);
  }

  lemma OrderRespectsSame(a: Clock, a': Clock, b: Clock, b': Clock)
    requires Same(a, a') && Same(b, b')
    ensures Order(a, b) == Order(a', b')
  {
    forall x, x', y, y' | Same(x, x') && Same(y, y') && Leq(x, y) ensures Leq(x', y') {
      LeqTransitive(x', x, y);
      LeqTransitive(x', y, y');
    }
  }

  lemma MergeIdempotent(a: Register)
    ensures Equiv(MergeRegisters(a, a), a)
  {
    MergeBounds(a, a);
    MergeClock(a, a, a.clock);
  }

  /** The two sides of a merge are interchangeable except when equal clocks carry different values. */
  lemma MergeCommutesIff(a: Register, b: Register)
    ensures Equiv(MergeRegisters(a, b), MergeRegisters(b, a)) <==> (Same(a.clock, b.clock) ==> a.value == b.value)
  {
    MergeBounds(a, b);
    MergeBounds(b, a);
    MergeClock(a, b, MergeRegisters(b, a).clock);
    MergeClock(b, a, MergeRegisters(a, b).clock);
    LessTrichotomy(a.value, b.value);
  }

  // ----- wire format: [clock length u32] [clock] [value] -----

  ghost function EncodeRegister(r: Register): ByteString {
    PutU32(|EncodeClock(r.clock)|) + EncodeClock(r.clock) + r.value
  }

  function DecodeRegister(s: ByteString): Register {
    if |s| < 4 then Register(s, map[]) else
      var len := GetU32(s[..4]);
      if |s| < 4 + len then Register(s, map[])
      else Register(s[4 + len..], DecodeClock(s[4..4 + len]))
  }

  ghost predicate EncodableRegister(r: Register) {
    Encodable(r.clock) && |EncodeClock(r.clock)| < U32 - 4
  }

  lemma RegisterRoundTrip(r: Register)
    requires EncodableRegister(r)
    ensures DecodeRegister(EncodeRegister(r)) == r
  {
    var clock, s := EncodeClock(r.clock), EncodeRegister(r);
    U32RoundTrip(|clock|);
    ClockRoundTrip(r.clock);
    assert s[..4] == PutU32(|clock|);
    assert s[4..4 + |clock|] == clock;
    assert s[4 + |clock|..] == r.value;
  }

  /** No encoding is empty, so an empty stored string never stands for a register. */
  lemma EncodingNeverEmpty(r: Register)
    ensures |EncodeRegister(r)| >= 8 + |r.value|
  {
  }

  // ----- the register object -----

  class LWWRegister {
    var value: ByteString
    const clock: VectorClock

    constructor (v: ByteString, c: VectorClock)
      ensures value == v && fresh(clock) && clock.clock == c.clock
    {
      value := v;
      clock := new VectorClock(c.clock);
    }

    function Reg(): Register
      reads this, clock
    {
      Register(value, clock.clock)
    }

    method Merge(other: LWWRegister)
      modifies this, clock
      ensures Reg() == MergeRegisters(old(Reg()), old(other.Reg()))
    {
      var order := clock.Compare(other.clock);
      if order == HappensBefore {
        value := other.value;
        clock.clock := other.clock.clock;
      } else if order == Concurrent {
        if Less(value, other.value) {
          value := other.value;
        }
        clock.Merge(other.clock);
      } else {
        clock.Merge(other.clock);
      }
    }

    method Serialize() returns (out: ByteString)
      ensures out == EncodeRegister(Reg())
    {
      var vcBytes := clock.Serialize();
      out := PutU32(|vcBytes|) + vcBytes + value;
    }

    static method Deserialize(input: ByteString) returns (r: LWWRegister)
      ensures fresh(r) && fresh(r.clock) && r.Reg() == DecodeRegister(input)
    {
      var empty := new VectorClock(map[]);
      if |input| < 4 {
        r := new LWWRegister(input, empty);
        return;
      }
      var vcLen := GetU32(input[..4]);
      if |input| < 4 + vcLen {
        r := new LWWRegister(input, empty);
        return;
      }
      var vc := VectorClock.Deserialize(input[4..4 + vcLen]);
      r := new LWWRegister(input[4 + vcLen..], vc);
    }
  }
}
