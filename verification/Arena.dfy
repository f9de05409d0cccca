/** The bump allocator behind the skip list: addresses are numbers, null is zero. Where a new block lands is
    the environment's choice and comes in as `base`. */
module Arenas {

  datatype Region = Region(start: nat, size: nat)

  /** No byte in common. */
  predicate Apart(x: Region, y: Region) {
    x.size == 0 || y.size == 0 || x.start + x.size <= y.start || y.start + y.size <= x.start
  }

  predicate Inside(x: Region, y: Region) {
    y.start <= x.start && x.start + x.size <= y.start + y.size
  }

  datatype State = State(ptr: nat, remaining: nat, blocks: seq<Region>, usage: nat)

  datatype Call = Plain(bytes: nat) | Aligned(bytes: nat)

  // ----- the allocator as a function -----

  function NewBlock(a: State, size: nat, base: nat): State {
    a.(blocks := a.blocks + [Region(base, size)], usage := a.usage + size + 8)
  }

  /** The state and the address handed out when the current block has no room. */
  function Fallback(a: State, bytes: nat, base: nat): (State, nat) {
    if bytes > 1024 then (NewBlock(a, bytes, base), base)
    else (NewBlock(a, 4096, base).(ptr := base + bytes, remaining := 4096 - bytes), base)
  }

  function Slop(ptr: nat): nat {
    if ptr % 8 == 0 then 0 else 8 - ptr % 8
  }

  /** Room the call wants in the current block. */
  function Needed(a: State, call: Call): nat {
    match call
    case Plain(bytes) => bytes
    case Aligned(bytes) => bytes + Slop(a.ptr)
  }

  function Fits(a: State, call: Call): bool {
    Needed(a, call) <= a.remaining
  }

  function Allocated(a: State, call: Call, base: nat): (State, nat) {
    var needed := Needed(a, call);
    if Fits(a, call) then
      (a.(ptr := a.ptr + needed, remaining := a.remaining - needed), a.ptr + (needed - call.bytes))
    else Fallback(a, call.bytes, base)
  }

  // ----- runs -----

  /** An arena with everything it has handed out, the padding spent on alignment, and what each retired
      block still had free. */
  datatype Run = Run(a: State, handed: seq<Region>, padding: nat, abandoned: seq<nat>)

  const EMPTY := Run(State(0, 0, [], 0), [], 0, [])

  function BlockSize(bytes: nat): nat {
    if bytes > 1024 then bytes else 4096
  }

  /** What `new char[n]` promises: memory of its own, 8-aligned. */
  predicate GoodBase(a: State, base: nat, size: nat) {
    base > 0 && base % 8 == 0 && forall b :: b in a.blocks ==> Apart(b, Region(base, size))
  }

  predicate Enabled(r: Run, call: Call, base: nat) {
    (call.Plain? ==> call.bytes > 0) && (Fits(r.a, call) || GoodBase(r.a, base, BlockSize(call.bytes)))
  }

  function Step(r: Run, call: Call, base: nat): Run {
    var (a, result) := Allocated(r.a, call, base);
    Run(a, r.handed + [Region(result, call.bytes)],
      if Fits(r.a, call) then r.padding + (Needed(r.a, call) - call.bytes) else r.padding,
      if Fits(r.a, call) || call.bytes > 1024 then r.abandoned else r.abandoned + [r.a.remaining])
  }

  predicate IsRun(steps: seq<(Call, nat)>) {
    steps == [] || (var n := |steps| - 1; IsRun(steps[..n]) && Enabled(Outcome(steps[..n]), steps[n].0, steps[n].1))
  }

  function Outcome(steps: seq<(Call, nat)>): Run {
    if steps == [] then EMPTY
    else var n := |steps| - 1; Step(Outcome(steps[..n]), steps[n].0, steps[n].1)
  }

  // ----- what every run keeps -----

  function TotalSize(regions: seq<Region>): nat {
    if regions == [] then 0 else TotalSize(regions[..|regions| - 1]) + regions[|regions| - 1].size
  }

  function Sum(xs: seq<nat>): nat {
    if xs == [] then 0 else Sum(xs[..|xs| - 1]) + xs[|xs| - 1]
  }

  predicate AllApart(regions: seq<Region>) {
    forall i, j :: 0 <= i < j < |regions| ==> Apart(regions[i], regions[j])
  }

  predicate Owned(r: Region, blocks: seq<Region>) {
    r.size == 0 || exists b :: b in blocks && Inside(r, b)
  }

  function Free(a: State): Region {
    Region(a.ptr, a.remaining)
  }

  /** Handed-out regions and the free rest share no byte and lie inside owned blocks. */
  predicate Safe(a: State, handed: seq<Region>) {
    && AllApart(a.blocks) && AllApart(handed)
    && (forall r :: r in handed ==> Owned(r, a.blocks) && Apart(r, Free(a)))
    && Owned(Free(a), a.blocks)
  }

  /** Every byte of every block is handed out, padding, abandoned or still free. */
  predicate Accounted(r: Run) {
    && r.a.usage == TotalSize(r.a.blocks) + 8 * |r.a.blocks|
    && TotalSize(r.a.blocks) == TotalSize(r.handed) + r.padding + Sum(r.abandoned) + r.a.remaining
    && r.padding <= 7 * |r.handed|
    && forall i :: 0 <= i < |r.abandoned| ==> r.abandoned[i] <= 1030
  }

  predicate Inv(r: Run) {
    Safe(r.a, r.handed) && Accounted(r)
  }

  lemma SnocApart(regions: seq<Region>, r: Region)
    requires AllApart(regions) && forall x :: x in regions ==> Apart(x, r)
    ensures AllApart(regions + [r])
  {
  }

  lemma ApartFromPart(x: Region, whole: Region, part: Region)
    requires Apart(x, whole) && Inside(part, whole)
    ensures Apart(x, part)
  {
  }

  lemma OwnedPart(part: Region, whole: Region, blocks: seq<Region>)
    requires Owned(whole, blocks) && Inside(part, whole)
    ensures Owned(part, blocks)
  {
    if part.size > 0 {
      var b :| b in blocks && Inside(whole, b);
      assert Inside(part, b);
    }
  }

  lemma OwnedStays(r: Region, blocks: seq<Region>, b: Region)
    requires Owned(r, blocks)
    ensures Owned(r, blocks + [b])
    ensures (forall x :: x in blocks ==> Apart(x, b)) ==> Apart(r, b)
  {
    if r.size > 0 {
      var x :| x in blocks && Inside(r, x);
      assert x in blocks + [b];
    }
  }

  /** The current block has room: the region is cut off the front of what is free. */
  lemma CutKeepsSafe(r: Run, call: Call)
    requires Safe(r.a, r.handed) && Fits(r.a, call)
    ensures var r' := Step(r, call, 0); Safe(r'.a, r'.handed)
  {
    var r' := Step(r, call, 0);
    var free, cut := Free(r.a), r'.handed[|r.handed|];
    assert Inside(cut, free) && Inside(Free(r'.a), free);
    forall x | x in r.handed ensures Apart(x, cut) && Apart(x, Free(r'.a)) {
      ApartFromPart(x, free, cut);
      ApartFromPart(x, free, Free(r'.a));
    }
    OwnedPart(cut, free, r.a.blocks);
    OwnedPart(Free(r'.a), free, r.a.blocks);
    SnocApart(r.handed, cut);
  }

  /** A new block: the region is its front, and the rest is free unless the block is the region. */
  lemma BlockKeepsSafe(r: Run, call: Call, base: nat)
    requires Safe(r.a, r.handed) && !Fits(r.a, call) && GoodBase(r.a, base, BlockSize(call.bytes))
    ensures var r' := Step(r, call, base); Safe(r'.a, r'.handed)
  {
    var r' := Step(r, call, base);
    var block, given := Region(base, BlockSize(call.bytes)), Region(base, call.bytes);
    assert r'.a.blocks == r.a.blocks + [block] && r'.handed == r.handed + [given];
    assert Inside(given, block);
    assert block in r'.a.blocks;
    forall x | x in r.handed ensures Apart(x, given) && Owned(x, r'.a.blocks) && Apart(x, Free(r'.a)) {
      OwnedStays(x, r.a.blocks, block);
      ApartFromPart(x, block, given);
      if call.bytes <= 1024 {
        ApartFromPart(x, block, Free(r'.a));
      }
    }
    OwnedStays(Free(r.a), r.a.blocks, block);
    SnocApart(r.a.blocks, block);
    SnocApart(r.handed, given);
    ApartFromPart(Free(r.a), block, given);
  }

  lemma TotalSizeSnoc(regions: seq<Region>, r: Region)
    ensures TotalSize(regions + [r]) == TotalSize(regions) + r.size
  {
    assert (regions + [r])[..|regions|] == regions;
  }

  lemma SumSnoc(xs: seq<nat>, x: nat)
    ensures Sum(xs + [x]) == Sum(xs) + x
  {
    assert (xs + [x])[..|xs|] == xs;
  }

  lemma CutKeepsAccount(r: Run, call: Call, base: nat)
    requires Accounted(r) && Fits(r.a, call)
    ensures Accounted(Step(r, call, base))
  {
    var r' := Step(r, call, base);
    TotalSizeSnoc(r.handed, r'.handed[|r.handed|]);
    hide TotalSize, Sum;
  }

  lemma OwnBlockKeepsAccount(r: Run, call: Call, base: nat)
    requires Accounted(r) && !Fits(r.a, call) && call.bytes > 1024
    ensures Accounted(Step(r, call, base))
  {
    TotalSizeSnoc(r.handed, Region(base, call.bytes));
    TotalSizeSnoc(r.a.blocks, Region(base, call.bytes));
    hide TotalSize, Sum, Fits, Needed;
  }

  lemma RetiredIsSmall(a: State, call: Call)
    requires !Fits(a, call) && call.bytes <= 1024
    ensures a.remaining <= 1030
  {
  }

  lemma NewBlockKeepsAccount(r: Run, call: Call, base: nat)
    requires Accounted(r) && !Fits(r.a, call) && call.bytes <= 1024
    ensures Accounted(Step(r, call, base))
  {
    TotalSizeSnoc(r.handed, Region(base, call.bytes));
    TotalSizeSnoc(r.a.blocks, Region(base, 4096));
    SumSnoc(r.abandoned, r.a.remaining);
    RetiredIsSmall(r.a, call);
    hide TotalSize, Sum, Fits, Needed;
    var r' := Step(r, call, base);
    assert r'.abandoned == r.abandoned + [r.a.remaining] && r'.a.remaining == 4096 - call.bytes;
  }

  lemma StepKeepsAccount(r: Run, call: Call, base: nat)
    requires Accounted(r) && (call.Plain? ==> call.bytes > 0)
    ensures Accounted(Step(r, call, base))
  {
    if Fits(r.a, call) {
      CutKeepsAccount(r, call, base);
    } else if call.bytes > 1024 {
      OwnBlockKeepsAccount(r, call, base);
    } else {
      NewBlockKeepsAccount(r, call, base);
    }
  }

  /** Over every sequence of calls and every placement of blocks: regions are disjoint and owned, usage is
      exact, and a retired block abandons at most 1030 bytes. */
  lemma {:induction false} RunKeepsInv(steps: seq<(Call, nat)>)
    requires IsRun(steps)
    ensures Inv(Outcome(steps))
    decreases |steps|
  {
    if steps != [] {
      var n := |steps| - 1;
      var r, call, base := Outcome(steps[..n]), steps[n].0, steps[n].1;
      RunKeepsInv(steps[..n]);
      StepKeepsAccount(r, call, base);
      if Fits(r.a, call) {
        CutKeepsSafe(r, call);
        assert Step(r, call, base) == Step(r, call, 0);
      } else {
        BlockKeepsSafe(r, call, base);
      }
    }
  }

  lemma {:induction false} AbandonedBound(xs: seq<nat>)
    requires forall i :: 0 <= i < |xs| ==> xs[i] <= 1030
    ensures Sum(xs) <= 1030 * |xs|
  {
    if xs != [] {
      AbandonedBound(xs[..|xs| - 1]);
    }
  }

  /** What the invariant says to a caller: no two regions share a byte, each lies inside one owned block, and
      the memory in use is what was handed out plus a bounded overhead per call and per block. */
  predicate Sound(r: Run) {
    && (forall i, j :: 0 <= i < j < |r.handed| ==> Apart(r.handed[i], r.handed[j]))
    && (forall i :: 0 <= i < |r.handed| ==> Owned(r.handed[i], r.a.blocks))
    && r.a.usage <= TotalSize(r.handed) + 7 * |r.handed| + 1030 * |r.abandoned| + r.a.remaining + 8 * |r.a.blocks|
  }

  lemma InvIsSound(r: Run)
    requires Inv(r)
    ensures Sound(r)
  {
    AbandonedBound(r.abandoned);
  }

  lemma RunIsSound(steps: seq<(Call, nat)>)
    requires IsRun(steps)
    ensures Sound(Outcome(steps))
  {
    var r := Outcome(steps);
    RunKeepsInv(steps);
    InvIsSound(r);
  }

  /** Aligned results are multiples of eight as long as new blocks are. */
  lemma AlignedResults(a: State, bytes: nat, base: nat)
    requires Fits(a, Aligned(bytes)) || base % 8 == 0
    ensures Allocated(a, Aligned(bytes), base).1 % 8 == 0
  {
  }

  // ----- how many blocks a run uses -----

  function LargeCalls(steps: seq<(Call, nat)>): nat {
    if steps == [] then 0 else
      var n := |steps| - 1;
      LargeCalls(steps[..n]) + if steps[n].0.bytes > 1024 then 1 else 0
  }

  function AskedBytes(steps: seq<(Call, nat)>): nat {
    if steps == [] then 0 else AskedBytes(steps[..|steps| - 1]) + steps[|steps| - 1].0.bytes
  }

  /** Each retired block stands for one new block of 4096 bytes, the first one for none retired. */
  ghost predicate Blocked(r: Run, large: nat, asked: nat, calls: nat) {
    && TotalSize(r.handed) == asked && |r.handed| == calls
    && 4096 * |r.abandoned| <= TotalSize(r.a.blocks)
    && |r.abandoned| <= |r.a.blocks| <= |r.abandoned| + large
    && r.a.remaining <= 4096
    && (r.abandoned == [] ==> r.a.remaining == 0)
    && Sum(r.abandoned) <= 1030 * (if r.abandoned == [] then 0 else |r.abandoned| - 1)
  }

  lemma StepKeepsBlocked(r: Run, call: Call, base: nat, large: nat, asked: nat, calls: nat)
    requires Blocked(r, large, asked, calls)
    ensures Blocked(Step(r, call, base), large + (if call.bytes > 1024 then 1 else 0), asked + call.bytes, calls + 1)
  {
    var r' := Step(r, call, base);
    TotalSizeSnoc(r.handed, r'.handed[|r.handed|]);
    if !Fits(r.a, call) {
      TotalSizeSnoc(r.a.blocks, Region(base, if call.bytes > 1024 then call.bytes else 4096));
      if call.bytes <= 1024 {
        SumSnoc(r.abandoned, r.a.remaining);
        RetiredIsSmall(r.a, call);
      }
      hide TotalSize, Sum, Fits, Needed;
    } else {
      hide TotalSize, Sum;
    }
  }

  lemma {:induction false} RunKeepsBlocked(steps: seq<(Call, nat)>)
    requires IsRun(steps)
    ensures Blocked(Outcome(steps), LargeCalls(steps), AskedBytes(steps), |steps|)
    decreases |steps|
  {
    if steps != [] {
      hide Blocked, Step;
      var n := |steps| - 1;
      RunKeepsBlocked(steps[..n]);
      StepKeepsBlocked(Outcome(steps[..n]), steps[n].0, steps[n].1, LargeCalls(steps[..n]), AskedBytes(steps[..n]), n);
    }
  }

  /** Calls of more than 1024 bytes apart, all blocks but one are filled with at least 3066 bytes of what was
      asked for and its padding. */
  lemma FewBlocks(steps: seq<(Call, nat)>)
    requires IsRun(steps)
    ensures 3066 * (|Outcome(steps).a.blocks| - LargeCalls(steps) - 1) <= AskedBytes(steps) + 7 * |steps|
  {
    RunKeepsBlocked(steps);
    RunKeepsInv(steps);
    var r := Outcome(steps);
    assert Accounted(r) && Blocked(r, LargeCalls(steps), AskedBytes(steps), |steps|);
    hide TotalSize, Sum, Safe, Outcome, LargeCalls, AskedBytes;
  }

  // ----- the arena object -----

  class Arena {
    var allocPtr: nat
    var allocBytesRemaining: nat
    var blocks: seq<nat>
    var memoryUsage: nat
    ghost var owned: seq<Region>

    ghost predicate Valid()
      reads this
    {
      |owned| == |blocks| && forall i :: 0 <= i < |owned| ==> owned[i].start == blocks[i]
    }

    ghost function Now(): State
      reads this
    {
      State(allocPtr, allocBytesRemaining, owned, memoryUsage)
    }

    constructor ()
      ensures Valid() && Now() == EMPTY.a
    {
      allocPtr, allocBytesRemaining, blocks, memoryUsage, owned := 0, 0, [], 0, [];
    }

    method AllocateNewBlock(size: nat, base: nat)
      requires Valid()
      modifies this
      ensures Valid() && Now() == NewBlock(old(Now()), size, base)
    {
      blocks := blocks + [base];
      owned := owned + [Region(base, size)];
      memoryUsage := memoryUsage + (size + 8);
    }

    method AllocateFallback(bytes: nat, base: nat) returns (result: nat)
      requires Valid()
      modifies this
      ensures Valid() && (Now(), result) == Fallback(old(Now()), bytes, base)
    {
      if bytes > 4096 / 4 {
        AllocateNewBlock(bytes, base);
        return base;
      }
      AllocateNewBlock(4096, base);
      allocPtr := base;
      allocBytesRemaining := 4096;
      result := allocPtr;
      allocPtr := allocPtr + bytes;
      allocBytesRemaining := allocBytesRemaining - bytes;
    }

    method Allocate(bytes: nat, base: nat) returns (result: nat)
      requires Valid() && bytes > 0
      modifies this
      ensures Valid() && (Now(), result) == Allocated(old(Now()), Plain(bytes), base)
    {
      if bytes <= allocBytesRemaining {
        result := allocPtr;
        allocPtr := allocPtr + bytes;
        allocBytesRemaining := allocBytesRemaining - bytes;
        return;
      }
      result := AllocateFallback(bytes, base);
    }

    method AllocateAligned(bytes: nat, base: nat) returns (result: nat)
      requires Valid()
      modifies this
      ensures Valid() && (Now(), result) == Allocated(old(Now()), Aligned(bytes), base)
      ensures base % 8 == 0 ==> result % 8 == 0
    {
      AlignedIfBase(bytes, base);
      var currentMod := allocPtr % 8;
      var slop := if currentMod == 0 then 0 else 8 - currentMod;
      var needed := bytes + slop;
      if needed <= allocBytesRemaining {
        result := allocPtr + slop;
        allocPtr := allocPtr + needed;
        allocBytesRemaining := allocBytesRemaining - needed;
      } else {
        result := AllocateFallback(bytes, base);
      }
    }

    lemma AlignedIfBase(bytes: nat, base: nat)
      requires Valid()
      ensures base % 8 == 0 ==> Allocated(Now(), Aligned(bytes), base).1 % 8 == 0
    {
      if base % 8 == 0 {
        AlignedResults(Now(), bytes, base);
      }
    }
  }
}
