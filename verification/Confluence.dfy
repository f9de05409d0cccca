/** Exactly which sets of writes end in one register however they are merged. */
module Confluence {
  import opened Bytes
  import opened VectorClocks
  import opened Crdt
  import opened MergeTrees

  /** Merging one more write at a time into what is there, as a scan does. */
  predicate Comb(t: Tree) {
    t.Leaf? || (t.right.Leaf? && Comb(t.left) && t.right.write !in Leaves(t.left))
  }

  /** The writes in `top` each strictly dominate all the others together, and among themselves their greatest
      value `g` is not covered. */
  ghost predicate Decides(top: set<Register>, g: ByteString, writes: set<Register>) {
    && top != {} && top <= writes
    && (top == writes || forall w :: w in top ==> StrictlyAbove(w, writes - top))
    && IsGreatestValue(g, top) && GreatestIsUncovered(top, g)
  }

  /** Any two orders of merging one write at a time agree. */
  ghost predicate OrderConfluent(writes: set<Register>) {
    forall t, u :: Comb(t) && Comb(u) && Leaves(t) == writes && Leaves(u) == writes ==> Equiv(Eval(t), Eval(u))
  }

  ghost predicate OrderYields(writes: set<Register>, g: ByteString) {
    forall t :: Comb(t) && Leaves(t) == writes ==> Eval(t).value == g
  }

  // ----- dominated writes can be left out -----

  /** Strictly above `cover` wins against at most `cover`, on either side of the merge. */
  lemma HighBeatsLow(a: Register, b: Register, cover: Clock)
    requires Leq(b.clock, cover) && Leq(cover, a.clock) && !Leq(a.clock, cover)
    ensures Equiv(MergeRegisters(a, b), a) && MergeRegisters(b, a) == a
  {
    LeqTransitive(b.clock, cover, a.clock);
    if Leq(a.clock, b.clock) {
      LeqTransitive(a.clock, b.clock, cover);
    }
    MergeBounds(a, b);
    MergeClock(a, b, a.clock);
  }

  lemma LowTree(t: Tree, rest: set<Register>)
    requires Leaves(t) <= rest
    ensures Leq(Eval(t).clock, JoinOf(rest))
  {
    EvalClockIsJoin(t);
    var cover := JoinOf(rest);
    assert Leq(cover, cover);
    assert Above(cover, Leaves(t));
  }

  lemma HighTree(t: Tree, w: Register, rest: set<Register>)
    requires w in Leaves(t) && StrictlyAbove(w, rest)
    ensures Leq(JoinOf(rest), Eval(t).clock) && !Leq(Eval(t).clock, JoinOf(rest))
  {
    EvalClockIsJoin(t);
    var cover, c := JoinOf(rest), Eval(t).clock;
    assert Leq(c, c) && Leq(w.clock, c);
    assert Leq(cover, w.clock);
    LeqTransitive(cover, w.clock, c);
    if Leq(c, cover) {
      LeqTransitive(w.clock, c, cover);
    }
  }

  /** A tree evaluates to what is left of it when only the leaves in `top` are kept. */
  lemma {:induction false} Pruned(t: Tree, top: set<Register>, rest: set<Register>) returns (p: Tree)
    requires forall w :: w in top ==> StrictlyAbove(w, rest)
    requires Leaves(t) <= top + rest && Leaves(t) * top != {}
    ensures Leaves(p) == Leaves(t) * top && Equiv(Eval(p), Eval(t))
  {
    match t
    case Leaf(w) =>
      p := t;
    case Node(l, r) =>
      if Leaves(l) * top == {} {
        p := Pruned(r, top, rest);
        PrunedSide(r, l, p, top, rest);
        assert Leaves(p) == Leaves(t) * top;
      } else if Leaves(r) * top == {} {
        p := Pruned(l, top, rest);
        PrunedSide(l, r, p, top, rest);
        assert Leaves(p) == Leaves(t) * top;
      } else {
        var a := Pruned(l, top, rest);
        var b := Pruned(r, top, rest);
        p := Node(a, b);
        MergeRespectsEquiv(Eval(a), Eval(l), Eval(b), Eval(r));
        assert Leaves(p) == Leaves(t) * top;
      }
  }

  /** The side with leaves in `top` decides against the side without. */
  lemma PrunedSide(high: Tree, low: Tree, p: Tree, top: set<Register>, rest: set<Register>)
    requires forall w :: w in top ==> StrictlyAbove(w, rest)
    requires Leaves(high) * top != {} && Leaves(low) <= top + rest && Leaves(low) * top == {}
    requires Equiv(Eval(p), Eval(high))
    ensures Equiv(Eval(p), Eval(Node(high, low))) && Equiv(Eval(p), Eval(Node(low, high)))
  {
    var w :| w in Leaves(high) * top;
    forall x | x in Leaves(low) ensures x in rest {
      assert x !in Leaves(low) * top;
    }
    HighTree(high, w, rest);
    LowTree(low, rest);
    HighBeatsLow(Eval(high), Eval(low), JoinOf(rest));
    var m := MergeRegisters(Eval(high), Eval(low));
    LeqTransitive(Eval(p).clock, Eval(high).clock, m.clock);
    LeqTransitive(m.clock, Eval(high).clock, Eval(p).clock);
  }

  /** The deciding value comes out of every tree. */
  lemma DecidedValue(t: Tree, top: set<Register>, g: ByteString, writes: set<Register>)
    requires Decides(top, g, writes) && Leaves(t) == writes
    ensures Eval(t).value == g
  {
    GreatestValueWinsIff(top, g);
    if top != writes {
      assert Leaves(t) * top == top;
      var p := Pruned(t, top, writes - top);
    }
  }

  // ----- no other set is confluent -----

  /** From a write of the greatest value on, every write that does not dominate what is there keeps it. */
  lemma {:induction false} Grow(t: Tree, writes: set<Register>, g: ByteString) returns (u: Tree)
    requires IsGreatestValue(g, writes)
    requires Comb(t) && Leaves(t) <= writes && Eval(t).value == g
    ensures Comb(u) && Leaves(u) <= writes && Leaves(u) != {} && Eval(u).value == g
    ensures forall w :: w in writes - Leaves(u) ==> StrictlyAbove(w, Leaves(u))
    decreases writes - Leaves(t)
  {
    EvalValueIsWritten(t);
    if w :| w in writes - Leaves(t) && !StrictlyAbove(w, Leaves(t)) {
      KeepsGreatestValue(t, w, g);
      assert w in writes - Leaves(t) && w !in writes - Leaves(Node(t, Leaf(w)));
      u := Grow(Node(t, Leaf(w)), writes, g);
    } else {
      u := t;
    }
  }

  lemma KeepsGreatestValue(t: Tree, w: Register, g: ByteString)
    requires Eval(t).value == g && AtMost(w.value, g) && !StrictlyAbove(w, Leaves(t))
    ensures Eval(Node(t, Leaf(w))).value == g
  {
    var c, join := Eval(t).clock, JoinOf(Leaves(t));
    SameJoin(t, Leaves(t));
    if Leq(c, w.clock) && !Leq(w.clock, c) {
      EvalClockIsJoin(t);
      assert Above(w.clock, Leaves(t));
      if Leq(w.clock, join) {
        LeqTransitive(w.clock, join, c);
      }
    }
  }

  lemma AbsorbOne(t: Tree, w: Register)
    requires Leq(w.clock, Eval(t).clock)
    ensures var u := Node(t, Leaf(w)); Eval(u).value == Eval(t).value && Leq(Eval(t).clock, Eval(u).clock)
  {
    MergeBounds(Eval(t), w);
  }

  /** The writes a tree absorbs without a change of value: those its clock already covers. */
  lemma {:induction false} Absorb(t: Tree, more: set<Register>) returns (u: Tree)
    requires Comb(t) && Above(Eval(t).clock, more) && Leaves(t) !! more
    ensures Comb(u) && Leaves(u) == Leaves(t) + more && Eval(u).value == Eval(t).value
    decreases more
  {
    if more == {} {
      u := t;
    } else {
      var w :| w in more;
      var next := Node(t, Leaf(w));
      AbsorbOne(t, w);
      forall x | x in more - {w} ensures Leq(x.clock, Eval(next).clock) {
        LeqTransitive(x.clock, Eval(t).clock, Eval(next).clock);
      }
      u := Absorb(next, more - {w});
      assert Leaves(u) == Leaves(t) + more;
    }
  }

  lemma {:induction false} CombOf(writes: set<Register>) returns (t: Tree)
    requires writes != {}
    ensures Comb(t) && Leaves(t) == writes
  {
    var w :| w in writes;
    if writes == {w} {
      t := Leaf(w);
    } else {
      assert writes == (writes - {w}) + {w};
      t := CombOf(writes - {w});
      t := Node(t, Leaf(w));
    }
  }

  /** When the greatest value is covered, merging the other writes first loses it. */
  lemma CoveredLoses(writes: set<Register>, g: ByteString) returns (t: Tree)
    requires IsGreatestValue(g, writes) && !GreatestIsUncovered(writes, g)
    ensures Comb(t) && Leaves(t) == writes && Eval(t).value != g
  {
    var top, others := WithValue(writes, g), WithOtherValue(writes, g);
    var u := CombOf(others);
    SameJoin(u, others);
    EvalValueIsWritten(u);
    var cover := JoinOf(top);
    LeqTransitive(cover, JoinOf(others), Eval(u).clock);
    assert Above(Eval(u).clock, top);
    t := Absorb(u, top);
    assert writes == top + others;
  }

  /** `t` with all the merging of `s` done before its first leaf. */
  function MergeFirst(s: Tree, t: Tree): Tree {
    match t
    case Leaf(_) => Node(s, t)
    case Node(l, r) => Node(MergeFirst(s, l), r)
  }

  lemma LostTo(s: Tree, w: Register)
    requires StrictlyAbove(w, Leaves(s))
    ensures Equiv(Eval(Node(s, Leaf(w))), w)
  {
    var cover := JoinOf(Leaves(s));
    LowTree(s, Leaves(s));
    assert Leq(cover, w.clock);
    HighBeatsLow(w, Eval(s), cover);
  }

  lemma {:induction false} MergedFirstIsLost(s: Tree, t: Tree)
    requires Comb(s) && Comb(t) && Leaves(s) !! Leaves(t)
    requires forall w :: w in Leaves(t) ==> StrictlyAbove(w, Leaves(s))
    ensures Comb(MergeFirst(s, t)) && Leaves(MergeFirst(s, t)) == Leaves(s) + Leaves(t)
    ensures Equiv(Eval(MergeFirst(s, t)), Eval(t))
  {
    match t
    case Leaf(w) =>
      assert StrictlyAbove(w, Leaves(s));
      LostTo(s, w);
    case Node(l, r) =>
      hide StrictlyAbove;
      MergedFirstIsLost(s, l);
      assert Equiv(Eval(r), Eval(r));
      MergeRespectsEquiv(Eval(MergeFirst(s, l)), Eval(l), Eval(r), Eval(r));
  }

  lemma RestIsConfluent(writes: set<Register>, s: Tree)
    requires OrderConfluent(writes) && Comb(s) && Leaves(s) <= writes
    requires forall w :: w in writes - Leaves(s) ==> StrictlyAbove(w, Leaves(s))
    ensures OrderConfluent(writes - Leaves(s))
  {
    var rest := writes - Leaves(s);
    forall t, u | Comb(t) && Comb(u) && Leaves(t) == rest && Leaves(u) == rest ensures Equiv(Eval(t), Eval(u)) {
      MergedFirstIsLost(s, t);
      MergedFirstIsLost(s, u);
      assert Leaves(s) + rest == writes;
      EquivThrough(Eval(t), Eval(MergeFirst(s, t)), Eval(MergeFirst(s, u)), Eval(u));
    }
  }

  lemma EquivThrough(a: Register, b: Register, c: Register, d: Register)
    requires Equiv(b, a) && Equiv(b, c) && Equiv(c, d)
    ensures Equiv(a, d)
  {
    LeqTransitive(a.clock, b.clock, c.clock);
    LeqTransitive(a.clock, c.clock, d.clock);
    LeqTransitive(d.clock, c.clock, b.clock);
    LeqTransitive(d.clock, b.clock, a.clock);
  }

  /** Writes above a layer that is itself above the lowest writes are above both. */
  lemma AboveBothLayers(w: Register, low: set<Register>, mid: set<Register>)
    requires StrictlyAbove(w, low) && (mid == {} || StrictlyAbove(w, mid))
    requires forall x :: x in mid ==> StrictlyAbove(x, low)
    ensures StrictlyAbove(w, low + mid)
  {
    if mid == {} {
      assert low + mid == low;
    } else {
      var x :| x in mid;
      var cover := JoinOf(mid);
      assert Leq(cover, cover) && Leq(x.clock, cover);
      forall y | y in low ensures Leq(y.clock, cover) {
        LeqTransitive(y.clock, x.clock, cover);
      }
      assert Above(cover, low + mid);
      assert Leq(JoinOf(low + mid), cover);
      if Leq(w.clock, JoinOf(low + mid)) {
        LeqTransitive(w.clock, JoinOf(low + mid), cover);
      }
    }
  }

  /** A confluent set has a deciding layer: the greatest value is kept until only dominating writes are left,
      and those are confluent again. */
  lemma {:induction false} ConfluentIsDecided(writes: set<Register>) returns (top: set<Register>, g: ByteString)
    requires OrderConfluent(writes) && writes != {}
    ensures Decides(top, g, writes)
    decreases writes
  {
    g := GreatestValueExists(writes);
    var first :| first in writes && first.value == g;
    var s := Grow(Leaf(first), writes, g);
    var rest := writes - Leaves(s);
    if rest == {} {
      assert Leaves(s) == writes;
      top := writes;
      if !GreatestIsUncovered(writes, g) {
        var t := CoveredLoses(writes, g);
      }
    } else {
      RestIsConfluent(writes, s);
      var x :| x in Leaves(s);
      assert x in writes && x !in rest;
      top, g := ConfluentIsDecided(rest);
      LayersCombine(writes, Leaves(s), top, g);
    }
  }

  lemma LayersCombine(writes: set<Register>, low: set<Register>, top: set<Register>, g: ByteString)
    requires low <= writes && low != {} && Decides(top, g, writes - low)
    requires forall w :: w in writes - low ==> StrictlyAbove(w, low)
    ensures Decides(top, g, writes)
  {
    var mid := writes - low - top;
    assert writes - top == low + mid;
    forall w | w in top ensures StrictlyAbove(w, writes - top) {
      assert w in writes - low;
      assert top != writes - low ==> mid != {} && StrictlyAbove(w, mid);
      assert top == writes - low ==> mid == {};
      AboveBothLayers(w, low, mid);
    }
  }

  // ----- the exact conditions -----

  lemma DecidedIsConfluent(writes: set<Register>, top: set<Register>, g: ByteString)
    requires Decides(top, g, writes)
    ensures Confluent(writes) && AlwaysYields(writes, g)
  {
    forall t | Leaves(t) == writes ensures Eval(t).value == g {
      DecidedValue(t, top, g, writes);
    }
    forall t, u | Leaves(t) == writes && Leaves(u) == writes ensures Equiv(Eval(t), Eval(u)) {
      SameLeavesSameClock(t, u);
    }
  }

  /** A set of writes converges under every way of merging it exactly when it has a deciding layer; merging
      one write at a time is no easier. */
  lemma ConfluentIff(writes: set<Register>)
    requires writes != {}
    ensures Confluent(writes) <==> exists top, g :: Decides(top, g, writes)
    ensures OrderConfluent(writes) <==> Confluent(writes)
  {
    if OrderConfluent(writes) {
      var top, g := ConfluentIsDecided(writes);
      DecidedIsConfluent(writes, top, g);
    }
    if top, g :| Decides(top, g, writes) {
      DecidedIsConfluent(writes, top, g);
    }
  }

  /** ... and it converges to the value `g` exactly when `g` is the value of a deciding layer. */
  lemma YieldsIff(writes: set<Register>, g: ByteString)
    requires writes != {}
    ensures AlwaysYields(writes, g) <==> exists top :: Decides(top, g, writes)
    ensures OrderYields(writes, g) <==> AlwaysYields(writes, g)
  {
    if OrderYields(writes, g) {
      forall t, u | Comb(t) && Comb(u) && Leaves(t) == writes && Leaves(u) == writes ensures Equiv(Eval(t), Eval(u)) {
        SameLeavesSameClock(t, u);
      }
      var top, h := ConfluentIsDecided(writes);
      var t := CombOf(writes);
      DecidedValue(t, top, h, writes);
      DecidedIsConfluent(writes, top, h);
    }
    if top :| Decides(top, g, writes) {
      DecidedIsConfluent(writes, top, g);
    }
  }

  /** One given write is the result of every merge order exactly when its clock covers all the others and its
      value is the value of a deciding layer. */
  lemma YieldsWriteIff(writes: set<Register>, w: Register)
    requires w in writes
    ensures AlwaysYieldsWrite(writes, w) <==> Above(w.clock, writes) && exists top :: Decides(top, w.value, writes)
  {
    YieldsIff(writes, w.value);
    var t0 := CombOf(writes);
    EvalClockIsJoin(t0);
    if AlwaysYieldsWrite(writes, w) {
      assert Equiv(Eval(t0), w);
      assert Above(w.clock, writes);
      assert AlwaysYields(writes, w.value);
    }
    if Above(w.clock, writes) && AlwaysYields(writes, w.value) {
      forall t | Leaves(t) == writes ensures Equiv(Eval(t), w) {
        EvalClockIsJoin(t);
        assert Leq(Eval(t).clock, Eval(t).clock);
      }
    }
  }

  // ----- writes ordered by their clocks: ties decide -----

  predicate ClockOrdered(writes: set<Register>) {
    forall a, b :: a in writes && b in writes ==> Leq(a.clock, b.clock) || Leq(b.clock, a.clock)
  }

  /** The newest of a set of registers that is ordered by clocks. */
  predicate IsNewest(newest: Register, writes: set<Register>) {
    newest in writes && Above(newest.clock, writes) && ClockOrdered(writes)
  }

  /** The registers under the same clock as the newest one. */
  function Tied(writes: set<Register>, newest: Register): set<Register> {
    set w | w in writes && Same(w.clock, newest.clock)
  }

  lemma MergeOfOrdered(a: Register, b: Register)
    requires Leq(a.clock, b.clock) || Leq(b.clock, a.clock)
    ensures Equiv(MergeRegisters(a, b), a) || Equiv(MergeRegisters(a, b), b)
  {
    MergeBounds(a, b);
    MergeClock(a, b, a.clock);
    MergeClock(a, b, b.clock);
  }

  lemma EquivOrdered(a: Register, x: Register, b: Register, y: Register)
    requires Equiv(a, x) && Equiv(b, y) && Leq(x.clock, y.clock)
    ensures Leq(a.clock, b.clock)
  {
    LeqTransitive(a.clock, x.clock, y.clock);
    LeqTransitive(a.clock, y.clock, b.clock);
  }

  /** Merging clock-ordered registers only ever picks one of them. */
  lemma {:induction false} OrderedTreePicks(t: Tree) returns (w: Register)
    requires ClockOrdered(Leaves(t))
    ensures w in Leaves(t) && Equiv(Eval(t), w)
  {
    match t
    case Leaf(x) =>
      w := x;
    case Node(l, r) =>
      var x := OrderedTreePicks(l);
      var y := OrderedTreePicks(r);
      assert x in Leaves(t) && y in Leaves(t);
      if Leq(x.clock, y.clock) {
        EquivOrdered(Eval(l), x, Eval(r), y);
      } else {
        EquivOrdered(Eval(r), y, Eval(l), x);
      }
      MergeOfOrdered(Eval(l), Eval(r));
      w := if Equiv(Eval(t), Eval(l)) then x else y;
      EquivBoth(Eval(t), if Equiv(Eval(t), Eval(l)) then Eval(l) else Eval(r), w);
  }

  lemma EquivBoth(a: Register, b: Register, c: Register)
    requires Equiv(a, b) && Equiv(b, c)
    ensures Equiv(a, c)
  {
    LeqTransitive(a.clock, b.clock, c.clock);
    LeqTransitive(c.clock, b.clock, a.clock);
  }

  /** ... and with the newest one among the leaves, one tied with it. */
  lemma TreeIsTied(t: Tree, writes: set<Register>, newest: Register) returns (w: Register)
    requires IsNewest(newest, writes) && Leaves(t) <= writes && newest in Leaves(t)
    ensures w in Tied(writes, newest) && w in Leaves(t) && Equiv(Eval(t), w)
  {
    w := OrderedTreePicks(t);
    EvalClockIsJoin(t);
    var c := Eval(t).clock;
    assert Leq(c, c) && Leq(newest.clock, c);
    LeqTransitive(newest.clock, c, w.clock);
  }

  /** Every tied register is what some order of merging all of them comes to. */
  lemma TiedIsReached(writes: set<Register>, newest: Register, w: Register) returns (t: Tree)
    requires newest in writes && Above(newest.clock, writes) && w in Tied(writes, newest)
    ensures Comb(t) && Leaves(t) == writes && Equiv(Eval(t), w)
  {
    forall x | x in writes ensures Leq(x.clock, w.clock) {
      LeqTransitive(x.clock, newest.clock, w.clock);
    }
    t := Absorb(Leaf(w), writes - {w});
    assert Leaves(t) == writes;
    EvalClockIsJoin(t);
    assert Leq(Eval(t).clock, Eval(t).clock);
  }

  /** Every order of merging them yields the newest value exactly when no other value stands under its clock. */
  lemma OrderedYieldsIff(writes: set<Register>, newest: Register)
    requires IsNewest(newest, writes)
    ensures OrderYields(writes, newest.value) <==> forall w :: w in Tied(writes, newest) ==> w.value == newest.value
  {
    if OrderYields(writes, newest.value) {
      forall w | w in Tied(writes, newest) ensures w.value == newest.value {
        var t := TiedIsReached(writes, newest, w);
      }
    }
    if forall w :: w in Tied(writes, newest) ==> w.value == newest.value {
      forall t | Comb(t) && Leaves(t) == writes ensures Eval(t).value == newest.value {
        var w := TreeIsTied(t, writes, newest);
      }
    }
  }
}
