/** What survives when a set of writes is merged in some order, with repeats: every way a set of
    writes can be combined is a binary tree whose leaves are those writes. */
module MergeTrees {
  import opened Bytes
  import opened VectorClocks
  import opened Crdt

  datatype Tree = Leaf(write: Register) | Node(left: Tree, right: Tree)

  function Eval(t: Tree): Register {
    match t
    case Leaf(w) => w
    case Node(l, r) => MergeRegisters(Eval(l), Eval(r))
  }

  function Leaves(t: Tree): set<Register> {
    match t
    case Leaf(w) => {w}
    case Node(l, r) => Leaves(l) + Leaves(r)
  }

  lemma EvalNode(t: Tree)
    requires t.Node?
    ensures Eval(t) == MergeRegisters(Eval(t.left), Eval(t.right))
  {
    hide MergeRegisters;
  }

  lemma EvalPair(a: Register, b: Register)
    ensures Eval(Node(Leaf(a), Leaf(b))) == MergeRegisters(a, b)
  {
    hide MergeRegisters;
    assert Eval(Leaf(a)) == a && Eval(Leaf(b)) == b;
  }

  // ----- clocks -----

  predicate Above(c: Clock, writes: set<Register>) {
    forall w :: w in writes ==> Leq(w.clock, c)
  }

  /** `c` is the least clock above every write. */
  ghost predicate IsJoin(c: Clock, writes: set<Register>) {
    forall d :: Leq(c, d) <==> Above(d, writes)
  }

  ghost function JoinOf(writes: set<Register>): (c: Clock)
    ensures IsJoin(c, writes)
  {
    if writes == {} then map[] else
      var w :| w in writes;
      var rest := JoinOf(writes - {w});
      assert IsJoin(Join(w.clock, rest), writes) by {
        forall d ensures Leq(Join(w.clock, rest), d) <==> Above(d, writes) {
          JoinIsLeastUpperBound(w.clock, rest, d);
          assert Above(d, writes) <==> Leq(w.clock, d) && Above(d, writes - {w});
        }
      }
      Join(w.clock, rest)
  }

  lemma JoinIsUnique(c: Clock, d: Clock, writes: set<Register>)
    requires IsJoin(c, writes) && IsJoin(d, writes)
    ensures Same(c, d)
  {
    assert Leq(c, c) && Leq(d, d);
  }

  /** In every merge tree the clock is the join of the clocks of its leaves. */
  lemma {:induction false} EvalClockIsJoin(t: Tree)
    ensures IsJoin(Eval(t).clock, Leaves(t))
  {
    match t
    case Leaf(w) =>
    case Node(l, r) =>
      EvalClockIsJoin(l);
      EvalClockIsJoin(r);
      forall d ensures Leq(Eval(t).clock, d) <==> Above(d, Leaves(t)) {
        MergeClock(Eval(l), Eval(r), d);
        assert Above(d, Leaves(t)) <==> Above(d, Leaves(l)) && Above(d, Leaves(r));
      }
  }

  lemma SameLeavesSameClock(t: Tree, u: Tree)
    requires Leaves(t) == Leaves(u)
    ensures Same(Eval(t).clock, Eval(u).clock)
  {
    EvalClockIsJoin(t);
    EvalClockIsJoin(u);
    JoinIsUnique(Eval(t).clock, Eval(u).clock, Leaves(t));
  }

  // ----- values -----

  ghost predicate HasValue(writes: set<Register>, v: ByteString) {
    exists w :: w in writes && w.value == v
  }

  lemma {:induction false} EvalValueIsWritten(t: Tree)
    ensures HasValue(Leaves(t), Eval(t).value)
  {
    match t
    case Leaf(w) =>
      assert w in Leaves(t);
    case Node(l, r) =>
      EvalValueIsWritten(l);
      EvalValueIsWritten(r);
      assert forall w :: w in Leaves(l) || w in Leaves(r) ==> w in Leaves(t);
  }

  ghost function TreeOf(writes: set<Register>): (t: Tree)
    requires writes != {}
    ensures Leaves(t) == writes
  {
    var w :| w in writes;
    if writes == {w} then Leaf(w) else
      assert writes - {w} != {} by {
        assert writes == (writes - {w}) + {w};
      }
      Node(Leaf(w), TreeOf(writes - {w}))
  }

  ghost predicate IsGreatestValue(g: ByteString, writes: set<Register>) {
    HasValue(writes, g) && forall w :: w in writes ==> AtMost(w.value, g)
  }

  ghost function WithValue(writes: set<Register>, g: ByteString): set<Register> {
    set w | w in writes && w.value == g
  }

  ghost function WithOtherValue(writes: set<Register>, g: ByteString): set<Register> {
    set w | w in writes && w.value != g
  }

  /** The writes of the greatest value are not all covered by the clocks of the other writes. */
  ghost predicate GreatestIsUncovered(writes: set<Register>, g: ByteString) {
    WithOtherValue(writes, g) == {}
    || !Leq(JoinOf(WithValue(writes, g)), JoinOf(WithOtherValue(writes, g)))
  }

  ghost predicate AlwaysYields(writes: set<Register>, g: ByteString) {
    forall t :: Leaves(t) == writes ==> Eval(t).value == g
  }

  /** A subtree whose clock the lesser writes do not cover holds the greatest value. */
  lemma {:induction false} UncoveredSubtree(t: Tree, writes: set<Register>, g: ByteString, cover: Clock)
    requires Leaves(t) <= writes && IsGreatestValue(g, writes)
    requires Above(cover, WithOtherValue(writes, g))
    requires !Leq(Eval(t).clock, cover)
    ensures Eval(t).value == g
  {
    match t
    case Leaf(w) =>
      assert w in writes;
    case Node(l, r) =>
      MergeClock(Eval(l), Eval(r), cover);
      forall s | s in {l, r} && !Leq(Eval(s).clock, cover) ensures Eval(s).value == g {
        UncoveredSubtree(s, writes, g, cover);
      }
      forall a: Clock, b: Clock | !Leq(a, cover) && Leq(b, cover) ensures !Leq(a, b) {
        if Leq(a, b) {
          LeqTransitive(a, b, cover);
        }
      }
      EvalValueIsWritten(l);
      EvalValueIsWritten(r);
      LessTrichotomy(Eval(l).value, Eval(r).value);
  }

  /** Merging yields the greatest value in every order exactly when the writes carrying it are not
      causally covered by the others. */
  lemma GreatestValueWinsIff(writes: set<Register>, g: ByteString)
    requires IsGreatestValue(g, writes)
    ensures AlwaysYields(writes, g) <==> GreatestIsUncovered(writes, g)
  {
    var top, others := WithValue(writes, g), WithOtherValue(writes, g);
    assert writes == top + others;
    var w :| w in writes && w.value == g;
    assert w in top;
    if GreatestIsUncovered(writes, g) {
      forall t | Leaves(t) == writes ensures Eval(t).value == g {
        if others == {} {
          EvalValueIsWritten(t);
        } else {
          EvalClockIsJoin(t);
          var cover := JoinOf(others);
          assert Leq(cover, cover);
          assert Leq(Eval(t).clock, cover) ==> Above(cover, top);
          UncoveredSubtree(t, writes, g, cover);
        }
      }
    } else {
      var u, v := TreeOf(others), TreeOf(top);
      SameJoin(u, others);
      SameJoin(v, top);
      LeqTransitive(Eval(v).clock, JoinOf(top), JoinOf(others));
      LeqTransitive(Eval(v).clock, JoinOf(others), Eval(u).clock);
      EvalValueIsWritten(u);
      assert Leaves(Node(u, v)) == writes;
      assert Eval(Node(u, v)).value == Eval(u).value;
    }
  }

  lemma SameJoin(t: Tree, writes: set<Register>)
    requires Leaves(t) == writes
    ensures Same(Eval(t).clock, JoinOf(writes))
  {
    EvalClockIsJoin(t);
    JoinIsUnique(Eval(t).clock, JoinOf(writes), writes);
  }

  // ----- a write that has seen all the others -----

  ghost predicate StrictlyAbove(w: Register, others: set<Register>) {
    Above(w.clock, others) && !Leq(w.clock, JoinOf(others))
  }

  ghost predicate AlwaysYieldsWrite(writes: set<Register>, w: Register) {
    forall t :: Leaves(t) == writes ==> Equiv(Eval(t), w)
  }

  lemma {:induction false} DominatingSubtree(t: Tree, w: Register, others: set<Register>)
    requires Leaves(t) <= others + {w} && Above(w.clock, others)
    requires !Leq(Eval(t).clock, JoinOf(others))
    ensures Equiv(Eval(t), w)
  {
    var cover := JoinOf(others);
    assert Leq(cover, cover) && Leq(cover, w.clock);
    match t
    case Leaf(x) =>
      assert x in others + {w};
    case Node(l, r) =>
      MergeClock(Eval(l), Eval(r), cover);
      forall s | s in {l, r} && !Leq(Eval(s).clock, cover) ensures Equiv(Eval(s), w) {
        DominatingSubtree(s, w, others);
      }
      forall s | s in {l, r} && Leq(Eval(s).clock, cover) ensures Leq(Eval(s).clock, w.clock) {
        LeqTransitive(Eval(s).clock, cover, w.clock);
      }
      forall s, s' | s in {l, r} && s' in {l, r} && Leq(Eval(s).clock, w.clock) && Leq(w.clock, Eval(s').clock)
        ensures Leq(Eval(s).clock, Eval(s').clock)
      {
        LeqTransitive(Eval(s).clock, w.clock, Eval(s').clock);
      }
      forall s, s' | s in {l, r} && s' in {l, r} && !Leq(Eval(s).clock, cover) && Leq(Eval(s').clock, cover)
        ensures !Leq(Eval(s).clock, Eval(s').clock)
      {
        if Leq(Eval(s).clock, Eval(s').clock) {
          LeqTransitive(Eval(s).clock, Eval(s').clock, cover);
        }
      }
      MergeClock(Eval(l), Eval(r), w.clock);
      MergeBounds(Eval(l), Eval(r));
      forall s | s in {l, r} && Leq(w.clock, Eval(s).clock) ensures Leq(w.clock, Eval(t).clock) {
        LeqTransitive(w.clock, Eval(s).clock, Eval(t).clock);
      }
  }

  /** A write that strictly dominates the join of all the others is the result of every merge order. */
  lemma DominatingWriteWins(writes: set<Register>, w: Register)
    requires w in writes && StrictlyAbove(w, writes - {w})
    ensures AlwaysYieldsWrite(writes, w)
  {
    forall t | Leaves(t) == writes ensures Equiv(Eval(t), w) {
      EvalClockIsJoin(t);
      var cover := JoinOf(writes - {w});
      assert Leq(Eval(t).clock, cover) <==> Above(cover, writes);
      DominatingSubtree(t, w, writes - {w});
    }
  }

  /** ... and when no other write carries its value, only such a write is. */
  lemma OnlyDominatingWriteWins(writes: set<Register>, w: Register)
    requires w in writes && forall x :: x in writes - {w} ==> x.value != w.value
    ensures AlwaysYieldsWrite(writes, w) <==> writes == {w} || StrictlyAbove(w, writes - {w})
  {
    var others := writes - {w};
    assert writes == others + {w};
    if writes == {w} {
      forall t | Leaves(t) == writes ensures Equiv(Eval(t), w) {
        EvalClockIsJoin(t);
        EvalValueIsWritten(t);
        assert IsJoin(w.clock, writes);
        JoinIsUnique(Eval(t).clock, w.clock, writes);
      }
    } else if StrictlyAbove(w, others) {
      DominatingWriteWins(writes, w);
    } else {
      assert others == {} ==> writes == {w};
      var u := TreeOf(others);
      SameJoin(u, others);
      EvalValueIsWritten(u);
      var t := Node(u, Leaf(w));
      assert Leaves(t) == writes;
      if Above(w.clock, others) {
        LeqTransitive(w.clock, JoinOf(others), Eval(u).clock);
        assert Eval(t).value == Eval(u).value;
      } else {
        EvalClockIsJoin(t);
        assert Leq(Eval(t).clock, w.clock) <==> Above(w.clock, writes);
      }
    }
  }

  // ----- independent writes -----

  /** No write is causally covered by the join of the others. */
  ghost predicate Independent(writes: set<Register>) {
    forall w :: w in writes ==> !Leq(w.clock, JoinOf(writes - {w}))
  }

  lemma IndependentWritesKeepGreatest(writes: set<Register>, g: ByteString)
    requires Independent(writes) && IsGreatestValue(g, writes)
    ensures AlwaysYields(writes, g)
  {
    var top, others := WithValue(writes, g), WithOtherValue(writes, g);
    if others != {} && Leq(JoinOf(top), JoinOf(others)) {
      var w :| w in writes && w.value == g;
      assert w in top;
      var rest := JoinOf(writes - {w});
      assert Leq(rest, rest) && Above(rest, others);
      assert Leq(JoinOf(others), rest);
      assert Leq(JoinOf(others), JoinOf(others)) && Above(JoinOf(others), top);
      LeqTransitive(w.clock, JoinOf(others), rest);
      assert false;
    }
    GreatestValueWinsIff(writes, g);
  }

  /** Any two ways of combining the same writes agree. */
  ghost predicate Confluent(writes: set<Register>) {
    forall t, u :: Leaves(t) == writes && Leaves(u) == writes ==> Equiv(Eval(t), Eval(u))
  }

  lemma {:induction false} GreatestValueExists(writes: set<Register>) returns (g: ByteString)
    requires writes != {}
    ensures IsGreatestValue(g, writes)
  {
    StrictTotalOrder();
    var w :| w in writes;
    if writes == {w} {
      g := w.value;
    } else {
      assert writes == (writes - {w}) + {w};
      var h := GreatestValueExists(writes - {w});
      g := if Less(h, w.value) then w.value else h;
      assert w in writes;
    }
  }

  lemma UncoveredGreatestConverges(writes: set<Register>, g: ByteString)
    requires IsGreatestValue(g, writes) && GreatestIsUncovered(writes, g)
    ensures Confluent(writes)
  {
    GreatestValueWinsIff(writes, g);
    forall t, u | Leaves(t) == writes && Leaves(u) == writes ensures Equiv(Eval(t), Eval(u)) {
      SameLeavesSameClock(t, u);
    }
  }

  lemma IndependentWritesConverge(writes: set<Register>)
    requires Independent(writes)
    ensures Confluent(writes)
  {
    forall t, u | Leaves(t) == writes && Leaves(u) == writes ensures Equiv(Eval(t), Eval(u)) {
      EvalValueIsWritten(t);
      var g := GreatestValueExists(writes);
      IndependentWritesKeepGreatest(writes, g);
      SameLeavesSameClock(t, u);
    }
  }

  lemma DominatedWritesConverge(writes: set<Register>, w: Register)
    requires w in writes && StrictlyAbove(w, writes - {w})
    ensures Confluent(writes)
  {
    DominatingWriteWins(writes, w);
    forall t, u | Leaves(t) == writes && Leaves(u) == writes ensures Equiv(Eval(t), Eval(u)) {
      LeqTransitive(Eval(t).clock, w.clock, Eval(u).clock);
      LeqTransitive(Eval(u).clock, w.clock, Eval(t).clock);
    }
  }

  /** The register a set of independent writes stands for: their join and their greatest value. */
  ghost predicate Represents(r: Register, writes: set<Register>) {
    IsJoin(r.clock, writes) && IsGreatestValue(r.value, writes)
  }

  lemma MergeOfRepresentatives(a: Register, s: set<Register>, b: Register, t: set<Register>)
    requires Represents(a, s) && Represents(b, t) && Independent(s + t)
    ensures Represents(MergeRegisters(a, b), s + t)
  {
    var m := MergeRegisters(a, b);
    forall d ensures Leq(m.clock, d) <==> Above(d, s + t) {
      MergeClock(a, b, d);
      assert Above(d, s + t) <==> Above(d, s) && Above(d, t);
    }
    LessTrichotomy(a.value, b.value);
    if Less(b.value, a.value) {
      KeepsGreatest(a, s, b, t);
    } else if Less(a.value, b.value) {
      assert s + t == t + s;
      KeepsGreatest(b, t, a, s);
    }
    GreatestOfUnion(m.value, a.value, s, b.value, t);
  }

  lemma KeepsGreatest(a: Register, s: set<Register>, b: Register, t: set<Register>)
    requires Represents(a, s) && Represents(b, t) && Independent(s + t) && Less(b.value, a.value)
    ensures !Leq(a.clock, b.clock)
  {
    var w :| w in s && w.value == a.value;
    LessTrichotomy(b.value, a.value);
    assert w !in t;
    var rest := JoinOf(s + t - {w});
    assert Leq(rest, rest) && Above(rest, t);
    assert Leq(b.clock, rest) && Leq(a.clock, a.clock) && Leq(w.clock, a.clock);
    if Leq(a.clock, b.clock) {
      LeqTransitive(w.clock, a.clock, b.clock);
      LeqTransitive(w.clock, b.clock, rest);
    }
  }

  lemma GreatestOfUnion(g: ByteString, a: ByteString, s: set<Register>, b: ByteString, t: set<Register>)
    requires IsGreatestValue(a, s) && IsGreatestValue(b, t)
    requires g == if Less(a, b) then b else a
    ensures IsGreatestValue(g, s + t)
  {
    StrictTotalOrder();
    var u, v :| u in s && u.value == a && v in t && v.value == b;
    assert u in s + t && v in s + t;
  }

  // ----- without a hypothesis merging is order-sensitive -----

  /** A superseded value can hide behind a concurrent write and come back: `stale` was overwritten on
      its own node, yet merging `elsewhere` first keeps it and merging `elsewhere` last does not. */
  lemma StaleValueReturns(node: NodeID, other: NodeID, high: ByteString, mid: ByteString, low: ByteString)
    requires node != other && Less(low, mid) && Less(mid, high)
    ensures var stale, current, elsewhere :=
        Register(high, map[node := 1]), Register(mid, map[node := 2]), Register(low, map[other := 1]);
      && Before(stale.clock, current.clock)
      && MergeRegisters(MergeRegisters(stale, elsewhere), current).value == high
      && MergeRegisters(stale, MergeRegisters(elsewhere, current)).value == mid
  {
    StrictTotalOrder();
    var one: Clock, two: Clock, far: Clock := map[node := 1], map[node := 2], map[other := 1];
    assert Get(one, node) == 1 && Get(two, node) == 2 && Get(far, node) == 0;
    assert Get(one, other) == 0 && Get(two, other) == 0 && Get(far, other) == 1;
    assert Order(one, far) == Concurrent && Order(far, two) == Concurrent;
    JoinIsLeastUpperBound(one, far, two);
    JoinIsLeastUpperBound(far, two, one);
    assert Get(Join(one, far), node) == 1;
    assert Order(Join(one, far), two) == Concurrent;
    LeqTransitive(one, two, Join(far, two));
    assert Get(Join(far, two), node) == 2;
    assert Order(one, Join(far, two)) == HappensBefore;
  }

  lemma MergeIsNotAssociative()
    ensures var a, b, c :=
        Register([122], map[[65] := 1]), Register([97], map[[66] := 1]), Register([109], map[[65] := 2]);
      !Equiv(MergeRegisters(MergeRegisters(a, b), c), MergeRegisters(a, MergeRegisters(b, c)))
  {
    var nodeA: NodeID, nodeB: NodeID := [65], [66];
    assert nodeA[0] != nodeB[0];
    StaleValueReturns(nodeA, nodeB, [122], [109], [97]);
  }
}
