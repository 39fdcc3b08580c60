/** How the blocks of a drawn process fan out around the line of their split. */
module Fans {
  import opened Basics
  import opened Graphs
  import opened Flows
  import opened Blocks
  import opened Spine
  import opened Bands
  import opened Lanes
  import opened Schemas
  import opened SpineLayout
  import opened BlockLayout

  // ---------------------------------------------------------------- heights

  /** Height of a sequence in lanes: one lane, or that of its tallest block. */
  function Height(f: Flow): real {
    match f
    case Done => 1.0
    case Step(_, next) => Height(next)
    case Block(_, _, bs, _, next) => Max(Stack(bs), Height(next))
    case Loop(_, body, _, next) => Max(Height(body), Height(next))
  }

  /** Height of branches one below the other: their heights and a gap between any two. */
  function Stack(bs: Branches): real {
    match bs
    case NoMore => 0.0
    case Branch(h, NoMore) => Height(h)
    case Branch(h, r) => Height(h) + BRANCH_GAP + Stack(r)
  }

  function BranchHeights(bs: Branches): (hs: seq<real>)
    ensures |hs| == Width(bs)
  {
    match bs
    case NoMore => []
    case Branch(h, r) => [Height(h)] + BranchHeights(r)
  }

  lemma {:induction false} SumFirst(x: real, s: seq<real>)
    ensures Sum([x] + s) == x + Sum(s)
    decreases |s|
  {
    if s == [] {
      assert ([x] + s)[..0] == [];
      assert [x] + s == [x];
    } else {
      assert ([x] + s)[..|s|] == [x] + s[..|s| - 1];
      SumFirst(x, s[..|s| - 1]);
    }
  }

  lemma TotalFirst(x: real, s: seq<real>)
    ensures Total([x] + s) == if s == [] then x else x + BRANCH_GAP + Total(s)
  {
    SumFirst(x, s);
  }

  /** The structural span is the height. */
  lemma {:induction false} SpanIsHeight(f: Flow, span: real)
    requires span >= 1.0
    ensures FlowSpan(f, span) == Max(span, Height(f)) && Height(f) >= 1.0
    decreases f
  {
    match f
    case Done =>
    case Step(_, next) => SpanIsHeight(next, span);
    case Block(_, _, bs, _, next) =>
      if bs == NoMore {
        SpanIsHeight(next, span);
      } else {
        SpansAreHeights(bs);
        SpanIsHeight(next, Max(span, Stack(bs)));
      }
    case Loop(_, body, _, next) =>
      SpanIsHeight(body, span);
      SpanIsHeight(next, FlowSpan(body, span));
  }

  lemma {:induction false} SpansAreHeights(bs: Branches)
    ensures BranchSpans(bs) == BranchHeights(bs)
    ensures bs != NoMore ==> Total(BranchSpans(bs)) == Stack(bs)
    decreases bs
  {
    match bs
    case NoMore =>
    case Branch(h, r) =>
      SpanIsHeight(h, 1.0);
      SpansAreHeights(r);
      TotalFirst(Height(h), BranchSpans(r));
  }

  /** `measure` over a block term returns its height. */
  lemma MeasureIsHeight(g: Graph, m: map<NodeId, nat>, f: Flow, c: nat, stop: Option<NodeId>)
    requires FlowReady(g, m, f, c, stop, stop)
    ensures Ready(g, m, Entry(f, stop))
    ensures Measure(g, m, Entry(f, stop), stop, 1.0) == Ok(Height(f))
  {
    MeasureFlow(g, m, f, c, stop, stop, 1.0);
    SpanIsHeight(f, 1.0);
  }

  // ---------------------------------------------------------------- lanes

  /** The nodes that stand on the middle line of `f`. */
  ghost function Chain(f: Flow): set<NodeId> {
    match f
    case Done => {}
    case Step(id, next) => {id} + Chain(next)
    case Block(s, _, _, j, next) => {s, j} + Chain(next)
    case Loop(s, body, e, next) => {s, e} + Chain(body) + Chain(next)
  }

  lemma {:induction false} ChainLane(f: Flow, center: real, n: NodeId)
    requires WellFormed(f) && n in Chain(f)
    ensures InFlow(f, n) && LaneOf(f, center, n) == center
    decreases f
  {
    match f
    case Step(id, next) => if n != id { ChainLane(next, center, n); }
    case Block(s, _, bs, j, next) => if n != s && n != j { ChainLane(next, center, n); }
    case Loop(s, body, e, next) =>
      if n in Chain(body) { ChainLane(body, center, n); }
      if n in Chain(next) { ChainLane(next, center, n); }
  }

  function BranchAt(bs: Branches, i: nat): Flow
    requires i < Width(bs)
  {
    if i == 0 then bs.head else BranchAt(bs.rest, i - 1)
  }

  lemma {:induction false} HeightAt(bs: Branches, i: nat)
    requires i < Width(bs)
    ensures BranchHeights(bs)[i] == Height(BranchAt(bs, i))
    decreases bs
  {
    if i > 0 {
      HeightAt(bs.rest, i - 1);
    }
  }

  lemma {:induction false} BranchChain(bs: Branches, hs: seq<real>, center: real, i: nat, k: nat, n: NodeId)
    requires WellFormedBranches(bs) && i + Width(bs) == |hs| && k < Width(bs) && n in Chain(BranchAt(bs, k))
    ensures InBranches(bs, n) && LaneIn(bs, hs, center, i, n) == BranchCenter(hs, center, i + k)
    decreases bs
  {
    if k == 0 {
      ChainLane(bs.head, BranchCenter(hs, center, i), n);
    } else {
      BranchChain(bs.rest, hs, center, i + 1, k - 1, n);
    }
  }

  /** Inside a block, at any nesting, the lanes are those of the block centred on its split. */
  lemma {:induction false} BlockLane(f: Flow, center: real, s: NodeId, bs: Branches, j: NodeId, n: NodeId)
    requires WellFormed(f) && HasBlock(f, s, bs, j) && InBranches(bs, n)
    ensures WellFormedBranches(bs) && InFlow(f, n) && InFlow(f, s)
    ensures LaneOf(f, center, n) == LaneIn(bs, BranchSpans(bs), LaneOf(f, center, s), 0, n)
    decreases f
  {
    match f
    case Step(_, next) => BlockLane(next, center, s, bs, j, n);
    case Block(s', _, bs', j', next) =>
      if s' == s && bs' == bs && j' == j {
      } else if BranchesHaveBlock(bs', s, bs, j) {
        BlockLaneIn(bs', BranchSpans(bs'), center, 0, s, bs, j, n);
      } else {
        BlockLane(next, center, s, bs, j, n);
      }
    case Loop(_, body, _, next) =>
      if HasBlock(body, s, bs, j) {
        BlockLane(body, center, s, bs, j, n);
      } else {
        BlockLane(next, center, s, bs, j, n);
      }
  }

  lemma {:induction false} BlockLaneIn(all: Branches, hs: seq<real>, center: real, i: nat, s: NodeId, bs: Branches,
      j: NodeId, n: NodeId)
    requires WellFormedBranches(all) && i + Width(all) == |hs| && BranchesHaveBlock(all, s, bs, j) && InBranches(bs, n)
    ensures WellFormedBranches(bs) && InBranches(all, n) && InBranches(all, s)
    ensures LaneIn(all, hs, center, i, n) == LaneIn(bs, BranchSpans(bs), LaneIn(all, hs, center, i, s), 0, n)
    decreases all
  {
    match all
    case Branch(h, r) =>
      if HasBlock(h, s, bs, j) {
        BlockLane(h, BranchCenter(hs, center, i), s, bs, j, n);
      } else {
        BlockLaneIn(r, hs, center, i + 1, s, bs, j, n);
      }
  }

  lemma {:induction false} BlockFormed(f: Flow, s: NodeId, bs: Branches, j: NodeId)
    requires WellFormed(f) && HasBlock(f, s, bs, j)
    ensures WellFormedBranches(bs)
    decreases f
  {
    match f
    case Step(_, next) => BlockFormed(next, s, bs, j);
    case Block(s', _, bs', j', next) =>
      if BranchesHaveBlock(bs', s, bs, j) {
        BlockFormedIn(bs', s, bs, j);
      } else if HasBlock(next, s, bs, j) {
        BlockFormed(next, s, bs, j);
      }
    case Loop(_, body, _, next) =>
      if HasBlock(body, s, bs, j) { BlockFormed(body, s, bs, j); } else { BlockFormed(next, s, bs, j); }
  }

  lemma {:induction false} BlockFormedIn(all: Branches, s: NodeId, bs: Branches, j: NodeId)
    requires WellFormedBranches(all) && BranchesHaveBlock(all, s, bs, j)
    ensures WellFormedBranches(bs)
    decreases all
  {
    match all
    case Branch(h, r) => if HasBlock(h, s, bs, j) { BlockFormed(h, s, bs, j); } else { BlockFormedIn(r, s, bs, j); }
  }

  /** The middle line of a branch: as the branches stand side by side around the split. */
  lemma BranchLane(f: Flow, center: real, s: NodeId, bs: Branches, j: NodeId, k: nat, n: NodeId)
    requires WellFormed(f) && HasBlock(f, s, bs, j) && k < Width(bs) && n in Chain(BranchAt(bs, k))
    ensures InFlow(f, n) && LaneOf(f, center, n) == BranchCenter(BranchHeights(bs), LaneOf(f, center, s), k)
  {
    SpansAreHeights(bs);
    BlockFormed(f, s, bs, j);
    BranchChain(bs, BranchSpans(bs), LaneOf(f, center, s), 0, k, n);
    BlockLane(f, center, s, bs, j, n);
  }

  // ---------------------------------------------------------------- the drawing

  /** The middle line of the box of `n` is that of lane `c`. */
  ghost predicate OnLane(l: Layout, pitch: real, origin: real, n: NodeId, c: real) {
    n in l.pos && l.pos[n].y + l.pos[n].h / 2.0 == origin + c * pitch
  }

  /** The block is drawn around lane `c`: split and join on it, the branches side by side around
      it on the lanes `es`, and the line of an empty branch on the lane of the last such branch. */
  ghost predicate FanAt(l: Layout, pitch: real, origin: real, s: NodeId, bs: Branches, j: NodeId, c: real,
      es: seq<real>) {
    && OnLane(l, pitch, origin, s, c) && OnLane(l, pitch, origin, j, c)
    && SideBySide(BranchHeights(bs), es, c)
    && (forall k: nat, n :: k < Width(bs) && n in Chain(BranchAt(bs, k)) ==> OnLane(l, pitch, origin, n, es[k]))
    && (HasEmpty(bs) ==> LineOnLast(l, pitch, origin, s, bs, j, es))
  }

  ghost predicate LineOnLast(l: Layout, pitch: real, origin: real, s: NodeId, bs: Branches, j: NodeId, es: seq<real>) {
    (s, j) in l.edgeLanes
    && exists k: nat :: k < |es| && LastEmptyAt(bs, 0, k) && l.edgeLanes[(s, j)] == origin + es[k] * pitch
  }

  ghost predicate Fanned(l: Layout, pitch: real, origin: real, s: NodeId, bs: Branches, j: NodeId) {
    exists c, es :: FanAt(l, pitch, origin, s, bs, j, c, es)
  }

  /** The main line on lane 0 and every block, at any nesting, fanned out around its split. */
  ghost predicate FansOut(f: Flow, l: Layout, pitch: real, origin: real) {
    && (forall n :: n in Chain(f) ==> OnLane(l, pitch, origin, n, 0.0))
    && (forall s, bs, j :: HasBlock(f, s, bs, j) && bs != NoMore ==> Fanned(l, pitch, origin, s, bs, j))
  }

  /** The drawing shows the term, its blocks fanned out. */
  ghost predicate ShowsFanned(s: Schema, f: Flow, l: Layout) {
    exists pitch, origin ::
      Shows(s, f, l, pitch, origin) && FansOut(f, l, pitch, origin) && TightPitch(s, pitch)
  }

  lemma ShownOnLane(s: Schema, f: Flow, l: Layout, pitch: real, origin: real, n: NodeId)
    requires Fits(s, f) && Shows(s, f, l, pitch, origin) && InFlow(f, n)
    ensures OnLane(l, pitch, origin, n, LaneOf(f, 0.0, n))
  {
    assert ShowsNode(f, l, pitch, origin, n);
  }

  lemma ShowsFanOut(s: Schema, f: Flow, l: Layout, pitch: real, origin: real)
    requires Fits(s, f) && Shows(s, f, l, pitch, origin)
    ensures FansOut(f, l, pitch, origin)
  {
    forall n | n in Chain(f) ensures OnLane(l, pitch, origin, n, 0.0) {
      ChainLane(f, 0.0, n);
      ShownOnLane(s, f, l, pitch, origin, n);
    }
    forall sp, bs, j | HasBlock(f, sp, bs, j) && bs != NoMore ensures Fanned(l, pitch, origin, sp, bs, j) {
      ShowsFan(s, f, l, pitch, origin, sp, bs, j);
    }
  }

  lemma ShowsFan(s: Schema, f: Flow, l: Layout, pitch: real, origin: real, sp: NodeId, bs: Branches, j: NodeId)
    requires Fits(s, f) && Shows(s, f, l, pitch, origin) && HasBlock(f, sp, bs, j) && bs != NoMore
    ensures Fanned(l, pitch, origin, sp, bs, j)
  {
    var c := LaneOf(f, 0.0, sp);
    var es := Centers(BranchHeights(bs), c);
    BlockNodes(f, sp, bs, j);
    ShownOnLane(s, f, l, pitch, origin, sp);
    ShownOnLane(s, f, l, pitch, origin, j);
    JoinOnSplitLane(f, 0.0, sp, bs, j);
    BlockFansOut(BranchHeights(bs), c);
    forall k: nat, n | k < Width(bs) && n in Chain(BranchAt(bs, k)) ensures OnLane(l, pitch, origin, n, es[k]) {
      BranchOnLane(s, f, l, pitch, origin, sp, bs, j, k, n);
    }
    if HasEmpty(bs) {
      LineShown(f, l, pitch, origin, sp, bs, j, c);
    }
    assert FanAt(l, pitch, origin, sp, bs, j, c, es);
  }

  lemma BranchOnLane(s: Schema, f: Flow, l: Layout, pitch: real, origin: real, sp: NodeId, bs: Branches, j: NodeId,
      k: nat, n: NodeId)
    requires Fits(s, f) && Shows(s, f, l, pitch, origin) && HasBlock(f, sp, bs, j)
    requires k < Width(bs) && n in Chain(BranchAt(bs, k))
    ensures OnLane(l, pitch, origin, n, BranchCenter(BranchHeights(bs), LaneOf(f, 0.0, sp), k))
  {
    BranchLane(f, 0.0, sp, bs, j, k, n);
    ShownOnLane(s, f, l, pitch, origin, n);
  }

  lemma LineShown(f: Flow, l: Layout, pitch: real, origin: real, sp: NodeId, bs: Branches, j: NodeId, c: real)
    requires ShowsLine(f, l, pitch, origin, sp, bs, j) && c == LaneOf(f, 0.0, sp)
    ensures LineOnLast(l, pitch, origin, sp, bs, j, Centers(BranchHeights(bs), c))
  {
    var e :| LineAt(f, l, pitch, origin, sp, bs, j, e);
    LineOnEmpty(l, pitch, origin, sp, bs, j, c, e);
  }

  lemma LineOnEmpty(l: Layout, pitch: real, origin: real, sp: NodeId, bs: Branches, j: NodeId, c: real, e: real)
    requires EmptyLane(bs, c, e) && (sp, j) in l.edgeLanes && l.edgeLanes[(sp, j)] == origin + e * pitch
    ensures LineOnLast(l, pitch, origin, sp, bs, j, Centers(BranchHeights(bs), c))
  {
    var k := EmptyCenter(bs, c, e);
    assert l.edgeLanes[(sp, j)] == origin + Centers(BranchHeights(bs), c)[k] * pitch;
  }

  lemma EmptyCenter(bs: Branches, c: real, e: real) returns (k: nat)
    requires EmptyLane(bs, c, e)
    ensures k < Width(bs) && LastEmptyAt(bs, 0, k) && Centers(BranchHeights(bs), c)[k] == e
  {
    SpansAreHeights(bs);
    k :| LastEmptyAt(bs, 0, k) && k < Width(bs) && e == BranchCenter(BranchSpans(bs), c, k);
  }
}
