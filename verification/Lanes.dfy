/** Lanes of a drawn process: bands, neighbours in a column, and lanes of empty branches. */
module Lanes {
  import opened Basics
  import opened Graphs
  import opened Flows
  import opened Blocks
  import opened Spine
  import opened Bands

  /** Lane of node `n` when `f` is centred on `center`. */
  function LaneOf(f: Flow, center: real, n: NodeId): real
    decreases f
  {
    match f
    case Done => center
    case Step(id, next) => if n == id then center else LaneOf(next, center, n)
    case Block(s, _, bs, j, next) =>
      if n == s || n == j then center
      else if InBranches(bs, n) then LaneIn(bs, BranchSpans(bs), center, 0, n)
      else LaneOf(next, center, n)
    case Loop(s, body, e, next) =>
      if n == s || n == e then center
      else if InFlow(body, n) then LaneOf(body, center, n)
      else LaneOf(next, center, n)
  }

  function LaneIn(bs: Branches, hs: seq<real>, center: real, i: nat, n: NodeId): real
    requires i + Width(bs) == |hs|
    decreases bs
  {
    match bs
    case NoMore => center
    case Branch(h, r) =>
      if InFlow(h, n) then LaneOf(h, BranchCenter(hs, center, i), n)
      else LaneIn(r, hs, center, i + 1, n)
  }

  /** Executable membership in the nodes of a term. */
  predicate InFlow(f: Flow, n: NodeId)
    ensures InFlow(f, n) <==> n in Nodes(f)
  {
    match f
    case Done => false
    case Step(id, next) => n == id || InFlow(next, n)
    case Block(s, _, bs, j, next) => n == s || n == j || InBranches(bs, n) || InFlow(next, n)
    case Loop(s, body, e, next) => n == s || n == e || InFlow(body, n) || InFlow(next, n)
  }

  predicate InBranches(bs: Branches, n: NodeId)
    ensures InBranches(bs, n) <==> n in BranchNodes(bs)
  {
    match bs
    case NoMore => false
    case Branch(h, r) => InFlow(h, n) || InBranches(r, n)
  }

  /** `place` leaves every node of `f` on its structural lane and all others alone. */
  lemma {:induction false} PlacedLane(f: Flow, center: real, p: Placement, n: NodeId)
    requires WellFormed(f)
    ensures
      var q := Placed(f, center, p);
      if InFlow(f, n) then n in q.lane && q.lane[n] == LaneOf(f, center, n)
      else (n in q.lane <==> n in p.lane) && (n in p.lane ==> q.lane[n] == p.lane[n])
    decreases f
  {
    match f
    case Done =>
    case Step(id, next) => PlacedLane(next, center, p.Put(id, center), n);
    case Block(s, _, bs, j, next) =>
      var q := PlacedBranches(bs, s, j, BranchSpans(bs), center, 0, p.Put(s, center));
      PlacedBranchLane(bs, s, j, BranchSpans(bs), center, 0, p.Put(s, center), n);
      PlacedLane(next, center, q.Put(j, center), n);
    case Loop(s, body, e, next) =>
      PlacedLane(body, center, p.Put(s, center), n);
      PlacedLane(next, center, Placed(body, center, p.Put(s, center)).Put(e, center), n);
  }

  lemma {:induction false} PlacedBranchLane(bs: Branches, s: NodeId, j: NodeId, hs: seq<real>, center: real, i: nat,
      p: Placement, n: NodeId)
    requires WellFormedBranches(bs) && i + Width(bs) == |hs|
    ensures
      var q := PlacedBranches(bs, s, j, hs, center, i, p);
      if InBranches(bs, n) then n in q.lane && q.lane[n] == LaneIn(bs, hs, center, i, n)
      else (n in q.lane <==> n in p.lane) && (n in p.lane ==> q.lane[n] == p.lane[n])
    decreases bs
  {
    match bs
    case NoMore =>
    case Branch(h, r) =>
      var at := BranchCenter(hs, center, i);
      var p' := if h == Done then p.Reserve(s, j, at) else p;
      PlacedLane(h, at, p', n);
      PlacedBranchLane(r, s, j, hs, center, i + 1, Placed(h, at, p'), n);
  }

  lemma {:induction false} SpanAtLeast(f: Flow, a: real, b: real)
    requires a <= b
    ensures FlowSpan(f, a) <= FlowSpan(f, b)
    decreases f
  {
    SpanAccumulates(f, a, b);
  }

  // ---------------------------------------------------------------- bands

  /** Every lane of `f` lies within half its height, less half a lane, of the centre. */
  lemma {:induction false} BandInvariant(f: Flow, center: real, n: NodeId)
    requires InFlow(f, n)
    ensures Within(LaneOf(f, center, n), center, FlowSpan(f, 1.0))
    decreases f
  {
    match f
    case Done =>
    case Step(id, next) =>
      if n != id { BandInvariant(next, center, n); }
    case Block(s, _, bs, j, next) =>
      if bs != NoMore {
        var t := Max(1.0, Total(BranchSpans(bs)));
        SpanAtLeast(next, 1.0, t);
        if InBranches(bs, n) {
          BranchBand(bs, BranchSpans(bs), center, 0, n);
        }
      }
      if InFlow(next, n) { BandInvariant(next, center, n); }
    case Loop(s, body, e, next) =>
      SpanAtLeast(next, 1.0, FlowSpan(body, 1.0));
      if InFlow(body, n) { BandInvariant(body, center, n); }
      if InFlow(next, n) { BandInvariant(next, center, n); }
  }

  /** The heights `hs` from index `i` on are those of `bs`. */
  ghost predicate HeightsFrom(hs: seq<real>, i: nat, bs: Branches) {
    i + Width(bs) == |hs| && AllTall(hs) && hs[i..] == BranchSpans(bs)
  }

  lemma NextHeight(hs: seq<real>, i: nat, bs: Branches)
    requires HeightsFrom(hs, i, bs) && bs.Branch?
    ensures i < |hs| && hs[i] == FlowSpan(bs.head, 1.0)
    ensures HeightsFrom(hs, i + 1, bs.rest)
  {
    assert hs[i] == hs[i..][0];
    assert hs[i + 1..] == hs[i..][1..];
  }

  /** Index of the branch that holds `n`. */
  ghost function BranchOf(bs: Branches, i: nat, n: NodeId): (k: nat)
    requires InBranches(bs, n)
    ensures i <= k < i + Width(bs)
    decreases bs
  {
    match bs
    case Branch(h, r) => if InFlow(h, n) then i else BranchOf(r, i + 1, n)
  }

  /** A node of branch `k` lies in the band of branch `k`. */
  lemma {:induction false} BranchBandAt(bs: Branches, hs: seq<real>, center: real, i: nat, n: NodeId)
    requires HeightsFrom(hs, i, bs) && InBranches(bs, n)
    ensures
      var k := BranchOf(bs, i, n);
      Within(LaneIn(bs, hs, center, i, n), BranchCenter(hs, center, k), hs[k])
    decreases bs, 1
  {
    NextHeight(hs, i, bs);
    match bs
    case Branch(h, r) =>
      if InFlow(h, n) {
        BandInvariant(h, BranchCenter(hs, center, i), n);
      } else {
        BranchBandAt(r, hs, center, i + 1, n);
      }
  }

  lemma {:induction false} BranchBand(bs: Branches, hs: seq<real>, center: real, i: nat, n: NodeId)
    requires HeightsFrom(hs, i, bs) && InBranches(bs, n)
    ensures Within(LaneIn(bs, hs, center, i, n), center, Total(hs))
    decreases bs, 2
  {
    BranchBandAt(bs, hs, center, i, n);
    CenterInBand(hs, center, BranchOf(bs, i, n));
  }

  // ---------------------------------------------------------------- neighbours in a column

  /** At least one lane and the branch gap lie between the two lanes. */
  ghost predicate Apart(a: real, b: real) {
    a - b >= 1.0 + BRANCH_GAP || b - a >= 1.0 + BRANCH_GAP
  }

  /** Lanes in the bands of two different branches. */
  lemma BandsApart(hs: seq<real>, center: real, i: nat, k: nat, a: real, b: real)
    requires AllTall(hs) && i < |hs| && k < |hs| && i != k
    requires Within(a, BranchCenter(hs, center, i), hs[i]) && Within(b, BranchCenter(hs, center, k), hs[k])
    ensures Apart(a, b)
  {
    CentersApart(hs, center, if i < k then i else k, if i < k then k else i);
  }

  /** The columns tell the parts of a block from each other. */
  lemma BlockColumns(m: map<NodeId, nat>, f: Flow, c: nat, n: NodeId)
    requires InColumns(m, f, c) && f.Block? && InFlow(f, n)
    ensures
      var jc := JoinCol(f.branches, c + 1);
      n in m &&
      (if n == f.split then m[n] == c
       else if n == f.join then m[n] == jc
       else if InBranches(f.branches, n) then c < m[n] < jc
       else InFlow(f.next, n) && m[n] > jc)
  {
    if InBranches(f.branches, n) { BranchColumnRange(m, f.branches, c + 1, n); }
    if InFlow(f.next, n) { ColumnRange(m, f.next, JoinCol(f.branches, c + 1) + 1, n); }
  }

  /** The columns tell the parts of a loop from each other. */
  lemma LoopColumns(m: map<NodeId, nat>, f: Flow, c: nat, n: NodeId)
    requires InColumns(m, f, c) && f.Loop? && InFlow(f, n)
    ensures
      var ec := EndCol(f.body, c + 1);
      n in m &&
      (if n == f.start then m[n] == c
       else if n == f.end then m[n] == ec
       else if InFlow(f.body, n) then c < m[n] < ec
       else InFlow(f.next, n) && m[n] > ec)
  {
    if InFlow(f.body, n) { ColumnRange(m, f.body, c + 1, n); }
    if InFlow(f.next, n) { ColumnRange(m, f.next, EndCol(f.body, c + 1) + 1, n); }
  }

  /** Two nodes of the same column of a drawn process are at least a lane and a gap apart. */
  lemma {:induction false} ColumnNeighbours(m: map<NodeId, nat>, f: Flow, c: nat, center: real, a: NodeId, b: NodeId)
    requires InColumns(m, f, c) && WellFormed(f)
    requires InFlow(f, a) && InFlow(f, b) && a != b && a in m && b in m && m[a] == m[b]
    ensures Apart(LaneOf(f, center, a), LaneOf(f, center, b))
    decreases f, 1
  {
    match f
    case Done =>
    case Step(id, next) =>
      if InFlow(next, a) { ColumnRange(m, next, c + 1, a); }
      if InFlow(next, b) { ColumnRange(m, next, c + 1, b); }
      ColumnNeighbours(m, next, c + 1, center, a, b);
    case Block(_, _, _, _, _) => BlockNeighbours(m, f, c, center, a, b);
    case Loop(_, _, _, _) => LoopNeighbours(m, f, c, center, a, b);
  }

  lemma {:induction false} BlockNeighbours(m: map<NodeId, nat>, f: Flow, c: nat, center: real, a: NodeId, b: NodeId)
    requires InColumns(m, f, c) && WellFormed(f) && f.Block?
    requires InFlow(f, a) && InFlow(f, b) && a != b && a in m && b in m && m[a] == m[b]
    ensures Apart(LaneOf(f, center, a), LaneOf(f, center, b))
    decreases f, 0
  {
    BlockColumns(m, f, c, a);
    BlockColumns(m, f, c, b);
    if InBranches(f.branches, a) {
      BranchNeighbours(m, f.branches, c + 1, BranchSpans(f.branches), center, 0, a, b);
    } else {
      ColumnNeighbours(m, f.next, JoinCol(f.branches, c + 1) + 1, center, a, b);
    }
  }

  lemma {:induction false} LoopNeighbours(m: map<NodeId, nat>, f: Flow, c: nat, center: real, a: NodeId, b: NodeId)
    requires InColumns(m, f, c) && WellFormed(f) && f.Loop?
    requires InFlow(f, a) && InFlow(f, b) && a != b && a in m && b in m && m[a] == m[b]
    ensures Apart(LaneOf(f, center, a), LaneOf(f, center, b))
    decreases f, 0
  {
    LoopColumns(m, f, c, a);
    LoopColumns(m, f, c, b);
    if InFlow(f.body, a) {
      ColumnNeighbours(m, f.body, c + 1, center, a, b);
    } else {
      ColumnNeighbours(m, f.next, EndCol(f.body, c + 1) + 1, center, a, b);
    }
  }

  lemma {:induction false} BranchNeighbours(m: map<NodeId, nat>, bs: Branches, c: nat, hs: seq<real>, center: real,
      i: nat, a: NodeId, b: NodeId)
    requires BranchesInColumns(m, bs, c) && WellFormedBranches(bs) && HeightsFrom(hs, i, bs)
    requires InBranches(bs, a) && InBranches(bs, b) && a != b && a in m && b in m && m[a] == m[b]
    ensures Apart(LaneIn(bs, hs, center, i, a), LaneIn(bs, hs, center, i, b))
    decreases bs
  {
    BranchBandAt(bs, hs, center, i, a);
    BranchBandAt(bs, hs, center, i, b);
    NextHeight(hs, i, bs);
    match bs
    case Branch(h, r) =>
      if InFlow(h, a) && InFlow(h, b) {
        ColumnNeighbours(m, h, c, BranchCenter(hs, center, i), a, b);
      } else if !InFlow(h, a) && !InFlow(h, b) {
        BranchNeighbours(m, r, c, hs, center, i + 1, a, b);
      } else {
        BandsApart(hs, center, BranchOf(bs, i, a), BranchOf(bs, i, b),
                   LaneIn(bs, hs, center, i, a), LaneIn(bs, hs, center, i, b));
      }
  }

  // ---------------------------------------------------------------- empty branches

  /** Branch `k` of `bs`, counted from `i`, is empty. */
  ghost predicate EmptyAt(bs: Branches, i: nat, k: nat)
    decreases bs
  {
    match bs
    case NoMore => false
    case Branch(h, r) => (k == i && h == Done) || EmptyAt(r, i + 1, k)
  }

  predicate HasEmpty(bs: Branches) {
    match bs
    case NoMore => false
    case Branch(h, r) => h == Done || HasEmpty(r)
  }

  /** Branch `k` is the last empty one. */
  ghost predicate LastEmptyAt(bs: Branches, i: nat, k: nat) {
    EmptyAt(bs, i, k) && forall k': nat :: EmptyAt(bs, i, k') ==> k' <= k
  }

  /** Lane `e` is the middle line of the last empty branch of the block centred on `center`. */
  ghost predicate EmptyLane(bs: Branches, center: real, e: real) {
    exists k: nat :: LastEmptyAt(bs, 0, k) && k < Width(bs) && e == BranchCenter(BranchSpans(bs), center, k)
  }

  /** `place` remembers, for every block with an empty branch, the line of the last such branch. */
  lemma {:induction false} PlacedEmpty(f: Flow, center: real, p: Placement, s: NodeId, bs: Branches, j: NodeId)
    requires WellFormed(f) && HasBlock(f, s, bs, j) && HasEmpty(bs)
    ensures
      var q := Placed(f, center, p);
      (s, j) in q.empty && EmptyLane(bs, LaneOf(f, center, s), q.empty[(s, j)])
    decreases f
  {
    BlockNodes(f, s, bs, j);
    match f
    case Step(id, next) =>
      BlockNodes(next, s, bs, j);
      PlacedEmpty(next, center, p.Put(id, center), s, bs, j);
    case Block(s', _, bs', j', next) =>
      var hs := BranchSpans(bs');
      var q := PlacedBranches(bs', s', j', hs, center, 0, p.Put(s', center));
      if s' == s && bs' == bs && j' == j {
        LastEmpty(bs, s, j, hs, center, 0, p.Put(s, center));
        EmptyKept(next, center, q.Put(j', center), s, j);
      } else if BranchesHaveBlock(bs', s, bs, j) {
        PlacedBranchEmpty(bs', s', j', hs, center, 0, p.Put(s', center), s, bs, j);
        BranchBlockNodes(bs', s, bs, j);
        EmptyKept(next, center, q.Put(j', center), s, j);
      } else {
        BlockNodes(next, s, bs, j);
        PlacedEmpty(next, center, q.Put(j', center), s, bs, j);
      }
    case Loop(s', body, e, next) =>
      var q := Placed(body, center, p.Put(s', center));
      if HasBlock(body, s, bs, j) {
        BlockNodes(body, s, bs, j);
        PlacedEmpty(body, center, p.Put(s', center), s, bs, j);
        EmptyKept(next, center, q.Put(e, center), s, j);
      } else {
        BlockNodes(next, s, bs, j);
        PlacedEmpty(next, center, q.Put(e, center), s, bs, j);
      }
  }

  lemma {:induction false} PlacedBranchEmpty(all: Branches, s': NodeId, j': NodeId, hs: seq<real>, center: real,
      i: nat, p: Placement, s: NodeId, bs: Branches, j: NodeId)
    requires WellFormedBranches(all) && i + Width(all) == |hs| && BranchesHaveBlock(all, s, bs, j)
    requires HasEmpty(bs) && s' !in BranchNodes(all)
    ensures
      var q := PlacedBranches(all, s', j', hs, center, i, p);
      (s, j) in q.empty && EmptyLane(bs, LaneIn(all, hs, center, i, s), q.empty[(s, j)])
    decreases all
  {
    BranchBlockNodes(all, s, bs, j);
    match all
    case Branch(h, r) =>
      var at := BranchCenter(hs, center, i);
      var p' := if h == Done then p.Reserve(s', j', at) else p;
      var q := Placed(h, at, p');
      if HasBlock(h, s, bs, j) {
        BlockNodes(h, s, bs, j);
        PlacedEmpty(h, at, p', s, bs, j);
        BranchEmptyKept(r, s', j', hs, center, i + 1, q, s, j);
      } else {
        BranchBlockNodes(r, s, bs, j);
        PlacedBranchEmpty(r, s', j', hs, center, i + 1, q, s, bs, j);
      }
  }

  /** The split of a block is one of the nodes. */
  lemma {:induction false} BlockNodes(f: Flow, s: NodeId, bs: Branches, j: NodeId)
    requires HasBlock(f, s, bs, j)
    ensures InFlow(f, s) && InFlow(f, j)
    decreases f
  {
    match f
    case Step(_, next) => BlockNodes(next, s, bs, j);
    case Block(s', _, bs', j', next) =>
      if BranchesHaveBlock(bs', s, bs, j) { BranchBlockNodes(bs', s, bs, j); }
      if HasBlock(next, s, bs, j) { BlockNodes(next, s, bs, j); }
    case Loop(_, body, _, next) =>
      if HasBlock(body, s, bs, j) { BlockNodes(body, s, bs, j); }
      if HasBlock(next, s, bs, j) { BlockNodes(next, s, bs, j); }
  }

  lemma {:induction false} BranchBlockNodes(all: Branches, s: NodeId, bs: Branches, j: NodeId)
    requires BranchesHaveBlock(all, s, bs, j)
    ensures InBranches(all, s) && InBranches(all, j)
    decreases all
  {
    match all
    case Branch(h, r) =>
      if HasBlock(h, s, bs, j) { BlockNodes(h, s, bs, j); } else { BranchBlockNodes(r, s, bs, j); }
  }

  /** Placing `f` leaves the reserved lane of a split outside `f` alone. */
  lemma {:induction false} EmptyKept(f: Flow, center: real, p: Placement, s: NodeId, j: NodeId)
    requires !InFlow(f, s)
    ensures
      var q := Placed(f, center, p);
      ((s, j) in q.empty <==> (s, j) in p.empty) && ((s, j) in p.empty ==> q.empty[(s, j)] == p.empty[(s, j)])
    decreases f
  {
    match f
    case Done =>
    case Step(id, next) => EmptyKept(next, center, p.Put(id, center), s, j);
    case Block(s', _, bs, j', next) =>
      var q := PlacedBranches(bs, s', j', BranchSpans(bs), center, 0, p.Put(s', center));
      BranchEmptyKept(bs, s', j', BranchSpans(bs), center, 0, p.Put(s', center), s, j);
      EmptyKept(next, center, q.Put(j', center), s, j);
    case Loop(s', body, e, next) =>
      EmptyKept(body, center, p.Put(s', center), s, j);
      EmptyKept(next, center, Placed(body, center, p.Put(s', center)).Put(e, center), s, j);
  }

  lemma {:induction false} BranchEmptyKept(bs: Branches, s': NodeId, j': NodeId, hs: seq<real>, center: real, i: nat,
      p: Placement, s: NodeId, j: NodeId)
    requires i + Width(bs) == |hs| && !InBranches(bs, s) && s != s'
    ensures
      var q := PlacedBranches(bs, s', j', hs, center, i, p);
      ((s, j) in q.empty <==> (s, j) in p.empty) && ((s, j) in p.empty ==> q.empty[(s, j)] == p.empty[(s, j)])
    decreases bs
  {
    match bs
    case NoMore =>
    case Branch(h, r) =>
      var at := BranchCenter(hs, center, i);
      var p' := if h == Done then p.Reserve(s', j', at) else p;
      EmptyKept(h, at, p', s, j);
      BranchEmptyKept(r, s', j', hs, center, i + 1, Placed(h, at, p'), s, j);
  }

  /** After the branches from `i` on, the block's own entry is the line of the last one
      that is empty, or what it was before if none is. */
  lemma {:induction false} LastEmpty(bs: Branches, s: NodeId, j: NodeId, hs: seq<real>, center: real, i: nat,
      p: Placement)
    requires i + Width(bs) == |hs| && !InBranches(bs, s) && HasEmpty(bs)
    ensures
      var q := PlacedBranches(bs, s, j, hs, center, i, p);
      (s, j) in q.empty &&
      exists k: nat :: LastEmptyAt(bs, i, k) && k < |hs| && q.empty[(s, j)] == BranchCenter(hs, center, k)
    decreases bs
  {
    match bs
    case Branch(h, r) =>
      var at := BranchCenter(hs, center, i);
      var p' := if h == Done then p.Reserve(s, j, at) else p;
      var q := Placed(h, at, p');
      EmptyKept(h, at, p', s, j);
      if HasEmpty(r) {
        LastEmpty(r, s, j, hs, center, i + 1, q);
        var res := PlacedBranches(r, s, j, hs, center, i + 1, q);
        var k: nat :| LastEmptyAt(r, i + 1, k) && k < |hs| && res.empty[(s, j)] == BranchCenter(hs, center, k);
        EmptyRange(r, i + 1, k);
        assert LastEmptyAt(bs, i, k);
      } else {
        NoneEmpty(r, s, j, hs, center, i + 1, q);
        NoEmptyAt(r, i + 1);
        assert LastEmptyAt(bs, i, i);
      }
  }

  lemma {:induction false} NoEmptyAt(bs: Branches, i: nat)
    requires !HasEmpty(bs)
    ensures forall k: nat :: !EmptyAt(bs, i, k)
    decreases bs
  {
    match bs
    case NoMore =>
    case Branch(h, r) => NoEmptyAt(r, i + 1);
  }

  lemma {:induction false} NoneEmpty(bs: Branches, s: NodeId, j: NodeId, hs: seq<real>, center: real, i: nat,
      p: Placement)
    requires i + Width(bs) == |hs| && !InBranches(bs, s) && !HasEmpty(bs)
    ensures
      var q := PlacedBranches(bs, s, j, hs, center, i, p);
      ((s, j) in q.empty <==> (s, j) in p.empty) && ((s, j) in p.empty ==> q.empty[(s, j)] == p.empty[(s, j)])
    decreases bs
  {
    match bs
    case NoMore =>
    case Branch(h, r) =>
      var at := BranchCenter(hs, center, i);
      EmptyKept(h, at, p, s, j);
      NoneEmpty(r, s, j, hs, center, i + 1, Placed(h, at, p));
  }

  /** The columns between split and join lie in the columns of the flow. */
  lemma {:induction false} BlockSpan(m: map<NodeId, nat>, f: Flow, c: nat, s: NodeId, bs: Branches, j: NodeId)
    requires InColumns(m, f, c) && HasBlock(f, s, bs, j)
    ensures s in m && j in m && c <= m[s] && m[j] < EndCol(f, c)
  {
    BlockNodes(f, s, bs, j);
    ColumnRange(m, f, c, s);
    ColumnRange(m, f, c, j);
  }

  lemma {:induction false} BranchBlockSpan(m: map<NodeId, nat>, all: Branches, c: nat, s: NodeId, bs: Branches,
      j: NodeId)
    requires BranchesInColumns(m, all, c) && BranchesHaveBlock(all, s, bs, j)
    ensures s in m && j in m && c <= m[s] && m[j] < JoinCol(all, c)
  {
    BranchBlockNodes(all, s, bs, j);
    BranchColumnRange(m, all, c, s);
    BranchColumnRange(m, all, c, j);
  }

  /** An empty branch's line lies in the band of everything around it. */
  lemma {:induction false} EmptyWithin(f: Flow, center: real, s: NodeId, bs: Branches, j: NodeId, e: real)
    requires WellFormed(f) && HasBlock(f, s, bs, j) && EmptyLane(bs, LaneOf(f, center, s), e)
    ensures Within(e, center, FlowSpan(f, 1.0))
    decreases f
  {
    match f
    case Step(_, next) =>
      BlockNodes(next, s, bs, j);
      EmptyWithin(next, center, s, bs, j, e);
    case Block(s', _, bs', j', next) =>
      if bs' != NoMore {
        SpanAtLeast(next, 1.0, Max(1.0, Total(BranchSpans(bs'))));
      }
      if s' == s && bs' == bs && j' == j {
        var k: nat :| EmptyAt(bs, 0, k) && k < Width(bs) && e == BranchCenter(BranchSpans(bs), center, k);
        CenterInBand(BranchSpans(bs), center, k);
      } else if BranchesHaveBlock(bs', s, bs, j) {
        BranchBlockNodes(bs', s, bs, j);
        var k := BranchEmptyWithin(bs', BranchSpans(bs'), center, 0, s, bs, j, e);
        CenterInBand(BranchSpans(bs'), center, k);
      } else {
        BlockNodes(next, s, bs, j);
        EmptyWithin(next, center, s, bs, j, e);
      }
    case Loop(s', body, e', next) =>
      SpanAtLeast(next, 1.0, FlowSpan(body, 1.0));
      if HasBlock(body, s, bs, j) {
        BlockNodes(body, s, bs, j);
        EmptyWithin(body, center, s, bs, j, e);
      } else {
        BlockNodes(next, s, bs, j);
        EmptyWithin(next, center, s, bs, j, e);
      }
  }

  /** The line of an empty branch nested in branch `k` lies in the band of branch `k`. */
  lemma {:induction false} BranchEmptyWithin(all: Branches, hs: seq<real>, center: real, i: nat, s: NodeId,
      bs: Branches, j: NodeId, e: real) returns (k: nat)
    requires WellFormedBranches(all) && HeightsFrom(hs, i, all) && BranchesHaveBlock(all, s, bs, j)
    requires EmptyLane(bs, LaneIn(all, hs, center, i, s), e)
    ensures InBranches(all, s) && k == BranchOf(all, i, s)
    ensures Within(e, BranchCenter(hs, center, k), hs[k])
    decreases all
  {
    BranchBlockNodes(all, s, bs, j);
    NextHeight(hs, i, all);
    match all
    case Branch(h, r) =>
      if HasBlock(h, s, bs, j) {
        BlockNodes(h, s, bs, j);
        EmptyWithin(h, BranchCenter(hs, center, i), s, bs, j, e);
        k := i;
      } else {
        BranchBlockNodes(r, s, bs, j);
        k := BranchEmptyWithin(r, hs, center, i + 1, s, bs, j, e);
      }
  }

  /** No node in the columns strictly between split and join comes closer than a lane and a
      gap to the line of an empty branch, be it a sibling or nested in a sibling of any
      enclosing block. */
  lemma {:induction false} EmptyApart(m: map<NodeId, nat>, f: Flow, c: nat, center: real, s: NodeId, bs: Branches,
      j: NodeId, e: real, n: NodeId)
    requires InColumns(m, f, c) && WellFormed(f) && HasBlock(f, s, bs, j)
    requires EmptyLane(bs, LaneOf(f, center, s), e)
    requires InFlow(f, n) && s in m && j in m && n in m && m[s] < m[n] < m[j]
    ensures Apart(LaneOf(f, center, n), e)
    decreases f, 1
  {
    match f
    case Step(id, next) =>
      BlockNodes(next, s, bs, j);
      BlockSpan(m, next, c + 1, s, bs, j);
      EmptyApart(m, next, c + 1, center, s, bs, j, e, n);
    case Block(_, _, _, _, _) => EmptyApartBlock(m, f, c, center, s, bs, j, e, n);
    case Loop(_, _, _, _) => EmptyApartLoop(m, f, c, center, s, bs, j, e, n);
  }

  lemma {:induction false} EmptyApartLoop(m: map<NodeId, nat>, f: Flow, c: nat, center: real, s: NodeId,
      bs: Branches, j: NodeId, e: real, n: NodeId)
    requires InColumns(m, f, c) && WellFormed(f) && HasBlock(f, s, bs, j) && f.Loop?
    requires EmptyLane(bs, LaneOf(f, center, s), e)
    requires InFlow(f, n) && s in m && j in m && n in m && m[s] < m[n] < m[j]
    ensures Apart(LaneOf(f, center, n), e)
    decreases f, 0
  {
    var part, d := LoopPart(m, f, c, center, s, bs, j, n);
    EmptyApart(m, part, d, center, s, bs, j, e, n);
  }

  /** The body of a loop or what follows it: where the block lies, and with it every node in the
      columns of the block. */
  lemma LoopPart(m: map<NodeId, nat>, f: Flow, c: nat, center: real, s: NodeId, bs: Branches, j: NodeId, n: NodeId)
      returns (part: Flow, d: nat)
    requires InColumns(m, f, c) && WellFormed(f) && HasBlock(f, s, bs, j) && f.Loop?
    requires InFlow(f, n) && s in m && j in m && n in m && m[s] < m[n] < m[j]
    ensures (part == f.body || part == f.next) && InColumns(m, part, d) && WellFormed(part)
    ensures HasBlock(part, s, bs, j) && InFlow(part, n)
    ensures LaneOf(f, center, n) == LaneOf(part, center, n) && LaneOf(f, center, s) == LaneOf(part, center, s)
  {
    LoopColumns(m, f, c, n);
    if HasBlock(f.body, s, bs, j) {
      part, d := f.body, c + 1;
    } else {
      part, d := f.next, EndCol(f.body, c + 1) + 1;
    }
    BlockNodes(part, s, bs, j);
    BlockSpan(m, part, d, s, bs, j);
  }

  lemma {:induction false} EmptyApartBlock(m: map<NodeId, nat>, f: Flow, c: nat, center: real, s: NodeId,
      bs: Branches, j: NodeId, e: real, n: NodeId)
    requires InColumns(m, f, c) && WellFormed(f) && HasBlock(f, s, bs, j) && f.Block?
    requires EmptyLane(bs, LaneOf(f, center, s), e)
    requires InFlow(f, n) && s in m && j in m && n in m && m[s] < m[n] < m[j]
    ensures Apart(LaneOf(f, center, n), e)
    decreases f, 0
  {
    BlockColumns(m, f, c, n);
    if f.split == s && f.branches == bs && f.join == j {
      EmptyApartSibling(bs, BranchSpans(bs), center, e, n);
    } else if BranchesHaveBlock(f.branches, s, bs, j) {
      BranchBlockNodes(f.branches, s, bs, j);
      BranchBlockSpan(m, f.branches, c + 1, s, bs, j);
      EmptyApartNested(m, f.branches, c + 1, BranchSpans(f.branches), center, 0, s, bs, j, e, n);
    } else {
      BlockNodes(f.next, s, bs, j);
      BlockSpan(m, f.next, JoinCol(f.branches, c + 1) + 1, s, bs, j);
      EmptyApart(m, f.next, JoinCol(f.branches, c + 1) + 1, center, s, bs, j, e, n);
    }
  }

  /** A node of another branch of the same block. */
  lemma EmptyApartSibling(bs: Branches, hs: seq<real>, center: real, e: real, n: NodeId)
    requires HeightsFrom(hs, 0, bs) && hs == BranchSpans(bs) && InBranches(bs, n) && EmptyLane(bs, center, e)
    ensures Apart(LaneIn(bs, hs, center, 0, n), e)
  {
    var k: nat :| EmptyAt(bs, 0, k) && k < Width(bs) && e == BranchCenter(hs, center, k);
    BranchBandAt(bs, hs, center, 0, n);
    NotInEmpty(bs, 0, k, n);
    BandsApart(hs, center, BranchOf(bs, 0, n), k, LaneIn(bs, hs, center, 0, n), e);
  }

  lemma {:induction false} NotInEmpty(bs: Branches, i: nat, k: nat, n: NodeId)
    requires InBranches(bs, n) && EmptyAt(bs, i, k)
    ensures BranchOf(bs, i, n) != k
    decreases bs
  {
    EmptyRange(bs, i, k);
    match bs
    case Branch(h, r) =>
      if EmptyAt(r, i + 1, k) {
        EmptyRange(r, i + 1, k);
        if !InFlow(h, n) { NotInEmpty(r, i + 1, k, n); }
      }
  }

  lemma {:induction false} EmptyRange(bs: Branches, i: nat, k: nat)
    requires EmptyAt(bs, i, k)
    ensures i <= k < i + Width(bs)
    decreases bs
  {
    match bs
    case Branch(h, r) => if EmptyAt(r, i + 1, k) { EmptyRange(r, i + 1, k); }
  }

  lemma {:induction false} EmptyApartNested(m: map<NodeId, nat>, all: Branches, c: nat, hs: seq<real>, center: real,
      i: nat, s: NodeId, bs: Branches, j: NodeId, e: real, n: NodeId)
    requires BranchesInColumns(m, all, c) && WellFormedBranches(all) && HeightsFrom(hs, i, all)
    requires BranchesHaveBlock(all, s, bs, j) && EmptyLane(bs, LaneIn(all, hs, center, i, s), e)
    requires InBranches(all, n) && s in m && j in m && n in m && m[s] < m[n] < m[j]
    ensures Apart(LaneIn(all, hs, center, i, n), e)
    decreases all
  {
    BranchBlockNodes(all, s, bs, j);
    NextHeight(hs, i, all);
    BranchBandAt(all, hs, center, i, n);
    var k := BranchEmptyWithin(all, hs, center, i, s, bs, j, e);
    match all
    case Branch(h, r) =>
      if BranchOf(all, i, n) != k {
        BandsApart(hs, center, BranchOf(all, i, n), k, LaneIn(all, hs, center, i, n), e);
      } else if HasBlock(h, s, bs, j) {
        BlockNodes(h, s, bs, j);
        EmptyApart(m, h, c, BranchCenter(hs, center, i), s, bs, j, e, n);
      } else {
        BranchBlockNodes(r, s, bs, j);
        EmptyApartNested(m, r, c, hs, center, i + 1, s, bs, j, e, n);
      }
  }
}
