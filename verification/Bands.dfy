/** Heights and lanes by recursion on the term, and the agreement of the two walks with them.

    The walks run on through joins into the following nodes, so their agreement is stated
    with whatever comes behind the term. */
module Bands {
  import opened Basics
  import opened Graphs
  import opened Depths
  import opened Flows
  import opened Joins
  import opened Blocks
  import opened Spine

  /** Height of `f`: the tallest of its blocks, at least what `span` says. */
  function FlowSpan(f: Flow, span: real): (r: real)
    ensures r >= span
  {
    match f
    case Done => span
    case Step(_, next) => FlowSpan(next, span)
    case Block(_, _, bs, _, next) =>
      FlowSpan(next, if bs == NoMore then span else Max(span, Total(BranchSpans(bs))))
    case Loop(_, body, _, next) => FlowSpan(next, FlowSpan(body, span))
  }

  function BranchSpans(bs: Branches): (r: seq<real>)
    ensures |r| == Width(bs)
    ensures forall i :: 0 <= i < |r| ==> r[i] >= 1.0
  {
    match bs
    case NoMore => []
    case Branch(h, r) => [FlowSpan(h, 1.0)] + BranchSpans(r)
  }

  /** A starting value only matters where it exceeds the height. */
  lemma {:induction false} SpanAccumulates(f: Flow, a: real, b: real)
    ensures FlowSpan(f, Max(a, b)) == Max(FlowSpan(f, a), FlowSpan(f, b))
    decreases f
  {
    match f
    case Done =>
    case Step(_, next) => SpanAccumulates(next, a, b);
    case Block(_, _, bs, _, next) =>
      if bs == NoMore {
        SpanAccumulates(next, a, b);
      } else {
        var t := Total(BranchSpans(bs));
        SpanAccumulates(next, Max(a, t), Max(b, t));
      }
    case Loop(_, body, _, next) =>
      SpanAccumulates(body, a, b);
      SpanAccumulates(next, FlowSpan(body, a), FlowSpan(body, b));
  }

  /** The node behind `f` stands right of all of `f`. */
  ghost predicate StopRight(m: map<NodeId, nat>, stop: Option<NodeId>, e: nat) {
    stop.Some? ==> stop.value in m && m[stop.value] >= e
  }

  /** `f` is drawn in columns `c ..`, continues at `k`, and lies left of `stop`. */
  ghost predicate FlowReady(g: Graph, m: map<NodeId, nat>, f: Flow, c: nat, k: Option<NodeId>, stop: Option<NodeId>) {
    && g.Valid() && DepthMap(g, m)
    && Embeds(g.out, f, k) && InColumns(m, f, c) && WellFormed(f)
    && StopRight(m, stop, EndCol(f, c))
    && (k.Some? ==> k.value in g.out)
  }

  ghost predicate BranchesReady(g: Graph, m: map<NodeId, nat>, bs: Branches, c: nat, j: NodeId) {
    && g.Valid() && DepthMap(g, m)
    && EmbedsBranches(g.out, bs, j) && BranchesInColumns(m, bs, c) && WellFormedBranches(bs)
    && StopRight(m, Some(j), JoinCol(bs, c))
  }

  /** Control enters `f` at a known node that is not `stop`. */
  lemma EntryBeforeStop(g: Graph, m: map<NodeId, nat>, f: Flow, c: nat, k: Option<NodeId>, stop: Option<NodeId>)
    requires FlowReady(g, m, f, c, k, stop)
    ensures Ready(g, m, Entry(f, k))
    ensures f != Done ==> Entry(f, k).Some? && Entry(f, k) != stop
  {
    EntryColumn(m, f, c, k);
  }

  /** What both walks find at a split: its join, its branches, and what follows. */
  lemma BlockParts(g: Graph, m: map<NodeId, nat>, f: Flow, c: nat, k: Option<NodeId>, stop: Option<NodeId>)
    requires FlowReady(g, m, f, c, k, stop) && f.Block?
    ensures f.split in g.out && f.join in g.out && f.split != f.join
    ensures stop != Some(f.join) && stop != Some(f.split)
    ensures |g.out[f.split]| > 1 && MatchingJoin(g, m, f.split) == Some(f.join)
    ensures g.out[f.split] == Heads(f.branches, f.join)
    ensures BranchesReady(g, m, f.branches, c + 1, f.join)
  {
    BlockJoin(g, m, f.split, f.branches, c + 1, f.join);
  }

  lemma BlockNext(g: Graph, m: map<NodeId, nat>, f: Flow, c: nat, k: Option<NodeId>, stop: Option<NodeId>)
    requires FlowReady(g, m, f, c, k, stop) && f.Block?
    ensures FlowReady(g, m, f.next, JoinCol(f.branches, c + 1) + 1, k, stop)
    ensures f.join in g.out && OnlySucc(g, f.join, stop) == Entry(f.next, k)
  {
  }

  /** What both walks find at a serial node. */
  lemma SerialParts(g: Graph, id: NodeId, f: Flow, k: Option<NodeId>)
    requires Serial(g.out, id, f, k)
    ensures |g.out[id]| <= 1 && SerialSucc(g, id) == Entry(f, k)
  {
  }

  lemma LoopParts(g: Graph, m: map<NodeId, nat>, f: Flow, c: nat, k: Option<NodeId>, stop: Option<NodeId>)
    requires FlowReady(g, m, f, c, k, stop) && f.Loop?
    ensures f.start in g.out && f.end in g.out && f.start != f.end
    ensures stop != Some(f.start) && stop != Some(f.end)
    ensures |g.out[f.start]| <= 1 && SerialSucc(g, f.start) == Entry(f.body, Some(f.end))
    ensures |g.out[f.end]| <= 1 && SerialSucc(g, f.end) == Entry(f.next, k)
    ensures FlowReady(g, m, f.body, c + 1, Some(f.end), stop)
    ensures FlowReady(g, m, f.next, EndCol(f.body, c + 1) + 1, k, stop)
  {
    assert f.start in g.out && f.end in g.out;
    SerialParts(g, f.start, f.body, Some(f.end));
    SerialParts(g, f.end, f.next, k);
  }

  /** One step of `measure` at a split. */
  lemma MeasureSplit(g: Graph, m: map<NodeId, nat>, n: NodeId, j: NodeId, hs: seq<real>, stop: Option<NodeId>,
      span: real)
    requires g.Valid() && DepthMap(g, m) && n in g.out && |g.out[n]| > 1 && stop != Some(n)
    requires MatchingJoin(g, m, n) == Some(j)
    requires Heights(g, m, n, j, []) == Ok(hs)
    ensures Ready(g, m, OnlySucc(g, j, stop)) && |hs| > 0
    ensures Measure(g, m, Some(n), stop, span) == Measure(g, m, OnlySucc(g, j, stop), stop, Max(span, Total(hs)))
  {
    JoinRight(g, m, n, stop);
  }

  /** `measure` runs through `f` and adds its structural height. */
  lemma {:induction false} MeasureFlow(g: Graph, m: map<NodeId, nat>, f: Flow, c: nat, k: Option<NodeId>,
      stop: Option<NodeId>, span: real)
    requires FlowReady(g, m, f, c, k, stop)
    ensures Ready(g, m, Entry(f, k))
    ensures Measure(g, m, Entry(f, k), stop, span) == Measure(g, m, k, stop, FlowSpan(f, span))
    decreases f, 2
  {
    EntryBeforeStop(g, m, f, c, k, stop);
    match f
    case Done =>
    case Step(id, next) =>
      SerialParts(g, id, next, k);
      MeasureFlow(g, m, next, c + 1, k, stop, span);
    case Block(_, _, _, _, _) => MeasureBlock(g, m, f, c, k, stop, span);
    case Loop(_, _, _, _) => MeasureLoop(g, m, f, c, k, stop, span);
  }

  lemma {:induction false} MeasureLoop(g: Graph, m: map<NodeId, nat>, f: Flow, c: nat, k: Option<NodeId>,
      stop: Option<NodeId>, span: real)
    requires FlowReady(g, m, f, c, k, stop) && f.Loop?
    ensures Ready(g, m, Entry(f, k))
    ensures Measure(g, m, Entry(f, k), stop, span) == Measure(g, m, k, stop, FlowSpan(f, span))
    decreases f, 0
  {
    LoopParts(g, m, f, c, k, stop);
    MeasureFlow(g, m, f.body, c + 1, Some(f.end), stop, span);
    MeasureFlow(g, m, f.next, EndCol(f.body, c + 1) + 1, k, stop, FlowSpan(f.body, span));
  }

  lemma {:induction false} MeasureBlock(g: Graph, m: map<NodeId, nat>, f: Flow, c: nat, k: Option<NodeId>,
      stop: Option<NodeId>, span: real)
    requires FlowReady(g, m, f, c, k, stop) && f.Block?
    ensures Ready(g, m, Entry(f, k))
    ensures Measure(g, m, Entry(f, k), stop, span) == Measure(g, m, k, stop, FlowSpan(f, span))
    decreases f, 1
  {
    MeasureSplitFlow(g, m, f, c, k, stop, span);
    MeasureNext(g, m, f, c, k, stop, Max(span, Total(BranchSpans(f.branches))));
  }

  lemma {:induction false} MeasureNext(g: Graph, m: map<NodeId, nat>, f: Flow, c: nat, k: Option<NodeId>,
      stop: Option<NodeId>, span: real)
    requires FlowReady(g, m, f, c, k, stop) && f.Block?
    ensures f.join in g.out && Ready(g, m, OnlySucc(g, f.join, stop))
    ensures Measure(g, m, OnlySucc(g, f.join, stop), stop, span) == Measure(g, m, k, stop, FlowSpan(f.next, span))
    decreases f, 0
  {
    BlockNext(g, m, f, c, k, stop);
    MeasureFlow(g, m, f.next, JoinCol(f.branches, c + 1) + 1, k, stop, span);
  }

  lemma {:induction false} MeasureSplitFlow(g: Graph, m: map<NodeId, nat>, f: Flow, c: nat, k: Option<NodeId>,
      stop: Option<NodeId>, span: real)
    requires FlowReady(g, m, f, c, k, stop) && f.Block?
    ensures f.split in g.out && f.join in g.out && Ready(g, m, OnlySucc(g, f.join, stop)) && f.branches != NoMore
    ensures Measure(g, m, Some(f.split), stop, span) ==
            Measure(g, m, OnlySucc(g, f.join, stop), stop, Max(span, Total(BranchSpans(f.branches))))
    decreases f, 0
  {
    BlockParts(g, m, f, c, k, stop);
    HeightsOfBranches(g, m, f.split, f.branches, c + 1, f.join, []);
    AppendNone(BranchSpans(f.branches));
    MeasureSplit(g, m, f.split, f.join, BranchSpans(f.branches), stop, span);
  }

  lemma {:induction false} HeightsOfBranches(g: Graph, m: map<NodeId, nat>, n: NodeId, bs: Branches, c: nat,
      j: NodeId, hs: seq<real>)
    requires BranchesReady(g, m, bs, c, j) && n in g.out
    requires |hs| <= |g.out[n]| && g.out[n][|hs|..] == Heads(bs, j)
    ensures Heights(g, m, n, j, hs) == Ok(hs + BranchSpans(bs))
    decreases bs
  {
    match bs
    case NoMore =>
      AppendNone(hs);
    case Branch(h, r) =>
      NextHead(g.out[n], |hs|, h, r, j);
      MeasureFlow(g, m, h, c, Some(j), Some(j), 1.0);
      var hs' := hs + [FlowSpan(h, 1.0)];
      HeightsOfBranches(g, m, n, r, c, j, hs');
      AppendAssoc(hs, FlowSpan(h, 1.0), BranchSpans(r));
  }

  lemma AppendNone(s: seq<real>)
    ensures s + [] == s && [] + s == s
  {
  }

  lemma AppendAssoc(s: seq<real>, x: real, t: seq<real>)
    ensures (s + [x]) + t == s + ([x] + t)
  {
  }

  lemma NextHead(out: seq<NodeId>, i: nat, h: Flow, r: Branches, j: NodeId)
    requires i <= |out| && out[i..] == Heads(Branch(h, r), j)
    ensures i < |out| && out[i] == Entry(h, Some(j)).value && out[i + 1..] == Heads(r, j)
  {
    assert Heads(Branch(h, r), j) == [Entry(h, Some(j)).value] + Heads(r, j);
    assert out[i] == out[i..][0];
    assert out[i + 1..] == out[i..][1..];
  }

  // ---------------------------------------------------------------- placing

  /** The placement of `f` on the middle line `center`. */
  ghost function Placed(f: Flow, center: real, p: Placement): Placement
    decreases f
  {
    match f
    case Done => p
    case Step(id, next) => Placed(next, center, p.Put(id, center))
    case Block(s, _, bs, j, next) =>
      Placed(next, center, PlacedBranches(bs, s, j, BranchSpans(bs), center, 0, p.Put(s, center)).Put(j, center))
    case Loop(s, body, e, next) =>
      Placed(next, center, Placed(body, center, p.Put(s, center)).Put(e, center))
  }

  /** The placement of the branches `i ..` of the block `(s, j)`. */
  ghost function PlacedBranches(bs: Branches, s: NodeId, j: NodeId, hs: seq<real>, center: real, i: nat,
      p: Placement): Placement
    requires i + Width(bs) == |hs|
    decreases bs
  {
    match bs
    case NoMore => p
    case Branch(h, r) =>
      var at := BranchCenter(hs, center, i);
      PlacedBranches(r, s, j, hs, center, i + 1, Placed(h, at, if h == Done then p.Reserve(s, j, at) else p))
  }

  /** Placing `f` adds exactly its nodes. */
  lemma {:induction false} PlacedNodes(f: Flow, center: real, p: Placement)
    ensures Placed(f, center, p).placed == p.placed + Nodes(f)
    decreases f
  {
    match f
    case Done =>
    case Step(id, next) => PlacedNodes(next, center, p.Put(id, center));
    case Block(s, _, bs, j, next) =>
      var q := PlacedBranches(bs, s, j, BranchSpans(bs), center, 0, p.Put(s, center));
      PlacedBranchNodes(bs, s, j, BranchSpans(bs), center, 0, p.Put(s, center));
      PlacedNodes(next, center, q.Put(j, center));
    case Loop(s, body, e, next) =>
      PlacedNodes(body, center, p.Put(s, center));
      PlacedNodes(next, center, Placed(body, center, p.Put(s, center)).Put(e, center));
  }

  lemma {:induction false} PlacedBranchNodes(bs: Branches, s: NodeId, j: NodeId, hs: seq<real>, center: real, i: nat,
      p: Placement)
    requires i + Width(bs) == |hs|
    ensures PlacedBranches(bs, s, j, hs, center, i, p).placed == p.placed + BranchNodes(bs)
    decreases bs
  {
    match bs
    case NoMore =>
    case Branch(h, r) =>
      var at := BranchCenter(hs, center, i);
      var p' := if h == Done then p.Reserve(s, j, at) else p;
      PlacedNodes(h, at, p');
      PlacedBranchNodes(r, s, j, hs, center, i + 1, Placed(h, at, p'));
  }

  /** One step of `place` at a serial node. */
  lemma PlaceSerial(g: Graph, m: map<NodeId, nat>, n: NodeId, center: real, stop: Option<NodeId>, p: Placement)
    requires g.Valid() && DepthMap(g, m) && n in g.out && |g.out[n]| <= 1
    requires stop != Some(n) && n !in p.placed
    ensures Ready(g, m, SerialSucc(g, n))
    ensures Place(g, m, Some(n), center, stop, p) == Place(g, m, SerialSucc(g, n), center, stop, p.Put(n, center))
  {
    SerialRight(g, m, n);
  }

  /** One step of `place` at a split whose join is not the end of the sequence. */
  lemma PlaceSplit(g: Graph, m: map<NodeId, nat>, n: NodeId, j: NodeId, hs: seq<real>, center: real,
      stop: Option<NodeId>, p: Placement, q: Placement)
    requires g.Valid() && DepthMap(g, m) && n in g.out && |g.out[n]| > 1
    requires stop != Some(n) && stop != Some(j) && n !in p.placed
    requires MatchingJoin(g, m, n) == Some(j)
    requires Heights(g, m, n, j, []) == Ok(hs)
    requires PlaceBranches(g, m, n, j, hs, center, p.Put(n, center), 0) == Ok(q)
    ensures Ready(g, m, OnlySucc(g, j, stop))
    ensures Place(g, m, Some(n), center, stop, p) == Place(g, m, OnlySucc(g, j, stop), center, stop, q.Put(j, center))
  {
    JoinRight(g, m, n, stop);
  }

  /** `place` assigns exactly the structural lanes and throws nothing. */
  lemma {:induction false} PlaceFlow(g: Graph, m: map<NodeId, nat>, f: Flow, c: nat, center: real, k: Option<NodeId>,
      stop: Option<NodeId>, p: Placement)
    requires FlowReady(g, m, f, c, k, stop) && p.placed !! Nodes(f)
    ensures Ready(g, m, Entry(f, k))
    ensures Place(g, m, Entry(f, k), center, stop, p) == Place(g, m, k, center, stop, Placed(f, center, p))
    decreases f, 2
  {
    EntryBeforeStop(g, m, f, c, k, stop);
    match f
    case Done =>
    case Step(id, next) =>
      SerialParts(g, id, next, k);
      PlaceFlow(g, m, next, c + 1, center, k, stop, p.Put(id, center));
    case Block(_, _, _, _, _) => PlaceBlock(g, m, f, c, center, k, stop, p);
    case Loop(_, _, _, _) => PlaceLoop(g, m, f, c, center, k, stop, p);
  }

  lemma {:induction false} PlaceLoop(g: Graph, m: map<NodeId, nat>, f: Flow, c: nat, center: real, k: Option<NodeId>,
      stop: Option<NodeId>, p: Placement)
    requires FlowReady(g, m, f, c, k, stop) && p.placed !! Nodes(f) && f.Loop?
    ensures Ready(g, m, Entry(f, k))
    ensures Place(g, m, Entry(f, k), center, stop, p) == Place(g, m, k, center, stop, Placed(f, center, p))
    decreases f, 0
  {
    LoopParts(g, m, f, c, k, stop);
    var q := Placed(f.body, center, p.Put(f.start, center));
    PlaceSerial(g, m, f.start, center, stop, p);
    PlacedNodes(f.body, center, p.Put(f.start, center));
    PlaceFlow(g, m, f.body, c + 1, center, Some(f.end), stop, p.Put(f.start, center));
    PlaceSerial(g, m, f.end, center, stop, q);
    PlaceFlow(g, m, f.next, EndCol(f.body, c + 1) + 1, center, k, stop, q.Put(f.end, center));
  }

  lemma {:induction false} PlaceBlock(g: Graph, m: map<NodeId, nat>, f: Flow, c: nat, center: real,
      k: Option<NodeId>, stop: Option<NodeId>, p: Placement)
    requires FlowReady(g, m, f, c, k, stop) && p.placed !! Nodes(f) && f.Block?
    ensures Ready(g, m, Entry(f, k))
    ensures Place(g, m, Entry(f, k), center, stop, p) == Place(g, m, k, center, stop, Placed(f, center, p))
    decreases f, 1
  {
    PlaceSplitFlow(g, m, f, c, center, k, stop, p);
    var q := PlacedBranches(f.branches, f.split, f.join, BranchSpans(f.branches), center, 0, p.Put(f.split, center));
    PlaceNext(g, m, f, c, center, k, stop, q.Put(f.join, center));
  }

  lemma {:induction false} PlaceNext(g: Graph, m: map<NodeId, nat>, f: Flow, c: nat, center: real, k: Option<NodeId>,
      stop: Option<NodeId>, p: Placement)
    requires FlowReady(g, m, f, c, k, stop) && f.Block? && p.placed !! Nodes(f.next)
    ensures f.join in g.out && Ready(g, m, OnlySucc(g, f.join, stop))
    ensures Place(g, m, OnlySucc(g, f.join, stop), center, stop, p) ==
            Place(g, m, k, center, stop, Placed(f.next, center, p))
    decreases f, 0
  {
    BlockNext(g, m, f, c, k, stop);
    PlaceFlow(g, m, f.next, JoinCol(f.branches, c + 1) + 1, center, k, stop, p);
  }

  lemma {:induction false} PlaceSplitFlow(g: Graph, m: map<NodeId, nat>, f: Flow, c: nat, center: real,
      k: Option<NodeId>, stop: Option<NodeId>, p: Placement)
    requires FlowReady(g, m, f, c, k, stop) && p.placed !! Nodes(f) && f.Block?
    ensures f.split in g.out && f.join in g.out && Ready(g, m, OnlySucc(g, f.join, stop))
    ensures
      var q := PlacedBranches(f.branches, f.split, f.join, BranchSpans(f.branches), center, 0, p.Put(f.split, center));
      Place(g, m, Some(f.split), center, stop, p) ==
        Place(g, m, OnlySucc(g, f.join, stop), center, stop, q.Put(f.join, center))
      && q.Put(f.join, center).placed !! Nodes(f.next)
      && Placed(f, center, p) == Placed(f.next, center, q.Put(f.join, center))
    decreases f, 0
  {
    BlockParts(g, m, f, c, k, stop);
    var hs := BranchSpans(f.branches);
    HeightsOfBranches(g, m, f.split, f.branches, c + 1, f.join, []);
    AppendNone(hs);
    assert g.out[f.split][0..] == g.out[f.split];
    PlaceBranchFlows(g, m, f.split, f.branches, c + 1, f.join, hs, center, 0, p.Put(f.split, center));
    var q := PlacedBranches(f.branches, f.split, f.join, hs, center, 0, p.Put(f.split, center));
    PlaceSplit(g, m, f.split, f.join, hs, center, stop, p, q);
    PlacedBranchNodes(f.branches, f.split, f.join, hs, center, 0, p.Put(f.split, center));
  }

  lemma {:induction false} PlaceBranchFlows(g: Graph, m: map<NodeId, nat>, n: NodeId, bs: Branches, c: nat,
      j: NodeId, hs: seq<real>, center: real, i: nat, p: Placement)
    requires BranchesReady(g, m, bs, c, j) && n in g.out && p.placed !! BranchNodes(bs)
    requires |hs| == |g.out[n]| && i + Width(bs) == |hs| && g.out[n][i..] == Heads(bs, j)
    requires j !in BranchNodes(bs)
    ensures PlaceBranches(g, m, n, j, hs, center, p, i) == Ok(PlacedBranches(bs, n, j, hs, center, i, p))
    decreases bs
  {
    match bs
    case NoMore =>
    case Branch(h, r) =>
      NextHead(g.out[n], i, h, r, j);
      EntryColumn(m, h, c, Some(j));
      var at := BranchCenter(hs, center, i);
      var p' := if h == Done then p.Reserve(n, j, at) else p;
      PlaceFlow(g, m, h, c, at, Some(j), Some(j), p');
      PlacedNodes(h, at, p');
      PlaceBranchFlows(g, m, n, r, c, j, hs, center, i + 1, Placed(h, at, p'));
  }
}
