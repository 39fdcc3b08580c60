/** The band invariant of the two walks, on every graph without cycles. */
module WalkBands {
  import opened Basics
  import opened Graphs
  import opened Depths
  import opened Flows
  import opened Joins
  import opened Spine
  import opened Bands
  import opened Lanes

  /** `measure` never falls below the height reached before. */
  lemma {:induction false} MeasureGrows(g: Graph, m: map<NodeId, nat>, node: Option<NodeId>, stop: Option<NodeId>,
      span: real)
    requires Ready(g, m, node) && Measure(g, m, node, stop, span).Ok?
    ensures Measure(g, m, node, stop, span).value >= span
    decreases Room(g, m, node), 1
  {
    if node.Some? && node != stop {
      MeasureAtGrows(g, m, node.value, stop, span);
    }
  }

  lemma {:induction false} MeasureAtGrows(g: Graph, m: map<NodeId, nat>, n: NodeId, stop: Option<NodeId>, span: real)
    requires g.Valid() && DepthMap(g, m) && n in g.out && MeasureAt(g, m, n, stop, span).Ok?
    ensures MeasureAt(g, m, n, stop, span).value >= span
    decreases Room(g, m, Some(n)), 0
  {
    SerialRight(g, m, n);
    if |g.out[n]| > 1 {
      var j := MatchingJoin(g, m, n).value;
      JoinRight(g, m, n, stop);
      var hs := Heights(g, m, n, j, []).value;
      MeasureGrows(g, m, OnlySucc(g, j, stop), stop, Max(span, Total(hs)));
    } else {
      MeasureGrows(g, m, SerialSucc(g, n), stop, span);
    }
  }

  /** The heights are what `measure` says about the branches. */
  ghost predicate Measured(g: Graph, m: map<NodeId, nat>, n: NodeId, j: NodeId, hs: seq<real>)
    requires g.Valid() && DepthMap(g, m) && n in g.out && |hs| <= |g.out[n]|
  {
    forall i :: 0 <= i < |hs| ==>
      g.out[n][i] in g.out && Measure(g, m, Some(g.out[n][i]), Some(j), 1.0) == Ok(hs[i])
  }

  lemma {:induction false} HeightsMeasured(g: Graph, m: map<NodeId, nat>, n: NodeId, j: NodeId, hs: seq<real>)
    requires g.Valid() && DepthMap(g, m) && n in g.out && |hs| <= |g.out[n]|
    requires Measured(g, m, n, j, hs) && AllTall(hs) && Heights(g, m, n, j, hs).Ok?
    ensures Measured(g, m, n, j, Heights(g, m, n, j, hs).value) && AllTall(Heights(g, m, n, j, hs).value)
    decreases |g.out[n]| - |hs|
  {
    if |hs| < |g.out[n]| {
      EdgeRight(g, m, n, |hs|);
      MeasureGrows(g, m, Some(g.out[n][|hs|]), Some(j), 1.0);
      var h := Measure(g, m, Some(g.out[n][|hs|]), Some(j), 1.0).value;
      HeightsMeasured(g, m, n, j, hs + [h]);
    }
  }

  /** Whatever was assigned between `p` and `q`, lanes of nodes and lanes reserved for empty
      branches, lies in the band of that height around `center`. */
  ghost predicate Banded(p: Placement, q: Placement, center: real, span: real) {
    && (forall n :: n in q.lane ==> (n in p.lane && q.lane[n] == p.lane[n]) || Within(q.lane[n], center, span))
    && (forall e :: e in q.empty ==> (e in p.empty && q.empty[e] == p.empty[e]) || Within(q.empty[e], center, span))
  }

  lemma BandedThen(p: Placement, q: Placement, r: Placement, center: real, s1: real, s2: real, span: real)
    requires Banded(p, q, center, s1) && Banded(q, r, center, s2) && s1 <= span && s2 <= span
    ensures Banded(p, r, center, span)
  {
  }

  /** A branch stays in the band of its block. */
  lemma BranchBanded(p: Placement, q: Placement, hs: seq<real>, center: real, k: nat)
    requires AllTall(hs) && k < |hs| && Banded(p, q, BranchCenter(hs, center, k), hs[k])
    ensures Banded(p, q, center, Total(hs))
  {
    CenterInBand(hs, center, k);
  }

  /** Reserving the lane of an empty branch, which is its middle line. */
  lemma ReserveBanded(p: Placement, hs: seq<real>, center: real, k: nat, n: NodeId, j: NodeId)
    requires AllTall(hs) && k < |hs|
    ensures Banded(p, p.Reserve(n, j, BranchCenter(hs, center, k)), center, Total(hs))
  {
    CenterInBand(hs, center, k);
  }

  /** The band invariant: on every graph without cycles, whatever `place` assigns on its way from
      `node` to `stop` lies within half of what `measure` says about this way, less half a lane,
      of the middle line. */
  lemma {:induction false} PlaceBand(g: Graph, m: map<NodeId, nat>, node: Option<NodeId>, center: real,
      stop: Option<NodeId>, p: Placement, span: real)
    requires Ready(g, m, node) && span >= 1.0 && Place(g, m, node, center, stop, p).Ok?
    ensures Measure(g, m, node, stop, span).Ok?
    ensures Banded(p, Place(g, m, node, center, stop, p).value, center, Measure(g, m, node, stop, span).value)
    decreases Room(g, m, node), 3, 0
  {
    if node.Some? && node != stop {
      PlaceAtBand(g, m, node.value, center, stop, p, span);
    }
  }

  lemma {:induction false} PlaceAtBand(g: Graph, m: map<NodeId, nat>, n: NodeId, center: real,
      stop: Option<NodeId>, p: Placement, span: real)
    requires g.Valid() && DepthMap(g, m) && n in g.out && span >= 1.0 && PlaceAt(g, m, n, center, stop, p).Ok?
    ensures MeasureAt(g, m, n, stop, span).Ok?
    ensures Banded(p, PlaceAt(g, m, n, center, stop, p).value, center, MeasureAt(g, m, n, stop, span).value)
    decreases Room(g, m, Some(n)), 2, 0
  {
    SerialRight(g, m, n);
    if |g.out[n]| > 1 {
      PlaceSplitBand(g, m, n, center, stop, p, span);
    } else {
      var next := SerialSucc(g, n);
      PlaceBand(g, m, next, center, stop, p.Put(n, center), span);
      MeasureGrows(g, m, next, stop, span);
      BandedThen(p, p.Put(n, center), Place(g, m, next, center, stop, p.Put(n, center)).value, center, span,
                 Measure(g, m, next, stop, span).value, Measure(g, m, next, stop, span).value);
    }
  }

  lemma {:induction false} PlaceSplitBand(g: Graph, m: map<NodeId, nat>, n: NodeId, center: real,
      stop: Option<NodeId>, p: Placement, span: real)
    requires g.Valid() && DepthMap(g, m) && n in g.out && span >= 1.0 && |g.out[n]| > 1
    requires PlaceAt(g, m, n, center, stop, p).Ok?
    ensures MeasureAt(g, m, n, stop, span).Ok?
    ensures Banded(p, PlaceAt(g, m, n, center, stop, p).value, center, MeasureAt(g, m, n, stop, span).value)
    decreases Room(g, m, Some(n)), 1, 0
  {
    var j := MatchingJoin(g, m, n).value;
    JoinRight(g, m, n, stop);
    var hs := Heights(g, m, n, j, []).value;
    HeightsMeasured(g, m, n, j, []);
    BranchesBand(g, m, n, j, hs, center, p.Put(n, center), 0);
    var q := PlaceBranches(g, m, n, j, hs, center, p.Put(n, center), 0).value;
    var reached := Max(span, Total(hs));
    BandedThen(p, p.Put(n, center), q, center, 1.0, Total(hs), reached);
    if stop != Some(j) {
      PlaceJoinBand(g, m, OnlySucc(g, j, stop), center, stop, p, q, j, reached, n);
    }
  }

  /** The join and what follows it. */
  lemma {:induction false} PlaceJoinBand(g: Graph, m: map<NodeId, nat>, next: Option<NodeId>, center: real,
      stop: Option<NodeId>, p: Placement, q: Placement, j: NodeId, reached: real, n: NodeId)
    requires n in m && Right(g, m, n, next) && reached >= 1.0 && Banded(p, q, center, reached)
    requires Place(g, m, next, center, stop, q.Put(j, center)).Ok?
    ensures Measure(g, m, next, stop, reached).Ok?
    ensures Banded(p, Place(g, m, next, center, stop, q.Put(j, center)).value, center,
                   Measure(g, m, next, stop, reached).value)
    decreases Room(g, m, Some(n)), 0, 0
  {
    PlaceBand(g, m, next, center, stop, q.Put(j, center), reached);
    MeasureGrows(g, m, next, stop, reached);
    var all := Measure(g, m, next, stop, reached).value;
    BandedThen(p, q, q.Put(j, center), center, reached, reached, all);
    BandedThen(p, q.Put(j, center), Place(g, m, next, center, stop, q.Put(j, center)).value, center, all, all, all);
  }

  lemma {:induction false} BranchesBand(g: Graph, m: map<NodeId, nat>, n: NodeId, j: NodeId, hs: seq<real>,
      center: real, p: Placement, k: nat)
    requires g.Valid() && DepthMap(g, m) && n in g.out && |hs| == |g.out[n]| && k <= |hs| && |hs| > 0
    requires Measured(g, m, n, j, hs) && AllTall(hs) && PlaceBranches(g, m, n, j, hs, center, p, k).Ok?
    ensures Banded(p, PlaceBranches(g, m, n, j, hs, center, p, k).value, center, Total(hs))
    decreases Room(g, m, Some(n)), 0, |hs| - k
  {
    if k < |hs| {
      EdgeRight(g, m, n, k);
      var c, at := g.out[n][k], BranchCenter(hs, center, k);
      var p1 := if c == j then p.Reserve(n, j, at) else p;
      ReserveBanded(p, hs, center, k, n, j);
      PlaceBand(g, m, Some(c), at, Some(j), p1, 1.0);
      var q := Place(g, m, Some(c), at, Some(j), p1).value;
      BranchBanded(p1, q, hs, center, k);
      BandedThen(p, p1, q, center, Total(hs), Total(hs), Total(hs));
      BranchesBand(g, m, n, j, hs, center, q, k + 1);
      BandedThen(p, q, PlaceBranches(g, m, n, j, hs, center, q, k + 1).value, center, Total(hs), Total(hs), Total(hs));
    }
  }

  /** For a block term inside a graph this is the band invariant of its structural lanes. */
  lemma TermBand(g: Graph, m: map<NodeId, nat>, f: Flow, c: nat, center: real, stop: Option<NodeId>, n: NodeId)
    requires FlowReady(g, m, f, c, stop, stop) && InFlow(f, n)
    ensures Within(LaneOf(f, center, n), center, FlowSpan(f, 1.0))
  {
    PlaceFlow(g, m, f, c, center, stop, stop, NOTHING_PLACED);
    MeasureFlow(g, m, f, c, stop, stop, 1.0);
    PlaceBand(g, m, Entry(f, stop), center, stop, NOTHING_PLACED, 1.0);
    PlacedLane(f, center, NOTHING_PLACED, n);
  }
}
