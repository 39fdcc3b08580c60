/** Lanes of the spine layout: how `measure` and `place` walk an acyclic graph.

    These are the specification functions of the two loops. They follow the graph from node
    to node and know nothing of block structure; `Bands` says what they do on a term. */
module Spine {
  import opened Basics
  import opened Graphs
  import opened Depths
  import opened Joins

  /** Extra distance between sibling branches, in lanes. */
  const BRANCH_GAP: real := 0.25

  function Sum(s: seq<real>): real {
    if s == [] then 0.0 else Sum(s[..|s| - 1]) + s[|s| - 1]
  }

  /** Height of a block: its branches plus the gaps between them. */
  function Total(hs: seq<real>): real
    requires |hs| > 0
  {
    Sum(hs) + BRANCH_GAP * (|hs| - 1) as real
  }

  /** Middle line of branch `k` of a block centred on `center`. */
  function BranchCenter(hs: seq<real>, center: real, k: nat): real
    requires k < |hs|
  {
    center - Total(hs) / 2.0 + Sum(hs[..k]) + BRANCH_GAP * k as real + hs[k] / 2.0
  }

  /** Columns left to the right of `node`: the measure of both walks. */
  ghost function Room(g: Graph, m: map<NodeId, nat>, node: Option<NodeId>): nat
    requires node.Some? ==> node.value in m
  {
    if node.Some? && m[node.value] < |g.out| then |g.out| - m[node.value] else 0
  }

  lemma RoomShrinks(g: Graph, m: map<NodeId, nat>, a: NodeId, b: NodeId)
    requires g.Valid() && DepthMap(g, m) && a in g.out && b in g.out && m[a] < m[b]
    ensures Room(g, m, Some(b)) < Room(g, m, Some(a))
  {
    DepthBound(g, m, a);
    DepthBound(g, m, b);
  }

  /** The successor of a join, or the end of the sequence. */
  function OnlySucc(g: Graph, j: NodeId, stop: Option<NodeId>): Option<NodeId>
    requires j in g.out
  {
    if stop == Some(j) then stop
    else if g.out[j] == [] then None else Some(g.out[j][0])
  }

  function SerialSucc(g: Graph, n: NodeId): Option<NodeId>
    requires n in g.out
  {
    if |g.out[n]| == 1 then Some(g.out[n][0]) else None
  }

  ghost predicate Ready(g: Graph, m: map<NodeId, nat>, node: Option<NodeId>) {
    g.Valid() && DepthMap(g, m) && (node.Some? ==> node.value in g.out)
  }

  /** `next` lies right of `n`, or the walk is over. */
  ghost predicate Right(g: Graph, m: map<NodeId, nat>, n: NodeId, next: Option<NodeId>)
    requires n in m
  {
    && Ready(g, m, next)
    && (next.Some? ==> m[n] < m[next.value])
    && Room(g, m, next) < Room(g, m, Some(n))
  }

  lemma EdgeRight(g: Graph, m: map<NodeId, nat>, n: NodeId, k: nat)
    requires g.Valid() && DepthMap(g, m) && n in g.out && k < |g.out[n]|
    ensures Right(g, m, n, Some(g.out[n][k]))
  {
    assert g.Edge(n, g.out[n][k]);
    EdgeDeeper(g, m, n, g.out[n][k]);
    RoomShrinks(g, m, n, g.out[n][k]);
  }

  lemma SerialRight(g: Graph, m: map<NodeId, nat>, n: NodeId)
    requires g.Valid() && DepthMap(g, m) && n in g.out
    ensures Right(g, m, n, SerialSucc(g, n))
  {
    DepthBound(g, m, n);
    if |g.out[n]| == 1 {
      EdgeRight(g, m, n, 0);
    }
  }

  lemma JoinRight(g: Graph, m: map<NodeId, nat>, n: NodeId, stop: Option<NodeId>)
    requires g.Valid() && DepthMap(g, m) && n in g.out && |g.out[n]| > 0 && MatchingJoin(g, m, n).Some?
    ensures Right(g, m, n, MatchingJoin(g, m, n))
    ensures Right(g, m, n, OnlySucc(g, MatchingJoin(g, m, n).value, stop))
  {
    MatchingJoinSpec(g, m, n);
    var j := MatchingJoin(g, m, n).value;
    RoomShrinks(g, m, n, j);
    if stop != Some(j) && g.out[j] != [] {
      EdgeRight(g, m, j, 0);
      RoomShrinks(g, m, n, g.out[j][0]);
    }
  }

  /** Height in lanes of the sequence from `node` to `stop`, where `span` was reached so far. */
  ghost function Measure(g: Graph, m: map<NodeId, nat>, node: Option<NodeId>, stop: Option<NodeId>,
      span: real): (r: Result<real>)
    requires Ready(g, m, node)
    ensures r.Err? ==> r.error == NoMatchingJoin
    decreases Room(g, m, node), 2, 0
  {
    if node == None || node == stop then Ok(span) else MeasureAt(g, m, node.value, stop, span)
  }

  ghost function MeasureAt(g: Graph, m: map<NodeId, nat>, n: NodeId, stop: Option<NodeId>,
      span: real): (r: Result<real>)
    requires g.Valid() && DepthMap(g, m) && n in g.out
    ensures r.Err? ==> r.error == NoMatchingJoin
    decreases Room(g, m, Some(n)), 1, 0
  {
    SerialRight(g, m, n);
    if |g.out[n]| > 1 then
      match MatchingJoin(g, m, n)
      case None => Err(NoMatchingJoin)
      case Some(j) =>
        JoinRight(g, m, n, stop);
        match Heights(g, m, n, j, [])
        case Err(e) => Err(e)
        case Ok(hs) => Measure(g, m, OnlySucc(g, j, stop), stop, Max(span, Total(hs)))
    else
      Measure(g, m, SerialSucc(g, n), stop, span)
  }

  /** Heights of the branches of split `n`, which close at `j`; `hs` are those known so far. */
  ghost function Heights(g: Graph, m: map<NodeId, nat>, n: NodeId, j: NodeId, hs: seq<real>): (r: Result<seq<real>>)
    requires g.Valid() && DepthMap(g, m) && n in g.out && |hs| <= |g.out[n]|
    ensures r.Ok? ==> |r.value| == |g.out[n]|
    ensures r.Err? ==> r.error == NoMatchingJoin
    decreases Room(g, m, Some(n)), 0, |g.out[n]| - |hs|
  {
    if |hs| == |g.out[n]| then Ok(hs)
    else
      EdgeRight(g, m, n, |hs|);
      match Measure(g, m, Some(g.out[n][|hs|]), Some(j), 1.0)
      case Err(e) => Err(e)
      case Ok(h) => Heights(g, m, n, j, hs + [h])
  }

  /** What `place` has assigned so far: lanes, placed nodes, lanes of empty branches. */
  datatype Placement = Placement(lane: map<NodeId, real>, placed: set<NodeId>, empty: map<(NodeId, NodeId), real>) {
    function Put(n: NodeId, at: real): Placement {
      this.(lane := lane[n := at], placed := placed + {n})
    }
    function Reserve(n: NodeId, j: NodeId, at: real): Placement {
      this.(empty := empty[(n, j) := at])
    }
  }

  const NOTHING_PLACED := Placement(map[], {}, map[])

  ghost function Place(g: Graph, m: map<NodeId, nat>, node: Option<NodeId>, center: real, stop: Option<NodeId>,
      p: Placement): (r: Result<Placement>)
    requires Ready(g, m, node)
    ensures r.Err? ==> r.error in {NoMatchingJoin, Revisit}
    decreases Room(g, m, node), 2, 0
  {
    if node == None || node == stop then Ok(p) else PlaceAt(g, m, node.value, center, stop, p)
  }

  ghost function PlaceAt(g: Graph, m: map<NodeId, nat>, n: NodeId, center: real, stop: Option<NodeId>,
      p: Placement): (r: Result<Placement>)
    requires g.Valid() && DepthMap(g, m) && n in g.out
    ensures r.Err? ==> r.error in {NoMatchingJoin, Revisit}
    decreases Room(g, m, Some(n)), 1, 0
  {
    SerialRight(g, m, n);
    if n in p.placed then Err(Revisit)
    else if |g.out[n]| > 1 then
      match MatchingJoin(g, m, n)
      case None => Err(NoMatchingJoin)
      case Some(j) =>
        JoinRight(g, m, n, stop);
        match Heights(g, m, n, j, [])
        case Err(e) => Err(e)
        case Ok(hs) =>
          match PlaceBranches(g, m, n, j, hs, center, p.Put(n, center), 0)
          case Err(e) => Err(e)
          case Ok(q) =>
            if stop == Some(j) then Ok(q)
            else Place(g, m, OnlySucc(g, j, stop), center, stop, q.Put(j, center))
    else
      Place(g, m, SerialSucc(g, n), center, stop, p.Put(n, center))
  }

  /** Places the branches `k ..` of split `n` side by side. */
  ghost function PlaceBranches(g: Graph, m: map<NodeId, nat>, n: NodeId, j: NodeId, hs: seq<real>, center: real,
      p: Placement, k: nat): (r: Result<Placement>)
    requires g.Valid() && DepthMap(g, m) && n in g.out && |hs| == |g.out[n]| && k <= |hs|
    ensures r.Err? ==> r.error in {NoMatchingJoin, Revisit}
    decreases Room(g, m, Some(n)), 0, |hs| - k
  {
    if k == |hs| then Ok(p)
    else
      EdgeRight(g, m, n, k);
      var c := g.out[n][k];
      var at := BranchCenter(hs, center, k);
      match Place(g, m, Some(c), at, Some(j), if c == j then p.Reserve(n, j, at) else p)
      case Err(e) => Err(e)
      case Ok(q) => PlaceBranches(g, m, n, j, hs, center, q, k + 1)
  }

  // ---------------------------------------------------------------- sums

  ghost predicate AllTall(hs: seq<real>) {
    forall i :: 0 <= i < |hs| ==> hs[i] >= 1.0
  }

  lemma SumPrefix(hs: seq<real>, k: nat)
    requires k < |hs|
    ensures Sum(hs[..k + 1]) == Sum(hs[..k]) + hs[k]
  {
    assert hs[..k + 1][..k] == hs[..k];
  }

  lemma {:induction false} SumGrows(hs: seq<real>, a: nat, b: nat)
    requires AllTall(hs) && a <= b <= |hs|
    ensures Sum(hs[..a]) + (b - a) as real <= Sum(hs[..b])
    decreases b - a
  {
    if a < b {
      SumGrows(hs, a, b - 1);
      SumPrefix(hs, b - 1);
    }
  }

  /** Branch `i` lies with its whole band inside the band of the block. */
  lemma CenterInBand(hs: seq<real>, center: real, i: nat)
    requires AllTall(hs) && i < |hs|
    ensures BranchCenter(hs, center, i) - center <= (Total(hs) - hs[i]) / 2.0
    ensures center - BranchCenter(hs, center, i) <= (Total(hs) - hs[i]) / 2.0
  {
    SumGrows(hs, 0, i);
    SumPrefix(hs, i);
    SumGrows(hs, i + 1, |hs|);
    assert hs[..|hs|] == hs;
  }

  /** The bands of two branches are a gap apart. */
  lemma CentersApart(hs: seq<real>, center: real, i: nat, k: nat)
    requires AllTall(hs) && i < k < |hs|
    ensures BranchCenter(hs, center, k) - BranchCenter(hs, center, i) >= hs[i] / 2.0 + hs[k] / 2.0 + BRANCH_GAP
  {
    SumPrefix(hs, i);
    SumGrows(hs, i + 1, k);
  }

  lemma AllOf(hs: seq<real>)
    ensures hs[..|hs|] == hs
  {
  }

  /** Branches of heights `hs` side by side on the middle lines `es`: neighbours are half of each
      and the gap apart, and the outer edges lie symmetrically around `center`. */
  ghost predicate SideBySide(hs: seq<real>, es: seq<real>, center: real) {
    && |hs| == |es| > 0
    && (forall i :: 0 <= i < |es| - 1 ==> Neighbours(hs[i], es[i], hs[i + 1], es[i + 1]))
    && UpperEdge(hs, es) + LowerEdge(hs, es) == 2.0 * center
  }

  ghost predicate Neighbours(h: real, e: real, h': real, e': real) {
    e' - e == (h + h') / 2.0 + BRANCH_GAP
  }

  ghost function UpperEdge(hs: seq<real>, es: seq<real>): real
    requires |hs| == |es| > 0
  {
    es[0] - hs[0] / 2.0
  }

  ghost function LowerEdge(hs: seq<real>, es: seq<real>): real
    requires |hs| == |es| > 0
  {
    es[|es| - 1] + hs[|hs| - 1] / 2.0
  }

  ghost function Centers(hs: seq<real>, center: real): (es: seq<real>)
    ensures |es| == |hs| && forall i :: 0 <= i < |es| ==> es[i] == BranchCenter(hs, center, i)
  {
    seq(|hs|, i requires 0 <= i < |hs| => BranchCenter(hs, center, i))
  }

  /** The branches of a block stand side by side around its middle line, and the height of the
      block is the distance of the two outer edges. */
  lemma BlockFansOut(hs: seq<real>, center: real)
    requires |hs| > 0
    ensures SideBySide(hs, Centers(hs, center), center)
    ensures Total(hs) == LowerEdge(hs, Centers(hs, center)) - UpperEdge(hs, Centers(hs, center))
  {
    var es := Centers(hs, center);
    forall i | 0 <= i < |es| - 1 ensures Neighbours(hs[i], es[i], hs[i + 1], es[i + 1]) {
      SumPrefix(hs, i);
    }
    assert hs[..0] == [];
    SumPrefix(hs, |hs| - 1);
    AllOf(hs);
  }

  lemma {:induction false} SameSteps(hs: seq<real>, es: seq<real>, es': seq<real>, c: real, c': real, k: nat)
    requires SideBySide(hs, es, c) && SideBySide(hs, es', c') && k < |es|
    ensures es[k] - es[0] == es'[k] - es'[0]
  {
    if k > 0 {
      SameSteps(hs, es, es', c, c', k - 1);
      assert Neighbours(hs[k - 1], es[k - 1], hs[k - 1 + 1], es[k - 1 + 1]);
      assert Neighbours(hs[k - 1], es'[k - 1], hs[k - 1 + 1], es'[k - 1 + 1]);
    }
  }

  /** There is only one way to stand side by side around a line. */
  lemma OneFan(hs: seq<real>, es: seq<real>, center: real)
    requires SideBySide(hs, es, center)
    ensures es == Centers(hs, center)
  {
    var es' := Centers(hs, center);
    BlockFansOut(hs, center);
    forall k | 0 <= k < |es| ensures es[k] == es'[k] {
      SameSteps(hs, es, es', center, center, |es| - 1);
      SameSteps(hs, es, es', center, center, k);
    }
  }

  /** The lane lies within half of `span - 1` of the centre. */
  ghost predicate Within(lane: real, center: real, span: real) {
    lane - center <= (span - 1.0) / 2.0 && center - lane <= (span - 1.0) / 2.0
  }
}
