/** What the spine layout does on block-structured schemas: it never gives up and draws the term. */
module BlockLayout {
  import opened Basics
  import opened Graphs
  import opened Depths
  import opened Flows
  import opened Blocks
  import opened Spine
  import opened Bands
  import opened Lanes
  import opened Schemas
  import opened SpineLayout

  /** The whole process on lane 0: `place` returns the structural placement of every node. */
  lemma DrawnPlacement(g: Graph, f: Flow, m: map<NodeId, nat>)
    requires Draws(g, f) && DepthMap(g, m)
    ensures m == Columns(f, 0)
    ensures Ready(g, m, Entry(f, None))
    ensures Place(g, m, Entry(f, None), 0.0, None, NOTHING_PLACED) == Ok(Placed(f, 0.0, NOTHING_PLACED))
    ensures forall n :: n in g.out <==> n in Placed(f, 0.0, NOTHING_PLACED).lane
    ensures forall n :: n in g.out ==> Placed(f, 0.0, NOTHING_PLACED).lane[n] == LaneOf(f, 0.0, n)
  {
    DrawnColumns(g, f);
    DepthUnique(g, m, Columns(f, 0));
    PlaceFlow(g, m, f, 0, 0.0, None, None, NOTHING_PLACED);
    forall n ensures n in g.out <==> n in Placed(f, 0.0, NOTHING_PLACED).lane
      ensures n in g.out ==> Placed(f, 0.0, NOTHING_PLACED).lane[n] == LaneOf(f, 0.0, n)
    {
      PlacedLane(f, 0.0, NOTHING_PLACED, n);
      assert n in g.out.Keys <==> n in Nodes(f);
    }
  }

  /** Lanes at least a lane and a gap apart are more than a row apart in pixels. */
  lemma RowsApart(a: real, b: real, pitch: real, ya: real, yb: real)
    requires pitch >= 0.0 && Apart(a, b) && ya == a * pitch && yb == b * pitch
    ensures ya - yb >= 1.25 * pitch || yb - ya >= 1.25 * pitch
  {
    if a - b >= 1.25 {
      MulMono(a - b - 1.25, pitch);
    } else {
      MulMono(b - a - 1.25, pitch);
    }
  }

  lemma MulMono(x: real, y: real)
    requires x >= 0.0 && y >= 0.0
    ensures x * y >= 0.0
  {
  }

  /** Different columns do not overlap horizontally. */
  lemma ColumnsApart(a: nat, b: nat)
    requires a < b
    ensures PAD + a as real * COLUMN + NW <= PAD + b as real * COLUMN - HGAP
  {
    var d := b - a;
    assert b as real == a as real + d as real;
    assert d as real * COLUMN >= COLUMN;
  }

  /** The drawing shows the term: columns, lanes, and the reserved line of every block that
      has an empty branch. */
  ghost predicate Shows(s: Schema, f: Flow, l: Layout, pitch: real, origin: real) {
    && l.pos.Keys == s.nodes.Keys && Roomy(s, pitch) && pitch >= NH + VGAP
    && (forall n :: n in s.nodes ==> ShowsNode(f, l, pitch, origin, n))
    && (forall sp, bs, j :: HasBlock(f, sp, bs, j) && HasEmpty(bs) ==> ShowsLine(f, l, pitch, origin, sp, bs, j))
  }

  ghost predicate ShowsNode(f: Flow, l: Layout, pitch: real, origin: real, n: NodeId) {
    && n in l.pos && n in Columns(f, 0)
    && Positioned(l.pos[n], Columns(f, 0)[n], LaneOf(f, 0.0, n), pitch, origin)
  }

  ghost predicate ShowsLine(f: Flow, l: Layout, pitch: real, origin: real, sp: NodeId, bs: Branches, j: NodeId) {
    && (sp, j) in l.edgeLanes
    && exists e :: LineAt(f, l, pitch, origin, sp, bs, j, e)
  }

  /** The line drawn for the empty branch of the block is that of its reserved lane `e`. */
  ghost predicate LineAt(f: Flow, l: Layout, pitch: real, origin: real, sp: NodeId, bs: Branches, j: NodeId, e: real) {
    EmptyLane(bs, LaneOf(f, 0.0, sp), e) && (sp, j) in l.edgeLanes && l.edgeLanes[(sp, j)] == origin + e * pitch
  }

  /** What the pixel arguments need to know about a drawn process. */
  ghost predicate Fits(s: Schema, f: Flow) {
    && WellFormed(f) && InColumns(Columns(f, 0), f, 0)
    && (forall n :: n in s.nodes <==> InFlow(f, n))
  }

  lemma DrawnFits(s: Schema, f: Flow)
    requires s.Valid() && Draws(GraphOf(s), f)
    ensures Fits(s, f)
  {
    DrawnColumns(GraphOf(s), f);
    assert GraphOf(s).out.Keys == s.nodes.Keys;
    forall n ensures n in s.nodes <==> InFlow(f, n) {
      assert n in GraphOf(s).out.Keys <==> n in Nodes(f);
    }
  }

  lemma PlacedShows(s: Schema, f: Flow, pitch: real, origin: real, l: Layout)
    requires Fits(s, f) && Roomy(s, pitch) && pitch >= NH + VGAP
    requires Drawing(s, Columns(f, 0), Placed(f, 0.0, NOTHING_PLACED).lane, Placed(f, 0.0, NOTHING_PLACED).empty,
                     pitch, origin, l)
    ensures Shows(s, f, l, pitch, origin)
  {
    var p := Placed(f, 0.0, NOTHING_PLACED);
    forall n | n in s.nodes ensures ShowsNode(f, l, pitch, origin, n) {
      PlacedLane(f, 0.0, NOTHING_PLACED, n);
      assert BoxAt(Columns(f, 0), p.lane, pitch, origin, n, l.pos[n]);
    }
    forall sp, bs, j | HasBlock(f, sp, bs, j) && HasEmpty(bs) ensures ShowsLine(f, l, pitch, origin, sp, bs, j) {
      PlacedShowsLine(f, p, pitch, origin, l, sp, bs, j);
    }
  }

  lemma PlacedShowsLine(f: Flow, p: Placement, pitch: real, origin: real, l: Layout, sp: NodeId, bs: Branches,
      j: NodeId)
    requires WellFormed(f) && HasBlock(f, sp, bs, j) && HasEmpty(bs) && p == Placed(f, 0.0, NOTHING_PLACED)
    requires l.edgeLanes.Keys == p.empty.Keys
    requires forall k :: k in p.empty ==> l.edgeLanes[k] == origin + p.empty[k] * pitch
    ensures ShowsLine(f, l, pitch, origin, sp, bs, j)
  {
    PlacedEmpty(f, 0.0, NOTHING_PLACED, sp, bs, j);
    assert (sp, j) in p.empty;
    assert LineAt(f, l, pitch, origin, sp, bs, j, p.empty[(sp, j)]);
  }

  /** The pixels of the structural placement show the term. */
  lemma DrawnShows(s: Schema, f: Flow, m: map<NodeId, nat>, pitch: real, origin: real, l: Layout)
    requires s.Valid() && Draws(GraphOf(s), f) && DepthMap(GraphOf(s), m)
    requires Drawing(s, m, Placed(f, 0.0, NOTHING_PLACED).lane, Placed(f, 0.0, NOTHING_PLACED).empty, pitch, origin, l)
    requires Roomy(s, pitch) && pitch >= NH + VGAP
    ensures Shows(s, f, l, pitch, origin) && Fits(s, f)
  {
    DrawnPlacement(GraphOf(s), f, m);
    DrawnFits(s, f);
    PlacedShows(s, f, pitch, origin, l);
  }

  /** No two boxes of such a drawing overlap, badge stacks included. */
  lemma ShowsClear(s: Schema, f: Flow, l: Layout, pitch: real, origin: real)
    requires Fits(s, f) && Shows(s, f, l, pitch, origin)
    ensures Clear(s, l.pos)
  {
    forall a, b | a in s.nodes && b in s.nodes && a != b ensures !BoxesOverlap(s, l.pos, a, b) {
      ShowsPairClear(s, f, l, pitch, origin, a, b);
    }
  }

  lemma ShowsPairClear(s: Schema, f: Flow, l: Layout, pitch: real, origin: real, a: NodeId, b: NodeId)
    requires Fits(s, f) && Shows(s, f, l, pitch, origin)
    requires a in s.nodes && b in s.nodes && a != b
    ensures !BoxesOverlap(s, l.pos, a, b)
  {
    SameColumnApart(s, f, a, b);
    assert ShowsNode(f, l, pitch, origin, a) && ShowsNode(f, l, pitch, origin, b);
    PairClear(l.pos[a], Columns(f, 0)[a], LaneOf(f, 0.0, a), BadgeHeight(s.nodes[a]),
              l.pos[b], Columns(f, 0)[b], LaneOf(f, 0.0, b), BadgeHeight(s.nodes[b]), pitch, origin);
  }

  lemma SameColumnApart(s: Schema, f: Flow, a: NodeId, b: NodeId)
    requires Fits(s, f) && a in s.nodes && b in s.nodes && a != b
    ensures a in Columns(f, 0) && b in Columns(f, 0)
    ensures Columns(f, 0)[a] == Columns(f, 0)[b] ==> Apart(LaneOf(f, 0.0, a), LaneOf(f, 0.0, b))
  {
    var m := Columns(f, 0);
    assert InFlow(f, a) && InFlow(f, b);
    if m[a] == m[b] {
      ColumnNeighbours(m, f, 0, 0.0, a, b);
    }
  }

  /** Boxes in different columns, or in one column a lane and a gap apart, are clear. */
  lemma PairClear(a: Box, ca: nat, la: real, ha: real, b: Box, cb: nat, lb: real, hb: real, pitch: real, origin: real)
    requires Positioned(a, ca, la, pitch, origin) && Positioned(b, cb, lb, pitch, origin)
    requires ca == cb ==> Apart(la, lb)
    requires NH + ha + VGAP <= pitch && NH + hb + VGAP <= pitch && ha >= 0.0 && hb >= 0.0
    ensures !Overlap2(a, ha, b, hb)
  {
    if ca < cb {
      ColumnsApart(ca, cb);
    } else if cb < ca {
      ColumnsApart(cb, ca);
    } else {
      var ya, yb := la * pitch, lb * pitch;
      RowsApart(la, lb, pitch, ya, yb);
      RowsClear(ya, yb, ha, hb, pitch, origin);
    }
  }

  lemma RowsClear(ya: real, yb: real, ha: real, hb: real, pitch: real, origin: real)
    requires ya - yb >= 1.25 * pitch || yb - ya >= 1.25 * pitch
    requires NH + ha + VGAP <= pitch && NH + hb + VGAP <= pitch && ha >= 0.0 && hb >= 0.0
    ensures !(origin + ya - NH / 2.0 < origin + yb - NH / 2.0 + NH + hb
            && origin + yb - NH / 2.0 < origin + ya - NH / 2.0 + NH + ha)
  {
  }

  /** The straight run of an empty branch: the horizontal line at `y` strictly between the
      right edge of the split and the left edge of the join. */
  ghost predicate RunTouches(s: Schema, l: Layout, sp: NodeId, j: NodeId, y: real, n: NodeId)
    requires n in s.nodes && {sp, j, n} <= l.pos.Keys
  {
    var b := l.pos[n];
    && b.x < l.pos[j].x && l.pos[sp].x + l.pos[sp].w < b.x + b.w
    && b.y <= y <= b.y + b.h + BadgeHeight(s.nodes[n])
  }

  /** The run of an empty branch on its reserved line touches no box and no badge stack of
      any node of the drawing, siblings of enclosing blocks included. */
  lemma EmptyRunIsFree(s: Schema, f: Flow, l: Layout, pitch: real, origin: real, sp: NodeId, bs: Branches, j: NodeId,
      n: NodeId)
    requires Fits(s, f) && Shows(s, f, l, pitch, origin)
    requires HasBlock(f, sp, bs, j) && HasEmpty(bs) && n in s.nodes
    ensures sp in s.nodes && j in s.nodes && (sp, j) in l.edgeLanes
    ensures !RunTouches(s, l, sp, j, l.edgeLanes[(sp, j)], n)
  {
    BlockKnown(s, f, sp, bs, j);
    assert ShowsNode(f, l, pitch, origin, sp) && ShowsNode(f, l, pitch, origin, j) && ShowsNode(f, l, pitch, origin, n);
    assert ShowsLine(f, l, pitch, origin, sp, bs, j);
    var e := ShownLane(f, l, pitch, origin, sp, bs, j);
    RunApart(s, f, sp, bs, j, e, n);
    LineClear(l.pos[sp], Columns(f, 0)[sp], LaneOf(f, 0.0, sp), l.pos[j], Columns(f, 0)[j], LaneOf(f, 0.0, j),
              l.pos[n], Columns(f, 0)[n], LaneOf(f, 0.0, n), e, BadgeHeight(s.nodes[n]), pitch, origin);
  }

  lemma ShownLane(f: Flow, l: Layout, pitch: real, origin: real, sp: NodeId, bs: Branches, j: NodeId) returns (e: real)
    requires ShowsLine(f, l, pitch, origin, sp, bs, j)
    ensures LineAt(f, l, pitch, origin, sp, bs, j, e)
  {
    e :| LineAt(f, l, pitch, origin, sp, bs, j, e);
  }

  lemma BlockKnown(s: Schema, f: Flow, sp: NodeId, bs: Branches, j: NodeId)
    requires Fits(s, f) && HasBlock(f, sp, bs, j)
    ensures sp in s.nodes && j in s.nodes
  {
    BlockNodes(f, sp, bs, j);
  }

  lemma RunApart(s: Schema, f: Flow, sp: NodeId, bs: Branches, j: NodeId, e: real, n: NodeId)
    requires Fits(s, f) && HasBlock(f, sp, bs, j) && EmptyLane(bs, LaneOf(f, 0.0, sp), e) && n in s.nodes
    ensures sp in Columns(f, 0) && j in Columns(f, 0) && n in Columns(f, 0)
    ensures Columns(f, 0)[sp] < Columns(f, 0)[n] < Columns(f, 0)[j] ==> Apart(LaneOf(f, 0.0, n), e)
  {
    var m := Columns(f, 0);
    BlockNodes(f, sp, bs, j);
    assert InFlow(f, n);
    if m[sp] < m[n] < m[j] {
      EmptyApart(m, f, 0, 0.0, sp, bs, j, e, n);
    }
  }

  /** A horizontal line strictly between two boxes misses every box that stands outside
      their columns or a lane and a gap away. */
  lemma LineClear(sp: Box, cs: nat, ls: real, j: Box, cj: nat, lj: real, b: Box, c: nat, lane: real, e: real,
      h: real, pitch: real, origin: real)
    requires Positioned(sp, cs, ls, pitch, origin) && Positioned(j, cj, lj, pitch, origin)
             && Positioned(b, c, lane, pitch, origin)
    requires cs < c < cj ==> Apart(lane, e)
    requires NH + h + VGAP <= pitch && h >= 0.0
    ensures !(b.x < j.x && sp.x + sp.w < b.x + b.w && b.y <= origin + e * pitch <= b.y + b.h + h)
  {
    if c <= cs {
      ColumnOrder(c, cs);
    } else if c >= cj {
      ColumnOrder(cj, c);
    } else {
      var y, ye := lane * pitch, e * pitch;
      RowsApart(lane, e, pitch, y, ye);
      LineRowClear(y, ye, h, pitch, origin);
    }
  }

  lemma LineRowClear(y: real, ye: real, h: real, pitch: real, origin: real)
    requires y - ye >= 1.25 * pitch || ye - y >= 1.25 * pitch
    requires NH + h + VGAP <= pitch && h >= 0.0
    ensures !(origin + y - NH / 2.0 <= origin + ye <= origin + y - NH / 2.0 + NH + h)
  {
  }

  lemma ColumnOrder(a: nat, b: nat)
    requires a <= b
    ensures a as real * COLUMN <= b as real * COLUMN
  {
    if a < b {
      ColumnsApart(a, b);
    }
  }

  /** Every join stands on the line of its split. */
  lemma {:induction false} JoinOnSplitLane(f: Flow, center: real, s: NodeId, bs: Branches, j: NodeId)
    requires WellFormed(f) && HasBlock(f, s, bs, j)
    ensures LaneOf(f, center, s) == LaneOf(f, center, j)
    decreases f
  {
    match f
    case Step(_, next) =>
      BlockNodes(next, s, bs, j);
      JoinOnSplitLane(next, center, s, bs, j);
    case Block(s', _, bs', j', next) =>
      if s' == s && bs' == bs && j' == j {
      } else if BranchesHaveBlock(bs', s, bs, j) {
        BranchBlockNodes(bs', s, bs, j);
        JoinOnSplitLaneIn(bs', BranchSpans(bs'), center, 0, s, bs, j);
      } else {
        BlockNodes(next, s, bs, j);
        JoinOnSplitLane(next, center, s, bs, j);
      }
    case Loop(_, body, _, next) =>
      if HasBlock(body, s, bs, j) {
        BlockNodes(body, s, bs, j);
        JoinOnSplitLane(body, center, s, bs, j);
      } else {
        BlockNodes(next, s, bs, j);
        JoinOnSplitLane(next, center, s, bs, j);
      }
  }

  lemma {:induction false} JoinOnSplitLaneIn(all: Branches, hs: seq<real>, center: real, i: nat, s: NodeId,
      bs: Branches, j: NodeId)
    requires WellFormedBranches(all) && i + Width(all) == |hs| && BranchesHaveBlock(all, s, bs, j)
    ensures LaneIn(all, hs, center, i, s) == LaneIn(all, hs, center, i, j)
    decreases all
  {
    match all
    case Branch(h, r) =>
      if HasBlock(h, s, bs, j) {
        BlockNodes(h, s, bs, j);
        JoinOnSplitLane(h, BranchCenter(hs, center, i), s, bs, j);
      } else {
        BranchBlockNodes(r, s, bs, j);
        JoinOnSplitLaneIn(r, hs, center, i + 1, s, bs, j);
      }
  }
}
