/** The preferred layout: columns by longest path, lanes by block structure, then pixels.

    Every step of the pixel computation is a method of its own. */
module SpineLayout {
  import opened Basics
  import opened Graphs
  import opened Depths
  import opened Schemas

  /** Adjacency lists of the control flow. */
  method BuildGraph(s: Schema) returns (g: Graph)
    requires s.Valid()
    ensures g == GraphOf(s)
  {
    var es := ControlEdges(s.edges);
    var out: map<NodeId, seq<NodeId>> := map n | n in s.nodes :: [];
    var inc: map<NodeId, seq<NodeId>> := map n | n in s.nodes :: [];
    ListsStart(out, es, s.nodes);
    ListsStart(inc, es, s.nodes);
    for i := 0 to |es|
      invariant TargetsOf(out, es[..i], s.nodes) && SourcesOf(inc, es[..i], s.nodes)
    {
      var e := es[i];
      TargetsStep(out, es, s.nodes, i);
      SourcesStep(inc, es, s.nodes, i);
      out := Link(out, e.source, e.target);
      inc := Link(inc, e.target, e.source);
    }
    assert es[..|es|] == es;
    g := Graph(s.ids, out, inc);
    ListsComplete(s, out, inc);
  }

  lemma ListsComplete(s: Schema, out: map<NodeId, seq<NodeId>>, inc: map<NodeId, seq<NodeId>>)
    requires TargetsOf(out, ControlEdges(s.edges), s.nodes) && SourcesOf(inc, ControlEdges(s.edges), s.nodes)
    ensures Graph(s.ids, out, inc) == GraphOf(s)
  {
    assert out == GraphOf(s).out;
    assert inc == GraphOf(s).inc;
  }

  /** No edge seen yet: every list is empty. */
  lemma ListsStart(out: map<NodeId, seq<NodeId>>, es: seq<SchemaEdge>, nodes: map<NodeId, Node>)
    requires out.Keys == nodes.Keys && forall n :: n in nodes ==> out[n] == []
    ensures TargetsOf(out, es[..0], nodes) && SourcesOf(out, es[..0], nodes)
  {
  }

  /** Appends `b` to the list of `a`, both being known nodes. */
  function Link(lists: map<NodeId, seq<NodeId>>, a: NodeId, b: NodeId): map<NodeId, seq<NodeId>> {
    if a in lists && b in lists then lists[a := lists[a] + [b]] else lists
  }

  ghost predicate TargetsOf(out: map<NodeId, seq<NodeId>>, es: seq<SchemaEdge>, nodes: map<NodeId, Node>) {
    out.Keys == nodes.Keys && forall n :: n in nodes ==> out[n] == Targets(es, nodes, n)
  }

  ghost predicate SourcesOf(inc: map<NodeId, seq<NodeId>>, es: seq<SchemaEdge>, nodes: map<NodeId, Node>) {
    inc.Keys == nodes.Keys && forall n :: n in nodes ==> inc[n] == Sources(es, nodes, n)
  }

  /** One more edge lengthens at most one successor list. */
  lemma TargetsStep(out: map<NodeId, seq<NodeId>>, es: seq<SchemaEdge>, nodes: map<NodeId, Node>, i: nat)
    requires i < |es| && TargetsOf(out, es[..i], nodes)
    ensures
      var e := es[i];
      TargetsOf(Link(out, e.source, e.target), es[..i + 1], nodes)
  {
    var e := es[i];
    var out' := Link(out, e.source, e.target);
    assert es[..i + 1][..i] == es[..i];
    forall n | n in nodes ensures out'[n] == Targets(es[..i + 1], nodes, n) {
      assert out[n] == Targets(es[..i], nodes, n);
    }
  }

  /** One more edge lengthens at most one predecessor list. */
  lemma SourcesStep(inc: map<NodeId, seq<NodeId>>, es: seq<SchemaEdge>, nodes: map<NodeId, Node>, i: nat)
    requires i < |es| && SourcesOf(inc, es[..i], nodes)
    ensures
      var e := es[i];
      SourcesOf(Link(inc, e.target, e.source), es[..i + 1], nodes)
  {
    var e := es[i];
    var inc' := Link(inc, e.target, e.source);
    assert es[..i + 1][..i] == es[..i];
    forall n | n in nodes ensures inc'[n] == Sources(es[..i + 1], nodes, n) {
      assert inc[n] == Sources(es[..i], nodes, n);
    }
  }

  /** The nodes without predecessor, in key order. */
  function Roots(ids: seq<NodeId>, inc: map<NodeId, seq<NodeId>>): (r: seq<NodeId>)
    requires forall n :: n in ids ==> n in inc
  {
    if ids == [] then []
    else (if inc[ids[0]] == [] then [ids[0]] else []) + Roots(ids[1..], inc)
  }

  lemma {:induction false} RootsElements(ids: seq<NodeId>, inc: map<NodeId, seq<NodeId>>)
    requires forall n :: n in ids ==> n in inc
    ensures forall n :: n in Roots(ids, inc) <==> n in ids && inc[n] == []
  {
    if ids != [] {
      assert ids == [ids[0]] + ids[1..];
      RootsElements(ids[1..], inc);
    }
  }

  lemma {:induction false} NoRoots(ids: seq<NodeId>, inc: map<NodeId, seq<NodeId>>)
    requires forall n :: n in ids ==> n in inc && inc[n] != []
    ensures Roots(ids, inc) == []
  {
    if ids != [] {
      NoRoots(ids[1..], inc);
    }
  }

  /** A single node without predecessor in a duplicate-free list. */
  lemma {:induction false} OneRoot(ids: seq<NodeId>, inc: map<NodeId, seq<NodeId>>, r: NodeId)
    requires forall n :: n in ids ==> n in inc
    requires forall i, j :: 0 <= i < j < |ids| ==> ids[i] != ids[j]
    requires r in ids && (forall n :: n in ids ==> (inc[n] == [] <==> n == r))
    ensures Roots(ids, inc) == [r]
  {
    var t := ids[1..];
    assert ids == [ids[0]] + t;
    if ids[0] == r {
      assert r !in t;
      NoRoots(t, inc);
    } else {
      OneRoot(t, inc, r);
    }
  }

  /** Tallest badge stack of the schema. */
  method TallestBadge(s: Schema) returns (b: real)
    requires s.Valid()
    ensures b >= 0.0 && forall n :: n in s.nodes ==> BadgeHeight(s.nodes[n]) <= b
    ensures b == 0.0 || exists n :: n in s.nodes && BadgeHeight(s.nodes[n]) == b
  {
    b := 0.0;
    for i := 0 to |s.ids|
      invariant b >= 0.0 && forall k :: 0 <= k < i ==> BadgeHeight(s.nodes[s.ids[k]]) <= b
      invariant b == 0.0 || exists n :: n in s.nodes && BadgeHeight(s.nodes[n]) == b
    {
      assert s.ids[i] in s.nodes;
      b := Max(b, BadgeHeight(s.nodes[s.ids[i]]));
    }
  }

  /** `c` is at most every middle line of a node, and the line of one of them. */
  ghost predicate TopOf(lane: map<NodeId, real>, ids: seq<NodeId>, pitch: real, c: real) {
    && (forall n :: n in ids ==> n in lane && c <= lane[n] * pitch)
    && (exists n :: n in ids && n in lane && c == lane[n] * pitch)
  }

  method TopNode(ids: seq<NodeId>, lane: map<NodeId, real>, pitch: real) returns (c: real)
    requires ids != [] && forall n :: n in ids ==> n in lane
    ensures TopOf(lane, ids, pitch, c)
  {
    c := lane[ids[0]] * pitch;
    ghost var best := ids[0];
    for i := 0 to |ids|
      invariant forall k :: 0 <= k < i ==> c <= lane[ids[k]] * pitch
      invariant best in ids && c == lane[best] * pitch
    {
      if lane[ids[i]] * pitch < c {
        c := lane[ids[i]] * pitch;
        best := ids[i];
      }
    }
  }

  /** The smaller of `top` and the highest line of an empty branch. */
  method TopLine(empty: map<(NodeId, NodeId), real>, pitch: real, top: real) returns (c: real)
    ensures c <= top && forall k :: k in empty ==> c <= empty[k] * pitch
    ensures c == top || exists k :: k in empty && c == empty[k] * pitch
  {
    c := top;
    var rest := empty.Keys;
    while rest != {}
      invariant rest <= empty.Keys && c <= top
      invariant forall k :: k in empty && k !in rest ==> c <= empty[k] * pitch
      invariant c == top || exists k :: k in empty && c == empty[k] * pitch
      decreases |rest|
    {
      var k :| k in rest;
      rest := rest - {k};
      if empty[k] * pitch < c {
        c := empty[k] * pitch;
      }
    }
  }

  /** Distance of neighbouring columns: a node width and the horizontal gap. */
  const COLUMN := 218.0

  /** The drawing that columns, lanes, row pitch and vertical origin determine. */
  ghost predicate Drawing(s: Schema, m: map<NodeId, nat>, lane: map<NodeId, real>, empty: map<(NodeId, NodeId), real>,
                          pitch: real, origin: real, l: Layout) {
    && l.pos.Keys == s.nodes.Keys && l.edgeLanes.Keys == empty.Keys
    && (forall n :: n in s.nodes ==> BoxAt(m, lane, pitch, origin, n, l.pos[n]))
    && (forall k :: k in empty ==> l.edgeLanes[k] == origin + empty[k] * pitch)
  }

  ghost predicate BoxAt(m: map<NodeId, nat>, lane: map<NodeId, real>, pitch: real, origin: real, n: NodeId, b: Box) {
    n in m && n in lane && Positioned(b, m[n], lane[n], pitch, origin)
  }

  /** A node box in column `c` whose middle line is that of `lane`. */
  ghost predicate Positioned(b: Box, c: nat, lane: real, pitch: real, origin: real) {
    b == Box(PAD + c as real * COLUMN, origin + lane * pitch - NH / 2.0, NW, NH)
  }

  /** The pitch leaves room for every node with its badges. */
  ghost predicate Roomy(s: Schema, pitch: real) {
    forall n :: n in s.nodes ==> NH + BadgeHeight(s.nodes[n]) + VGAP <= pitch
  }

  /** The lines of empty branches keep half a node and the margin inside the drawing. */
  ghost predicate LinesInside(l: Layout) {
    forall k :: k in l.edgeLanes ==> PAD + NH / 2.0 <= l.edgeLanes[k] <= l.height - PAD - NH / 2.0
  }

  /** Rightmost column. */
  method MaxColumn(s: Schema, m: map<NodeId, nat>) returns (c: nat)
    requires s.Valid() && m.Keys >= s.nodes.Keys && s.ids != []
    ensures forall n :: n in s.nodes ==> m[n] <= c
    ensures exists n :: n in s.nodes && m[n] == c
  {
    c := 0;
    assert s.ids[0] in s.nodes;
    ghost var last := s.ids[0];
    for i := 0 to |s.ids|
      invariant forall k :: 0 <= k < i ==> s.ids[k] in m && m[s.ids[k]] <= c
      invariant last in s.nodes && (m[last] == c || (i == 0 && last == s.ids[0] && c == 0))
    {
      assert s.ids[i] in s.nodes;
      if m[s.ids[i]] > c {
        c := m[s.ids[i]];
        last := s.ids[i];
      }
    }
  }

  ghost predicate BoxEndsAt(s: Schema, pos: map<NodeId, Box>, b: real) {
    exists n :: n in s.nodes && n in pos && pos[n].y + NH + BadgeHeight(s.nodes[n]) == b
  }

  ghost predicate LineEndsAt(lines: map<(NodeId, NodeId), real>, b: real) {
    exists k :: k in lines && lines[k] + NH / 2.0 == b
  }

  /** The size is no larger than needed: some box ends at the right margin, and some box or line at
      the lower one, unless the least width or height is more. */
  ghost predicate Snug(s: Schema, l: Layout) {
    && (l.width == 560.0 || exists n :: n in l.pos && l.pos[n].x + l.pos[n].w + PAD == l.width)
    && (l.height == 160.0 || BoxEndsAt(s, l.pos, l.height - PAD) || LineEndsAt(l.edgeLanes, l.height - PAD))
  }

  /** The pitch is that of the tallest badge stack. */
  ghost predicate TightPitch(s: Schema, pitch: real) {
    pitch == NH + VGAP || exists n :: n in s.nodes && pitch == NH + BadgeHeight(s.nodes[n]) + VGAP
  }

  /** Lowest edge of all boxes with badges and of all lines of empty branches. */
  method MaxBottom(s: Schema, pos: map<NodeId, Box>, lines: map<(NodeId, NodeId), real>) returns (b: real)
    requires s.Valid() && pos.Keys == s.nodes.Keys
    ensures forall n :: n in s.nodes ==> pos[n].y + NH + BadgeHeight(s.nodes[n]) <= b
    ensures forall k :: k in lines ==> lines[k] + NH / 2.0 <= b
    ensures b == 0.0 || BoxEndsAt(s, pos, b) || LineEndsAt(lines, b)
  {
    b := 0.0;
    for i := 0 to |s.ids|
      invariant forall k :: 0 <= k < i ==>
                s.ids[k] in s.nodes && pos[s.ids[k]].y + NH + BadgeHeight(s.nodes[s.ids[k]]) <= b
      invariant b == 0.0 || BoxEndsAt(s, pos, b)
    {
      assert s.ids[i] in s.nodes;
      b := Max(b, pos[s.ids[i]].y + NH + BadgeHeight(s.nodes[s.ids[i]]));
    }
    assert forall n :: n in s.nodes ==> pos[n].y + NH + BadgeHeight(s.nodes[n]) <= b;
    var rest := lines.Keys;
    while rest != {}
      invariant rest <= lines.Keys
      invariant forall n :: n in s.nodes ==> pos[n].y + NH + BadgeHeight(s.nodes[n]) <= b
      invariant forall k :: k in lines && k !in rest ==> lines[k] + NH / 2.0 <= b
      invariant b == 0.0 || BoxEndsAt(s, pos, b) || LineEndsAt(lines, b)
      decreases |rest|
    {
      var k :| k in rest;
      rest := rest - {k};
      b := Max(b, lines[k] + NH / 2.0);
    }
  }

  function BoxesOf(s: Schema, m: map<NodeId, nat>, lane: map<NodeId, real>, pitch: real, origin: real)
      : (pos: map<NodeId, Box>)
    requires m.Keys >= s.nodes.Keys && lane.Keys >= s.nodes.Keys
    ensures pos.Keys == s.nodes.Keys && forall n :: n in s.nodes ==> BoxAt(m, lane, pitch, origin, n, pos[n])
  {
    map n | n in s.nodes :: Box(PAD + m[n] as real * COLUMN, origin + lane[n] * pitch - NH / 2.0, NW, NH)
  }

  function LinesOf(empty: map<(NodeId, NodeId), real>, pitch: real, origin: real)
      : (lines: map<(NodeId, NodeId), real>)
    ensures lines.Keys == empty.Keys && forall k :: k in empty ==> lines[k] == origin + empty[k] * pitch
  {
    map k | k in empty :: origin + empty[k] * pitch
  }

  /** Distance of neighbouring lanes: a node, the tallest badge stack, and the gap. */
  method RowPitch(s: Schema) returns (pitch: real)
    requires s.Valid()
    ensures Roomy(s, pitch) && pitch >= NH + VGAP && TightPitch(s, pitch)
  {
    var badge := TallestBadge(s);
    pitch := NH + badge + VGAP;
  }

  /** The size that the rightmost column and the lowest edge ask for. */
  method SizeOf(s: Schema, m: map<NodeId, nat>, pos: map<NodeId, Box>, lines: map<(NodeId, NodeId), real>)
      returns (width: real, height: real, ghost maxCol: nat, ghost bottom: real)
    requires s.Valid() && s.ids != [] && m.Keys >= s.nodes.Keys && pos.Keys == s.nodes.Keys
    ensures width == Max(PAD * 2.0 + (maxCol + 1) as real * NW + maxCol as real * HGAP, 560.0)
    ensures height == Max(bottom + PAD, 160.0)
    ensures (forall n :: n in s.nodes ==> m[n] <= maxCol) && exists n :: n in s.nodes && m[n] == maxCol
    ensures forall n :: n in s.nodes ==> pos[n].y + NH + BadgeHeight(s.nodes[n]) <= bottom
    ensures forall k :: k in lines ==> lines[k] + NH / 2.0 <= bottom
    ensures bottom == 0.0 || BoxEndsAt(s, pos, bottom) || LineEndsAt(lines, bottom)
  {
    var c := MaxColumn(s, m);
    var b := MaxBottom(s, pos, lines);
    maxCol, bottom := c, b;
    width := Max(PAD * 2.0 + (c + 1) as real * NW + c as real * HGAP, 560.0);
    height := Max(b + PAD, 160.0);
  }

  /** Lanes and columns to pixels: a uniform pitch, the topmost line at the margin. */
  method ToPixels(s: Schema, m: map<NodeId, nat>, lane: map<NodeId, real>, empty: map<(NodeId, NodeId), real>)
    returns (l: Layout, ghost pitch: real, ghost origin: real)
    requires s.Valid() && s.ids != [] && m.Keys == s.nodes.Keys && lane.Keys >= s.nodes.Keys
    ensures Drawing(s, m, lane, empty, pitch, origin, l) && Roomy(s, pitch) && pitch >= NH + VGAP
    ensures Inside(s, l) && LinesInside(l) && l.width >= 560.0 && l.height >= 160.0
    ensures TouchesTop(l) && Snug(s, l) && TightPitch(s, pitch)
  {
    var rowPitch := RowPitch(s);
    var node := TopNode(s.ids, lane, rowPitch);
    var top := TopLine(empty, rowPitch, node);
    var originY := PAD + NH / 2.0 - top;
    pitch, origin := rowPitch, originY;
    var pos := BoxesOf(s, m, lane, rowPitch, originY);
    var lines := LinesOf(empty, rowPitch, originY);
    var width, height, maxCol, bottom := SizeOf(s, m, pos, lines);
    l := Layout(pos, lines, width, height);
    DrawingInside(s, m, lane, empty, pitch, origin, l, maxCol, bottom, node, top);
    DrawingSnug(s, m, lane, empty, pitch, origin, l, maxCol, bottom);
  }

  lemma DrawingSnug(s: Schema, m: map<NodeId, nat>, lane: map<NodeId, real>, empty: map<(NodeId, NodeId), real>,
      pitch: real, origin: real, l: Layout, maxCol: nat, bottom: real)
    requires Drawing(s, m, lane, empty, pitch, origin, l)
    requires exists n :: n in s.nodes && n in m && m[n] == maxCol
    requires bottom == 0.0 || BoxEndsAt(s, l.pos, bottom) || LineEndsAt(l.edgeLanes, bottom)
    requires l.width == Max(PAD * 2.0 + (maxCol + 1) as real * NW + maxCol as real * HGAP, 560.0)
    requires l.height == Max(bottom + PAD, 160.0)
    ensures Snug(s, l)
  {
    var n :| n in s.nodes && n in m && m[n] == maxCol;
    assert BoxAt(m, lane, pitch, origin, n, l.pos[n]);
    LastColumnEnds(maxCol);
  }

  lemma LastColumnEnds(c: nat)
    ensures PAD + c as real * COLUMN + NW + PAD == PAD * 2.0 + (c + 1) as real * NW + c as real * HGAP
  {
    var x := c as real;
    assert (c + 1) as real == x + 1.0;
  }

  /** Some box or some line of an empty branch stands at the upper margin. */
  ghost predicate TouchesTop(l: Layout) {
    || (exists n :: n in l.pos && l.pos[n].y == PAD)
    || (exists k :: k in l.edgeLanes && l.edgeLanes[k] == PAD + NH / 2.0)
  }

  lemma DrawingInside(s: Schema, m: map<NodeId, nat>, lane: map<NodeId, real>, empty: map<(NodeId, NodeId), real>,
                      pitch: real, origin: real, l: Layout, maxCol: nat, bottom: real, node: real, top: real)
    requires s.Valid() && Drawing(s, m, lane, empty, pitch, origin, l)
    requires TopOf(lane, s.ids, pitch, node) && top <= node && origin == PAD + NH / 2.0 - top
    requires forall k :: k in empty ==> top <= empty[k] * pitch
    requires top == node || exists k :: k in empty && top == empty[k] * pitch
    requires forall n :: n in s.nodes ==> m[n] <= maxCol && l.pos[n].y + NH + BadgeHeight(s.nodes[n]) <= bottom
    requires forall k :: k in empty ==> l.edgeLanes[k] + NH / 2.0 <= bottom
    requires l.width >= PAD * 2.0 + (maxCol + 1) as real * NW + maxCol as real * HGAP && l.height >= bottom + PAD
    ensures Inside(s, l) && LinesInside(l) && TouchesTop(l)
  {
    forall n | n in s.nodes ensures BoxInside(s, l, n) {
      OneBoxInside(s, m, lane, pitch, origin, l, maxCol, n);
    }
    if top == node {
      var n :| n in s.ids && n in lane && node == lane[n] * pitch;
      assert BoxAt(m, lane, pitch, origin, n, l.pos[n]);
      assert l.pos[n].y == PAD;
    } else {
      var k :| k in empty && top == empty[k] * pitch;
      assert l.edgeLanes[k] == PAD + NH / 2.0;
    }
  }

  lemma OneBoxInside(s: Schema, m: map<NodeId, nat>, lane: map<NodeId, real>, pitch: real, origin: real, l: Layout,
      maxCol: nat, n: NodeId)
    requires n in s.nodes && n in l.pos && BoxAt(m, lane, pitch, origin, n, l.pos[n]) && m[n] <= maxCol
    requires origin + lane[n] * pitch >= PAD + NH / 2.0
    requires l.pos[n].y + NH + BadgeHeight(s.nodes[n]) <= l.height - PAD
    requires l.width >= PAD * 2.0 + (maxCol + 1) as real * NW + maxCol as real * HGAP
    ensures BoxInside(s, l, n)
  {
    ColumnsFitWidth(m[n], maxCol);
  }

  lemma ColumnsFitWidth(c: nat, maxCol: nat)
    requires c <= maxCol
    ensures 0.0 <= c as real * COLUMN
    ensures PAD + c as real * COLUMN + NW <= PAD * 2.0 + (maxCol + 1) as real * NW + maxCol as real * HGAP - PAD
  {
    var a, b := c as real, maxCol as real;
    assert (maxCol + 1) as real == b + 1.0;
    assert (b - a) * COLUMN >= 0.0;
  }

  /** The pairwise test that guards the spine layout. */
  method HasOverlap(s: Schema, pos: map<NodeId, Box>) returns (r: bool)
    requires s.Valid() && pos.Keys == s.nodes.Keys
    ensures r <==> !Clear(s, pos)
  {
    for i := 0 to |s.ids|
      invariant forall a, b :: 0 <= a < i && a < b < |s.ids| ==> !BoxesOverlap(s, pos, s.ids[a], s.ids[b])
    {
      for j := i + 1 to |s.ids|
        invariant forall b :: i < b < j ==> !BoxesOverlap(s, pos, s.ids[i], s.ids[b])
      {
        assert s.ids[i] in s.nodes && s.ids[j] in s.nodes;
        if BoxesOverlap(s, pos, s.ids[i], s.ids[j]) {
          return true;
        }
      }
    }
    AllCompared(s, pos);
    r := false;
  }

  lemma AllCompared(s: Schema, pos: map<NodeId, Box>)
    requires s.Valid() && pos.Keys == s.nodes.Keys
    requires forall i, j :: 0 <= i < j < |s.ids| ==> !BoxesOverlap(s, pos, s.ids[i], s.ids[j])
    ensures Clear(s, pos)
  {
    forall a, b | a in s.nodes && b in s.nodes && a != b ensures !BoxesOverlap(s, pos, a, b) {
      var i :| 0 <= i < |s.ids| && s.ids[i] == a;
      var j :| 0 <= j < |s.ids| && s.ids[j] == b;
      assert !BoxesOverlap(s, pos, s.ids[if i < j then i else j], s.ids[if i < j then j else i]);
    }
  }

  /** The control flow has a cycle. */
  ghost predicate Cyclic(s: Schema)
    requires s.Valid()
  {
    GraphIsControlFlow(s);
    !GraphOf(s).Acyclic()
  }

  /** A box of node size in column `c` of the grid. */
  ghost predicate OnGrid(b: Box, c: nat) {
    b.w == NW && b.h == NH && b.x == PAD + c as real * COLUMN
  }

  ghost predicate Gridded(pos: map<NodeId, Box>) {
    forall n :: n in pos ==> exists c: nat :: OnGrid(pos[n], c)
  }

  /** What a layout promises. */
  ghost predicate SoundLayout(s: Schema, l: Layout) {
    Clear(s, l.pos) && Gridded(l.pos) && Inside(s, l) && LinesInside(l) && l.width >= 560.0 && l.height >= 160.0
  }

  /** Every box stands in the column its depth gives. */
  ghost predicate InTheirColumns(s: Schema, m: map<NodeId, nat>, pos: map<NodeId, Box>) {
    forall n :: n in s.nodes ==> n in m && n in pos && OnGrid(pos[n], m[n])
  }

  ghost predicate InLongestPathColumns(s: Schema, pos: map<NodeId, Box>)
    requires s.Valid()
  {
    GraphIsControlFlow(s);
    exists m :: DepthMap(GraphOf(s), m) && InTheirColumns(s, m, pos)
  }
}
