/** Process schemas as the client holds them, reduced to what the drawing depends on.

    A schema is a table of nodes in key order and a list of edges. Its graph consists of the
    control edges between known nodes; a block-structured schema is the drawing of a term. */
module Schemas {
  import opened Graphs
  import opened Flows

  datatype NodeType =
    | StartNode | EndNode | Activity | Subprocess
    | AndSplit | AndJoin | XorSplit | XorJoin | LoopStart | LoopEnd

  /** A node with the number of its data bindings and whether it carries a staff rule. */
  datatype Node = Node(kind: NodeType, bindings: nat, staffed: bool)

  datatype SchemaEdge = SchemaEdge(source: NodeId, target: NodeId, sync: bool)

  datatype Schema = Schema(ids: seq<NodeId>, nodes: map<NodeId, Node>, edges: seq<SchemaEdge>) {
    /** `ids` are the keys of the node table. */
    ghost predicate Valid() {
      && (forall n :: n in nodes <==> n in ids)
      && (forall i, j :: 0 <= i < j < |ids| ==> ids[i] != ids[j])
    }
  }

  /** SYNC edges are invisible to every structural computation. */
  function ControlEdges(es: seq<SchemaEdge>): (r: seq<SchemaEdge>)
    ensures forall e :: e in r <==> e in es && !e.sync
  {
    if es == [] then []
    else
      assert es == [es[0]] + es[1..];
      (if es[0].sync then [] else [es[0]]) + ControlEdges(es[1..])
  }

  /** Known targets of the edges leaving `n`, in edge order. */
  function Targets(es: seq<SchemaEdge>, nodes: map<NodeId, Node>, n: NodeId): (r: seq<NodeId>) {
    if es == [] then []
    else
      var e := es[|es| - 1];
      Targets(es[..|es| - 1], nodes, n) + (if e.source == n && e.target in nodes then [e.target] else [])
  }

  /** Known sources of the edges entering `n`, in edge order. */
  function Sources(es: seq<SchemaEdge>, nodes: map<NodeId, Node>, n: NodeId): (r: seq<NodeId>) {
    if es == [] then []
    else
      var e := es[|es| - 1];
      Sources(es[..|es| - 1], nodes, n) + (if e.target == n && e.source in nodes then [e.source] else [])
  }

  /** Sources of the edges entering `n`, known or not. */
  function AllSources(es: seq<SchemaEdge>, n: NodeId): (r: seq<NodeId>) {
    if es == [] then []
    else AllSources(es[..|es| - 1], n) + (if es[|es| - 1].target == n then [es[|es| - 1].source] else [])
  }

  ghost function GraphOf(s: Schema): Graph {
    var es := ControlEdges(s.edges);
    Graph(s.ids, map n | n in s.nodes :: Targets(es, s.nodes, n), map n | n in s.nodes :: Sources(es, s.nodes, n))
  }

  ghost predicate HasEdge(es: seq<SchemaEdge>, a: NodeId, b: NodeId) {
    exists e :: e in es && e.source == a && e.target == b
  }

  lemma {:induction false} TargetsAreEdges(es: seq<SchemaEdge>, nodes: map<NodeId, Node>, a: NodeId, b: NodeId)
    ensures b in Targets(es, nodes, a) <==> HasEdge(es, a, b) && b in nodes
  {
    if es != [] {
      TargetsAreEdges(es[..|es| - 1], nodes, a, b);
      assert es == es[..|es| - 1] + [es[|es| - 1]];
    }
  }

  lemma {:induction false} AllSourcesAreEdges(es: seq<SchemaEdge>, a: NodeId, b: NodeId)
    ensures a in AllSources(es, b) <==> HasEdge(es, a, b)
  {
    if es != [] {
      AllSourcesAreEdges(es[..|es| - 1], a, b);
      assert es == es[..|es| - 1] + [es[|es| - 1]];
    }
  }

  lemma {:induction false} SourcesAreEdges(es: seq<SchemaEdge>, nodes: map<NodeId, Node>, a: NodeId, b: NodeId)
    ensures a in Sources(es, nodes, b) <==> HasEdge(es, a, b) && a in nodes
  {
    if es != [] {
      SourcesAreEdges(es[..|es| - 1], nodes, a, b);
      assert es == es[..|es| - 1] + [es[|es| - 1]];
    }
  }

  lemma ListsAgree(s: Schema, a: NodeId, b: NodeId)
    ensures
      var g, es := GraphOf(s), ControlEdges(s.edges);
      && (a in g.out && b in g.out[a] <==> a in s.nodes && b in s.nodes && HasEdge(es, a, b))
      && (b in g.inc && a in g.inc[b] <==> a in s.nodes && b in s.nodes && HasEdge(es, a, b))
  {
    TargetsAreEdges(ControlEdges(s.edges), s.nodes, a, b);
    SourcesAreEdges(ControlEdges(s.edges), s.nodes, a, b);
  }

  /** The adjacency lists describe the same edges. */
  lemma GraphValid(s: Schema)
    ensures GraphOf(s).Valid()
  {
    var g := GraphOf(s);
    forall a, b {:trigger b in g.out[a]} | a in g.out && b in g.out[a] ensures b in g.inc && a in g.inc[b] {
      ListsAgree(s, a, b);
    }
    forall a, b {:trigger a in g.inc[b]} | b in g.inc && a in g.inc[b] ensures a in g.out && b in g.out[a] {
      ListsAgree(s, a, b);
    }
  }

  lemma GraphEdges(s: Schema)
    ensures forall a, b ::
      GraphOf(s).Edge(a, b) <==> a in s.nodes && b in s.nodes && HasEdge(ControlEdges(s.edges), a, b)
  {
    var es := ControlEdges(s.edges);
    forall a, b ensures GraphOf(s).Edge(a, b) <==> a in s.nodes && b in s.nodes && HasEdge(es, a, b) {
      ListsAgree(s, a, b);
    }
  }

  /** The two adjacency lists describe one graph: exactly the control edges between known
      nodes. */
  lemma GraphIsControlFlow(s: Schema)
    requires s.Valid()
    ensures GraphOf(s).Valid() && GraphOf(s).Listed()
    ensures forall a, b ::
      GraphOf(s).Edge(a, b) <==> a in s.nodes && b in s.nodes && HasEdge(ControlEdges(s.edges), a, b)
  {
    GraphValid(s);
    GraphEdges(s);
  }

  /** The node types of the schema fit the term: splits, joins and loop delimiters occur
      exactly at the ends of their blocks. */
  ghost predicate Typed(nodes: map<NodeId, Node>, f: Flow) {
    match f
    case Done => true
    case Step(id, next) =>
      && id in nodes && nodes[id].kind in {StartNode, EndNode, Activity, Subprocess}
      && Typed(nodes, next)
    case Block(s, xor, bs, j, next) =>
      && s in nodes && nodes[s].kind == (if xor then XorSplit else AndSplit)
      && j in nodes && nodes[j].kind == (if xor then XorJoin else AndJoin)
      && TypedBranches(nodes, bs) && Typed(nodes, next)
    case Loop(s, body, e, next) =>
      && s in nodes && nodes[s].kind == LoopStart
      && e in nodes && nodes[e].kind == LoopEnd
      && Typed(nodes, body) && Typed(nodes, next)
  }

  ghost predicate TypedBranches(nodes: map<NodeId, Node>, bs: Branches) {
    match bs
    case NoMore => true
    case Branch(h, r) => Typed(nodes, h) && TypedBranches(nodes, r)
  }

  /** The schema is the block-structured process `f`. */
  ghost predicate BlockStructured(s: Schema, f: Flow) {
    s.Valid() && Draws(GraphOf(s), f) && Typed(s.nodes, f)
  }

  // ---------------------------------------------------------------- badges

  const CHIP_H := 16.0
  const CHIP_GAP := 3.0
  const CHIP_TOP := 5.0
  const CHIP_BOTTOM := 4.0

  /** Chips under a node: one per data binding (from four on two plus a collective chip)
      and one for the staff rule. */
  function ChipCount(n: Node): nat {
    if n.kind != Activity && n.kind != Subprocess then 0
    else (if n.bindings <= 3 then n.bindings else 3) + (if n.staffed then 1 else 0)
  }

  /** A chip for one data binding, for the remaining ones, or for the staff rule. */
  datatype Chip = Named(binding: nat) | Remaining(count: nat) | Staff

  function NamedChips(k: nat): (r: seq<Chip>)
    ensures |r| == k
  {
    seq(k, i requires i >= 0 => Named(i))
  }

  /** The chips under a node: one per data binding (from four on two plus a collective chip) and
      one for the staff rule. */
  function Chips(n: Node): seq<Chip> {
    if n.kind != Activity && n.kind != Subprocess then []
    else
      (if n.bindings <= 3 then NamedChips(n.bindings) else NamedChips(2) + [Remaining(n.bindings - 2)])
      + (if n.staffed then [Staff] else [])
  }

  /** How many bindings a chip stands for. */
  function StandsFor(c: Chip): nat {
    match c case Named(_) => 1 case Remaining(k) => k case Staff => 0
  }

  function AllStandFor(cs: seq<Chip>): nat {
    if cs == [] then 0 else AllStandFor(cs[..|cs| - 1]) + StandsFor(cs[|cs| - 1])
  }

  lemma StandForOneMore(cs: seq<Chip>, c: Chip)
    ensures AllStandFor(cs + [c]) == AllStandFor(cs) + StandsFor(c)
  {
    assert (cs + [c])[..|cs|] == cs;
  }

  lemma {:induction false} NamedStandFor(k: nat)
    ensures AllStandFor(NamedChips(k)) == k
  {
    if k > 0 {
      NamedStandFor(k - 1);
      assert NamedChips(k) == NamedChips(k - 1) + [Named(k - 1)];
      StandForOneMore(NamedChips(k - 1), Named(k - 1));
    }
  }

  /** The chips that are counted stand for all bindings and the staff rule of an activity; at most
      three stand for bindings, and only a chip for at least two bindings is not named after one. */
  lemma ChipsShowAll(n: Node)
    requires n.kind == Activity || n.kind == Subprocess
    ensures ChipCount(n) == |Chips(n)| && AllStandFor(Chips(n)) == n.bindings
    ensures Staff in Chips(n) <==> n.staffed
    ensures ChipCount(n) <= 3 + (if n.staffed then 1 else 0)
    ensures forall i :: 0 <= i < |Chips(n)| ==>
      match Chips(n)[i] case Named(b) => b == i case Remaining(k) => k >= 2 && i == 2 case Staff => i == |Chips(n)| - 1
  {
    var data := if n.bindings <= 3 then NamedChips(n.bindings) else NamedChips(2) + [Remaining(n.bindings - 2)];
    NamedStandFor(n.bindings);
    NamedStandFor(2);
    if n.bindings > 3 {
      StandForOneMore(NamedChips(2), Remaining(n.bindings - 2));
    }
    StandForOneMore(data, Staff);
    assert Chips(n) == data + (if n.staffed then [Staff] else []);
    if n.staffed {
      assert Chips(n)[|data|] == Staff;
    } else {
      assert Chips(n) == data;
    }
  }

  /** Where the drawing puts the `i`-th chip below the box. */
  function ChipTop(i: nat): real {
    if i == 0 then CHIP_TOP else ChipTop(i - 1) + CHIP_H + CHIP_GAP
  }

  lemma {:induction false} ChipTopAt(i: nat)
    ensures ChipTop(i) == CHIP_TOP + i as real * (CHIP_H + CHIP_GAP)
  {
    if i > 0 {
      ChipTopAt(i - 1);
    }
  }

  /** The reserved height is exactly that of the drawn chips and the space below the last one. */
  lemma BadgeIsDrawnHeight(n: Node)
    ensures
      var c := ChipCount(n);
      BadgeHeight(n) == if c == 0 then 0.0 else ChipTop(c - 1) + CHIP_H + CHIP_BOTTOM
  {
    if ChipCount(n) > 0 {
      ChipTopAt(ChipCount(n) - 1);
    }
  }

  /** Height of the badge stack under a node. */
  function BadgeHeight(n: Node): (h: real)
    ensures 0.0 <= h <= 82.0
  {
    var c := ChipCount(n);
    if c == 0 then 0.0 else CHIP_TOP + c as real * CHIP_H + (c - 1) as real * CHIP_GAP + CHIP_BOTTOM
  }

  // ---------------------------------------------------------------- layouts

  const NW := 144.0
  const NH := 56.0
  const HGAP := 74.0
  const VGAP := 26.0
  const PAD := 32.0

  datatype Box = Box(x: real, y: real, w: real, h: real)

  /** Node boxes, middle lines of empty branches by split and join, and the drawing size. */
  datatype Layout = Layout(pos: map<NodeId, Box>, edgeLanes: map<(NodeId, NodeId), real>, width: real, height: real)

  /** Two rectangles that include the badge stacks `ha` and `hb` below them. */
  predicate Overlap2(a: Box, ha: real, b: Box, hb: real) {
    && a.x < b.x + b.w && b.x < a.x + a.w
    && a.y < b.y + b.h + hb && b.y < a.y + a.h + ha
  }

  predicate BoxesOverlap(s: Schema, pos: map<NodeId, Box>, a: NodeId, b: NodeId)
    requires a in s.nodes && b in s.nodes && a in pos && b in pos
  {
    Overlap2(pos[a], BadgeHeight(s.nodes[a]), pos[b], BadgeHeight(s.nodes[b]))
  }

  /** Every node has a box, and no two boxes with their badges overlap. */
  ghost predicate Clear(s: Schema, pos: map<NodeId, Box>) {
    && pos.Keys == s.nodes.Keys
    && (forall a, b :: a in s.nodes && b in s.nodes && a != b ==> !BoxesOverlap(s, pos, a, b))
  }

  /** The box of `n` with its badges keeps the margin inside the drawing. */
  ghost predicate BoxInside(s: Schema, l: Layout, n: NodeId) {
    && n in s.nodes && n in l.pos
    && PAD <= l.pos[n].x && l.pos[n].x + l.pos[n].w <= l.width - PAD
    && PAD <= l.pos[n].y && l.pos[n].y + l.pos[n].h + BadgeHeight(s.nodes[n]) <= l.height - PAD
  }

  ghost predicate Inside(s: Schema, l: Layout) {
    l.pos.Keys == s.nodes.Keys && forall n :: n in s.nodes ==> BoxInside(s, l, n)
  }
}
