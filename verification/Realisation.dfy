/** Which block terms are processes: the schema that a term describes.

    Its nodes are listed in the order of the term, its edges source by source; so the successor
    lists of its graph are those that the term asks for. */
module Realisation {
  import opened Basics
  import opened Graphs
  import opened Flows
  import opened Schemas

  type Edges = seq<SchemaEdge>

  /** Every split opens at least two branches. */
  ghost predicate Wide(f: Flow) {
    match f
    case Done => true
    case Step(_, next) => Wide(next)
    case Block(_, _, bs, _, next) => Width(bs) >= 2 && WideBranches(bs) && Wide(next)
    case Loop(_, body, _, next) => Wide(body) && Wide(next)
  }

  ghost predicate WideBranches(bs: Branches) {
    match bs
    case NoMore => true
    case Branch(h, r) => Wide(h) && WideBranches(r)
  }

  // ---------------------------------------------------------------- the schema of a term

  function NodeList(f: Flow): seq<NodeId> {
    match f
    case Done => []
    case Step(id, next) => [id] + NodeList(next)
    case Block(s, _, bs, j, next) => [s] + BranchList(bs) + [j] + NodeList(next)
    case Loop(s, body, e, next) => [s] + NodeList(body) + [e] + NodeList(next)
  }

  function BranchList(bs: Branches): seq<NodeId> {
    match bs
    case NoMore => []
    case Branch(h, r) => NodeList(h) + BranchList(r)
  }

  function Plain(kind: NodeType): Node {
    Node(kind, 0, false)
  }

  function NodeTable(f: Flow): map<NodeId, Node> {
    match f
    case Done => map[]
    case Step(id, next) => NodeTable(next)[id := Plain(Activity)]
    case Block(s, xor, bs, j, next) =>
      (BranchTable(bs) + NodeTable(next))
      [s := Plain(if xor then XorSplit else AndSplit)][j := Plain(if xor then XorJoin else AndJoin)]
    case Loop(s, body, e, next) =>
      (NodeTable(body) + NodeTable(next))[s := Plain(LoopStart)][e := Plain(LoopEnd)]
  }

  function BranchTable(bs: Branches): map<NodeId, Node> {
    match bs
    case NoMore => map[]
    case Branch(h, r) => NodeTable(h) + BranchTable(r)
  }

  /** Edges from `n` to the given targets, in this order. */
  function EdgesTo(n: NodeId, ts: seq<NodeId>): Edges {
    if ts == [] then [] else EdgesTo(n, ts[..|ts| - 1]) + [SchemaEdge(n, ts[|ts| - 1], false)]
  }

  function EdgeList(f: Flow, stop: Option<NodeId>): Edges {
    match f
    case Done => []
    case Step(id, next) => EdgesTo(id, Only(Entry(next, stop))) + EdgeList(next, stop)
    case Block(s, _, bs, j, next) =>
      EdgesTo(s, Heads(bs, j)) + BranchEdges(bs, j) + EdgesTo(j, Only(Entry(next, stop))) + EdgeList(next, stop)
    case Loop(s, body, e, next) =>
      EdgesTo(s, Only(Entry(body, Some(e)))) + EdgeList(body, Some(e))
      + EdgesTo(e, Only(Entry(next, stop))) + EdgeList(next, stop)
  }

  function BranchEdges(bs: Branches, j: NodeId): Edges {
    match bs
    case NoMore => []
    case Branch(h, r) => EdgeList(h, Some(j)) + BranchEdges(r, j)
  }

  function SchemaOf(f: Flow): Schema {
    Schema(NodeList(f), NodeTable(f), EdgeList(f, None))
  }

  // ---------------------------------------------------------------- its nodes

  lemma {:induction false} ListsNodes(f: Flow)
    ensures forall n :: n in NodeList(f) <==> n in Nodes(f)
    ensures NodeTable(f).Keys == Nodes(f)
    decreases f
  {
    match f
    case Done =>
    case Step(_, next) => ListsNodes(next);
    case Block(_, _, bs, _, next) =>
      ListsBranchNodes(bs);
      ListsNodes(next);
    case Loop(_, body, _, next) =>
      ListsNodes(body);
      ListsNodes(next);
  }

  lemma {:induction false} ListsBranchNodes(bs: Branches)
    ensures forall n :: n in BranchList(bs) <==> n in BranchNodes(bs)
    ensures BranchTable(bs).Keys == BranchNodes(bs)
    decreases bs
  {
    match bs
    case NoMore =>
    case Branch(h, r) =>
      ListsNodes(h);
      ListsBranchNodes(r);
  }

  lemma DistinctConcat(a: seq<NodeId>, b: seq<NodeId>)
    requires Distinct(a) && Distinct(b) && forall n :: n in a ==> n !in b
    ensures Distinct(a + b)
  {
    forall i, j | 0 <= i < j < |a + b| ensures (a + b)[i] != (a + b)[j] {
      if i < |a| <= j {
        assert a[i] in a && b[j - |a|] in b;
      }
    }
  }

  /** Two parts without common nodes, each behind a node of its own. */
  lemma DistinctParts(s: NodeId, a: seq<NodeId>, e: NodeId, b: seq<NodeId>)
    requires s != e && s !in a && s !in b && e !in a && e !in b
    requires Distinct(a) && Distinct(b) && forall n :: n in a ==> n !in b
    ensures Distinct([s] + a + [e] + b)
  {
    DistinctConcat([e], b);
    DistinctConcat([s], a);
    DistinctConcat([s] + a, [e] + b);
    assert [s] + a + [e] + b == ([s] + a) + ([e] + b);
  }

  lemma {:induction false} ListDistinct(f: Flow)
    requires WellFormed(f)
    ensures Distinct(NodeList(f))
    decreases f
  {
    match f
    case Done =>
    case Step(id, next) =>
      ListsNodes(next);
      ListDistinct(next);
      DistinctConcat([id], NodeList(next));
    case Block(s, _, bs, j, next) =>
      ListsBranchNodes(bs);
      ListsNodes(next);
      BranchListDistinct(bs);
      ListDistinct(next);
      DistinctParts(s, BranchList(bs), j, NodeList(next));
    case Loop(s, body, e, next) =>
      ListsNodes(body);
      ListsNodes(next);
      ListDistinct(body);
      ListDistinct(next);
      DistinctParts(s, NodeList(body), e, NodeList(next));
  }

  lemma {:induction false} BranchListDistinct(bs: Branches)
    requires WellFormedBranches(bs)
    ensures Distinct(BranchList(bs))
    decreases bs
  {
    match bs
    case NoMore =>
    case Branch(h, r) =>
      ListsNodes(h);
      ListsBranchNodes(r);
      ListDistinct(h);
      BranchListDistinct(r);
      DistinctConcat(NodeList(h), BranchList(r));
  }

  // ---------------------------------------------------------------- its node types

  /** `m` agrees with the table `t`. */
  ghost predicate Includes(m: map<NodeId, Node>, t: map<NodeId, Node>) {
    forall n :: n in t ==> n in m && m[n] == t[n]
  }

  lemma IncludesParts(m: map<NodeId, Node>, a: map<NodeId, Node>, b: map<NodeId, Node>, s: NodeId, x: Node,
      e: NodeId, y: Node)
    requires Includes(m, (a + b)[s := x][e := y])
    requires s != e && {s, e} !! a.Keys && {s, e} !! b.Keys && a.Keys !! b.Keys
    ensures Includes(m, a) && Includes(m, b)
    ensures s in m && m[s] == x && e in m && m[e] == y
  {
    var u := (a + b)[s := x][e := y];
    assert s in u && e in u;
    forall n | n in a ensures n in m && m[n] == a[n] {
      assert n !in b && n in u;
    }
    forall n | n in b ensures n in m && m[n] == b[n] {
      assert n in u;
    }
  }

  lemma {:induction false} TableTyped(m: map<NodeId, Node>, f: Flow)
    requires WellFormed(f) && Includes(m, NodeTable(f))
    ensures Typed(m, f)
    decreases f
  {
    match f
    case Done =>
    case Step(id, next) =>
      ListsNodes(next);
      assert id in NodeTable(f);
      forall n | n in NodeTable(next) ensures n in m && m[n] == NodeTable(next)[n] {
        assert n in NodeTable(f);
      }
      TableTyped(m, next);
    case Block(s, xor, bs, j, next) =>
      ListsBranchNodes(bs);
      ListsNodes(next);
      IncludesParts(m, BranchTable(bs), NodeTable(next), s, Plain(if xor then XorSplit else AndSplit),
                    j, Plain(if xor then XorJoin else AndJoin));
      BranchTableTyped(m, bs);
      TableTyped(m, next);
    case Loop(s, body, e, next) =>
      ListsNodes(body);
      ListsNodes(next);
      IncludesParts(m, NodeTable(body), NodeTable(next), s, Plain(LoopStart), e, Plain(LoopEnd));
      TableTyped(m, body);
      TableTyped(m, next);
  }

  lemma {:induction false} BranchTableTyped(m: map<NodeId, Node>, bs: Branches)
    requires WellFormedBranches(bs) && Includes(m, BranchTable(bs))
    ensures TypedBranches(m, bs)
    decreases bs
  {
    match bs
    case NoMore =>
    case Branch(h, r) =>
      ListsNodes(h);
      ListsBranchNodes(r);
      forall n | n in NodeTable(h) ensures n in m && m[n] == NodeTable(h)[n] {
        assert n in BranchTable(bs) && n !in BranchTable(r);
      }
      forall n | n in BranchTable(r) ensures n in m && m[n] == BranchTable(r)[n] {
        assert n in BranchTable(bs);
      }
      TableTyped(m, h);
      BranchTableTyped(m, r);
  }

  // ---------------------------------------------------------------- its edges

  lemma {:induction false} TargetsConcat(a: Edges, b: Edges, nodes: map<NodeId, Node>, n: NodeId)
    ensures Targets(a + b, nodes, n) == Targets(a, nodes, n) + Targets(b, nodes, n)
    decreases |b|
  {
    if b == [] {
      assert a + b == a;
    } else {
      assert (a + b)[..|a + b| - 1] == a + b[..|b| - 1];
      TargetsConcat(a, b[..|b| - 1], nodes, n);
    }
  }

  lemma TargetsOfOneMore(es: Edges, s: NodeId, t: NodeId, nodes: map<NodeId, Node>, n: NodeId)
    requires t in nodes
    ensures Targets(es + [SchemaEdge(s, t, false)], nodes, n) == Targets(es, nodes, n) + (if n == s then [t] else [])
  {
    assert (es + [SchemaEdge(s, t, false)])[..|es|] == es;
  }

  lemma {:induction false} TargetsOfEdgesTo(s: NodeId, ts: seq<NodeId>, nodes: map<NodeId, Node>, n: NodeId)
    requires forall i :: 0 <= i < |ts| ==> ts[i] in nodes
    ensures Targets(EdgesTo(s, ts), nodes, n) == if n == s then ts else []
  {
    if ts != [] {
      var init, last := ts[..|ts| - 1], ts[|ts| - 1];
      assert ts == init + [last];
      TargetsOfEdgesTo(s, init, nodes, n);
      TargetsOfOneMore(EdgesTo(s, init), s, last, nodes, n);
    }
  }

  /** Where control leads from `f` is known. */
  ghost predicate Known(nodes: map<NodeId, Node>, f: Flow, stop: Option<NodeId>) {
    Nodes(f) <= nodes.Keys && (stop.Some? ==> stop.value in nodes)
  }

  ghost predicate BranchesKnown(nodes: map<NodeId, Node>, bs: Branches, j: NodeId) {
    BranchNodes(bs) <= nodes.Keys && j in nodes
  }

  lemma {:induction false} HeadsKnown(nodes: map<NodeId, Node>, bs: Branches, j: NodeId)
    requires BranchesKnown(nodes, bs, j)
    ensures forall i :: 0 <= i < |Heads(bs, j)| ==> Heads(bs, j)[i] in nodes
    decreases bs
  {
    match bs
    case NoMore =>
    case Branch(h, r) =>
      HeadsKnown(nodes, r, j);
      assert h != Done ==> Entry(h, Some(j)).value in Nodes(h);
  }

  /** The targets that four lists of edges give to `n`. */
  lemma TargetsOfParts(s: NodeId, ts: seq<NodeId>, a: Edges, e: NodeId, us: seq<NodeId>, b: Edges,
      nodes: map<NodeId, Node>, n: NodeId)
    requires forall i :: 0 <= i < |ts| ==> ts[i] in nodes
    requires forall i :: 0 <= i < |us| ==> us[i] in nodes
    ensures Targets(EdgesTo(s, ts) + a + EdgesTo(e, us) + b, nodes, n) ==
            (if n == s then ts else []) + Targets(a, nodes, n) + (if n == e then us else []) + Targets(b, nodes, n)
  {
    TargetsOfEdgesTo(s, ts, nodes, n);
    TargetsOfEdgesTo(e, us, nodes, n);
    TargetsConcat(EdgesTo(s, ts) + a + EdgesTo(e, us), b, nodes, n);
    TargetsConcat(EdgesTo(s, ts) + a, EdgesTo(e, us), nodes, n);
    TargetsConcat(EdgesTo(s, ts), a, nodes, n);
  }

  /** No edge of `f` starts at a node outside it. */
  lemma {:induction false} NoTargets(nodes: map<NodeId, Node>, f: Flow, stop: Option<NodeId>, n: NodeId)
    requires Known(nodes, f, stop) && n !in Nodes(f)
    ensures Targets(EdgeList(f, stop), nodes, n) == []
    decreases f
  {
    match f
    case Done =>
    case Step(id, next) =>
      TargetsOfEdgesTo(id, Only(Entry(next, stop)), nodes, n);
      TargetsConcat(EdgesTo(id, Only(Entry(next, stop))), EdgeList(next, stop), nodes, n);
      NoTargets(nodes, next, stop, n);
    case Block(s, _, bs, j, next) =>
      HeadsKnown(nodes, bs, j);
      TargetsOfParts(s, Heads(bs, j), BranchEdges(bs, j), j, Only(Entry(next, stop)), EdgeList(next, stop), nodes, n);
      NoBranchTargets(nodes, bs, j, n);
      NoTargets(nodes, next, stop, n);
    case Loop(s, body, e, next) =>
      TargetsOfParts(s, Only(Entry(body, Some(e))), EdgeList(body, Some(e)), e, Only(Entry(next, stop)),
                     EdgeList(next, stop), nodes, n);
      NoTargets(nodes, body, Some(e), n);
      NoTargets(nodes, next, stop, n);
  }

  lemma {:induction false} NoBranchTargets(nodes: map<NodeId, Node>, bs: Branches, j: NodeId, n: NodeId)
    requires BranchesKnown(nodes, bs, j) && n !in BranchNodes(bs)
    ensures Targets(BranchEdges(bs, j), nodes, n) == []
    decreases bs
  {
    match bs
    case NoMore =>
    case Branch(h, r) =>
      TargetsConcat(EdgeList(h, Some(j)), BranchEdges(r, j), nodes, n);
      NoTargets(nodes, h, Some(j), n);
      NoBranchTargets(nodes, r, j, n);
  }

  /** `out` lists for the nodes `ns` the targets among the edges `es`. */
  ghost predicate Lists(out: Successors, nodes: map<NodeId, Node>, ns: set<NodeId>, es: Edges) {
    forall n :: n in ns ==> n in out && out[n] == Targets(es, nodes, n)
  }

  lemma StepLists(out: Successors, nodes: map<NodeId, Node>, f: Flow, stop: Option<NodeId>)
    requires f.Step? && WellFormed(f) && Known(nodes, f, stop) && Lists(out, nodes, Nodes(f), EdgeList(f, stop))
    ensures Serial(out, f.id, f.next, stop) && Lists(out, nodes, Nodes(f.next), EdgeList(f.next, stop))
  {
    var only := Only(Entry(f.next, stop));
    forall n | n in Nodes(f)
      ensures n in out && out[n] == (if n == f.id then only else []) + Targets(EdgeList(f.next, stop), nodes, n)
    {
      TargetsOfEdgesTo(f.id, only, nodes, n);
      TargetsConcat(EdgesTo(f.id, only), EdgeList(f.next, stop), nodes, n);
    }
    NoTargets(nodes, f.next, stop, f.id);
  }

  lemma BlockLists(out: Successors, nodes: map<NodeId, Node>, f: Flow, stop: Option<NodeId>)
    requires f.Block? && WellFormed(f) && Known(nodes, f, stop) && Lists(out, nodes, Nodes(f), EdgeList(f, stop))
    ensures f.split in out && out[f.split] == Heads(f.branches, f.join) && Serial(out, f.join, f.next, stop)
    ensures Lists(out, nodes, BranchNodes(f.branches), BranchEdges(f.branches, f.join))
    ensures Lists(out, nodes, Nodes(f.next), EdgeList(f.next, stop))
  {
    var hs, only := Heads(f.branches, f.join), Only(Entry(f.next, stop));
    var a, b := BranchEdges(f.branches, f.join), EdgeList(f.next, stop);
    HeadsKnown(nodes, f.branches, f.join);
    forall n | n in Nodes(f)
      ensures n in out
      ensures out[n] == (if n == f.split then hs else []) + Targets(a, nodes, n)
                        + (if n == f.join then only else []) + Targets(b, nodes, n)
      ensures n !in BranchNodes(f.branches) ==> Targets(a, nodes, n) == []
      ensures n !in Nodes(f.next) ==> Targets(b, nodes, n) == []
    {
      TargetsOfParts(f.split, hs, a, f.join, only, b, nodes, n);
      if n !in BranchNodes(f.branches) { NoBranchTargets(nodes, f.branches, f.join, n); }
      if n !in Nodes(f.next) { NoTargets(nodes, f.next, stop, n); }
    }
  }

  lemma LoopLists(out: Successors, nodes: map<NodeId, Node>, f: Flow, stop: Option<NodeId>)
    requires f.Loop? && WellFormed(f) && Known(nodes, f, stop) && Lists(out, nodes, Nodes(f), EdgeList(f, stop))
    ensures Serial(out, f.start, f.body, Some(f.end)) && Serial(out, f.end, f.next, stop)
    ensures Lists(out, nodes, Nodes(f.body), EdgeList(f.body, Some(f.end)))
    ensures Lists(out, nodes, Nodes(f.next), EdgeList(f.next, stop))
  {
    var first, only := Only(Entry(f.body, Some(f.end))), Only(Entry(f.next, stop));
    var a, b := EdgeList(f.body, Some(f.end)), EdgeList(f.next, stop);
    forall n | n in Nodes(f)
      ensures n in out
      ensures out[n] == (if n == f.start then first else []) + Targets(a, nodes, n)
                        + (if n == f.end then only else []) + Targets(b, nodes, n)
      ensures n !in Nodes(f.body) ==> Targets(a, nodes, n) == []
      ensures n !in Nodes(f.next) ==> Targets(b, nodes, n) == []
    {
      TargetsOfParts(f.start, first, a, f.end, only, b, nodes, n);
      if n !in Nodes(f.body) { NoTargets(nodes, f.body, Some(f.end), n); }
      if n !in Nodes(f.next) { NoTargets(nodes, f.next, stop, n); }
    }
  }

  lemma {:induction false} ListEmbeds(out: Successors, nodes: map<NodeId, Node>, f: Flow, stop: Option<NodeId>)
    requires WellFormed(f) && Wide(f) && Known(nodes, f, stop) && Lists(out, nodes, Nodes(f), EdgeList(f, stop))
    ensures Embeds(out, f, stop)
    decreases f
  {
    match f
    case Done =>
    case Step(_, next) =>
      StepLists(out, nodes, f, stop);
      ListEmbeds(out, nodes, next, stop);
    case Block(_, _, bs, j, next) =>
      BlockLists(out, nodes, f, stop);
      BranchListEmbeds(out, nodes, bs, j);
      ListEmbeds(out, nodes, next, stop);
    case Loop(_, body, e, next) =>
      LoopLists(out, nodes, f, stop);
      ListEmbeds(out, nodes, body, Some(e));
      ListEmbeds(out, nodes, next, stop);
  }

  lemma {:induction false} BranchListEmbeds(out: Successors, nodes: map<NodeId, Node>, bs: Branches, j: NodeId)
    requires WellFormedBranches(bs) && WideBranches(bs) && BranchesKnown(nodes, bs, j)
    requires Lists(out, nodes, BranchNodes(bs), BranchEdges(bs, j))
    ensures EmbedsBranches(out, bs, j)
    decreases bs
  {
    match bs
    case NoMore =>
    case Branch(h, r) =>
      forall n | n in BranchNodes(bs)
        ensures n in Nodes(h) ==> n in out && out[n] == Targets(EdgeList(h, Some(j)), nodes, n)
        ensures n in BranchNodes(r) ==> n in out && out[n] == Targets(BranchEdges(r, j), nodes, n)
      {
        TargetsConcat(EdgeList(h, Some(j)), BranchEdges(r, j), nodes, n);
        if n in Nodes(h) { NoBranchTargets(nodes, r, j, n); } else { NoTargets(nodes, h, Some(j), n); }
      }
      ListEmbeds(out, nodes, h, Some(j));
      BranchListEmbeds(out, nodes, r, j);
  }

  // ---------------------------------------------------------------- the theorem

  lemma {:induction false} AllControl(es: Edges)
    requires forall i :: 0 <= i < |es| ==> !es[i].sync
    ensures ControlEdges(es) == es
  {
    if es != [] {
      AllControl(es[1..]);
    }
  }

  lemma {:induction false} EdgesToControl(n: NodeId, ts: seq<NodeId>)
    ensures forall i :: 0 <= i < |EdgesTo(n, ts)| ==> !EdgesTo(n, ts)[i].sync
  {
    if ts != [] {
      EdgesToControl(n, ts[..|ts| - 1]);
    }
  }

  lemma {:induction false} EdgesAreControl(f: Flow, stop: Option<NodeId>)
    ensures forall i :: 0 <= i < |EdgeList(f, stop)| ==> !EdgeList(f, stop)[i].sync
    decreases f
  {
    match f
    case Done =>
    case Step(id, next) =>
      EdgesToControl(id, Only(Entry(next, stop)));
      EdgesAreControl(next, stop);
    case Block(s, _, bs, j, next) =>
      EdgesToControl(s, Heads(bs, j));
      BranchEdgesAreControl(bs, j);
      EdgesToControl(j, Only(Entry(next, stop)));
      EdgesAreControl(next, stop);
    case Loop(s, body, e, next) =>
      EdgesToControl(s, Only(Entry(body, Some(e))));
      EdgesAreControl(body, Some(e));
      EdgesToControl(e, Only(Entry(next, stop)));
      EdgesAreControl(next, stop);
  }

  lemma {:induction false} BranchEdgesAreControl(bs: Branches, j: NodeId)
    ensures forall i :: 0 <= i < |BranchEdges(bs, j)| ==> !BranchEdges(bs, j)[i].sync
    decreases bs
  {
    match bs
    case NoMore =>
    case Branch(h, r) =>
      EdgesAreControl(h, Some(j));
      BranchEdgesAreControl(r, j);
  }

  /** A well-formed term is the process of its schema. */
  lemma SchemaDraws(f: Flow)
    requires f != Done && WellFormed(f) && Wide(f)
    ensures BlockStructured(SchemaOf(f), f)
  {
    SchemaListed(f);
    GraphValid(SchemaOf(f));
    TableTyped(NodeTable(f), f);
    ListEmbeds(GraphOf(SchemaOf(f)).out, NodeTable(f), f, None);
  }

  lemma SchemaListed(f: Flow)
    requires WellFormed(f)
    ensures SchemaOf(f).Valid() && NodeTable(f).Keys == Nodes(f) == GraphOf(SchemaOf(f)).out.Keys
    ensures Lists(GraphOf(SchemaOf(f)).out, NodeTable(f), Nodes(f), EdgeList(f, None))
  {
    ListsNodes(f);
    ListDistinct(f);
    EdgesAreControl(f, None);
    AllControl(EdgeList(f, None));
  }

  lemma {:induction false} EmbedsIsWide(out: Successors, f: Flow, stop: Option<NodeId>)
    requires Embeds(out, f, stop)
    ensures Wide(f)
    decreases f
  {
    match f
    case Done =>
    case Step(_, next) => EmbedsIsWide(out, next, stop);
    case Block(_, _, bs, j, next) =>
      EmbedsBranchesIsWide(out, bs, j);
      EmbedsIsWide(out, next, stop);
    case Loop(_, body, e, next) =>
      EmbedsIsWide(out, body, Some(e));
      EmbedsIsWide(out, next, stop);
  }

  lemma {:induction false} EmbedsBranchesIsWide(out: Successors, bs: Branches, j: NodeId)
    requires EmbedsBranches(out, bs, j)
    ensures WideBranches(bs)
    decreases bs
  {
    match bs
    case NoMore =>
    case Branch(h, r) =>
      EmbedsIsWide(out, h, Some(j));
      EmbedsBranchesIsWide(out, r, j);
  }

  /** The block-structured schemas are exactly those of the terms that are not empty, name every
      node once, and open at least two branches at every split. */
  lemma Realisable(f: Flow)
    ensures (exists s :: BlockStructured(s, f)) <==> f != Done && WellFormed(f) && Wide(f)
  {
    if f != Done && WellFormed(f) && Wide(f) {
      SchemaDraws(f);
    }
    if s :| BlockStructured(s, f) {
      EmbedsIsWide(GraphOf(s).out, f, None);
    }
  }
}
