/** The join an XOR split points to directly because one of its branches is empty. */
module EmptyBranches {
  import opened Basics
  import opened Graphs
  import opened Depths
  import opened Flows
  import opened Joins
  import opened Blocks
  import opened Lanes
  import opened Schemas

  predicate IsEmptyBranch(s: Schema, split: NodeId, e: SchemaEdge) {
    e.source == split && e.target in s.nodes && s.nodes[e.target].kind == XorJoin
  }

  /** What `r` says about the block `(split, bs, j)`: it is given exactly for XOR blocks with
      an empty branch, and then it is the closing join, the node that the layout finds as
      matching join. */
  ghost predicate NamesJoin(s: Schema, f: Flow, split: NodeId, bs: Branches, j: NodeId, r: Option<NodeId>)
    requires s.Valid()
  {
    GraphIsControlFlow(s);
    var g := GraphOf(s);
    && split in s.nodes && split in g.out && g.out[split] != []
    && r == (if s.nodes[split].kind == XorSplit && HasEmpty(bs) then Some(j) else None)
    && DepthMap(g, Columns(f, 0)) && MatchingJoin(g, Columns(f, 0), split) == Some(j)
  }

  /** Target of the first edge of the XOR split `split` that ends at an XOR join. */
  method EmptyBranchJoin(s: Schema, split: NodeId) returns (r: Option<NodeId>)
    requires s.Valid()
    ensures r.Some? ==> exists e :: e in ControlEdges(s.edges) && IsEmptyBranch(s, split, e) && r == Some(e.target)
    ensures r.Some? ==> split in s.nodes && s.nodes[split].kind == XorSplit
    ensures r.None? && split in s.nodes && s.nodes[split].kind == XorSplit ==>
      forall e :: e in ControlEdges(s.edges) ==> !IsEmptyBranch(s, split, e)
    ensures forall f, bs, j :: BlockStructured(s, f) && HasBlock(f, split, bs, j) ==> NamesJoin(s, f, split, bs, j, r)
  {
    forall f, bs, j | BlockStructured(s, f) && HasBlock(f, split, bs, j)
      ensures split in s.nodes && XorEdges(s, split, bs, j)
      ensures DepthMap(GraphOf(s), Columns(f, 0)) && split in GraphOf(s).out && GraphOf(s).out[split] != []
      ensures MatchingJoin(GraphOf(s), Columns(f, 0), split) == Some(j)
    {
      XorJoinsAreEmptyBranches(s, f, split, bs, j);
      DrawnColumns(GraphOf(s), f);
      DrawnJoins(GraphOf(s), Columns(f, 0), f, split, bs, j);
    }
    if split !in s.nodes || s.nodes[split].kind != XorSplit {
      return None;
    }
    var es := ControlEdges(s.edges);
    for i := 0 to |es|
      invariant forall k :: 0 <= k < i ==> !IsEmptyBranch(s, split, es[k])
    {
      if IsEmptyBranch(s, split, es[i]) {
        return Some(es[i].target);
      }
    }
    r := None;
  }

  /** The edges from the split to an XOR join are the empty branches and end at `j`. */
  ghost predicate XorEdges(s: Schema, split: NodeId, bs: Branches, j: NodeId) {
    && (forall e :: e in ControlEdges(s.edges) && IsEmptyBranch(s, split, e) ==> e.target == j && HasEmpty(bs))
    && (HasEmpty(bs) && split in s.nodes && s.nodes[split].kind == XorSplit ==>
        exists e :: e in ControlEdges(s.edges) && IsEmptyBranch(s, split, e))
  }

  /** Nothing that a block term starts with is a join. */
  lemma TypedEntry(nodes: map<NodeId, Node>, f: Flow, stop: Option<NodeId>)
    requires Typed(nodes, f) && f != Done
    ensures Entry(f, stop).Some? && Entry(f, stop).value in nodes
            && nodes[Entry(f, stop).value].kind !in {XorJoin, AndJoin}
  {
  }

  lemma {:induction false} TypedHeads(nodes: map<NodeId, Node>, bs: Branches, j: NodeId, h: NodeId)
    requires TypedBranches(nodes, bs) && h in Heads(bs, j) && h in nodes && nodes[h].kind in {XorJoin, AndJoin}
    ensures h == j && HasEmpty(bs)
  {
    match bs
    case Branch(hd, r) =>
      if h in Heads(r, j) {
        TypedHeads(nodes, r, j, h);
      } else if hd != Done {
        TypedEntry(nodes, hd, Some(j));
      }
  }

  lemma {:induction false} EmptyHead(bs: Branches, j: NodeId)
    requires HasEmpty(bs)
    ensures j in Heads(bs, j)
  {
    match bs
    case Branch(hd, r) =>
      if hd != Done {
        EmptyHead(r, j);
      }
  }

  /** A block keeps the types its process gives it. */
  lemma {:induction false} TypedBlock(nodes: map<NodeId, Node>, f: Flow, s: NodeId, bs: Branches, j: NodeId)
    requires Typed(nodes, f) && HasBlock(f, s, bs, j)
    ensures TypedBranches(nodes, bs) && s in nodes && j in nodes
    ensures nodes[s].kind in {XorSplit, AndSplit}
    ensures nodes[j].kind == if nodes[s].kind == XorSplit then XorJoin else AndJoin
    decreases f
  {
    match f
    case Step(_, next) => TypedBlock(nodes, next, s, bs, j);
    case Block(s', _, bs', j', next) =>
      if s' == s && bs' == bs && j' == j {
      } else if BranchesHaveBlock(bs', s, bs, j) {
        TypedBlockIn(nodes, bs', s, bs, j);
      } else {
        TypedBlock(nodes, next, s, bs, j);
      }
    case Loop(_, body, _, next) =>
      if HasBlock(body, s, bs, j) {
        TypedBlock(nodes, body, s, bs, j);
      } else {
        TypedBlock(nodes, next, s, bs, j);
      }
  }

  lemma {:induction false} TypedBlockIn(nodes: map<NodeId, Node>, all: Branches, s: NodeId, bs: Branches, j: NodeId)
    requires TypedBranches(nodes, all) && BranchesHaveBlock(all, s, bs, j)
    ensures TypedBranches(nodes, bs) && s in nodes && j in nodes
    ensures nodes[s].kind in {XorSplit, AndSplit}
    ensures nodes[j].kind == if nodes[s].kind == XorSplit then XorJoin else AndJoin
    decreases all
  {
    match all
    case Branch(h, r) =>
      if HasBlock(h, s, bs, j) {
        TypedBlock(nodes, h, s, bs, j);
      } else {
        TypedBlockIn(nodes, r, s, bs, j);
      }
  }

  /** The edges from an XOR split to an XOR join are its empty branches, and they end at the
      block's own join. */
  lemma XorJoinsAreEmptyBranches(s: Schema, f: Flow, split: NodeId, bs: Branches, j: NodeId)
    requires BlockStructured(s, f) && HasBlock(f, split, bs, j)
    ensures split in s.nodes && XorEdges(s, split, bs, j)
  {
    var g := GraphOf(s);
    TypedBlock(s.nodes, f, split, bs, j);
    DrawnColumns(g, f);
    var d := FindBlock(g, Columns(f, 0), f, 0, None, split, bs, j);
    assert g.out[split] == Heads(bs, j);
    GraphIsControlFlow(s);
    forall e | e in ControlEdges(s.edges) && IsEmptyBranch(s, split, e) ensures e.target == j && HasEmpty(bs) {
      assert HasEdge(ControlEdges(s.edges), split, e.target);
      assert g.Edge(split, e.target);
      TypedHeads(s.nodes, bs, j, e.target);
    }
    if HasEmpty(bs) && s.nodes[split].kind == XorSplit {
      EmptyHead(bs, j);
      assert g.Edge(split, j);
      var e :| e in ControlEdges(s.edges) && e.source == split && e.target == j;
      assert IsEmptyBranch(s, split, e);
    }
  }
}
