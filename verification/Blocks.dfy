/** Reachability inside a drawn process, and the join each split is matched with.

    Control that enters a block term leaves it only through the node after it. So the nodes below
    all heads of a block are its join and what follows it, and the join is the shallowest. */
module Blocks {
  import opened Basics
  import opened Graphs
  import opened Depths
  import opened Flows
  import opened Joins

  lemma ArcEdge(g: Graph, a: NodeId, b: NodeId)
    requires g.Valid() && Arc(g.out, a, b)
    ensures g.Edge(a, b) && b in g.out && g.Reach(a, b) && g.ReachPlus(a, b)
  {
    assert g.Edge(a, b);
    EdgeReach(g, a, b);
  }

  /** A serial node reaches whatever the flow after it leads to. */
  lemma {:induction false} SerialReaches(g: Graph, id: NodeId, f: Flow, t: NodeId)
    requires g.Valid() && Serial(g.out, id, f, Some(t)) && Embeds(g.out, f, Some(t))
    ensures g.ReachPlus(id, t)
    decreases f, 1
  {
    var n := Entry(f, Some(t)).value;
    assert n in g.out[id];
    ArcEdge(g, id, n);
    if f == Done {
      ReachRefl(g, t);
    } else {
      LeadsToStop(g, f, t, n);
      PlusReach(g, n, t);
      PlusThenReach(g, id, n, t);
    }
  }

  /** From every node of `f` control runs on to the node after `f`. */
  lemma {:induction false} LeadsToStop(g: Graph, f: Flow, t: NodeId, n: NodeId)
    requires g.Valid() && Embeds(g.out, f, Some(t)) && n in Nodes(f)
    ensures g.ReachPlus(n, t)
    decreases f, 0
  {
    match f
    case Done =>
    case Step(id, next) =>
      if n == id { SerialReaches(g, id, next, t); } else { LeadsToStop(g, next, t, n); }
    case Block(s, _, bs, j, next) =>
      if n in Nodes(next) {
        LeadsToStop(g, next, t, n);
      } else {
        SerialReaches(g, j, next, t);
        if n == s {
          HeadsLeadToJoin(g, bs, j, Heads(bs, j)[0]);
          assert Heads(bs, j)[0] in g.out[s];
          ArcEdge(g, s, Heads(bs, j)[0]);
          PlusThenReach(g, s, Heads(bs, j)[0], j);
        } else if n != j {
          BranchLeadsToJoin(g, bs, j, n);
        }
        if n != j {
          PlusReach(g, j, t);
          PlusThenReach(g, n, j, t);
        }
      }
    case Loop(s, body, e, next) =>
      if n in Nodes(next) {
        LeadsToStop(g, next, t, n);
      } else {
        SerialReaches(g, e, next, t);
        if n != e {
          if n == s { SerialReaches(g, s, body, e); } else { LeadsToStop(g, body, e, n); }
          PlusReach(g, e, t);
          PlusThenReach(g, n, e, t);
        }
      }
  }

  lemma {:induction false} BranchLeadsToJoin(g: Graph, bs: Branches, j: NodeId, n: NodeId)
    requires g.Valid() && EmbedsBranches(g.out, bs, j) && n in BranchNodes(bs)
    ensures g.ReachPlus(n, j)
    decreases bs, 0
  {
    match bs
    case NoMore =>
    case Branch(h, r) =>
      if n in Nodes(h) { LeadsToStop(g, h, j, n); } else { BranchLeadsToJoin(g, r, j, n); }
  }

  lemma {:induction false} HeadsLeadToJoin(g: Graph, bs: Branches, j: NodeId, k: NodeId)
    requires g.Valid() && EmbedsBranches(g.out, bs, j) && k in Heads(bs, j) && j in g.out
    ensures g.Reach(k, j)
    decreases bs, 1
  {
    match bs
    case NoMore =>
    case Branch(h, r) =>
      if k == Entry(h, Some(j)).value {
        ReachRefl(g, j);
        if h != Done {
          LeadsToStop(g, h, j, k);
          PlusReach(g, k, j);
        }
      } else {
        HeadsLeadToJoin(g, r, j, k);
      }
  }

  /** Whatever is reached from a node of `f` lies in `f` or is reached through the node
      after `f`. */
  lemma Escape(g: Graph, m: map<NodeId, nat>, f: Flow, c: nat, t: NodeId, a: NodeId, b: NodeId)
    requires g.Valid() && Embeds(g.out, f, Some(t)) && InColumns(m, f, c) && t in g.out
    requires a in Nodes(f) && g.Reach(a, b)
    ensures b in Nodes(f) || g.Reach(t, b)
  {
    var after := set y | y in g.out && g.Reach(t, y);
    var all := Nodes(f) + after;
    forall n, s | n in all && g.Edge(n, s) ensures s in all {
      if n in Nodes(f) {
        assert Arc(g.out, n, s);
        EdgesRunRight(g.out, m, f, c, Some(t), n, s);
        ReachRefl(g, t);
      } else {
        EdgeReach(g, n, s);
        ReachTrans(g, t, n, s);
      }
    }
    ClosedTraps(g, all, a, b);
  }

  /** A node below one branch head lies in that branch or behind the join. */
  lemma HeadEscape(g: Graph, m: map<NodeId, nat>, h: Flow, c: nat, j: NodeId, b: NodeId)
    requires g.Valid() && Embeds(g.out, h, Some(j)) && InColumns(m, h, c) && j in g.out
    requires g.Reach(Entry(h, Some(j)).value, b)
    ensures b in Nodes(h) || g.Reach(j, b)
  {
    EntryColumn(m, h, c, Some(j));
    if h != Done {
      Escape(g, m, h, c, j, Entry(h, Some(j)).value, b);
    }
  }

  /** Two branches have nothing in common below their heads but the join and what follows. */
  lemma CommonBehindJoin(g: Graph, m: map<NodeId, nat>, bs: Branches, c: nat, j: NodeId, x: NodeId)
    requires g.Valid() && DepthMap(g, m) && j in g.out
    requires EmbedsBranches(g.out, bs, j) && BranchesInColumns(m, bs, c) && WellFormedBranches(bs)
    requires Width(bs) >= 2 && BelowAll(g, Heads(bs, j), x)
    ensures g.Reach(j, x)
  {
    var h1, h2 := bs.head, bs.rest.head;
    var k1, k2 := Entry(h1, Some(j)).value, Entry(h2, Some(j)).value;
    assert Heads(bs, j) == [k1] + Heads(bs.rest, j);
    assert Heads(bs.rest, j) == [k2] + Heads(bs.rest.rest, j);
    assert k1 in Heads(bs, j) && k2 in Heads(bs, j);
    HeadEscape(g, m, h1, c, j, x);
    HeadEscape(g, m, h2, c, j, x);
    assert x in Nodes(h2) ==> x in BranchNodes(bs.rest);
  }

  /** In a drawn process `matchingJoin` finds, for every split at any nesting, the join that
      closes its block. */
  lemma BlockJoin(g: Graph, m: map<NodeId, nat>, s: NodeId, bs: Branches, c: nat, j: NodeId)
    requires g.Valid() && DepthMap(g, m) && s in g.out && j in g.out
    requires g.out[s] == Heads(bs, j) && Width(bs) >= 2
    requires EmbedsBranches(g.out, bs, j) && BranchesInColumns(m, bs, c) && WellFormedBranches(bs)
    ensures MatchingJoin(g, m, s) == Some(j)
  {
    forall k | k in Heads(bs, j) ensures g.Reach(k, j) {
      HeadsLeadToJoin(g, bs, j, k);
    }
    assert BelowAll(g, g.out[s], j);
    MatchingJoinSpec(g, m, s);
    var r := MatchingJoin(g, m, s).value;
    CommonBehindJoin(g, m, bs, c, j, r);
    ReachDeeper(g, m, j, r);
  }

  /** The block `(s, bs, j)` occurs in `f`, at any nesting. */
  ghost predicate HasBlock(f: Flow, s: NodeId, bs: Branches, j: NodeId) {
    match f
    case Done => false
    case Step(_, next) => HasBlock(next, s, bs, j)
    case Block(s', _, bs', j', next) =>
      (s' == s && bs' == bs && j' == j) || BranchesHaveBlock(bs', s, bs, j) || HasBlock(next, s, bs, j)
    case Loop(_, body, _, next) => HasBlock(body, s, bs, j) || HasBlock(next, s, bs, j)
  }

  ghost predicate BranchesHaveBlock(all: Branches, s: NodeId, bs: Branches, j: NodeId) {
    match all
    case NoMore => false
    case Branch(h, r) => HasBlock(h, s, bs, j) || BranchesHaveBlock(r, s, bs, j)
  }

  /** What the drawing knows about a block that occurs in it. */
  ghost predicate BlockFacts(g: Graph, m: map<NodeId, nat>, s: NodeId, bs: Branches, j: NodeId, c: nat) {
    && s in g.out && j in g.out && g.out[s] == Heads(bs, j) && Width(bs) >= 2
    && EmbedsBranches(g.out, bs, j) && BranchesInColumns(m, bs, c) && WellFormedBranches(bs)
  }

  lemma {:induction false} FindBlock(g: Graph, m: map<NodeId, nat>, f: Flow, c: nat, stop: Option<NodeId>, s: NodeId,
      bs: Branches, j: NodeId) returns (d: nat)
    requires Embeds(g.out, f, stop) && InColumns(m, f, c) && WellFormed(f) && HasBlock(f, s, bs, j)
    ensures BlockFacts(g, m, s, bs, j, d)
    decreases f
  {
    match f
    case Step(_, next) => d := FindBlock(g, m, next, c + 1, stop, s, bs, j);
    case Block(s', _, bs', j', next) =>
      if s' == s && bs' == bs && j' == j {
        d := c + 1;
      } else if BranchesHaveBlock(bs', s, bs, j) {
        d := FindBlockInBranches(g, m, bs', c + 1, j', s, bs, j);
      } else {
        d := FindBlock(g, m, next, JoinCol(bs', c + 1) + 1, stop, s, bs, j);
      }
    case Loop(_, body, e, next) =>
      if HasBlock(body, s, bs, j) {
        d := FindBlock(g, m, body, c + 1, Some(e), s, bs, j);
      } else {
        d := FindBlock(g, m, next, EndCol(body, c + 1) + 1, stop, s, bs, j);
      }
  }

  lemma {:induction false} FindBlockInBranches(g: Graph, m: map<NodeId, nat>, all: Branches, c: nat, t: NodeId,
      s: NodeId, bs: Branches, j: NodeId) returns (d: nat)
    requires EmbedsBranches(g.out, all, t) && BranchesInColumns(m, all, c) && WellFormedBranches(all)
    requires BranchesHaveBlock(all, s, bs, j)
    ensures BlockFacts(g, m, s, bs, j, d)
    decreases all
  {
    match all
    case Branch(h, r) =>
      if HasBlock(h, s, bs, j) {
        d := FindBlock(g, m, h, c, Some(t), s, bs, j);
      } else {
        d := FindBlockInBranches(g, m, r, c, t, s, bs, j);
      }
  }

  /** Every split of a drawn process is matched with the join of its own block. */
  lemma DrawnJoins(g: Graph, m: map<NodeId, nat>, f: Flow, s: NodeId, bs: Branches, j: NodeId)
    requires Draws(g, f) && DepthMap(g, m) && HasBlock(f, s, bs, j)
    ensures s in g.out && g.out[s] != [] && MatchingJoin(g, m, s) == Some(j)
  {
    DrawnColumns(g, f);
    DepthUnique(g, m, Columns(f, 0));
    var d := FindBlock(g, m, f, 0, None, s, bs, j);
    BlockJoin(g, m, s, bs, d, j);
  }
}
