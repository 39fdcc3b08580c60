/** Control-flow graphs as the layout code sees them: node ids in key order plus the
    successor and predecessor lists built from the non-SYNC edges.

    A walk is a nonempty sequence of nodes that follows edges; reachability, cycles and
    the traps of closed sets are defined by walks, so that every algorithm on the graph can
    be compared with them. */
module Graphs {
  datatype NodeId = NodeId(name: string)

  /** The reasons for which a layout gives up. */
  datatype LayoutError =
    | UnknownSource
    | Cycle | NotSingleRooted | NoMatchingJoin | RunawayMeasure | RunawayPlace
    | Revisit | Unplaced | Overlap

  datatype Result<+T> = Ok(value: T) | Err(error: LayoutError)

  datatype Graph = Graph(ids: seq<NodeId>, out: map<NodeId, seq<NodeId>>, inc: map<NodeId, seq<NodeId>>) {
    /** Both adjacency lists cover the same nodes and describe the same edges. */
    ghost predicate Valid() {
      && out.Keys == inc.Keys
      && (forall a, b {:trigger b in out[a]} :: a in out && b in out[a] ==> b in inc && a in inc[b])
      && (forall a, b {:trigger a in inc[b]} :: b in inc && a in inc[b] ==> a in out && b in out[a])
    }

    /** `ids` lists the nodes, each once. */
    ghost predicate Listed() {
      && (forall n :: n in out <==> n in ids)
      && (forall i, j :: 0 <= i < j < |ids| ==> ids[i] != ids[j])
    }

    ghost predicate Edge(a: NodeId, b: NodeId) {
      a in out && b in out[a]
    }

    /** A nonempty node sequence that follows edges. */
    ghost predicate Walk(w: seq<NodeId>)
      requires Valid()
    {
      && |w| > 0
      && w[0] in out
      && (forall i, j :: 0 <= i < j < |w| && j == i + 1 ==> Edge(w[i], w[j]))
    }

    ghost predicate WalkFromTo(w: seq<NodeId>, a: NodeId, b: NodeId)
      requires Valid()
    {
      Walk(w) && w[0] == a && w[|w| - 1] == b
    }

    /** `b` can be reached from `a` by zero or more edges. */
    ghost predicate Reach(a: NodeId, b: NodeId)
      requires Valid()
    {
      exists w :: WalkFromTo(w, a, b)
    }

    /** `b` can be reached from `a` by one or more edges. */
    ghost predicate ReachPlus(a: NodeId, b: NodeId)
      requires Valid()
    {
      exists s :: Edge(a, s) && Reach(s, b)
    }

    ghost predicate Acyclic()
      requires Valid()
    {
      forall n :: n in out ==> !ReachPlus(n, n)
    }
  }

  lemma ReachRefl(g: Graph, a: NodeId)
    requires g.Valid() && a in g.out
    ensures g.Reach(a, a)
  {
    assert g.WalkFromTo([a], a, a);
  }

  lemma WalkStays(g: Graph, w: seq<NodeId>)
    requires g.Valid() && g.Walk(w)
    ensures forall i :: 0 <= i < |w| ==> w[i] in g.out
  {
    forall i | 0 < i < |w| ensures w[i] in g.out {
      assert g.Edge(w[i - 1], w[i - 1 + 1]);
    }
  }

  lemma ReachKnown(g: Graph, a: NodeId, b: NodeId)
    requires g.Valid() && g.Reach(a, b)
    ensures a in g.out && b in g.out
  {
    var w :| g.WalkFromTo(w, a, b);
    WalkStays(g, w);
  }

  lemma ReachTrans(g: Graph, a: NodeId, b: NodeId, c: NodeId)
    requires g.Valid() && g.Reach(a, b) && g.Reach(b, c)
    ensures g.Reach(a, c)
  {
    var v :| g.WalkFromTo(v, a, b);
    var w :| g.WalkFromTo(w, b, c);
    var u := v + w[1..];
    forall i | 0 <= i < |u| - 1 ensures g.Edge(u[i], u[i + 1]) {
      if i < |v| - 1 {
        assert g.Edge(v[i], v[i + 1]);
      } else {
        assert g.Edge(w[i - |v| + 1], w[i - |v| + 1 + 1]);
      }
    }
    assert g.WalkFromTo(u, a, c);
  }

  lemma EdgeReach(g: Graph, a: NodeId, b: NodeId)
    requires g.Valid() && g.Edge(a, b)
    ensures g.Reach(a, b) && g.ReachPlus(a, b)
  {
    assert g.WalkFromTo([a, b], a, b);
    ReachRefl(g, b);
  }

  lemma PlusReach(g: Graph, a: NodeId, b: NodeId)
    requires g.Valid() && g.ReachPlus(a, b)
    ensures g.Reach(a, b)
  {
    var s :| g.Edge(a, s) && g.Reach(s, b);
    EdgeReach(g, a, s);
    ReachTrans(g, a, s, b);
  }

  lemma PlusThenReach(g: Graph, a: NodeId, b: NodeId, c: NodeId)
    requires g.Valid() && g.ReachPlus(a, b) && g.Reach(b, c)
    ensures g.ReachPlus(a, c)
  {
    var s :| g.Edge(a, s) && g.Reach(s, b);
    ReachTrans(g, s, b, c);
  }

  lemma ReachCases(g: Graph, a: NodeId, b: NodeId)
    requires g.Valid() && g.Reach(a, b)
    ensures a == b || g.ReachPlus(a, b)
  {
    var w :| g.WalkFromTo(w, a, b);
    if |w| > 1 {
      var u := w[1..];
      assert g.Edge(w[0], w[0 + 1]);
      forall i | 0 <= i < |u| - 1 ensures g.Edge(u[i], u[i + 1]) {
        assert g.Edge(w[i + 1], w[i + 1 + 1]);
      }
      assert g.WalkFromTo(u, w[1], b);
    }
  }

  /** A set closed under successors traps every walk that starts in it. */
  lemma ClosedTraps(g: Graph, c: set<NodeId>, a: NodeId, b: NodeId)
    requires g.Valid() && a in c && g.Reach(a, b)
    requires forall n, s :: n in c && g.Edge(n, s) ==> s in c
    ensures b in c
  {
    var w :| g.WalkFromTo(w, a, b);
    var k := 0;
    while k < |w| - 1
      invariant 0 <= k < |w| && w[k] in c
    {
      assert g.Edge(w[k], w[k + 1]);
      k := k + 1;
    }
  }
}
