/** Columns: the recursive longest-path depth `d` of the spine layout. */
module Depths {
  import opened Basics
  import opened Graphs

  /** Every node sits right of all its predecessors, and directly right of one of them
      unless it has none. */
  ghost predicate DepthMap(g: Graph, m: map<NodeId, nat>)
    requires g.Valid()
  {
    && (forall n :: n in m <==> n in g.out)
    && PartialDepth(g, m)
  }

  /** The same for the part of the graph computed so far. */
  ghost predicate PartialDepth(g: Graph, m: map<NodeId, nat>)
    requires g.Valid()
  {
    && (forall n :: n in m ==> n in g.out)
    && (forall n, p {:trigger p in g.inc[n]} :: n in m && p in g.inc[n] ==> p in m && m[p] < m[n])
    && (forall n {:trigger Tight(g, m, n)} :: n in m && m[n] > 0 ==> Tight(g, m, n))
  }

  /** Some predecessor of `n` sits in the column directly left of it. */
  ghost predicate Tight(g: Graph, m: map<NodeId, nat>, n: NodeId)
    requires g.Valid()
  {
    n in g.out && n in m && exists p :: p in g.inc[n] && p in m && m[p] + 1 == m[n]
  }

  lemma EdgeDeeper(g: Graph, m: map<NodeId, nat>, a: NodeId, b: NodeId)
    requires g.Valid() && DepthMap(g, m) && g.Edge(a, b)
    ensures m[a] < m[b]
  {
    assert a in g.inc[b];
  }

  lemma WalkDeepens(g: Graph, m: map<NodeId, nat>, w: seq<NodeId>)
    requires g.Valid() && DepthMap(g, m) && g.Walk(w)
    ensures forall i :: 0 <= i < |w| ==> w[i] in g.out
    ensures forall i, j :: 0 <= i <= j < |w| ==> m[w[i]] + (j - i) <= m[w[j]]
  {
    WalkStays(g, w);
    forall i, j | 0 <= i <= j < |w| ensures m[w[i]] + (j - i) <= m[w[j]] {
      var k := i;
      while k < j
        invariant i <= k <= j && m[w[i]] + (k - i) <= m[w[k]]
      {
        assert g.Edge(w[k], w[k + 1]);
        EdgeDeeper(g, m, w[k], w[k + 1]);
        k := k + 1;
      }
    }
  }

  lemma ReachDeeper(g: Graph, m: map<NodeId, nat>, a: NodeId, b: NodeId)
    requires g.Valid() && DepthMap(g, m) && g.Reach(a, b)
    ensures a in m && b in m && m[a] <= m[b]
    ensures a != b ==> m[a] < m[b]
  {
    var w :| g.WalkFromTo(w, a, b);
    WalkDeepens(g, m, w);
    assert m[w[0]] + (|w| - 1 - 0) <= m[w[|w| - 1]];
  }

  lemma PlusDeeper(g: Graph, m: map<NodeId, nat>, a: NodeId, b: NodeId)
    requires g.Valid() && DepthMap(g, m) && g.ReachPlus(a, b)
    ensures a in m && b in m && m[a] < m[b]
  {
    var s :| g.Edge(a, s) && g.Reach(s, b);
    EdgeDeeper(g, m, a, s);
    ReachDeeper(g, m, s, b);
  }

  /** Depth is attained: a walk of that length ends at the node. */
  lemma {:induction false} DepthAttained(g: Graph, m: map<NodeId, nat>, n: NodeId) returns (w: seq<NodeId>)
    requires g.Valid() && DepthMap(g, m) && n in g.out
    ensures g.Walk(w) && w[|w| - 1] == n && |w| == m[n] + 1
    decreases m[n]
  {
    if m[n] == 0 {
      w := [n];
    } else {
      assert Tight(g, m, n);
      var p :| p in g.inc[n] && p in m && m[p] + 1 == m[n];
      var v := DepthAttained(g, m, p);
      w := v + [n];
      forall i | 0 <= i < |w| - 1 ensures g.Edge(w[i], w[i + 1]) {
        if i < |v| - 1 {
          assert g.Edge(v[i], v[i + 1]);
        } else {
          assert w[i] == p && w[i + 1] == n;
        }
      }
    }
  }

  /** A depth map is the longest-path depth: some walk to the node has that many edges
      and no walk to it has more. */
  lemma DepthIsLongestPath(g: Graph, m: map<NodeId, nat>, n: NodeId)
    requires g.Valid() && DepthMap(g, m) && n in g.out
    ensures exists w :: g.Walk(w) && w[|w| - 1] == n && |w| - 1 == m[n]
    ensures forall w :: g.Walk(w) && w[|w| - 1] == n ==> |w| - 1 <= m[n]
  {
    var v := DepthAttained(g, m, n);
    assert g.Walk(v) && v[|v| - 1] == n && |v| - 1 == m[n];
    forall w | g.Walk(w) && w[|w| - 1] == n ensures |w| - 1 <= m[n] {
      WalkDeepens(g, m, w);
      assert m[w[0]] + (|w| - 1 - 0) <= m[w[|w| - 1]];
    }
  }

  lemma DepthUnique(g: Graph, m: map<NodeId, nat>, m': map<NodeId, nat>)
    requires g.Valid() && DepthMap(g, m) && DepthMap(g, m')
    ensures m == m'
  {
    forall n | n in g.out ensures m[n] == m'[n] {
      DepthIsLongestPath(g, m, n);
      DepthIsLongestPath(g, m', n);
    }
  }

  /** The occupied columns are contiguous: left of every occupied column is another one. */
  lemma ColumnsContiguous(g: Graph, m: map<NodeId, nat>, n: NodeId, k: nat)
    requires g.Valid() && DepthMap(g, m) && n in g.out && k <= m[n]
    ensures exists x :: x in g.out && m[x] == k
  {
    var w := DepthAttained(g, m, n);
    WalkDeepens(g, m, w);
    assert m[w[0]] + (k - 0) <= m[w[k]];
    assert m[w[k]] + (|w| - 1 - k) <= m[w[|w| - 1]];
    assert w[k] in g.out;
  }

  /** No column index reaches the number of nodes. */
  lemma DepthBound(g: Graph, m: map<NodeId, nat>, n: NodeId)
    requires g.Valid() && DepthMap(g, m) && n in g.out
    ensures m[n] < |g.out|
  {
    var w := DepthAttained(g, m, n);
    WalkDeepens(g, m, w);
    forall i, j | 0 <= i < j < |w| ensures w[i] != w[j] {
      assert m[w[i]] + (j - i) <= m[w[j]];
    }
    DistinctCard(w);
    assert (set x | x in w) <= g.out.Keys;
    SubsetCard((set x | x in w), g.out.Keys);
  }

  lemma DepthMapAcyclic(g: Graph, m: map<NodeId, nat>)
    requires g.Valid() && DepthMap(g, m)
    ensures g.Acyclic()
  {
    forall n | n in g.out ensures !g.ReachPlus(n, n) {
      if g.ReachPlus(n, n) {
        PlusDeeper(g, m, n, n);
      }
    }
  }

  ghost predicate Extends(m: map<NodeId, nat>, m': map<NodeId, nat>) {
    forall n :: n in m ==> n in m' && m'[n] == m[n]
  }

  /** The first `k` nodes of `s` have a depth below `v`. */
  ghost predicate AllBelow(s: seq<NodeId>, k: nat, m: map<NodeId, nat>, v: nat) {
    k <= |s| && forall i :: 0 <= i < k ==> s[i] in m && m[s[i]] < v
  }

  lemma AllBelowStep(s: seq<NodeId>, k: nat, m: map<NodeId, nat>, v: nat, m': map<NodeId, nat>, v': nat)
    requires AllBelow(s, k, m, v) && k < |s| && Extends(m, m') && v <= v'
    requires s[k] in m' && m'[s[k]] < v'
    ensures AllBelow(s, k + 1, m', v')
  {
  }

  /** Entering the finished maximum for `id` keeps the partial map a depth map. */
  lemma ExtendDepth(g: Graph, m: map<NodeId, nat>, id: NodeId, v: nat)
    requires g.Valid() && PartialDepth(g, m) && id in g.out && id !in m
    requires AllBelow(g.inc[id], |g.inc[id]|, m, v)
    requires v > 0 ==> exists p :: p in g.inc[id] && p in m && m[p] + 1 == v
    ensures PartialDepth(g, m[id := v])
  {
    var m' := m[id := v];
    forall n | n in m' && m'[n] > 0 ensures Tight(g, m', n) {
      if n != id {
        assert Tight(g, m, n);
      }
    }
  }

  /** A finished node goes from the nodes being visited into the table. */
  lemma FinishVisit(m: map<NodeId, nat>, before: set<NodeId>, id: NodeId, v: nat)
    requires (before + {id}) !! m.Keys && id !in before
    ensures before + {id} - {id} == before && before !! m[id := v].Keys && Extends(m, m[id := v])
  {
  }

  /** Whatever is being visited lies below `id`, hence below each predecessor of `id`. */
  lemma VisitPredecessor(g: Graph, visiting: set<NodeId>, id: NodeId, p: NodeId)
    requires g.Valid() && id in g.out && p in g.inc[id]
    requires forall v :: v in visiting ==> g.ReachPlus(id, v)
    ensures forall v :: v in visiting + {id} ==> g.ReachPlus(p, v)
  {
    assert g.Edge(p, id);
    EdgeReach(g, p, id);
    forall v | v in visiting ensures g.ReachPlus(p, v) {
      PlusReach(g, id, v);
      PlusThenReach(g, p, id, v);
    }
  }

  /** The recursion `d` with its two tables. */
  class DepthTable {
    const g: Graph
    var depth: map<NodeId, nat>
    var visiting: set<NodeId>

    ghost predicate Inv()
      reads this
    {
      && g.Valid()
      && PartialDepth(g, depth)
      && visiting <= g.out.Keys
      && visiting !! depth.Keys
    }

    constructor (g: Graph)
      requires g.Valid()
      ensures this.g == g && Inv() && depth == map[] && visiting == {}
    {
      this.g := g;
      depth := map[];
      visiting := {};
    }

    /** Longest-path depth of `id`, memoised. It fails exactly on meeting a node that is
        still being visited, and then the graph has a cycle. */
    method D(id: NodeId) returns (r: Result<nat>)
      requires Inv() && id in g.out
      requires forall v :: v in visiting ==> g.ReachPlus(id, v)
      modifies this
      ensures r.Ok? ==> Inv() && visiting == old(visiting)
      ensures r.Ok? ==> id in depth && depth[id] == r.value
      ensures r.Ok? ==> Extends(old(depth), depth)
      ensures r.Err? ==> r.error == Cycle && !g.Acyclic()
      decreases |g.out.Keys - visiting|, 0
    {
      if id in depth {
        return Ok(depth[id]);
      }
      if id in visiting {
        return Err(Cycle);
      }
      ghost var before := visiting;
      OneLess(g.out.Keys, visiting, id);
      visiting := visiting + {id};
      var m := Deepest(id, before);
      if m.Err? {
        return m;
      }
      ExtendDepth(g, depth, id, m.value);
      FinishVisit(depth, before, id, m.value);
      visiting := visiting - {id};
      depth := depth[id := m.value];
      r := m;
    }

    /** One more than the greatest depth of a predecessor of `id`, which is being visited. */
    method Deepest(id: NodeId, ghost before: set<NodeId>) returns (r: Result<nat>)
      requires Inv() && id in g.out && visiting == before + {id}
      requires forall v :: v in before ==> g.ReachPlus(id, v)
      modifies this
      ensures r.Ok? ==> Inv() && visiting == old(visiting) && Extends(old(depth), depth)
      ensures r.Ok? ==> AllBelow(g.inc[id], |g.inc[id]|, depth, r.value)
      ensures r.Ok? && r.value > 0 ==> exists p :: p in g.inc[id] && p in depth && depth[p] + 1 == r.value
      ensures r.Err? ==> r.error == Cycle && !g.Acyclic()
      decreases |g.out.Keys - visiting|, 1
    {
      var m: nat := 0;
      ghost var best := id;
      var preds := g.inc[id];
      for i := 0 to |preds|
        invariant Inv() && visiting == before + {id}
        invariant Extends(old(depth), depth)
        invariant AllBelow(preds, i, depth, m)
        invariant m > 0 ==> best in preds && best in depth && depth[best] + 1 == m
      {
        VisitPredecessor(g, before, id, preds[i]);
        ghost var d0, m0 := depth, m;
        var q := D(preds[i]);
        if q.Err? {
          return q;
        }
        if q.value + 1 > m {
          m := q.value + 1;
          best := preds[i];
        }
        AllBelowStep(preds, i, d0, m0, depth, m);
      }
      r := Ok(m);
    }

    /** `ids.forEach(d)`: succeeds iff the control graph is acyclic, and then yields the
        longest-path depth of every node. */
    method All() returns (r: Result<map<NodeId, nat>>)
      requires Inv() && g.Listed() && depth == map[] && visiting == {}
      modifies this
      ensures r.Ok? <==> g.Acyclic()
      ensures r.Ok? ==> DepthMap(g, r.value) && depth == r.value
      ensures r.Err? ==> r.error == Cycle
    {
      for i := 0 to |g.ids|
        invariant Inv() && visiting == {}
        invariant forall k :: 0 <= k < i ==> g.ids[k] in depth
      {
        var q := D(g.ids[i]);
        if q.Err? {
          return Err(Cycle);
        }
      }
      assert DepthMap(g, depth);
      DepthMapAcyclic(g, depth);
      r := Ok(depth);
    }
  }
}
