/** The matching join of a split: the shallowest node that lies below every branch.

    The depth-first search and the intersection over all branch heads are given as functions, in
    the order in which the client visits nodes, and compared with reachability by walks. */
module Joins {
  import opened Basics
  import opened Graphs
  import opened Depths

  /** The elements of `s` not yet in `seen`, each once, in order of first appearance. */
  function Novel(s: seq<NodeId>, seen: seq<NodeId>): (r: seq<NodeId>)
    decreases |s|
  {
    if s == [] then []
    else if s[0] in seen then Novel(s[1..], seen)
    else [s[0]] + Novel(s[1..], seen + [s[0]])
  }

  lemma {:induction false} NovelElements(s: seq<NodeId>, seen: seq<NodeId>)
    ensures forall n :: n in Novel(s, seen) <==> n in s && n !in seen
    decreases |s|
  {
    if s != [] {
      assert s == [s[0]] + s[1..];
      NovelElements(s[1..], if s[0] in seen then seen else seen + [s[0]]);
    }
  }

  lemma DistinctPlus(seen: seq<NodeId>, x: NodeId)
    requires Distinct(seen) && x !in seen
    ensures Distinct(seen + [x])
  {
  }

  lemma {:induction false} NovelDistinct(s: seq<NodeId>, seen: seq<NodeId>)
    requires Distinct(seen)
    ensures Distinct(seen + Novel(s, seen))
    decreases |s|
  {
    if s == [] {
      assert seen + [] == seen;
    } else if s[0] in seen {
      NovelDistinct(s[1..], seen);
    } else {
      var x, rest := s[0], Novel(s[1..], seen + [s[0]]);
      DistinctPlus(seen, x);
      NovelDistinct(s[1..], seen + [x]);
      assert seen + ([x] + rest) == (seen + [x]) + rest;
    }
  }

  /** The depth-first walk of `descendants`, resumed with the given stack and seen list. */
  ghost function Search(g: Graph, stack: seq<NodeId>, seen: seq<NodeId>): seq<NodeId>
    requires g.Valid() && Distinct(seen)
    requires forall n :: n in stack ==> n in g.out
    requires forall n :: n in seen ==> n in g.out
    decreases |g.out| - Count(g, seen), |stack|
  {
    if stack == [] then seen
    else
      var n := stack[|stack| - 1];
      var rest := stack[..|stack| - 1];
      var novel := Novel(g.out[n], seen);
      NovelElements(g.out[n], seen);
      NovelDistinct(g.out[n], seen);
      CountGrows(g, seen, novel);
      Search(g, rest + novel, seen + novel)
  }

  /** How many ids have been seen. */
  ghost function Count(g: Graph, seen: seq<NodeId>): (c: nat)
    requires g.Valid() && Distinct(seen)
    requires forall n :: n in seen ==> n in g.out
    ensures c <= |g.out|
  {
    DistinctCard(seen);
    assert (set n | n in seen) <= g.out.Keys;
    SubsetCard((set n | n in seen), g.out.Keys);
    |seen|
  }

  lemma CountGrows(g: Graph, seen: seq<NodeId>, novel: seq<NodeId>)
    requires g.Valid() && Distinct(seen) && Distinct(seen + novel)
    requires forall n :: n in seen ==> n in g.out
    requires forall n :: n in novel ==> n in g.out
    ensures forall n :: n in seen + novel ==> n in g.out
    ensures Count(g, seen + novel) == Count(g, seen) + |novel|
  {
  }

  ghost function Desc(g: Graph, id: NodeId): seq<NodeId>
    requires g.Valid() && id in g.out
  {
    Search(g, [id], [])
  }

  /** `seen` holds only nodes below `root`, and every successor of a finished node. */
  ghost predicate SearchInv(g: Graph, root: NodeId, stack: seq<NodeId>, seen: seq<NodeId>)
    requires g.Valid()
  {
    && root in g.out
    && (forall n :: n in seen ==> g.ReachPlus(root, n))
    && (forall n :: n in stack ==> n == root || n in seen)
    && (forall n, s :: (n == root || n in seen) && n !in stack && g.Edge(n, s) ==> s in seen)
  }

  lemma SearchStep(g: Graph, root: NodeId, stack: seq<NodeId>, seen: seq<NodeId>)
    requires g.Valid() && SearchInv(g, root, stack, seen) && stack != []
    requires stack[|stack| - 1] in g.out
    ensures
      var n := stack[|stack| - 1];
      var novel := Novel(g.out[n], seen);
      SearchInv(g, root, stack[..|stack| - 1] + novel, seen + novel)
  {
    var n := stack[|stack| - 1];
    var rest := stack[..|stack| - 1];
    var novel := Novel(g.out[n], seen);
    NovelElements(g.out[n], seen);
    assert stack == rest + [n];
    forall x | x in seen + novel ensures g.ReachPlus(root, x) {
      if x !in seen {
        assert g.Edge(n, x);
        EdgeReach(g, n, x);
        if n != root {
          PlusReach(g, n, x);
          PlusThenReach(g, root, n, x);
        }
      }
    }
    forall x, s | (x == root || x in seen + novel) && x !in rest + novel && g.Edge(x, s)
      ensures s in seen + novel
    {
      if x == n {
        assert s in g.out[n];
      } else {
        assert x !in stack;
      }
    }
  }

  lemma {:induction false} SearchSound(g: Graph, root: NodeId, stack: seq<NodeId>, seen: seq<NodeId>)
    requires g.Valid() && Distinct(seen)
    requires forall n :: n in stack ==> n in g.out
    requires forall n :: n in seen ==> n in g.out
    requires SearchInv(g, root, stack, seen)
    ensures SearchInv(g, root, [], Search(g, stack, seen))
    decreases |g.out| - Count(g, seen), |stack|
  {
    if stack != [] {
      var n := stack[|stack| - 1];
      var novel := Novel(g.out[n], seen);
      NovelElements(g.out[n], seen);
      NovelDistinct(g.out[n], seen);
      CountGrows(g, seen, novel);
      SearchStep(g, root, stack, seen);
      SearchSound(g, root, stack[..|stack| - 1] + novel, seen + novel);
    }
  }

  lemma SearchClosed(g: Graph, root: NodeId, seen: seq<NodeId>, a: NodeId, b: NodeId)
    requires g.Valid() && SearchInv(g, root, [], seen) && a in seen && g.Reach(a, b)
    ensures b in seen
  {
    var c := set n | n in seen;
    forall n, s | n in c && g.Edge(n, s) ensures s in c {
      assert n in seen;
    }
    ClosedTraps(g, c, a, b);
  }

  lemma SearchFirst(g: Graph, root: NodeId, seen: seq<NodeId>, s: NodeId)
    requires g.Valid() && SearchInv(g, root, [], seen) && g.Edge(root, s)
    ensures s in seen
  {
  }

  /** `descendants(id)` is exactly what can be reached from `id` by one or more edges. */
  lemma DescIsReach(g: Graph, id: NodeId)
    requires g.Valid() && id in g.out
    ensures forall x :: x in Desc(g, id) <==> g.ReachPlus(id, x)
  {
    SearchSound(g, id, [id], []);
    var ds := Desc(g, id);
    forall x | g.ReachPlus(id, x) ensures x in ds {
      var s :| g.Edge(id, s) && g.Reach(s, x);
      SearchFirst(g, id, ds, s);
      SearchClosed(g, id, ds, s, x);
    }
  }

  /** Descendants of a branch head, the head itself included (an empty branch starts with
      the join). */
  ghost function DescSelf(g: Graph, k: NodeId): seq<NodeId>
    requires g.Valid() && k in g.out
  {
    Desc(g, k) + (if k in Desc(g, k) then [] else [k])
  }

  lemma DescSelfIsReach(g: Graph, k: NodeId)
    requires g.Valid() && k in g.out
    ensures forall x :: x in DescSelf(g, k) <==> g.Reach(k, x)
  {
    DescIsReach(g, k);
    ReachRefl(g, k);
    forall x | x in DescSelf(g, k) ensures g.Reach(k, x) {
      if x in Desc(g, k) {
        PlusReach(g, k, x);
      }
    }
    forall x | g.Reach(k, x) ensures x in DescSelf(g, k) {
      ReachCases(g, k, x);
    }
  }

  function Filter(s: seq<NodeId>, keep: seq<NodeId>): seq<NodeId> {
    if s == [] then []
    else (if s[0] in keep then [s[0]] else []) + Filter(s[1..], keep)
  }

  lemma {:induction false} FilterElements(s: seq<NodeId>, keep: seq<NodeId>)
    ensures forall n :: n in Filter(s, keep) <==> n in s && n in keep
  {
    if s != [] {
      FilterElements(s[1..], keep);
      assert s == [s[0]] + s[1..];
    }
  }

  /** The nodes below all of the heads, in the order of the first head's search. */
  ghost function Common(g: Graph, heads: seq<NodeId>): (c: seq<NodeId>)
    requires g.Valid() && |heads| > 0
    requires forall i :: 0 <= i < |heads| ==> heads[i] in g.out
  {
    var k := heads[|heads| - 1];
    if |heads| == 1 then DescSelf(g, k)
    else Filter(Common(g, heads[..|heads| - 1]), DescSelf(g, k))
  }

  /** `x` is reached from every one of the heads. */
  ghost predicate BelowAll(g: Graph, heads: seq<NodeId>, x: NodeId)
    requires g.Valid()
  {
    forall k :: k in heads ==> g.Reach(k, x)
  }

  lemma {:induction false} CommonIsReach(g: Graph, heads: seq<NodeId>)
    requires g.Valid() && |heads| > 0
    requires forall i :: 0 <= i < |heads| ==> heads[i] in g.out
    ensures forall x :: x in Common(g, heads) <==> BelowAll(g, heads, x)
  {
    var k := heads[|heads| - 1];
    var init := heads[..|heads| - 1];
    assert heads == init + [k];
    DescSelfIsReach(g, k);
    if |heads| > 1 {
      CommonIsReach(g, init);
      FilterElements(Common(g, init), DescSelf(g, k));
    }
  }

  /** The first of the shallowest nodes of `s`. */
  function Shallowest(s: seq<NodeId>, m: map<NodeId, nat>): (r: Option<NodeId>)
    requires forall n :: n in s ==> n in m
    ensures r.Some? ==> r.value in m
  {
    if s == [] then None
    else
      var init := s[..|s| - 1];
      var last := s[|s| - 1];
      var b := Shallowest(init, m);
      if b.None? || m[last] < m[b.value] then Some(last) else b
  }

  /** `x` stands in the list, nothing in it is shallower, and all that stands before it is deeper. */
  ghost predicate FirstLeast(s: seq<NodeId>, m: map<NodeId, nat>, x: NodeId)
    requires forall n :: n in s ==> n in m
  {
    exists i :: FirstLeastAt(s, m, x, i)
  }

  ghost predicate FirstLeastAt(s: seq<NodeId>, m: map<NodeId, nat>, x: NodeId, i: int)
    requires forall n :: n in s ==> n in m
  {
    && 0 <= i < |s| && s[i] == x
    && (forall j :: 0 <= j < i ==> m[x] < m[s[j]])
    && (forall j :: i <= j < |s| ==> m[x] <= m[s[j]])
  }

  lemma {:induction false} ShallowestIsLeast(s: seq<NodeId>, m: map<NodeId, nat>)
    requires forall n :: n in s ==> n in m
    ensures
      var r := Shallowest(s, m);
      && (r.None? <==> s == [])
      && (r.Some? ==> r.value in s && forall n :: n in s ==> m[r.value] <= m[n])
  {
    if s != [] {
      var init := s[..|s| - 1];
      assert s == init + [s[|s| - 1]];
      ShallowestIsLeast(init, m);
    }
  }

  lemma FirstGrows(s: seq<NodeId>, last: NodeId, m: map<NodeId, nat>, x: NodeId, i: int)
    requires (forall n :: n in s + [last] ==> n in m) && (forall n :: n in s ==> n in m)
    requires FirstLeastAt(s, m, x, i)
    ensures last in m
    ensures
      if m[last] < m[x] then FirstLeastAt(s + [last], m, last, |s|) else FirstLeastAt(s + [last], m, x, i)
  {
    assert last in s + [last];
  }

  lemma {:induction false} ShallowestIsFirst(s: seq<NodeId>, m: map<NodeId, nat>)
    requires |s| > 0 && forall n :: n in s ==> n in m
    ensures Shallowest(s, m).Some? && FirstLeast(s, m, Shallowest(s, m).value)
  {
    var init := s[..|s| - 1];
    assert s == init + [s[|s| - 1]];
    if init == [] {
      assert FirstLeastAt(s, m, s[0], 0);
    } else {
      ShallowestIsFirst(init, m);
      var i :| FirstLeastAt(init, m, Shallowest(init, m).value, i);
      FirstGrows(init, s[|s| - 1], m, Shallowest(init, m).value, i);
    }
  }

  lemma CommonKnown(g: Graph, heads: seq<NodeId>)
    requires g.Valid() && |heads| > 0
    requires forall i :: 0 <= i < |heads| ==> heads[i] in g.out
    ensures forall x :: x in Common(g, heads) ==> x in g.out
  {
    CommonIsReach(g, heads);
    forall x | x in Common(g, heads) ensures x in g.out {
      assert heads[0] in heads;
      ReachKnown(g, heads[0], x);
    }
  }

  lemma HeadsKnown(g: Graph, split: NodeId)
    requires g.Valid() && split in g.out
    ensures forall i :: 0 <= i < |g.out[split]| ==> g.out[split][i] in g.out
  {
    forall i | 0 <= i < |g.out[split]| ensures g.out[split][i] in g.out {
      assert g.out[split][i] in g.out[split];
    }
  }

  ghost function MatchingJoin(g: Graph, m: map<NodeId, nat>, split: NodeId): (r: Option<NodeId>)
    requires g.Valid() && DepthMap(g, m) && split in g.out && |g.out[split]| > 0
    ensures r.Some? ==> r.value in g.out
  {
    HeadsKnown(g, split);
    CommonKnown(g, g.out[split]);
    Shallowest(Common(g, g.out[split]), m)
  }

  /** `x` is the first of the shallowest nodes below all branch heads, in the order of the search. */
  ghost predicate FirstBelow(g: Graph, m: map<NodeId, nat>, split: NodeId, x: NodeId)
    requires g.Valid() && DepthMap(g, m) && split in g.out && |g.out[split]| > 0
  {
    HeadsKnown(g, split);
    CommonKnown(g, g.out[split]);
    FirstLeast(Common(g, g.out[split]), m, x)
  }

  /** What `matchingJoin` returns lies below every branch head and is as shallow as any such node, the
      first of these in the order of the search; it fails exactly if there is none. */
  lemma MatchingJoinSpec(g: Graph, m: map<NodeId, nat>, split: NodeId)
    requires g.Valid() && DepthMap(g, m) && split in g.out && |g.out[split]| > 0
    ensures
      var r := MatchingJoin(g, m, split);
      && (r.Some? ==>
        && BelowAll(g, g.out[split], r.value)
        && m[split] < m[r.value]
        && (forall x :: x in g.out && BelowAll(g, g.out[split], x) ==> m[r.value] <= m[x])
        && FirstBelow(g, m, split, r.value))
      && (r.None? ==> forall x :: !BelowAll(g, g.out[split], x))
  {
    HeadsKnown(g, split);
    CommonIsReach(g, g.out[split]);
    CommonKnown(g, g.out[split]);
    ShallowestIsLeast(Common(g, g.out[split]), m);
    var r := MatchingJoin(g, m, split);
    if r.Some? {
      ShallowestIsFirst(Common(g, g.out[split]), m);
      var k := g.out[split][0];
      EdgeDeeper(g, m, split, k);
      ReachDeeper(g, m, k, r.value);
    }
  }
}
