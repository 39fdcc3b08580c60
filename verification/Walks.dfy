/** The walks of the spine layout as they run: closures over shared tables.

    The tables are the fields of one object, the closures its methods; each method is
    proved to return, and to leave in the tables, what its specification function says. */
module Walks {
  import opened Basics
  import opened Graphs
  import opened Depths
  import opened Joins
  import opened Spine
  import opened Bands

  class SpineWalk {
    const g: Graph
    const depth: map<NodeId, nat>
    var joinCache: map<NodeId, NodeId>
    var lane: map<NodeId, real>
    var placed: set<NodeId>
    var emptyLane: map<(NodeId, NodeId), real>

    ghost predicate Fixed() {
      g.Valid() && |g.ids| == |g.out| && DepthMap(g, depth)
    }

    /** Cached joins are the ones the search finds. */
    ghost predicate CacheOk()
      requires Fixed()
      reads this`joinCache
    {
      forall s {:trigger joinCache[s]} :: s in joinCache ==> IsJoin(s, joinCache[s])
    }

    ghost predicate IsJoin(s: NodeId, j: NodeId)
      requires Fixed()
    {
      s in g.out && |g.out[s]| > 0 && Joins.MatchingJoin(g, depth, s) == Some(j)
    }

    ghost function State(): Placement
      reads this
    {
      Placement(lane, placed, emptyLane)
    }

    constructor (g: Graph, depth: map<NodeId, nat>)
      requires g.Valid() && g.Listed() && DepthMap(g, depth)
      ensures this.g == g && this.depth == depth && Fixed() && CacheOk()
      ensures State() == NOTHING_PLACED
    {
      ListedCount(g);
      this.g := g;
      this.depth := depth;
      joinCache, lane, placed, emptyLane := map[], map[], {}, map[];
    }

    /** Pushes the successors of `n` that were not seen before. */
    method Visit(n: NodeId, rest: seq<NodeId>, before: seq<NodeId>) returns (stack: seq<NodeId>, seen: seq<NodeId>)
      requires n in g.out
      ensures stack == rest + Novel(g.out[n], before) && seen == before + Novel(g.out[n], before)
    {
      stack, seen := rest, before;
      ghost var novel: seq<NodeId> := [];
      assert g.out[n][0..] == g.out[n];
      for i := 0 to |g.out[n]|
        invariant stack == rest + novel && seen == before + novel
        invariant novel + Novel(g.out[n][i..], seen) == Novel(g.out[n], before)
      {
        var s := g.out[n][i];
        NovelTake(g.out[n], i, novel, seen);
        if s !in seen {
          seen := seen + [s];
          stack := stack + [s];
          novel := novel + [s];
        }
      }
    }

    /** All nodes below `id`, in the order a depth-first search meets them. */
    method Descendants(id: NodeId) returns (seen: seq<NodeId>)
      requires g.Valid() && id in g.out
      ensures seen == Desc(g, id)
      ensures forall x :: x in seen <==> g.ReachPlus(id, x)
    {
      seen := [];
      var stack := [id];
      while stack != []
        invariant Distinct(seen)
        invariant forall n :: n in stack ==> n in g.out
        invariant forall n :: n in seen ==> n in g.out
        invariant Search(g, stack, seen) == Desc(g, id)
        decreases |g.out| - Count(g, seen), |stack|
      {
        var n := stack[|stack| - 1];
        ghost var novel := Novel(g.out[n], seen);
        NovelElements(g.out[n], seen);
        NovelDistinct(g.out[n], seen);
        CountGrows(g, seen, novel);
        stack, seen := Visit(n, stack[..|stack| - 1], seen);
      }
      DescIsReach(g, id);
    }

    /** An empty branch starts with the join itself, so the head counts as well. */
    method DescendantsOrSelf(k: NodeId) returns (ds: seq<NodeId>)
      requires g.Valid() && k in g.out
      ensures ds == DescSelf(g, k)
    {
      ds := Descendants(k);
      if k !in ds {
        ds := ds + [k];
      }
    }

    /** The nodes below all of the heads. */
    method CommonOf(heads: seq<NodeId>) returns (common: seq<NodeId>)
      requires g.Valid() && |heads| > 0
      requires forall i :: 0 <= i < |heads| ==> heads[i] in g.out
      ensures common == Common(g, heads)
    {
      common := [];
      for i := 0 to |heads|
        invariant i > 0 ==> common == Common(g, heads[..i])
      {
        var ds := DescendantsOrSelf(heads[i]);
        CommonTake(g, heads, i);
        common := if i == 0 then ds else Filter(common, ds);
      }
      assert heads[..|heads|] == heads;
    }

    method ShallowestOf(common: seq<NodeId>) returns (best: Option<NodeId>)
      requires forall n :: n in common ==> n in depth
      ensures best == Shallowest(common, depth)
    {
      best := None;
      for i := 0 to |common|
        invariant best == Shallowest(common[..i], depth)
      {
        assert common[..i + 1][..i] == common[..i];
        if best == None || depth[common[i]] < depth[best.value] {
          best := Some(common[i]);
        }
      }
      assert common[..|common|] == common;
    }

    /** The shallowest node below every branch of `split`, memoised. */
    method MatchingJoin(split: NodeId) returns (r: Result<NodeId>)
      requires Fixed() && CacheOk() && split in g.out && |g.out[split]| > 0
      modifies this`joinCache
      ensures CacheOk()
      ensures match Joins.MatchingJoin(g, depth, split)
              case Some(j) => r == Ok(j)
              case None => r == Err(NoMatchingJoin)
    {
      if split in joinCache {
        return Ok(joinCache[split]);
      }
      HeadsKnown(g, split);
      CommonKnown(g, g.out[split]);
      var common := CommonOf(g.out[split]);
      var best := ShallowestOf(common);
      if best == None {
        return Err(NoMatchingJoin);
      }
      joinCache := joinCache[split := best.value];
      r := Ok(best.value);
    }

    /** Height of the sequence from `start` to `stop`; the guard never fires. */
    method Measure(start: Option<NodeId>, stop: Option<NodeId>) returns (r: Result<real>)
      requires Fixed() && CacheOk() && Ready(g, depth, start)
      modifies this`joinCache
      ensures CacheOk()
      ensures r == Spine.Measure(g, depth, start, stop, 1.0)
      ensures r.Err? ==> r.error == NoMatchingJoin
      decreases Room(g, depth, start), 1
    {
      var node, span, guard := start, 1.0, 0;
      while node != stop && node.Some?
        invariant CacheOk() && Ready(g, depth, node)
        invariant Spine.Measure(g, depth, node, stop, span) == Spine.Measure(g, depth, start, stop, 1.0)
        invariant node.Some? ==> guard <= depth[node.value]
        invariant Room(g, depth, node) <= Room(g, depth, start)
        decreases Room(g, depth, node)
      {
        var n := node.value;
        GuardHolds(g, depth, n);
        if guard > |g.ids| + 2 {
          return Err(RunawayMeasure);
        }
        guard := guard + 1;
        var succ := g.out[n];
        if |succ| > 1 {
          var j := MatchingJoin(n);
          if j.Err? {
            return Err(NoMatchingJoin);
          }
          JoinRight(g, depth, n, stop);
          var block := MeasureBlock(n, j.value);
          if block.Err? {
            return block;
          }
          MeasureSplit(g, depth, n, j.value, Heights(g, depth, n, j.value, []).value, stop, span);
          span := Max(span, block.value);
          node := OnlySucc(g, j.value, stop);
        } else {
          SerialRight(g, depth, n);
          node := SerialSucc(g, n);
        }
      }
      r := Ok(span);
    }

    /** Height of the block that split `n` opens: its branches plus the gaps. */
    method MeasureBlock(n: NodeId, j: NodeId) returns (r: Result<real>)
      requires Fixed() && CacheOk() && n in g.out && |g.out[n]| > 1
      modifies this`joinCache
      ensures CacheOk()
      ensures match Heights(g, depth, n, j, [])
              case Err(e) => r == Err(e)
              case Ok(hs) => r == Ok(Total(hs))
      decreases Room(g, depth, Some(n)), 0, 0
    {
      var succ := g.out[n];
      var block := BRANCH_GAP * (|succ| - 1) as real;
      ghost var hs: seq<real> := [];
      for i := 0 to |succ|
        invariant CacheOk() && |hs| == i && block == Sum(hs) + BRANCH_GAP * (|succ| - 1) as real
        invariant Heights(g, depth, n, j, hs) == Heights(g, depth, n, j, [])
      {
        EdgeRight(g, depth, n, i);
        var h := Measure(Some(succ[i]), Some(j));
        if h.Err? {
          return h;
        }
        block := block + h.value;
        SumAppend(hs, h.value);
        hs := hs + [h.value];
      }
      r := Ok(block);
    }

    /** Puts the sequence from `start` to `stop` on the line `center`, its branches
        symmetrically around it; the guard never fires. */
    method Place(start: Option<NodeId>, center: real, stop: Option<NodeId>) returns (r: Result<()>)
      requires Fixed() && CacheOk() && Ready(g, depth, start)
      modifies this
      ensures CacheOk()
      ensures match Spine.Place(g, depth, start, center, stop, old(State()))
              case Ok(q) => r == Ok(()) && State() == q
              case Err(e) => r == Err(e)
      decreases Room(g, depth, start), 2
    {
      var node, guard := start, 0;
      while node != stop && node.Some?
        invariant CacheOk() && Ready(g, depth, node)
        invariant Spine.Place(g, depth, node, center, stop, State()) ==
                  Spine.Place(g, depth, start, center, stop, old(State()))
        invariant node.Some? ==> guard <= depth[node.value]
        invariant Room(g, depth, node) <= Room(g, depth, start)
        decreases Room(g, depth, node)
      {
        GuardHolds(g, depth, node.value);
        if guard > |g.ids| + 2 {
          return Err(RunawayPlace);
        }
        guard := guard + 1;
        var next := PlaceNode(node.value, center, stop);
        if next.Err? {
          return Err(next.error);
        }
        node := next.value;
      }
      r := Ok(());
    }

    /** One round of `Place`: the node, and at a split its whole block; returns where the
        sequence goes on. */
    method PlaceNode(n: NodeId, center: real, stop: Option<NodeId>) returns (r: Result<Option<NodeId>>)
      requires Fixed() && CacheOk() && n in g.out && stop != Some(n)
      modifies this
      ensures CacheOk()
      ensures r.Ok? ==> Right(g, depth, n, r.value)
      ensures r.Ok? ==>
        PlaceAt(g, depth, n, center, stop, old(State())) == Spine.Place(g, depth, r.value, center, stop, State())
      ensures r.Err? ==> PlaceAt(g, depth, n, center, stop, old(State())) == Err(r.error)
      decreases Room(g, depth, Some(n)), 1
    {
      SerialRight(g, depth, n);
      if n in placed {
        return Err(Revisit);
      }
      placed := placed + {n};
      lane := lane[n := center];
      assert State() == old(State()).Put(n, center);
      if |g.out[n]| <= 1 {
        return Ok(SerialSucc(g, n));
      }
      r := PlaceSplitNode(n, center, stop, old(State()));
    }

    /** The rest of a round at a split: its branches, and its join unless the caller owns it. */
    method PlaceSplitNode(n: NodeId, center: real, stop: Option<NodeId>, ghost p: Placement)
        returns (r: Result<Option<NodeId>>)
      requires Fixed() && CacheOk() && n in g.out && stop != Some(n) && |g.out[n]| > 1
      requires n !in p.placed && State() == p.Put(n, center)
      modifies this
      ensures CacheOk()
      ensures r.Ok? ==> Right(g, depth, n, r.value)
      ensures r.Ok? ==> PlaceAt(g, depth, n, center, stop, p) == Spine.Place(g, depth, r.value, center, stop, State())
      ensures r.Err? ==> PlaceAt(g, depth, n, center, stop, p) == Err(r.error)
      decreases Room(g, depth, Some(n)), 0, 1
    {
      var j := MatchingJoin(n);
      if j.Err? {
        return Err(j.error);
      }
      JoinRight(g, depth, n, stop);
      var hs := BranchHeights(n, j.value);
      if hs.Err? {
        return Err(hs.error);
      }
      var b := PlaceBlock(n, j.value, hs.value, center);
      if b.Err? {
        return Err(b.error);
      }
      if Some(j.value) == stop {
        return Ok(stop);
      }
      lane := lane[j.value := center];
      placed := placed + {j.value};
      r := Ok(OnlySucc(g, j.value, stop));
    }

    /** The heights of the branches of split `n`. */
    method BranchHeights(n: NodeId, j: NodeId) returns (r: Result<seq<real>>)
      requires Fixed() && CacheOk() && n in g.out
      modifies this`joinCache
      ensures CacheOk()
      ensures r == Heights(g, depth, n, j, [])
      decreases Room(g, depth, Some(n)), 0, 0
    {
      var hs: seq<real> := [];
      for i := 0 to |g.out[n]|
        invariant CacheOk() && |hs| == i
        invariant Heights(g, depth, n, j, hs) == Heights(g, depth, n, j, [])
      {
        EdgeRight(g, depth, n, i);
        var h := Measure(Some(g.out[n][i]), Some(j));
        if h.Err? {
          return Err(h.error);
        }
        hs := hs + [h.value];
      }
      r := Ok(hs);
    }

    /** The branches of split `n`, from top to bottom, the block centred on `center`. */
    method PlaceBlock(n: NodeId, j: NodeId, hs: seq<real>, center: real) returns (r: Result<()>)
      requires Fixed() && CacheOk() && n in g.out && |hs| == |g.out[n]| > 1
      modifies this
      ensures CacheOk()
      ensures match PlaceBranches(g, depth, n, j, hs, center, old(State()), 0)
              case Err(e) => r == Err(e)
              case Ok(q) => r == Ok(()) && State() == q
      decreases Room(g, depth, Some(n)), 0, 0
    {
      var cursor := center - Total(hs) / 2.0;
      assert hs[..0] == [];
      for i := 0 to |hs|
        invariant CacheOk()
        invariant cursor == Cursor(hs, center, i)
        invariant PlaceBranches(g, depth, n, j, hs, center, State(), i) ==
                  PlaceBranches(g, depth, n, j, hs, center, old(State()), 0)
      {
        PlaceBranchesStep(g, depth, n, j, hs, center, State(), i);
        ghost var p := State();
        var c := g.out[n][i];
        var at := cursor + hs[i] / 2.0;
        if c == j {
          emptyLane := emptyLane[(n, j) := at];
        }
        assert State() == if c == j then p.Reserve(n, j, at) else p;
        var b := Place(Some(c), at, Some(j));
        if b.Err? {
          return b;
        }
        CursorStep(hs, center, i);
        cursor := cursor + hs[i] + BRANCH_GAP;
      }
      r := Ok(());
    }
  }

  /** Upper edge of branch `i` of a block centred on `center`. */
  ghost function Cursor(hs: seq<real>, center: real, i: nat): real
    requires i <= |hs| && |hs| > 0
  {
    center - Total(hs) / 2.0 + Sum(hs[..i]) + BRANCH_GAP * i as real
  }

  lemma CursorStep(hs: seq<real>, center: real, i: nat)
    requires i < |hs|
    ensures Cursor(hs, center, i + 1) == Cursor(hs, center, i) + hs[i] + BRANCH_GAP
  {
    PrefixStep(hs, i);
    SumAppend(hs[..i], hs[i]);
  }

  lemma PrefixStep<T>(s: seq<T>, i: nat)
    requires i < |s|
    ensures s[..i + 1] == s[..i] + [s[i]]
  {
  }

  /** One branch of `PlaceBranches`. */
  lemma PlaceBranchesStep(g: Graph, m: map<NodeId, nat>, n: NodeId, j: NodeId, hs: seq<real>, center: real,
      p: Placement, k: nat)
    requires g.Valid() && DepthMap(g, m) && n in g.out && |hs| == |g.out[n]| && k < |hs|
    ensures Right(g, m, n, Some(g.out[n][k]))
    ensures
      var c, at := g.out[n][k], BranchCenter(hs, center, k);
      PlaceBranches(g, m, n, j, hs, center, p, k) ==
      match Spine.Place(g, m, Some(c), at, Some(j), if c == j then p.Reserve(n, j, at) else p)
      case Err(e) => Err(e)
      case Ok(q) => PlaceBranches(g, m, n, j, hs, center, q, k + 1)
  {
    EdgeRight(g, m, n, k);
  }

  lemma NovelStep(novel: seq<NodeId>, s: NodeId, t: seq<NodeId>, seen: seq<NodeId>)
    requires s !in seen
    ensures novel + Novel([s] + t, seen) == (novel + [s]) + Novel(t, seen + [s])
  {
    assert ([s] + t)[1..] == t;
    assert novel + ([s] + Novel(t, seen + [s])) == (novel + [s]) + Novel(t, seen + [s]);
  }

  /** Looking at the `i`-th element of `s` moves it to the novel ones unless it was seen. */
  lemma NovelTake(s: seq<NodeId>, i: nat, novel: seq<NodeId>, seen: seq<NodeId>)
    requires i < |s|
    ensures novel + Novel(s[i..], seen) ==
            if s[i] in seen then novel + Novel(s[i + 1..], seen)
            else (novel + [s[i]]) + Novel(s[i + 1..], seen + [s[i]])
  {
    assert s[i..] == [s[i]] + s[i + 1..];
    assert s[i..][1..] == s[i + 1..];
    if s[i] !in seen {
      NovelStep(novel, s[i], s[i + 1..], seen);
    }
  }

  lemma CommonStep(g: Graph, heads: seq<NodeId>, k: NodeId)
    requires g.Valid() && k in g.out
    requires forall i :: 0 <= i < |heads| ==> heads[i] in g.out
    ensures Common(g, heads + [k]) ==
            if heads == [] then DescSelf(g, k) else Filter(Common(g, heads), DescSelf(g, k))
  {
    assert (heads + [k])[..|heads|] == heads;
  }

  lemma CommonTake(g: Graph, heads: seq<NodeId>, i: nat)
    requires g.Valid() && i < |heads| && forall k :: 0 <= k < |heads| ==> heads[k] in g.out
    ensures Common(g, heads[..i + 1]) ==
            if i == 0 then DescSelf(g, heads[i]) else Filter(Common(g, heads[..i]), DescSelf(g, heads[i]))
  {
    PrefixStep(heads, i);
    CommonStep(g, heads[..i], heads[i]);
  }

  lemma SumAppend(s: seq<real>, x: real)
    ensures Sum(s + [x]) == Sum(s) + x
  {
    assert (s + [x])[..|s|] == s;
  }

  lemma ListedCount(g: Graph)
    requires g.Listed()
    ensures |g.ids| == |g.out|
  {
    DistinctCard(g.ids);
    assert (set x | x in g.ids) == g.out.Keys;
  }

  /** A walk that has moved right once per round cannot reach the guard. */
  lemma GuardHolds(g: Graph, m: map<NodeId, nat>, n: NodeId)
    requires g.Valid() && |g.ids| == |g.out| && DepthMap(g, m) && n in g.out
    ensures m[n] < |g.ids|
  {
    DepthBound(g, m, n);
  }
}
