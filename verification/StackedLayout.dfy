/** The fallback layout: columns by a depth that tolerates cycles, nodes stacked in each.

    It asks nothing of the schema but that no edge into a known node starts at an unknown one. */
module StackedLayout {
  import opened Basics
  import opened Graphs
  import opened Depths
  import opened Schemas
  import opened SpineLayout

  lemma {:induction false} KnownSources(es: seq<SchemaEdge>, nodes: map<NodeId, Node>, n: NodeId)
    requires forall e :: e in es && e.target == n ==> e.source in nodes
    ensures AllSources(es, n) == Sources(es, nodes, n) || n !in nodes
  {
    if es != [] {
      assert es == es[..|es| - 1] + [es[|es| - 1]];
      KnownSources(es[..|es| - 1], nodes, n);
    }
  }

  /** An edge into a known node starts at an unknown one. */
  ghost predicate DanglingSource(s: Schema) {
    exists e :: e in ControlEdges(s.edges) && e.target in s.nodes && e.source !in s.nodes
  }

  ghost predicate IncomingFor(nodes: map<NodeId, Node>, es: seq<SchemaEdge>, inc: map<NodeId, seq<NodeId>>) {
    inc.Keys == nodes.Keys && forall n :: n in inc ==> inc[n] == AllSources(es, n)
  }

  ghost predicate IncomingOf(s: Schema, inc: map<NodeId, seq<NodeId>>) {
    IncomingFor(s.nodes, ControlEdges(s.edges), inc)
  }

  /** Every listed source is itself listed: no edge dangles on its left end. */
  ghost predicate Closed(inc: map<NodeId, seq<NodeId>>) {
    forall n, p {:trigger p in inc[n]} :: n in inc && p in inc[n] ==> p in inc
  }

  lemma IncomingClosed(s: Schema, inc: map<NodeId, seq<NodeId>>)
    requires s.Valid() && IncomingOf(s, inc)
    ensures Closed(inc) <==> !DanglingSource(s)
    ensures Closed(inc) ==> inc == GraphOf(s).inc
  {
    var es := ControlEdges(s.edges);
    forall n, p ensures n in inc ==> (p in inc[n] <==> HasEdge(es, p, n)) {
      AllSourcesAreEdges(es, p, n);
    }
    if Closed(inc) {
      forall e | e in es && e.target in s.nodes ensures e.source in s.nodes {
        assert HasEdge(es, e.source, e.target);
        assert e.source in inc[e.target];
      }
      forall n | n in inc ensures inc[n] == GraphOf(s).inc[n] {
        KnownSources(es, s.nodes, n);
      }
    } else {
      var n, p :| n in inc && p in inc[n] && p !in inc;
      assert HasEdge(es, p, n);
    }
  }

  /** The tolerant recursion `d`: a node that is still being visited counts as depth 0. */
  class TolerantDepth {
    const inc: map<NodeId, seq<NodeId>>
    ghost const g: Graph
    var depth: map<NodeId, nat>
    var visiting: set<NodeId>

    ghost predicate Inv()
      reads this
    {
      && g.Valid() && inc.Keys == g.out.Keys && (Closed(inc) ==> inc == g.inc)
      && depth.Keys <= inc.Keys && visiting <= inc.Keys && visiting !! depth.Keys
      && (forall n, p {:trigger p in inc[n]} :: n in depth && p in inc[n] ==> p in inc)
      && (Closed(inc) && g.Acyclic() ==> PartialDepth(g, depth))
    }

    constructor (inc: map<NodeId, seq<NodeId>>, ghost g: Graph)
      requires g.Valid() && inc.Keys == g.out.Keys && (Closed(inc) ==> inc == g.inc)
      ensures this.inc == inc && this.g == g && Inv() && depth == map[] && visiting == {}
    {
      this.inc := inc;
      this.g := g;
      depth := map[];
      visiting := {};
    }

    /** On a control flow without cycles no node is met while it is being visited. */
    ghost predicate Below(id: NodeId)
      requires g.Valid()
      reads this
    {
      Closed(inc) ==> forall v :: v in visiting ==> g.ReachPlus(id, v)
    }

    method D(id: NodeId) returns (r: Option<nat>)
      requires Inv() && Below(id) && (Closed(inc) ==> id in inc)
      modifies this
      ensures r.None? ==> !Closed(inc)
      ensures r.Some? ==> Inv() && visiting == old(visiting) && Extends(old(depth), depth) && id in inc
      ensures r.Some? && id !in visiting ==> id in depth && depth[id] == r.value
      ensures r.Some? && Closed(inc) && g.Acyclic() ==> id !in visiting
      decreases |inc.Keys - visiting|, 0
    {
      if id in depth {
        return Some(depth[id]);
      }
      if id in visiting {
        return Some(0);
      }
      if id !in inc {
        return None;
      }
      ghost var before := visiting;
      OneLess(inc.Keys, visiting, id);
      visiting := visiting + {id};
      var m := Deepest(id, before);
      if m.None? {
        return None;
      }
      if Closed(inc) && g.Acyclic() {
        ExtendDepth(g, depth, id, m.value);
      }
      FinishVisit(depth, before, id, m.value);
      visiting := visiting - {id};
      depth := depth[id := m.value];
      r := m;
    }

    /** One more than the greatest depth of a predecessor of `id`, which is being visited. */
    method Deepest(id: NodeId, ghost before: set<NodeId>) returns (r: Option<nat>)
      requires Inv() && id in inc && visiting == before + {id}
      requires Closed(inc) ==> forall v :: v in before ==> g.ReachPlus(id, v)
      modifies this
      ensures r.None? ==> !Closed(inc)
      ensures r.Some? ==> Inv() && visiting == old(visiting) && Extends(old(depth), depth)
      ensures r.Some? ==> forall k :: 0 <= k < |inc[id]| ==> inc[id][k] in inc
      ensures r.Some? && Closed(inc) && g.Acyclic() ==>
        && AllBelow(g.inc[id], |g.inc[id]|, depth, r.value)
        && (r.value > 0 ==> exists p :: p in g.inc[id] && p in depth && depth[p] + 1 == r.value)
      decreases |inc.Keys - visiting|, 1
    {
      var m: nat := 0;
      ghost var best := id;
      var preds := inc[id];
      for i := 0 to |preds|
        invariant Inv() && visiting == before + {id} && Extends(old(depth), depth)
        invariant forall k :: 0 <= k < i ==> preds[k] in inc
        invariant Closed(inc) && g.Acyclic() ==> AllBelow(preds, i, depth, m)
        invariant Closed(inc) && g.Acyclic() && m > 0 ==> best in preds && best in depth && depth[best] + 1 == m
      {
        if Closed(inc) {
          VisitPredecessor(g, before, id, preds[i]);
        }
        ghost var d0, m0 := depth, m;
        var q := D(preds[i]);
        if q.None? {
          return None;
        }
        if q.value + 1 > m {
          m := q.value + 1;
          best := preds[i];
        }
        if Closed(inc) && g.Acyclic() {
          AllBelowStep(preds, i, d0, m0, depth, m);
        }
      }
      r := Some(m);
    }

    /** `ids.forEach(d)`: fails exactly on an edge whose source is unknown; without cycles it
        yields the longest-path depths. */
    method All(ids: seq<NodeId>) returns (r: Option<map<NodeId, nat>>)
      requires Inv() && depth == map[] && visiting == {}
      requires forall n :: n in ids <==> n in inc
      modifies this
      ensures r.Some? <==> Closed(inc)
      ensures r.Some? ==> r.value.Keys == inc.Keys
      ensures r.Some? && g.Acyclic() ==> DepthMap(g, r.value)
    {
      for i := 0 to |ids|
        invariant Inv() && visiting == {}
        invariant forall k :: 0 <= k < i ==> ids[k] in depth
      {
        var q := D(ids[i]);
        if q.None? {
          return None;
        }
      }
      assert depth.Keys == inc.Keys;
      r := Some(depth);
    }
  }

  // ---------------------------------------------------------------- columns

  /** The nodes of column `c`, in key order. */
  function Column(ids: seq<NodeId>, depth: map<NodeId, nat>, c: nat): (r: seq<NodeId>) {
    if ids == [] then []
    else
      var n := ids[|ids| - 1];
      Column(ids[..|ids| - 1], depth, c) + (if n in depth && depth[n] == c then [n] else [])
  }

  lemma {:induction false} ColumnElements(ids: seq<NodeId>, depth: map<NodeId, nat>, c: nat)
    ensures forall n :: n in Column(ids, depth, c) <==> n in ids && n in depth && depth[n] == c
  {
    if ids != [] {
      assert ids == ids[..|ids| - 1] + [ids[|ids| - 1]];
      ColumnElements(ids[..|ids| - 1], depth, c);
    }
  }

  /** In the list `a` stands before `b`. */
  ghost predicate ListedBefore(ids: seq<NodeId>, a: NodeId, b: NodeId) {
    exists i, j :: 0 <= i < j < |ids| && ids[i] == a && ids[j] == b
  }

  /** A column keeps the key order. */
  lemma {:induction false} ColumnInOrder(ids: seq<NodeId>, depth: map<NodeId, nat>, c: nat, i: nat, j: nat)
    requires i < j < |Column(ids, depth, c)|
    ensures ListedBefore(ids, Column(ids, depth, c)[i], Column(ids, depth, c)[j])
  {
    var init, last := ids[..|ids| - 1], ids[|ids| - 1];
    var col := Column(init, depth, c);
    assert ids == init + [last];
    if j < |col| {
      ColumnInOrder(init, depth, c, i, j);
      var p, q :| 0 <= p < q < |init| && init[p] == col[i] && init[q] == col[j];
      assert ids[p] == col[i] && ids[q] == col[j];
    } else {
      ColumnElements(init, depth, c);
      assert col[i] in init;
      var p :| 0 <= p < |init| && init[p] == col[i];
      assert ids[p] == col[i] && ids[|init|] == last;
    }
  }

  ghost predicate AllKnown(s: Schema, list: seq<NodeId>) {
    forall i :: 0 <= i < |list| ==> list[i] in s.nodes
  }

  ghost predicate Ascending(ks: seq<nat>) {
    forall i, j :: 0 <= i < j < |ks| ==> ks[i] < ks[j]
  }

  lemma AboveHead(ks: seq<nat>)
    requires Ascending(ks) && ks != []
    ensures forall x :: x in ks[1..] ==> ks[0] < x
  {
    forall x | x in ks[1..] ensures ks[0] < x {
      var i :| 0 <= i < |ks[1..]| && ks[1..][i] == x;
      assert ks[i + 1] == x;
    }
  }

  lemma AscendingFrom(k: nat, ks: seq<nat>)
    requires Ascending(ks) && forall x :: x in ks ==> k < x
    ensures Ascending([k] + ks)
  {
    forall j | 0 < j < |[k] + ks| ensures k < ([k] + ks)[j] {
      assert ([k] + ks)[j] == ks[j - 1];
      assert ks[j - 1] in ks;
    }
  }

  /** Adds a key to an ascending key list. */
  function AddKey(ks: seq<nat>, k: nat): (r: seq<nat>)
    requires Ascending(ks)
    ensures Ascending(r) && forall x :: x in r <==> x in ks || x == k
  {
    if ks == [] then [k]
    else if k < ks[0] then
      [k] + ks
    else if k == ks[0] then ks
    else
      assert ks == [ks[0]] + ks[1..];
      var t := AddKey(ks[1..], k);
      AboveHead(ks);
      AscendingFrom(ks[0], t);
      [ks[0]] + t
  }

  /** Without gaps a column key is its own index. */
  lemma {:induction false} KeysAreIndices(ks: seq<nat>, i: nat)
    requires Ascending(ks) && i < |ks|
    requires forall k, x: nat {:trigger x in ks, k in ks} :: k in ks && x <= k ==> x in ks
    ensures ks[i] == i
  {
    if i > 0 {
      KeysAreIndices(ks, i - 1);
    }
    assert ks[i] in ks;
    assert i in ks;
    var j :| 0 <= j < |ks| && ks[j] == i;
  }

  ghost predicate Occurs(ids: seq<NodeId>, depth: map<NodeId, nat>, c: nat) {
    exists n :: n in ids && n in depth && depth[n] == c
  }

  method SortedColumns(ids: seq<NodeId>, depth: map<NodeId, nat>) returns (keys: seq<nat>)
    requires forall n :: n in ids ==> n in depth
    ensures Ascending(keys)
    ensures forall k :: k in keys <==> Occurs(ids, depth, k)
  {
    keys := [];
    for i := 0 to |ids|
      invariant Ascending(keys)
      invariant forall k :: k in keys ==> Occurs(ids, depth, k)
      invariant forall j :: 0 <= j < i ==> depth[ids[j]] in keys
    {
      assert Occurs(ids, depth, depth[ids[i]]);
      keys := AddKey(keys, depth[ids[i]]);
    }
  }

  // ---------------------------------------------------------------- stacking

  /** Height of a node with its badges. */
  function Height(s: Schema, n: NodeId): real
    requires n in s.nodes
  {
    NH + BadgeHeight(s.nodes[n])
  }

  /** Distance from the top of the column to its `i`-th node. */
  function Offset(s: Schema, list: seq<NodeId>, i: nat): (r: real)
    requires i <= |list| && AllKnown(s, list)
    ensures r >= 0.0
  {
    if i == 0 then 0.0 else Offset(s, list, i - 1) + Height(s, list[i - 1]) + VGAP
  }

  lemma {:induction false} OffsetsApart(s: Schema, list: seq<NodeId>, i: nat, j: nat)
    requires i < j <= |list| && AllKnown(s, list)
    ensures Offset(s, list, i) + Height(s, list[i]) + VGAP <= Offset(s, list, j)
  {
    if i < j - 1 {
      OffsetsApart(s, list, i, j - 1);
    }
  }

  /** Total height of a column: the nodes and the gaps between them. */
  method ColumnTotal(s: Schema, list: seq<NodeId>) returns (t: real)
    requires AllKnown(s, list)
    ensures t == if list == [] then 0.0 else Offset(s, list, |list|) - VGAP
  {
    t := 0.0;
    for i := 0 to |list|
      invariant t == Offset(s, list, i) - VGAP * i as real
    {
      t := t + Height(s, list[i]);
    }
    t := t + VGAP * (if |list| == 0 then 0 else |list| - 1) as real;
  }

  /** Where a column starts when it is centred vertically. */
  function ColumnTop(s: Schema, list: seq<NodeId>, height: real): real
    requires AllKnown(s, list)
  {
    PAD + (height - PAD * 2.0 - (if list == [] then 0.0 else Offset(s, list, |list|) - VGAP)) / 2.0
  }

  /** `b` is the box of the `i`-th node of the `ci`-th column. */
  ghost predicate StackedAt(s: Schema, list: seq<NodeId>, ci: nat, i: nat, height: real, b: Box) {
    && AllKnown(s, list) && i < |list|
    && b == Box(PAD + ci as real * COLUMN, ColumnTop(s, list, height) + Offset(s, list, i), NW, NH)
  }

  /** `b` is the box the stacked layout gives to `n`. */
  ghost predicate Stacked(s: Schema, cols: seq<seq<NodeId>>, height: real, n: NodeId, b: Box) {
    exists ci: nat, i: nat :: ci < |cols| && StackedAt(s, cols[ci], ci, i, height, b) && cols[ci][i] == n
  }

  /** Below each node of a column, its badges and the gap, stands the next one. */
  lemma NextBelow(s: Schema, list: seq<NodeId>, ci: nat, i: nat, height: real, a: Box, b: Box)
    requires StackedAt(s, list, ci, i, height, a) && StackedAt(s, list, ci, i + 1, height, b)
    ensures b.x == a.x && b.y == a.y + a.h + BadgeHeight(s.nodes[list[i]]) + VGAP
  {
  }

  /** Above and below a column is the same space. */
  lemma ColumnCentred(s: Schema, list: seq<NodeId>, ci: nat, height: real, first: Box, last: Box)
    requires list != []
    requires StackedAt(s, list, ci, 0, height, first) && StackedAt(s, list, ci, |list| - 1, height, last)
    ensures first.y == height - (last.y + last.h + BadgeHeight(s.nodes[list[|list| - 1]]))
  {
  }

  ghost predicate AllStacked(s: Schema, cols: seq<seq<NodeId>>, height: real, pos: map<NodeId, Box>) {
    forall n :: n in pos ==> Stacked(s, cols, height, n, pos[n])
  }

  ghost predicate TallEnough(s: Schema, list: seq<NodeId>, height: real) {
    && AllKnown(s, list)
    && (list != [] ==> Offset(s, list, |list|) - VGAP <= height - PAD * 2.0)
  }

  lemma StackedWhere(s: Schema, cols: seq<seq<NodeId>>, height: real, pos: map<NodeId, Box>, n: NodeId)
      returns (ci: nat, i: nat)
    requires AllStacked(s, cols, height, pos) && n in pos
    ensures ci < |cols| && StackedAt(s, cols[ci], ci, i, height, pos[n]) && cols[ci][i] == n
  {
    assert Stacked(s, cols, height, n, pos[n]);
    ci, i :| ci < |cols| && StackedAt(s, cols[ci], ci, i, height, pos[n]) && cols[ci][i] == n;
  }

  lemma StackedPairClear(s: Schema, la: seq<NodeId>, ca: nat, i: nat, a: Box, lb: seq<NodeId>, cb: nat, j: nat,
      b: Box, height: real)
    requires StackedAt(s, la, ca, i, height, a) && StackedAt(s, lb, cb, j, height, b)
    requires ca == cb ==> la == lb && i != j
    ensures !Overlap2(a, BadgeHeight(s.nodes[la[i]]), b, BadgeHeight(s.nodes[lb[j]]))
  {
    if ca < cb {
      ColumnGap(ca, cb);
    } else if cb < ca {
      ColumnGap(cb, ca);
    } else if i < j {
      OffsetsApart(s, la, i, j);
    } else {
      OffsetsApart(s, la, j, i);
    }
  }

  lemma ColumnGap(a: nat, b: nat)
    requires a < b
    ensures a as real * COLUMN + NW <= b as real * COLUMN
  {
    var d := b - a;
    assert b as real == a as real + d as real;
    assert d as real * COLUMN >= COLUMN;
  }

  /** No two stacked boxes overlap, badge stacks included. */
  lemma StackedClear(s: Schema, cols: seq<seq<NodeId>>, height: real, pos: map<NodeId, Box>)
    requires pos.Keys == s.nodes.Keys && AllStacked(s, cols, height, pos)
    ensures Clear(s, pos)
  {
    forall a, b | a in s.nodes && b in s.nodes && a != b ensures !BoxesOverlap(s, pos, a, b) {
      var ca, i := StackedWhere(s, cols, height, pos, a);
      var cb, j := StackedWhere(s, cols, height, pos, b);
      StackedPairClear(s, cols[ca], ca, i, pos[a], cols[cb], cb, j, pos[b], height);
    }
  }

  lemma StackedGridded(s: Schema, cols: seq<seq<NodeId>>, height: real, pos: map<NodeId, Box>)
    requires AllStacked(s, cols, height, pos)
    ensures Gridded(pos)
  {
    forall n | n in pos ensures exists c: nat :: OnGrid(pos[n], c) {
      var ci, i := StackedWhere(s, cols, height, pos, n);
      assert OnGrid(pos[n], ci);
    }
  }

  lemma StackedBoxInside(s: Schema, list: seq<NodeId>, ci: nat, i: nat, n: NodeId, l: Layout, height: real,
      columns: nat)
    requires i < |list| && list[i] == n && n in l.pos && StackedAt(s, list, ci, i, height, l.pos[n])
    requires TallEnough(s, list, height) && height <= l.height && ci < columns
    requires l.width >= PAD * 2.0 + columns as real * NW + (columns - 1) as real * HGAP
    ensures BoxInside(s, l, n)
  {
    OffsetsApart(s, list, i, |list|);
    ColumnsFitWidth(ci, columns - 1);
  }

  lemma StackedNodeInside(s: Schema, cols: seq<seq<NodeId>>, height: real, l: Layout, n: NodeId)
    requires n in l.pos && AllStacked(s, cols, height, l.pos)
    requires forall ci :: 0 <= ci < |cols| ==> TallEnough(s, cols[ci], height)
    requires height <= l.height
    requires l.width >= PAD * 2.0 + |cols| as real * NW + (|cols| - 1) as real * HGAP
    ensures BoxInside(s, l, n)
  {
    var ci, i := StackedWhere(s, cols, height, l.pos, n);
    StackedBoxInside(s, cols[ci], ci, i, n, l, height, |cols|);
  }

  /** Every stacked box keeps the margin inside a drawing of that size. */
  lemma StackedInside(s: Schema, cols: seq<seq<NodeId>>, height: real, l: Layout)
    requires l.pos.Keys == s.nodes.Keys && AllStacked(s, cols, height, l.pos)
    requires forall ci :: 0 <= ci < |cols| ==> TallEnough(s, cols[ci], height)
    requires height <= l.height
    requires l.width >= PAD * 2.0 + |cols| as real * NW + (|cols| - 1) as real * HGAP
    ensures Inside(s, l)
  {
    forall n | n in s.nodes ensures BoxInside(s, l, n) {
      StackedNodeInside(s, cols, height, l, n);
    }
  }

  // ---------------------------------------------------------------- the layout

  ghost predicate ColumnsOf(s: Schema, depth: map<NodeId, nat>, keys: seq<nat>, cols: seq<seq<NodeId>>) {
    && |cols| == |keys| && Ascending(keys)
    && (forall k :: k in keys <==> Occurs(s.ids, depth, k))
    && (forall ci :: 0 <= ci < |cols| ==> cols[ci] == Column(s.ids, depth, keys[ci]))
  }

  lemma ColumnKnown(s: Schema, depth: map<NodeId, nat>, c: nat)
    requires s.Valid()
    ensures AllKnown(s, Column(s.ids, depth, c))
  {
    ColumnElements(s.ids, depth, c);
    var list := Column(s.ids, depth, c);
    forall i | 0 <= i < |list| ensures list[i] in s.nodes {
      assert list[i] in list;
    }
  }

  /** Every node stands somewhere in the column of its depth. */
  lemma ColumnsCover(s: Schema, depth: map<NodeId, nat>, keys: seq<nat>, cols: seq<seq<NodeId>>)
    requires s.Valid() && depth.Keys == s.nodes.Keys && ColumnsOf(s, depth, keys, cols)
    requires forall ci :: 0 <= ci < |cols| ==> AllKnown(s, cols[ci])
    ensures Covers(s, cols)
  {
    forall n | n in s.nodes ensures exists ci, i :: 0 <= ci < |cols| && 0 <= i < |cols[ci]| && cols[ci][i] == n {
      assert Occurs(s.ids, depth, depth[n]);
      var ci :| 0 <= ci < |keys| && keys[ci] == depth[n];
      ColumnElements(s.ids, depth, depth[n]);
      assert n in cols[ci];
    }
  }

  method GroupColumns(s: Schema, depth: map<NodeId, nat>) returns (ghost keys: seq<nat>, cols: seq<seq<NodeId>>)
    requires s.Valid() && depth.Keys == s.nodes.Keys
    ensures ColumnsOf(s, depth, keys, cols)
    ensures forall ci :: 0 <= ci < |cols| ==> AllKnown(s, cols[ci])
  {
    var ks := SortedColumns(s.ids, depth);
    keys, cols := ks, [];
    for i := 0 to |ks|
      invariant |cols| == i
      invariant forall ci :: 0 <= ci < i ==> cols[ci] == Column(s.ids, depth, ks[ci]) && AllKnown(s, cols[ci])
    {
      ColumnKnown(s, depth, ks[i]);
      cols := cols + [Column(s.ids, depth, ks[i])];
    }
  }

  /** Some column reaches from margin to margin. */
  ghost predicate SomeFills(s: Schema, cols: seq<seq<NodeId>>, height: real) {
    exists ci :: 0 <= ci < |cols| && Fills(s, cols[ci], height)
  }

  ghost predicate Fills(s: Schema, list: seq<NodeId>, height: real) {
    AllKnown(s, list) && list != [] && Offset(s, list, |list|) - VGAP == height - PAD * 2.0
  }

  /** The size is that of the columns: as high as the tallest of them, as wide as all of them, with
      the margins, but no less than the least size. */
  ghost predicate SizeOfColumns(s: Schema, cols: seq<seq<NodeId>>, height: real, l: Layout) {
    && (height == NH + PAD * 2.0 || SomeFills(s, cols, height))
    && l.height == Max(height, 160.0)
    && l.width == Max(PAD * 2.0 + |cols| as real * NW + (|cols| - 1) as real * HGAP, 560.0)
  }

  /** `l` stacks the nodes in the columns of their depths. */
  ghost predicate StacksByDepth(s: Schema, depth: map<NodeId, nat>, l: Layout) {
    exists keys, cols, height :: StacksColumns(s, depth, keys, cols, height, l)
  }

  ghost predicate StacksColumns(s: Schema, depth: map<NodeId, nat>, keys: seq<nat>, cols: seq<seq<NodeId>>,
      height: real, l: Layout) {
    ColumnsOf(s, depth, keys, cols) && AllStacked(s, cols, height, l.pos) && SizeOfColumns(s, cols, height, l)
  }

  /** `Math.max(NH, ...)` of the column heights. */
  method TallestColumn(s: Schema, cols: seq<seq<NodeId>>) returns (h: real)
    requires forall ci :: 0 <= ci < |cols| ==> AllKnown(s, cols[ci])
    ensures h >= NH && forall ci :: 0 <= ci < |cols| ==> TallEnough(s, cols[ci], h + PAD * 2.0)
    ensures h == NH || SomeFills(s, cols, h + PAD * 2.0)
  {
    h := NH;
    for i := 0 to |cols|
      invariant h >= NH
      invariant h == NH || SomeFills(s, cols, h + PAD * 2.0)
      invariant forall j :: 0 <= j < i ==> TallEnough(s, cols[j], h + PAD * 2.0)
    {
      var t := ColumnTotal(s, cols[i]);
      h := Max(h, t);
    }
  }

  /** Adds the boxes of the `ci`-th column to `pos`. */
  method StackColumn(s: Schema, cols: seq<seq<NodeId>>, ci: nat, height: real, before: map<NodeId, Box>)
    returns (pos: map<NodeId, Box>)
    requires ci < |cols| && AllKnown(s, cols[ci]) && AllStacked(s, cols, height, before)
    ensures pos.Keys == before.Keys + (set i | 0 <= i < |cols[ci]| :: cols[ci][i])
    ensures AllStacked(s, cols, height, pos)
  {
    var list := cols[ci];
    var total := ColumnTotal(s, list);
    pos := before;
    var y := PAD + (height - PAD * 2.0 - total) / 2.0;
    for i := 0 to |list|
      invariant y == ColumnTop(s, list, height) + Offset(s, list, i)
      invariant pos.Keys == before.Keys + (set k | 0 <= k < i :: list[k])
      invariant AllStacked(s, cols, height, pos)
    {
      var b := Box(PAD + ci as real * COLUMN, y, NW, NH);
      StackOne(s, cols, ci, i, height, pos, b);
      pos := pos[list[i] := b];
      y := y + Height(s, list[i]) + VGAP;
    }
  }

  lemma StackOne(s: Schema, cols: seq<seq<NodeId>>, ci: nat, i: nat, height: real, pos: map<NodeId, Box>, b: Box)
    requires ci < |cols| && StackedAt(s, cols[ci], ci, i, height, b) && AllStacked(s, cols, height, pos)
    ensures AllStacked(s, cols, height, pos[cols[ci][i] := b])
  {
    assert Stacked(s, cols, height, cols[ci][i], b);
  }

  /** Stacks every column, left to right. */
  method StackAll(s: Schema, cols: seq<seq<NodeId>>, height: real) returns (pos: map<NodeId, Box>)
    requires forall ci :: 0 <= ci < |cols| ==> AllKnown(s, cols[ci])
    ensures AllStacked(s, cols, height, pos)
    ensures forall n :: n in pos <==> exists ci, i :: 0 <= ci < |cols| && 0 <= i < |cols[ci]| && cols[ci][i] == n
  {
    pos := map[];
    for ci := 0 to |cols|
      invariant AllStacked(s, cols, height, pos)
      invariant forall n :: n in pos <==> exists c, i :: 0 <= c < ci && 0 <= i < |cols[c]| && cols[c][i] == n
    {
      pos := StackColumn(s, cols, ci, height, pos);
    }
  }

  lemma KeysContiguous(s: Schema, g: Graph, depth: map<NodeId, nat>, k: nat, x: nat)
    requires s.Valid() && g.Valid() && g.out.Keys == s.nodes.Keys && DepthMap(g, depth)
    requires Occurs(s.ids, depth, k) && x <= k
    ensures Occurs(s.ids, depth, x)
  {
    var n :| n in s.ids && n in depth && depth[n] == k;
    ColumnsContiguous(g, depth, n, x);
  }

  /** With longest-path depths the columns have no gaps, so every column index is a depth. */
  lemma IndexIsDepth(s: Schema, g: Graph, depth: map<NodeId, nat>, keys: seq<nat>, cols: seq<seq<NodeId>>, ci: nat,
      i: nat)
    requires s.Valid() && g.Valid() && g.out.Keys == s.nodes.Keys && DepthMap(g, depth)
             && ColumnsOf(s, depth, keys, cols)
    requires ci < |cols| && i < |cols[ci]|
    ensures cols[ci][i] in depth && depth[cols[ci][i]] == ci
  {
    forall k, x: nat {:trigger x in keys, k in keys} | k in keys && x <= k ensures x in keys {
      KeysContiguous(s, g, depth, k, x);
    }
    KeysAreIndices(keys, ci);
    ColumnElements(s.ids, depth, ci);
    assert cols[ci][i] in cols[ci];
  }

  ghost predicate IndicesAreDepths(depth: map<NodeId, nat>, cols: seq<seq<NodeId>>) {
    forall ci, i :: 0 <= ci < |cols| && 0 <= i < |cols[ci]| ==> cols[ci][i] in depth && depth[cols[ci][i]] == ci
  }

  lemma ColumnsAreDepths(s: Schema, g: Graph, depth: map<NodeId, nat>, keys: seq<nat>, cols: seq<seq<NodeId>>)
    requires s.Valid() && g.Valid() && g.out.Keys == s.nodes.Keys && DepthMap(g, depth)
             && ColumnsOf(s, depth, keys, cols)
    ensures IndicesAreDepths(depth, cols)
  {
    forall ci, i | 0 <= ci < |cols| && 0 <= i < |cols[ci]| ensures cols[ci][i] in depth && depth[cols[ci][i]] == ci {
      IndexIsDepth(s, g, depth, keys, cols, ci, i);
    }
  }

  lemma StackedColumns(s: Schema, depth: map<NodeId, nat>, cols: seq<seq<NodeId>>, height: real, pos: map<NodeId, Box>)
    requires IndicesAreDepths(depth, cols)
    requires AllStacked(s, cols, height, pos) && pos.Keys == s.nodes.Keys
    ensures InTheirColumns(s, depth, pos)
  {
    forall n | n in s.nodes ensures n in depth && OnGrid(pos[n], depth[n]) {
      var ci, i := StackedWhere(s, cols, height, pos, n);
      assert depth[n] == ci;
    }
  }

  /** Appends the source of `e` to the list of its target. */
  function Arrive(inc: map<NodeId, seq<NodeId>>, e: SchemaEdge): map<NodeId, seq<NodeId>> {
    if e.target in inc then inc[e.target := inc[e.target] + [e.source]] else inc
  }

  lemma IncomingStep(nodes: map<NodeId, Node>, es: seq<SchemaEdge>, i: nat, inc: map<NodeId, seq<NodeId>>)
    requires i < |es| && IncomingFor(nodes, es[..i], inc)
    ensures IncomingFor(nodes, es[..i + 1], Arrive(inc, es[i]))
  {
    assert es[..i + 1][..i] == es[..i];
  }

  /** Sources of the incoming edges of every node, in edge order. */
  method BuildIncoming(s: Schema) returns (inc: map<NodeId, seq<NodeId>>)
    ensures IncomingOf(s, inc)
  {
    var es := ControlEdges(s.edges);
    inc := map n | n in s.nodes :: [];
    for i := 0 to |es|
      invariant IncomingFor(s.nodes, es[..i], inc)
    {
      IncomingStep(s.nodes, es, i, inc);
      inc := Arrive(inc, es[i]);
    }
    assert es[..|es|] == es;
  }

  /** The columns hold the nodes of the schema and nothing else. */
  ghost predicate Covers(s: Schema, cols: seq<seq<NodeId>>) {
    && (forall ci :: 0 <= ci < |cols| ==> AllKnown(s, cols[ci]))
    && (forall n :: n in s.nodes ==> exists ci, i :: 0 <= ci < |cols| && 0 <= i < |cols[ci]| && cols[ci][i] == n)
  }

  /** Boxes and size for given columns. */
  method DrawColumns(s: Schema, cols: seq<seq<NodeId>>) returns (l: Layout, ghost height: real)
    requires Covers(s, cols)
    ensures SoundLayout(s, l) && AllStacked(s, cols, height, l.pos) && SizeOfColumns(s, cols, height, l)
  {
    var tallest := TallestColumn(s, cols);
    var h := PAD * 2.0 + tallest;
    height := h;
    var pos := StackAll(s, cols, h);
    assert pos.Keys == s.nodes.Keys;
    var width := PAD * 2.0 + |cols| as real * NW + (|cols| - 1) as real * HGAP;
    l := Layout(pos, map[], Max(width, 560.0), Max(h, 160.0));
    StackedClear(s, cols, h, pos);
    StackedGridded(s, cols, h, pos);
    StackedInside(s, cols, h, l);
  }

  /** Groups the nodes by depth and draws them. */
  method DrawStacked(s: Schema, depth: map<NodeId, nat>) returns (l: Layout)
    requires s.Valid() && depth.Keys == s.nodes.Keys && GraphOf(s).Valid()
    ensures SoundLayout(s, l) && StacksByDepth(s, depth, l)
    ensures DepthMap(GraphOf(s), depth) ==> InTheirColumns(s, depth, l.pos)
  {
    var keys, cols := GroupColumns(s, depth);
    ColumnsCover(s, depth, keys, cols);
    ghost var height;
    l, height := DrawColumns(s, cols);
    assert StacksColumns(s, depth, keys, cols, height, l);
    if DepthMap(GraphOf(s), depth) {
      ColumnsAreDepths(s, GraphOf(s), depth, keys, cols);
      StackedColumns(s, depth, cols, height, l.pos);
    }
  }

  ghost predicate IsDepthMap(s: Schema, depth: map<NodeId, nat>) {
    GraphOf(s).Valid() && DepthMap(GraphOf(s), depth)
  }

  /** The stacked layout. It fails only on an edge from an unknown node into a known one;
      its boxes never overlap and keep inside the drawing, cyclic schemas included, and
      without cycles they stand in the columns of the longest paths. */
  method LayoutSchemaStacked(s: Schema) returns (r: Result<Layout>)
    requires s.Valid()
    ensures r.Err? <==> DanglingSource(s)
    ensures r.Err? ==> r.error == UnknownSource
    ensures r.Ok? ==> SoundLayout(s, r.value)
    ensures r.Ok? && !Cyclic(s) ==> InLongestPathColumns(s, r.value.pos)
    ensures r.Ok? ==> exists depth :: StacksByDepth(s, depth, r.value) && (!Cyclic(s) ==> IsDepthMap(s, depth))
  {
    GraphIsControlFlow(s);
    var inc := BuildIncoming(s);
    IncomingClosed(s, inc);
    var table := new TolerantDepth(inc, GraphOf(s));
    var d := table.All(s.ids);
    if d.None? {
      return Err(UnknownSource);
    }
    var l := DrawStacked(s, d.value);
    r := Ok(l);
  }
}
