/** Reading a drawn process with the arrow keys: from START to END by going right. */
module KeyboardRuns {
  import opened Basics
  import opened Graphs
  import opened Depths
  import opened Flows
  import opened Schemas
  import opened SpineLayout
  import opened BlockLayout
  import opened Navigation

  /** The last node of a process. */
  function Exit(f: Flow): NodeId
    requires f != Done
  {
    match f
    case Step(id, next) => if next == Done then id else Exit(next)
    case Block(_, _, _, j, next) => if next == Done then j else Exit(next)
    case Loop(_, _, e, next) => if next == Done then e else Exit(next)
  }

  /** The last column holds the last node only. */
  lemma {:induction false} LastColumn(m: map<NodeId, nat>, f: Flow, c: nat, n: NodeId)
    requires f != Done && InColumns(m, f, c)
    ensures Exit(f) in Nodes(f) && Exit(f) in m && m[Exit(f)] == EndCol(f, c) - 1
    ensures n in Nodes(f) && n in m && m[n] == EndCol(f, c) - 1 ==> n == Exit(f)
    decreases f, 1
  {
    match f
    case Step(id, next) =>
      if next != Done { LastColumn(m, next, c + 1, n); }
    case Block(_, _, _, _, _) => LastBlockColumn(m, f, c, n);
    case Loop(_, _, _, _) => LastLoopColumn(m, f, c, n);
  }

  lemma {:induction false} LastBlockColumn(m: map<NodeId, nat>, f: Flow, c: nat, n: NodeId)
    requires f.Block? && InColumns(m, f, c)
    ensures Exit(f) in Nodes(f) && Exit(f) in m && m[Exit(f)] == EndCol(f, c) - 1
    ensures n in Nodes(f) && n in m && m[n] == EndCol(f, c) - 1 ==> n == Exit(f)
    decreases f, 0
  {
    var jc := JoinCol(f.branches, c + 1);
    assert EndCol(f, c) == EndCol(f.next, jc + 1) >= jc + 1;
    if n in BranchNodes(f.branches) { BranchColumnRange(m, f.branches, c + 1, n); }
    if f.next != Done { LastColumn(m, f.next, jc + 1, n); }
  }

  lemma {:induction false} LastLoopColumn(m: map<NodeId, nat>, f: Flow, c: nat, n: NodeId)
    requires f.Loop? && InColumns(m, f, c)
    ensures Exit(f) in Nodes(f) && Exit(f) in m && m[Exit(f)] == EndCol(f, c) - 1
    ensures n in Nodes(f) && n in m && m[n] == EndCol(f, c) - 1 ==> n == Exit(f)
    decreases f, 0
  {
    var ec := EndCol(f.body, c + 1);
    assert EndCol(f, c) == EndCol(f.next, ec + 1) >= ec + 1;
    if n in Nodes(f.body) { ColumnRange(m, f.body, c + 1, n); }
    if f.next != Done { LastColumn(m, f.next, ec + 1, n); }
  }

  /** The first column holds the first node only. */
  lemma FirstColumn(m: map<NodeId, nat>, f: Flow, c: nat, n: NodeId)
    requires f != Done && InColumns(m, f, c) && n in Nodes(f) && n in m && m[n] == c
    ensures Entry(f, None) == Some(n)
  {
    match f
    case Step(id, next) =>
      if n in Nodes(next) { ColumnRange(m, next, c + 1, n); }
    case Block(s, _, bs, j, next) =>
      if n in BranchNodes(bs) { BranchColumnRange(m, bs, c + 1, n); }
      if n in Nodes(next) { ColumnRange(m, next, JoinCol(bs, c + 1) + 1, n); }
    case Loop(s, body, e, next) =>
      if n in Nodes(body) { ColumnRange(m, body, c + 1, n); }
      if n in Nodes(next) { ColumnRange(m, next, EndCol(body, c + 1) + 1, n); }
  }

  /** The selection after `k` times right. */
  function RightTimes(pos: Positions, ids: seq<NodeId>, from: NodeId, k: nat): Option<NodeId>
    requires forall i :: 0 <= i < |ids| ==> ids[i] in pos
    decreases k
  {
    if k == 0 then Some(from)
    else match Neighbor(pos, ids, Some(from), Right)
      case None => None
      case Some(n) => RightTimes(pos, ids, n, k - 1)
  }

  /** A drawing of the process `f` in its columns. */
  ghost predicate DrawnIn(g: Graph, f: Flow, pos: Positions, ids: seq<NodeId>) {
    && Draws(g, f) && DepthMap(g, Columns(f, 0)) && InColumns(Columns(f, 0), f, 0)
    && pos.Keys == g.out.Keys && InColumn(pos, Columns(f, 0))
    && (forall n :: n in pos <==> n in ids)
  }

  /** From every node left of column `last` the right key selects a node of the next column. */
  ghost predicate Advances(m: map<NodeId, nat>, pos: Positions, ids: seq<NodeId>, last: nat)
    requires forall i :: 0 <= i < |ids| ==> ids[i] in pos
  {
    forall n :: n in pos ==> n in m && (m[n] < last ==> MovesOn(m, pos, ids, n))
  }

  ghost predicate MovesOn(m: map<NodeId, nat>, pos: Positions, ids: seq<NodeId>, n: NodeId)
    requires n in m && forall i :: 0 <= i < |ids| ==> ids[i] in pos
  {
    var to := Neighbor(pos, ids, Some(n), Right);
    to.Some? && to.value in pos && to.value in m && m[to.value] == m[n] + 1
  }

  lemma DrawnAdvances(g: Graph, f: Flow, pos: Positions, ids: seq<NodeId>)
    requires DrawnIn(g, f, pos, ids)
    ensures Advances(Columns(f, 0), pos, ids, EndCol(f, 0) - 1)
  {
    var m := Columns(f, 0);
    forall n | n in pos && m[n] < EndCol(f, 0) - 1 ensures MovesOn(m, pos, ids, n) {
      OneColumn(g, m, pos, ids, n, Right);
      LastColumn(m, f, 0, n);
      assert Exit(f) in pos.Keys;
      assert Apart(m, n, Right, Exit(f)) > 0;
    }
  }

  /** Every press moves one column right. */
  lemma {:induction false} RightAdvances(m: map<NodeId, nat>, pos: Positions, ids: seq<NodeId>, last: nat,
      from: NodeId, k: nat)
    requires forall i :: 0 <= i < |ids| ==> ids[i] in pos
    requires Advances(m, pos, ids, last) && from in pos && m[from] + k <= last
    ensures
      var to := RightTimes(pos, ids, from, k);
      to.Some? && to.value in pos && m[to.value] == m[from] + k
    decreases k
  {
    if k > 0 {
      assert MovesOn(m, pos, ids, from);
      RightAdvances(m, pos, ids, last, Neighbor(pos, ids, Some(from), Right).value, k - 1);
    }
  }

  /** What the right key does on a drawing, from START on. */
  ghost predicate ReadsRight(f: Flow, pos: Positions, ids: seq<NodeId>, dir: Direction)
    requires f != Done && forall i :: 0 <= i < |ids| ==> ids[i] in pos
  {
    && Entry(f, None).Some? && Neighbor(pos, ids, None, dir) == Entry(f, None)
    && RightTimes(pos, ids, Entry(f, None).value, EndCol(f, 0) - 1) == Some(Exit(f))
    && Neighbor(pos, ids, Some(Exit(f)), Right).None?
    && (forall k: nat :: k < EndCol(f, 0) ==> InColumnAfter(f, pos, ids, k))
  }

  /** After `k` presses the selection stands in column `k`. */
  ghost predicate InColumnAfter(f: Flow, pos: Positions, ids: seq<NodeId>, k: nat)
    requires f != Done && Entry(f, None).Some? && forall i :: 0 <= i < |ids| ==> ids[i] in pos
  {
    var to := RightTimes(pos, ids, Entry(f, None).value, k);
    to.Some? && to.value in pos && to.value in Columns(f, 0) && Columns(f, 0)[to.value] == k
  }

  lemma ColumnsReached(f: Flow, pos: Positions, ids: seq<NodeId>)
    requires f != Done && Entry(f, None).Some? && Entry(f, None).value in pos
    requires forall i :: 0 <= i < |ids| ==> ids[i] in pos
    requires Advances(Columns(f, 0), pos, ids, EndCol(f, 0) - 1) && Columns(f, 0)[Entry(f, None).value] == 0
    ensures forall k: nat :: k < EndCol(f, 0) ==> InColumnAfter(f, pos, ids, k)
  {
    forall k: nat | k < EndCol(f, 0) ensures InColumnAfter(f, pos, ids, k) {
      RightAdvances(Columns(f, 0), pos, ids, EndCol(f, 0) - 1, Entry(f, None).value, k);
    }
  }

  lemma StartKnown(g: Graph, f: Flow, pos: Positions, ids: seq<NodeId>)
    requires DrawnIn(g, f, pos, ids)
    ensures Entry(f, None).Some? && Entry(f, None).value in pos && Columns(f, 0)[Entry(f, None).value] == 0
  {
    EntryColumn(Columns(f, 0), f, 0, None);
    assert Entry(f, None).value in pos.Keys;
  }

  lemma DrawingReadsRight(g: Graph, f: Flow, pos: Positions, ids: seq<NodeId>, dir: Direction)
    requires DrawnIn(g, f, pos, ids)
    ensures ReadsRight(f, pos, ids, dir)
  {
    StartKnown(g, f, pos, ids);
    DrawnAdvances(g, f, pos, ids);
    ColumnsReached(f, pos, ids);
    assert InColumnAfter(f, pos, ids, EndCol(f, 0) - 1);
    LastColumn(Columns(f, 0), f, 0, RightTimes(pos, ids, Entry(f, None).value, EndCol(f, 0) - 1).value);
    NothingFurther(g, f, pos, ids);
    StartSelected(g, f, pos, ids, dir);
  }

  /** Without a selection any key selects START. From there every press of "right" moves one
      column on, the last one selects END, and there it stays. */
  lemma RightReachesEnd(s: Schema, f: Flow, l: Layout, pitch: real, origin: real, dir: Direction)
    requires BlockStructured(s, f) && Shows(s, f, l, pitch, origin)
    requires forall i :: 0 <= i < |s.ids| ==> s.ids[i] in l.pos
    ensures ReadsRight(f, l.pos, s.ids, dir)
  {
    assert GraphOf(s).out.Keys == s.nodes.Keys;
    DrawingIsIn(GraphOf(s), s, f, l, pitch, origin);
    DrawingReadsRight(GraphOf(s), f, l.pos, s.ids, dir);
  }

  lemma NothingFurther(g: Graph, f: Flow, pos: Positions, ids: seq<NodeId>)
    requires DrawnIn(g, f, pos, ids)
    ensures Neighbor(pos, ids, Some(Exit(f)), Right).None?
  {
    var m := Columns(f, 0);
    LastColumn(m, f, 0, Exit(f));
    assert Exit(f) in pos.Keys;
    OneColumn(g, m, pos, ids, Exit(f), Right);
    var to := Neighbor(pos, ids, Some(Exit(f)), Right);
    if to.Some? {
      assert to.value in pos.Keys;
      ColumnRange(m, f, 0, to.value);
    }
  }

  lemma StartSelected(g: Graph, f: Flow, pos: Positions, ids: seq<NodeId>, dir: Direction)
    requires DrawnIn(g, f, pos, ids)
    ensures Neighbor(pos, ids, None, dir) == Entry(f, None)
  {
    var m := Columns(f, 0);
    EntryColumn(m, f, 0, None);
    var start := Entry(f, None).value;
    assert start in pos.Keys;
    IndexOf(ids, start);
    var t := TopLeft(pos, ids);
    var i :| 0 <= i < |ids| && ids[i] == start;
    assert !Before(pos[ids[i]], pos[t]);
    ColumnDistance(m[t], m[start]);
    assert m[t] == 0;
    assert t in pos.Keys;
    FirstColumn(m, f, 0, t);
  }

  lemma DrawingIsIn(g: Graph, s: Schema, f: Flow, l: Layout, pitch: real, origin: real)
    requires Draws(g, f) && g.out.Keys == s.nodes.Keys && Shows(s, f, l, pitch, origin)
    requires forall n :: n in l.pos <==> n in s.ids
    ensures DrawnIn(g, f, l.pos, s.ids)
  {
    DrawnColumns(g, f);
    ShownInColumns(s, f, l, pitch, origin);
  }

  lemma ShownInColumns(s: Schema, f: Flow, l: Layout, pitch: real, origin: real)
    requires Shows(s, f, l, pitch, origin)
    ensures InColumn(l.pos, Columns(f, 0))
  {
    forall n | n in l.pos ensures n in Columns(f, 0) && OnGrid(l.pos[n], Columns(f, 0)[n]) {
      assert ShowsNode(f, l, pitch, origin, n);
    }
  }
}
