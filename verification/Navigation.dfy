/** Moving the selection over a layout with the arrow keys. */
module Navigation {
  import opened Basics
  import opened Graphs
  import opened Depths
  import opened Schemas
  import opened SpineLayout

  datatype Direction = Left | Right | Up | Down {
    predicate Vertical() {
      this == Up || this == Down
    }

    /** 1 forwards, -1 backwards. */
    function Sign(): real {
      if this == Right || this == Down then 1.0 else -1.0
    }

    function Opposite(): Direction {
      match this case Left => Right case Right => Left case Up => Down case Down => Up
    }
  }

  const EPS := 1.0

  type Positions = map<NodeId, Box>

  function CenterX(b: Box): real {
    b.x + b.w / 2.0
  }

  function CenterY(b: Box): real {
    b.y + b.h / 2.0
  }

  /** How far `b` lies from `a` in the direction. */
  function Ahead(a: Box, b: Box, dir: Direction): real {
    (if dir.Vertical() then CenterY(b) - CenterY(a) else CenterX(b) - CenterX(a)) * dir.Sign()
  }

  /** How far `b` lies off the axis of movement. */
  function Off(a: Box, b: Box, dir: Direction): real {
    Abs(if dir.Vertical() then CenterX(b) - CenterX(a) else CenterY(b) - CenterY(a))
  }

  /** `id` lies in the direction; up and down only within the width of the boxes. */
  predicate Candidate(pos: Positions, from: NodeId, dir: Direction, id: NodeId)
    requires from in pos && id in pos
  {
    && id != from && Ahead(pos[from], pos[id], dir) > EPS
    && (dir.Vertical() ==> Off(pos[from], pos[id], dir) < (pos[from].w + pos[id].w) / 2.0 - EPS)
  }

  datatype Best = Best(id: NodeId, step: real, off: real)

  predicate Better(step: real, off: real, best: Option<Best>) {
    best.None? || step < best.value.step - EPS || (step - best.value.step <= EPS && off < best.value.off)
  }

  function Consider(pos: Positions, from: NodeId, dir: Direction, best: Option<Best>, id: NodeId): Option<Best>
    requires from in pos && id in pos
  {
    var step, off := Ahead(pos[from], pos[id], dir), Off(pos[from], pos[id], dir);
    if Candidate(pos, from, dir, id) && Better(step, off, best) then Some(Best(id, step, off)) else best
  }

  /** The best of `ids`, looked at in order. */
  function Scan(pos: Positions, from: NodeId, dir: Direction, ids: seq<NodeId>): Option<Best>
    requires from in pos && forall i :: 0 <= i < |ids| ==> ids[i] in pos
  {
    if ids == [] then None
    else Consider(pos, from, dir, Scan(pos, from, dir, ids[..|ids| - 1]), ids[|ids| - 1])
  }

  predicate Before(a: Box, b: Box) {
    CenterX(a) < CenterX(b) || (CenterX(a) == CenterX(b) && CenterY(a) < CenterY(b))
  }

  /** The first node from the left, the topmost of them: where the selection starts. */
  function TopLeft(pos: Positions, ids: seq<NodeId>): (r: NodeId)
    requires ids != [] && forall i :: 0 <= i < |ids| ==> ids[i] in pos
    ensures r in pos && r in ids && forall i :: 0 <= i < |ids| ==> !Before(pos[ids[i]], pos[r])
  {
    if |ids| == 1 then ids[0]
    else
      assert ids == ids[..|ids| - 1] + [ids[|ids| - 1]];
      var t, last := TopLeft(pos, ids[..|ids| - 1]), ids[|ids| - 1];
      assert forall i :: 0 <= i < |ids| - 1 ==> ids[i] == ids[..|ids| - 1][i];
      if Before(pos[last], pos[t]) then last else t
  }

  /** Where the selection goes. */
  function Neighbor(pos: Positions, ids: seq<NodeId>, from: Option<NodeId>, dir: Direction): Option<NodeId>
    requires forall i :: 0 <= i < |ids| ==> ids[i] in pos
  {
    if ids == [] then None
    else if from.None? || from.value !in pos then Some(TopLeft(pos, ids))
    else match Scan(pos, from.value, dir, ids)
      case None => None
      case Some(b) => Some(b.id)
  }

  method GraphNeighbor(pos: Positions, ids: seq<NodeId>, from: Option<NodeId>, dir: Direction)
      returns (r: Option<NodeId>)
    requires forall i :: 0 <= i < |ids| ==> ids[i] in pos
    ensures r == Neighbor(pos, ids, from, dir)
  {
    if ids == [] {
      return None;
    }
    if from.None? || from.value !in pos {
      return Some(TopLeft(pos, ids));
    }
    var base := pos[from.value];
    var best: Option<Best> := None;
    for i := 0 to |ids|
      invariant best == Scan(pos, from.value, dir, ids[..i])
    {
      assert ids[..i + 1][..i] == ids[..i];
      var step := Ahead(base, pos[ids[i]], dir);
      if ids[i] == from.value || step <= EPS {
        continue;
      }
      var off := Off(base, pos[ids[i]], dir);
      if dir.Vertical() && off >= (base.w + pos[ids[i]].w) / 2.0 - EPS {
        continue;
      }
      if Better(step, off, best) {
        best := Some(Best(ids[i], step, off));
      }
    }
    assert ids[..|ids|] == ids;
    r := if best.None? then None else Some(best.value.id);
  }

  // ---------------------------------------------------------------- up and down

  /** All boxes of node size on the column grid, those of one column at least a box apart. */
  ghost predicate Tidy(pos: Positions) {
    && (forall n :: n in pos ==> exists c: nat :: OnGrid(pos[n], c))
    && (forall a, b :: a in pos && b in pos && a != b && pos[a].x == pos[b].x ==> Abs(pos[a].y - pos[b].y) >= NH)
  }

  /** Every layout without overlaps on the grid is tidy. */
  lemma ClearIsTidy(s: Schema, pos: Positions)
    requires Clear(s, pos) && Gridded(pos)
    ensures Tidy(pos)
  {
    forall a, b | a in pos && b in pos && a != b && pos[a].x == pos[b].x ensures Abs(pos[a].y - pos[b].y) >= NH {
      assert !BoxesOverlap(s, pos, a, b);
      var c: nat :| OnGrid(pos[a], c);
      var d: nat :| OnGrid(pos[b], d);
    }
  }

  lemma SameColumnOrFar(a: Box, b: Box)
    requires (exists c: nat :: OnGrid(a, c)) && (exists c: nat :: OnGrid(b, c))
    ensures a.w == b.w == NW && a.h == b.h == NH && (a.x == b.x || Abs(a.x - b.x) >= COLUMN)
  {
    var c: nat :| OnGrid(a, c);
    var d: nat :| OnGrid(b, d);
    ColumnDistance(c, d);
  }

  lemma ColumnDistance(c: nat, d: nat)
    ensures c < d ==> d as real * COLUMN - c as real * COLUMN >= COLUMN
    ensures d < c ==> c as real * COLUMN - d as real * COLUMN >= COLUMN
  {
    var a, b := c as real, d as real;
    if c < d {
      assert b - a >= 1.0;
    } else if d < c {
      assert a - b >= 1.0;
    }
  }

  /** Up and down stay in the column, and any two candidates lie a box apart. */
  lemma VerticalCandidate(pos: Positions, from: NodeId, dir: Direction, id: NodeId)
    requires Tidy(pos) && dir.Vertical() && from in pos && id in pos
    ensures Candidate(pos, from, dir, id) <==>
      id != from && pos[id].x == pos[from].x && (pos[id].y - pos[from].y) * dir.Sign() > EPS
    ensures Ahead(pos[from], pos[id], dir) == (pos[id].y - pos[from].y) * dir.Sign()
  {
    var a, b := pos[from], pos[id];
    SameColumnOrFar(a, b);
    assert CenterY(b) - CenterY(a) == b.y - a.y && CenterX(b) - CenterX(a) == b.x - a.x;
    assert Off(a, b, dir) == Abs(b.x - a.x) && (a.w + b.w) / 2.0 == NW;
  }

  /** The scan finds the nearest node above or below in the column. */
  lemma {:induction false} ScanFindsNearest(pos: Positions, from: NodeId, dir: Direction, ids: seq<NodeId>)
    requires Tidy(pos) && dir.Vertical() && from in pos && forall i :: 0 <= i < |ids| ==> ids[i] in pos
    ensures FoundNearest(pos, from, dir, Scan(pos, from, dir, ids))
    ensures forall i :: 0 <= i < |ids| ==> NotNearer(pos, from, dir, Scan(pos, from, dir, ids), ids[i])
  {
    if ids != [] {
      var init, last := ids[..|ids| - 1], ids[|ids| - 1];
      ScanFindsNearest(pos, from, dir, init);
      var r0 := Scan(pos, from, dir, init);
      ConsiderNearest(pos, from, dir, r0, last);
      forall i | 0 <= i < |init| ensures NotNearer(pos, from, dir, Consider(pos, from, dir, r0, last), ids[i]) {
        assert NotNearer(pos, from, dir, r0, init[i]);
        StillNotNearer(pos, from, dir, r0, last, ids[i]);
      }
    }
  }

  ghost predicate FoundNearest(pos: Positions, from: NodeId, dir: Direction, r: Option<Best>)
    requires from in pos
  {
    r.Some? ==>
      && r.value.id in pos && Candidate(pos, from, dir, r.value.id)
      && r.value.step == Ahead(pos[from], pos[r.value.id], dir) && r.value.off == 0.0
  }

  /** `id` is no candidate nearer than the one found. */
  ghost predicate NotNearer(pos: Positions, from: NodeId, dir: Direction, r: Option<Best>, id: NodeId)
    requires from in pos && id in pos
  {
    Candidate(pos, from, dir, id) ==>
      r.Some? && (id == r.value.id || r.value.step < Ahead(pos[from], pos[id], dir) - EPS)
  }

  lemma ConsiderNearest(pos: Positions, from: NodeId, dir: Direction, r: Option<Best>, id: NodeId)
    requires Tidy(pos) && dir.Vertical() && from in pos && id in pos && FoundNearest(pos, from, dir, r)
    ensures FoundNearest(pos, from, dir, Consider(pos, from, dir, r, id))
    ensures NotNearer(pos, from, dir, Consider(pos, from, dir, r, id), id)
  {
    VerticalCandidate(pos, from, dir, id);
    if r.Some? {
      VerticalCandidate(pos, from, dir, r.value.id);
    }
  }

  lemma StillNotNearer(pos: Positions, from: NodeId, dir: Direction, r: Option<Best>, last: NodeId, id: NodeId)
    requires Tidy(pos) && dir.Vertical() && from in pos && id in pos && last in pos && FoundNearest(pos, from, dir, r)
    requires NotNearer(pos, from, dir, r, id)
    ensures NotNearer(pos, from, dir, Consider(pos, from, dir, r, last), id)
  {
    VerticalCandidate(pos, from, dir, id);
    VerticalCandidate(pos, from, dir, last);
  }

  /** If up moves the selection, down moves it back, and the other way round. */
  lemma UpDownReturns(pos: Positions, ids: seq<NodeId>, from: NodeId, dir: Direction)
    requires Tidy(pos) && dir.Vertical() && (forall n :: n in pos <==> n in ids) && from in pos
    requires Neighbor(pos, ids, Some(from), dir).Some?
    ensures
      var to := Neighbor(pos, ids, Some(from), dir);
      to.value in pos && Neighbor(pos, ids, to, dir.Opposite()) == Some(from)
  {
    var back := dir.Opposite();
    ScanFindsNearest(pos, from, dir, ids);
    var to := Neighbor(pos, ids, Some(from), dir).value;
    VerticalCandidate(pos, from, dir, to);
    VerticalCandidate(pos, to, back, from);
    ScanFindsNearest(pos, to, back, ids);
    IndexOf(ids, from);
    var r := Scan(pos, to, back, ids).value.id;
    VerticalCandidate(pos, to, back, r);
    assert r == from by {
      if r != from {
        VerticalCandidate(pos, from, dir, r);
        IndexOf(ids, r);
      }
    }
  }

  lemma IndexOf(ids: seq<NodeId>, n: NodeId)
    requires n in ids
    ensures exists i :: 0 <= i < |ids| && ids[i] == n
  {
  }

  // ---------------------------------------------------------------- left and right

  /** Every box stands in its column. */
  ghost predicate InColumn(pos: Positions, m: map<NodeId, nat>) {
    forall n :: n in pos ==> n in m && OnGrid(pos[n], m[n])
  }

  /** Columns between `from` and a candidate. */
  function Apart(m: map<NodeId, nat>, from: NodeId, dir: Direction, id: NodeId): int
    requires from in m && id in m
  {
    var a: int := m[from];
    var b: int := m[id];
    if dir == Right then b - a else a - b
  }

  lemma HorizontalCandidate(pos: Positions, m: map<NodeId, nat>, from: NodeId, dir: Direction, id: NodeId)
    requires InColumn(pos, m) && !dir.Vertical() && from in pos && id in pos
    ensures Ahead(pos[from], pos[id], dir) == Apart(m, from, dir, id) as real * COLUMN
    ensures Candidate(pos, from, dir, id) <==> Apart(m, from, dir, id) > 0
  {
    var a, b := m[from] as real, m[id] as real;
    assert Ahead(pos[from], pos[id], dir) == (b - a) * COLUMN * dir.Sign();
    assert Apart(m, from, dir, id) as real == (b - a) * dir.Sign();
    Wider(Apart(m, from, dir, id), 1);
    Wider(0, Apart(m, from, dir, id));
  }

  lemma Wider(a: int, b: int)
    ensures a < b ==> a as real * COLUMN < b as real * COLUMN - EPS
    ensures a <= b ==> a as real * COLUMN <= b as real * COLUMN
  {
    var x, y := a as real, b as real;
    if a < b {
      assert y - x >= 1.0;
    }
  }

  /** The scan finds a node of the nearest occupied column. */
  lemma {:induction false} ScanFindsColumn(pos: Positions, m: map<NodeId, nat>, from: NodeId, dir: Direction,
      ids: seq<NodeId>)
    requires InColumn(pos, m) && !dir.Vertical() && from in pos && forall i :: 0 <= i < |ids| ==> ids[i] in pos
    ensures
      var r := Scan(pos, from, dir, ids);
      && (r.Some? ==>
        && r.value.id in ids && r.value.id in pos && Candidate(pos, from, dir, r.value.id)
        && r.value.step == Ahead(pos[from], pos[r.value.id], dir))
      && (forall i :: 0 <= i < |ids| && Candidate(pos, from, dir, ids[i]) ==>
        r.Some? && Apart(m, from, dir, r.value.id) <= Apart(m, from, dir, ids[i]))
  {
    if ids != [] {
      var init, last := ids[..|ids| - 1], ids[|ids| - 1];
      assert ids == init + [last];
      ScanFindsColumn(pos, m, from, dir, init);
      var r0 := Scan(pos, from, dir, init);
      HorizontalCandidate(pos, m, from, dir, last);
      if r0.Some? {
        HorizontalCandidate(pos, m, from, dir, r0.value.id);
        Wider(Apart(m, from, dir, last), Apart(m, from, dir, r0.value.id));
        Wider(Apart(m, from, dir, r0.value.id), Apart(m, from, dir, last));
      }
      forall i | 0 <= i < |init| && Candidate(pos, from, dir, ids[i])
        ensures r0.Some? && Apart(m, from, dir, r0.value.id) <= Apart(m, from, dir, ids[i])
      {
        assert init[i] == ids[i];
      }
    }
  }

  /** On the columns of the longest paths left and right move exactly one column, and stop
      only at the last one. */
  lemma OneColumn(g: Graph, m: map<NodeId, nat>, pos: Positions, ids: seq<NodeId>, from: NodeId, dir: Direction)
    requires g.Valid() && DepthMap(g, m) && pos.Keys == g.out.Keys && InColumn(pos, m)
    requires (forall n :: n in pos <==> n in ids) && from in pos && !dir.Vertical()
    ensures
      var to := Neighbor(pos, ids, Some(from), dir);
      && (to.Some? ==> to.value in pos && Apart(m, from, dir, to.value) == 1)
      && (to.None? ==> forall n :: n in pos ==> Apart(m, from, dir, n) <= 0)
  {
    ScanFindsColumn(pos, m, from, dir, ids);
    var r := Scan(pos, from, dir, ids);
    if r.Some? {
      HorizontalCandidate(pos, m, from, dir, r.value.id);
      var next := NextColumn(g, m, from, dir, r.value.id);
      assert next in pos.Keys;
      HorizontalCandidate(pos, m, from, dir, next);
      IndexOf(ids, next);
    } else {
      forall n | n in pos ensures Apart(m, from, dir, n) <= 0 {
        HorizontalCandidate(pos, m, from, dir, n);
        IndexOf(ids, n);
      }
    }
  }

  /** Node `a`, entry `k` of the list, comes before node `b`, its entry `i`: in a nearer column, or in
      the same with its middle line nearer to that of `from`, or just as near and earlier listed. */
  ghost predicate Prior(pos: Positions, m: map<NodeId, nat>, from: NodeId, dir: Direction, a: NodeId, k: nat, b: NodeId,
      i: nat)
    requires InColumn(pos, m) && from in pos && a in pos && b in pos
  {
    var near, far := Apart(m, from, dir, a), Apart(m, from, dir, b);
    var x, y := Aside(pos, from, a), Aside(pos, from, b);
    near < far || (near == far && (x < y || (x == y && k <= i)))
  }

  /** Distance of the middle lines of two boxes. */
  function Aside(pos: Positions, from: NodeId, n: NodeId): real
    requires from in pos && n in pos
  {
    Abs(pos[n].y + pos[n].h / 2.0 - (pos[from].y + pos[from].h / 2.0))
  }

  /** Entry `k` is the one found, and it comes before every other candidate. */
  ghost predicate FoundFirst(pos: Positions, m: map<NodeId, nat>, from: NodeId, dir: Direction, ids: seq<NodeId>,
      b: Best, k: nat)
    requires InColumn(pos, m) && from in pos && (forall j :: 0 <= j < |ids| ==> ids[j] in pos)
  {
    && k < |ids| && ids[k] == b.id && Apart(m, from, dir, b.id) > 0
    && b.step == Apart(m, from, dir, b.id) as real * COLUMN && b.off == Aside(pos, from, b.id)
    && (forall i: nat :: i < |ids| && Apart(m, from, dir, ids[i]) > 0 ==>
          Prior(pos, m, from, dir, ids[k], k, ids[i], i))
  }

  lemma NoCandidate(pos: Positions, m: map<NodeId, nat>, from: NodeId, dir: Direction, ids: seq<NodeId>)
    requires InColumn(pos, m) && !dir.Vertical() && from in pos && forall i :: 0 <= i < |ids| ==> ids[i] in pos
    ensures Scan(pos, from, dir, ids).None? ==> forall i :: 0 <= i < |ids| ==> Apart(m, from, dir, ids[i]) <= 0
  {
    ScanFindsColumn(pos, m, from, dir, ids);
    forall i | 0 <= i < |ids| && Scan(pos, from, dir, ids).None? ensures Apart(m, from, dir, ids[i]) <= 0 {
      HorizontalCandidate(pos, m, from, dir, ids[i]);
    }
  }

  /** One more entry: it replaces the one found exactly if it comes before it. */
  lemma BetterIsPrior(pos: Positions, m: map<NodeId, nat>, from: NodeId, dir: Direction, b: Best, id: NodeId)
    requires InColumn(pos, m) && !dir.Vertical() && from in pos && id in pos && b.id in pos
    requires b.step == Apart(m, from, dir, b.id) as real * COLUMN && b.off == Aside(pos, from, b.id)
    ensures
      var step, off := Ahead(pos[from], pos[id], dir), Off(pos[from], pos[id], dir);
      && step == Apart(m, from, dir, id) as real * COLUMN && off == Aside(pos, from, id)
      && (Better(step, off, Some(b)) <==>
          || Apart(m, from, dir, id) < Apart(m, from, dir, b.id)
          || (Apart(m, from, dir, id) == Apart(m, from, dir, b.id) && off < b.off))
  {
    HorizontalCandidate(pos, m, from, dir, id);
    Wider(Apart(m, from, dir, id), Apart(m, from, dir, b.id));
    Wider(Apart(m, from, dir, b.id), Apart(m, from, dir, id));
  }

  /** Left and right select, in the nearest occupied column, the node whose middle line is nearest,
      and the first in key order of those. */
  lemma {:induction false} ScanFindsFirst(pos: Positions, m: map<NodeId, nat>, from: NodeId, dir: Direction,
      ids: seq<NodeId>) returns (k: nat)
    requires InColumn(pos, m) && !dir.Vertical() && from in pos && forall i :: 0 <= i < |ids| ==> ids[i] in pos
    requires Scan(pos, from, dir, ids).Some?
    ensures FoundFirst(pos, m, from, dir, ids, Scan(pos, from, dir, ids).value, k)
  {
    var init, last := ids[..|ids| - 1], ids[|ids| - 1];
    var r0 := Scan(pos, from, dir, init);
    HorizontalCandidate(pos, m, from, dir, last);
    assert ids == init + [last];
    if r0.None? {
      NoCandidate(pos, m, from, dir, init);
      k := |init|;
      FirstFound(pos, m, from, dir, init, last);
    } else {
      var k0 := ScanFindsFirst(pos, m, from, dir, init);
      BetterIsPrior(pos, m, from, dir, r0.value, last);
      if Consider(pos, from, dir, r0, last) == r0 {
        k := k0;
        KeepFirst(pos, m, from, dir, init, last, r0.value, k);
      } else {
        k := |init|;
        TakeFirst(pos, m, from, dir, init, last, r0.value, k0);
      }
    }
  }

  /** The best entry that `id` makes. */
  function BestOf(pos: Positions, from: NodeId, dir: Direction, id: NodeId): Best
    requires from in pos && id in pos
  {
    Best(id, Ahead(pos[from], pos[id], dir), Off(pos[from], pos[id], dir))
  }

  lemma FirstFound(pos: Positions, m: map<NodeId, nat>, from: NodeId, dir: Direction, init: seq<NodeId>, last: NodeId)
    requires InColumn(pos, m) && !dir.Vertical() && from in pos && forall i :: 0 <= i < |init| ==> init[i] in pos
    requires last in pos && Candidate(pos, from, dir, last)
    requires forall i :: 0 <= i < |init| ==> Apart(m, from, dir, init[i]) <= 0
    ensures FoundFirst(pos, m, from, dir, init + [last], BestOf(pos, from, dir, last), |init|)
  {
    HorizontalCandidate(pos, m, from, dir, last);
  }

  lemma KeepFirst(pos: Positions, m: map<NodeId, nat>, from: NodeId, dir: Direction, init: seq<NodeId>, last: NodeId,
      b: Best, k: nat)
    requires InColumn(pos, m) && !dir.Vertical() && from in pos && forall i :: 0 <= i < |init| ==> init[i] in pos
    requires last in pos && FoundFirst(pos, m, from, dir, init, b, k)
    requires Apart(m, from, dir, last) > 0 ==> Prior(pos, m, from, dir, b.id, k, last, |init|)
    ensures FoundFirst(pos, m, from, dir, init + [last], b, k)
  {
    var ids := init + [last];
    forall i: nat | i < |ids| && Apart(m, from, dir, ids[i]) > 0 ensures Prior(pos, m, from, dir, b.id, k, ids[i], i) {
      if i < |init| {
        assert ids[i] == init[i];
      }
    }
  }

  lemma TakeFirst(pos: Positions, m: map<NodeId, nat>, from: NodeId, dir: Direction, init: seq<NodeId>, last: NodeId,
      b: Best, k0: nat)
    requires InColumn(pos, m) && !dir.Vertical() && from in pos && forall i :: 0 <= i < |init| ==> init[i] in pos
    requires last in pos && FoundFirst(pos, m, from, dir, init, b, k0) && Candidate(pos, from, dir, last)
    requires !Prior(pos, m, from, dir, b.id, k0, last, |init|)
    ensures FoundFirst(pos, m, from, dir, init + [last], BestOf(pos, from, dir, last), |init|)
  {
    HorizontalCandidate(pos, m, from, dir, last);
    var ids := init + [last];
    forall i: nat | i < |ids| && Apart(m, from, dir, ids[i]) > 0
      ensures Prior(pos, m, from, dir, last, |init|, ids[i], i)
    {
      if i < |init| {
        assert ids[i] == init[i];
        assert Prior(pos, m, from, dir, init[k0], k0, init[i], i);
      }
    }
  }

  /** What left and right select, in terms of the drawing. */
  lemma StraightAhead(pos: Positions, m: map<NodeId, nat>, ids: seq<NodeId>, from: NodeId, dir: Direction)
    requires InColumn(pos, m) && !dir.Vertical() && from in pos && forall i :: 0 <= i < |ids| ==> ids[i] in pos
    ensures
      match Neighbor(pos, ids, Some(from), dir)
      case None => forall i :: 0 <= i < |ids| ==> Apart(m, from, dir, ids[i]) <= 0
      case Some(n) =>
        exists k: nat :: k < |ids| && ids[k] == n && Apart(m, from, dir, n) > 0
          && forall i: nat :: i < |ids| && Apart(m, from, dir, ids[i]) > 0 ==>
               Prior(pos, m, from, dir, n, k, ids[i], i)
  {
    if ids != [] {
      if Scan(pos, from, dir, ids).None? {
        NoCandidate(pos, m, from, dir, ids);
      } else {
        var k := ScanFindsFirst(pos, m, from, dir, ids);
      }
    }
  }

  /** Some node stands one column from `from` on the way to `far`. */
  lemma NextColumn(g: Graph, m: map<NodeId, nat>, from: NodeId, dir: Direction, far: NodeId) returns (next: NodeId)
    requires g.Valid() && DepthMap(g, m) && from in g.out && far in g.out && !dir.Vertical()
    requires Apart(m, from, dir, far) > 0
    ensures next in g.out && Apart(m, from, dir, next) == 1
  {
    if dir == Right {
      ColumnsContiguous(g, m, far, m[from] + 1);
      next :| next in g.out && m[next] == m[from] + 1;
    } else {
      ColumnsContiguous(g, m, from, m[from] - 1);
      next :| next in g.out && m[next] == m[from] - 1;
    }
  }
}
