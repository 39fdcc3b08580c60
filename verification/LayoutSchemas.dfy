/** The layout as a whole: the spine layout with its reasons to give up, and the fallback. */
module LayoutSchemas {
  import opened Basics
  import opened Graphs
  import opened Depths
  import opened Flows
  import opened Spine
  import opened Bands
  import opened Walks
  import opened Schemas
  import opened SpineLayout
  import opened BlockLayout
  import opened Fans
  import opened StackedLayout

  const EMPTY_LAYOUT := Layout(map[], map[], 560.0, 160.0)

  /** What placing everything on lane 0 from the only root leads to: the placement, or the reason to
      give up. */
  ghost function Assigned(g: Graph, m: map<NodeId, nat>): Result<Placement>
    requires g.Valid() && g.Listed() && DepthMap(g, m)
  {
    var roots := Roots(g.ids, g.inc);
    RootsElements(g.ids, g.inc);
    if |roots| != 1 then Err(NotSingleRooted)
    else
      assert roots[0] in roots;
      match Spine.Place(g, m, Some(roots[0]), 0.0, None, NOTHING_PLACED)
      case Err(e) => Err(e)
      case Ok(p) => if p.lane.Keys >= g.out.Keys then Ok(p) else Err(Unplaced)
  }

  /** The result is that of the only depth map. */
  ghost predicate AssignedBy(g: Graph, m: map<NodeId, nat>, r: Result<(map<NodeId, nat>, Placement)>)
    requires g.Valid() && g.Listed() && DepthMap(g, m)
  {
    match Assigned(g, m)
    case Err(e) => r == Err(e)
    case Ok(p) => r == Ok((m, p))
  }

  /** A drawn process is assigned its structural placement. */
  lemma DrawnAssigned(g: Graph, f: Flow)
    requires g.Valid() && g.Listed() && Draws(g, f)
    ensures DepthMap(g, Columns(f, 0)) && Assigned(g, Columns(f, 0)) == Ok(Placed(f, 0.0, NOTHING_PLACED))
  {
    DrawnColumns(g, f);
    DrawnRoot(g, f);
    OneRoot(g.ids, g.inc, Entry(f, None).value);
    DrawnPlacement(g, f, Columns(f, 0));
  }

  /** Places everything on lane 0 from the only root, or says why not. */
  method AssignLanes(g: Graph) returns (r: Result<(map<NodeId, nat>, Placement)>)
    requires g.Valid() && g.Listed()
    ensures r.Ok? ==> DepthMap(g, r.value.0) && r.value.1.lane.Keys >= g.out.Keys
    ensures r == Err(Cycle) <==> !g.Acyclic()
    ensures r.Err? ==> r.error !in {RunawayMeasure, RunawayPlace, Overlap}
    ensures forall m :: DepthMap(g, m) ==> AssignedBy(g, m, r)
    ensures forall f :: Draws(g, f) ==> r == Ok((Columns(f, 0), Placed(f, 0.0, NOTHING_PLACED)))
  {
    forall f | Draws(g, f)
      ensures DepthMap(g, Columns(f, 0)) && Assigned(g, Columns(f, 0)) == Ok(Placed(f, 0.0, NOTHING_PLACED))
    {
      DrawnAssigned(g, f);
    }
    var table := new DepthTable(g);
    var d := table.All();
    if d.Err? {
      forall m | DepthMap(g, m) ensures false {
        DepthMapAcyclic(g, m);
      }
      return Err(Cycle);
    }
    var m := d.value;
    forall m' | DepthMap(g, m') ensures m' == m {
      DepthUnique(g, m', m);
    }
    r := PlaceFromRoot(g, m);
  }

  /** Places everything from the only root, given the columns. */
  method PlaceFromRoot(g: Graph, m: map<NodeId, nat>) returns (r: Result<(map<NodeId, nat>, Placement)>)
    requires g.Valid() && g.Listed() && DepthMap(g, m)
    ensures AssignedBy(g, m, r) && (r.Ok? ==> r.value.1.lane.Keys >= g.out.Keys)
    ensures r.Err? ==> r.error !in {Cycle, RunawayMeasure, RunawayPlace, Overlap}
  {
    DepthMapAcyclic(g, m);
    var roots := Roots(g.ids, g.inc);
    RootsElements(g.ids, g.inc);
    if |roots| != 1 {
      return Err(NotSingleRooted);
    }
    assert roots[0] in roots;
    var walk := new SpineWalk(g, m);
    var p := walk.Place(Some(roots[0]), 0.0, None);
    if p.Err? {
      return Err(p.error);
    }
    if !(walk.lane.Keys >= g.out.Keys) {
      return Err(Unplaced);
    }
    r := Ok((m, Placement(walk.lane, walk.placed, walk.emptyLane)));
  }

  /** The drawing puts every node on the lane that it was assigned, rows as far apart as the tallest
      badge stack asks for. */
  ghost predicate DrawsPlacement(s: Schema, m: map<NodeId, nat>, p: Placement, l: Layout) {
    exists pitch, origin :: PlacedAt(s, m, p, l, pitch, origin)
  }

  ghost predicate PlacedAt(s: Schema, m: map<NodeId, nat>, p: Placement, l: Layout, pitch: real, origin: real) {
    Drawing(s, m, p.lane, p.empty, pitch, origin, l) && Roomy(s, pitch) && TightPitch(s, pitch) && pitch >= NH + VGAP
  }

  /** The drawing of the placement has two boxes that overlap. */
  ghost predicate Overlapping(s: Schema, m: map<NodeId, nat>, p: Placement) {
    exists l :: DrawsPlacement(s, m, p, l) && !Clear(s, l.pos)
  }

  /** All drawings of a placement look the same but for their height on the page. */
  lemma SamePicture(s: Schema, m: map<NodeId, nat>, p: Placement, l: Layout, l': Layout)
    requires DrawsPlacement(s, m, p, l) && DrawsPlacement(s, m, p, l') && Clear(s, l.pos)
    ensures Clear(s, l'.pos)
  {
    var pitch, origin :| PlacedAt(s, m, p, l, pitch, origin);
    var pitch', origin' :| PlacedAt(s, m, p, l', pitch', origin');
    OnePitch(s, pitch, pitch');
    forall a, b | a in s.nodes && b in s.nodes && a != b ensures !BoxesOverlap(s, l'.pos, a, b) {
      assert !BoxesOverlap(s, l.pos, a, b);
      Shifted(m, p.lane, pitch, origin, origin', a, l.pos[a], l'.pos[a]);
      Shifted(m, p.lane, pitch, origin, origin', b, l.pos[b], l'.pos[b]);
    }
  }

  lemma OnePitch(s: Schema, a: real, b: real)
    requires Roomy(s, a) && TightPitch(s, a) && Roomy(s, b) && TightPitch(s, b) && a >= NH + VGAP && b >= NH + VGAP
    ensures a == b
  {
  }

  lemma Shifted(m: map<NodeId, nat>, lane: map<NodeId, real>, pitch: real, origin: real, origin': real, n: NodeId,
      b: Box, b': Box)
    requires BoxAt(m, lane, pitch, origin, n, b) && BoxAt(m, lane, pitch, origin', n, b')
    ensures b' == b.(y := b.y + (origin' - origin))
  {
  }

  /** What the spine layout returns: the drawing of the placement, or the reason to give up, which is
      an overlap only if that drawing has one. */
  ghost predicate SpineResult(s: Schema, m: map<NodeId, nat>, r: Result<Layout>)
    requires s.Valid() && GraphOf(s).Valid() && GraphOf(s).Listed() && DepthMap(GraphOf(s), m)
  {
    match Assigned(GraphOf(s), m)
    case Err(e) => r == Err(e)
    case Ok(p) =>
      if Overlapping(s, m, p) then r == Err(Overlap) else r.Ok? && DrawsPlacement(s, m, p, r.value)
  }

  /** The spine layout. Whatever it returns is free of overlaps and inside its size; on every
      block-structured schema it does return, and it draws the term. */
  method LayoutSchemaSpine(s: Schema) returns (r: Result<Layout>)
    requires s.Valid()
    ensures r.Ok? ==> SoundLayout(s, r.value)
    ensures r.Ok? && s.ids != [] ==> InLongestPathColumns(s, r.value.pos) && TouchesTop(r.value) && Snug(s, r.value)
    ensures r == Err(Cycle) <==> s.ids != [] && Cyclic(s)
    ensures r.Err? ==> r.error !in {RunawayMeasure, RunawayPlace}
    ensures GraphOf(s).Valid() && GraphOf(s).Listed()
    ensures forall m :: s.ids != [] && DepthMap(GraphOf(s), m) ==> SpineResult(s, m, r)
    ensures forall f :: Draws(GraphOf(s), f) ==> r.Ok? && ShowsFanned(s, f, r.value)
  {
    GraphIsControlFlow(s);
    if s.ids == [] {
      EmptyHasNoFlow(s);
      return Ok(EMPTY_LAYOUT);
    }
    var g := BuildGraph(s);
    var a := AssignLanes(g);
    if a.Err? {
      return Err(a.error);
    }
    r := DrawAssigned(s, a.value.0, a.value.1);
  }

  /** The pixels of a placement, unless two boxes overlap. */
  method DrawAssigned(s: Schema, m: map<NodeId, nat>, p: Placement) returns (r: Result<Layout>)
    requires s.Valid() && s.ids != [] && GraphOf(s).Valid() && GraphOf(s).Listed() && DepthMap(GraphOf(s), m)
    requires Assigned(GraphOf(s), m) == Ok(p) && p.lane.Keys >= s.nodes.Keys
    requires forall f :: Draws(GraphOf(s), f) ==> p == Placed(f, 0.0, NOTHING_PLACED)
    ensures r.Ok? ==> SoundLayout(s, r.value) && InTheirColumns(s, m, r.value.pos)
    ensures r.Ok? ==> TouchesTop(r.value) && Snug(s, r.value)
    ensures SpineResult(s, m, r) && (r.Err? ==> r.error == Overlap)
    ensures forall m' :: DepthMap(GraphOf(s), m') ==> m' == m
    ensures forall f :: Draws(GraphOf(s), f) ==> r.Ok? && ShowsFanned(s, f, r.value)
  {
    assert m.Keys == s.nodes.Keys;
    var l, pitch, origin := ToPixels(s, m, p.lane, p.empty);
    assert PlacedAt(s, m, p, l, pitch, origin);
    AllShown(s, m, p, l, pitch, origin);
    var overlap := HasOverlap(s, l.pos);
    SpineDecides(s, m, p, l);
    if overlap {
      return Err(Overlap);
    }
    DrawingColumns(s, m, p.lane, p.empty, pitch, origin, l);
    r := Ok(l);
  }

  lemma AllShown(s: Schema, m: map<NodeId, nat>, p: Placement, l: Layout, pitch: real, origin: real)
    requires s.Valid() && GraphOf(s).Valid() && DepthMap(GraphOf(s), m) && PlacedAt(s, m, p, l, pitch, origin)
    requires forall f :: Draws(GraphOf(s), f) ==> p == Placed(f, 0.0, NOTHING_PLACED)
    ensures forall f :: Draws(GraphOf(s), f) ==> ShowsFanned(s, f, l) && Clear(s, l.pos)
  {
    forall f | Draws(GraphOf(s), f) ensures ShowsFanned(s, f, l) && Clear(s, l.pos) {
      DrawnShows(s, f, m, pitch, origin, l);
      ShowsClear(s, f, l, pitch, origin);
      ShowsFanOut(s, f, l, pitch, origin);
    }
  }

  lemma SpineDecides(s: Schema, m: map<NodeId, nat>, p: Placement, l: Layout)
    requires s.Valid() && GraphOf(s).Valid() && GraphOf(s).Listed() && DepthMap(GraphOf(s), m)
    requires Assigned(GraphOf(s), m) == Ok(p) && DrawsPlacement(s, m, p, l)
    ensures SpineResult(s, m, if Clear(s, l.pos) then Ok(l) else Err(Overlap))
    ensures forall m' :: DepthMap(GraphOf(s), m') ==> m' == m
  {
    forall m' | DepthMap(GraphOf(s), m') ensures m' == m {
      DepthUnique(GraphOf(s), m', m);
    }
    if Clear(s, l.pos) && Overlapping(s, m, p) {
      var l' :| DrawsPlacement(s, m, p, l') && !Clear(s, l'.pos);
      SamePicture(s, m, p, l, l');
    }
  }

  lemma DrawingColumns(s: Schema, m: map<NodeId, nat>, lane: map<NodeId, real>, empty: map<(NodeId, NodeId), real>,
                       pitch: real, origin: real, l: Layout)
    requires s.Valid() && Drawing(s, m, lane, empty, pitch, origin, l)
    ensures InTheirColumns(s, m, l.pos)
  {
    forall n | n in s.nodes ensures n in m && OnGrid(l.pos[n], m[n]) {
      assert BoxAt(m, lane, pitch, origin, n, l.pos[n]);
    }
  }

  lemma EmptyHasNoFlow(s: Schema)
    requires s.Valid() && s.ids == []
    ensures s.nodes == map[] && forall f :: !Draws(GraphOf(s), f)
  {
    assert forall n :: n !in s.nodes;
    forall f | Draws(GraphOf(s), f) ensures false {
      DrawnRoot(GraphOf(s), f);
    }
  }

  /** Whenever the placement succeeds and its drawing has no overlap, that drawing is returned. */
  ghost predicate SpinePreferred(s: Schema, m: map<NodeId, nat>, r: Result<Layout>)
    requires s.Valid() && GraphOf(s).Valid() && GraphOf(s).Listed() && DepthMap(GraphOf(s), m)
  {
    var a := Assigned(GraphOf(s), m);
    a.Ok? && !Overlapping(s, m, a.value) ==> r.Ok? && DrawsPlacement(s, m, a.value, r.value)
  }

  /** The result is the drawing of a placement, or stacks the nodes by their depths. */
  ghost predicate OneOfBoth(s: Schema, l: Layout) {
    || (exists m, p :: IsDepthMap(s, m) && DrawsPlacement(s, m, p, l))
    || (exists depth :: StacksByDepth(s, depth, l))
  }

  lemma SpineIsOneOfBoth(s: Schema, l: Layout)
    requires s.Valid() && InLongestPathColumns(s, l.pos) && GraphOf(s).Valid() && GraphOf(s).Listed()
    requires forall m :: DepthMap(GraphOf(s), m) ==> SpineResult(s, m, Ok(l))
    ensures OneOfBoth(s, l)
  {
    var m :| DepthMap(GraphOf(s), m) && InTheirColumns(s, m, l.pos);
    assert SpineResult(s, m, Ok(l));
    assert IsDepthMap(s, m) && DrawsPlacement(s, m, Assigned(GraphOf(s), m).value, l);
  }

  /** `layoutSchema`: the spine layout, or the stacked one if it gives up. On every schema
      whose edges join known nodes it returns a drawing without overlaps that keeps inside
      its size; a block-structured schema is always drawn by the spine layout, and a schema
      without cycles always in the columns of its longest paths. */
  method LayoutSchema(s: Schema) returns (r: Result<Layout>)
    requires s.Valid()
    ensures !DanglingSource(s) ==> r.Ok?
    ensures r.Ok? ==> SoundLayout(s, r.value)
    ensures r.Ok? && s.ids != [] && !Cyclic(s) ==> InLongestPathColumns(s, r.value.pos)
    ensures GraphOf(s).Valid() && GraphOf(s).Listed()
    ensures forall m :: s.ids != [] && DepthMap(GraphOf(s), m) ==> SpinePreferred(s, m, r)
    ensures r.Ok? && s.ids != [] ==> OneOfBoth(s, r.value)
    ensures forall f :: Draws(GraphOf(s), f) ==> r.Ok? && ShowsFanned(s, f, r.value)
  {
    r := LayoutSchemaSpine(s);
    if r.Err? {
      r := LayoutSchemaStacked(s);
    } else if s.ids != [] {
      SpineIsOneOfBoth(s, r.value);
    }
  }
}
