/** The pan and zoom controller of a drawn process: wheel, drag, fitting and centring. */
module PanZoom {
  import opened Basics

  const MIN := 0.2
  const MAX := 4.0
  const FIT_READABLE := 0.6
  const FIT_OVERVIEW_MIN := 0.35
  const FIT_MARGIN := 16.0
  const CENTER_MARGIN := 24.0
  const FREE_MIN := 120.0
  const DRAG_THRESHOLD := 4.0
  const ZOOM_STEP := 1.1

  /** The part of the model the SVG shows; its corner is drawn at the SVG's own origin. */
  datatype ViewBox = ViewBox(x: real, y: real, w: real, h: real)

  /** What the browser says about the canvas: its size, the visible band of it, the viewBox and
      size of the SVG, and the middle line of the START node. */
  datatype Frame = Frame(width: real, height: real, bandTop: real, bandHeight: real,
                         view: ViewBox, svgWidth: real, svgHeight: real, startY: Option<real>) {
    predicate Valid() {
      && width >= 0.0 && height >= 0.0 && bandHeight >= 0.0
      && view.w >= 0.0 && view.h >= 0.0 && svgWidth >= 0.0 && svgHeight >= 0.0
    }

    function Bw(): real { if view.w != 0.0 then view.w else svgWidth }
    function Bh(): real { if view.h != 0.0 then view.h else svgHeight }
    function Bx(): real { if view.w != 0.0 then view.x else 0.0 }
    function By(): real { if view.w != 0.0 then view.y else 0.0 }

    /** Some size is missing: nothing can be fitted. */
    predicate Unmeasured() {
      Bw() == 0.0 || Bh() == 0.0 || width == 0.0 || bandHeight == 0.0
    }

    function Free(reserve: real): real {
      Max(FREE_MIN, width - reserve)
    }

    function Fit(reserve: real): real
      requires !Unmeasured()
    {
      Min((Free(reserve) - FIT_MARGIN * 2.0) / Bw(), (bandHeight - FIT_MARGIN * 2.0) / Bh())
    }
  }

  datatype Rect = Rect(x0: real, y0: real, x1: real, y1: real) {
    predicate Flat() {
      x1 <= x0 || y1 <= y0
    }

    /** The scale at which the rectangle fits into the free area. */
    function Fit(f: Frame, reserve: real): real
      requires !Flat()
    {
      Min((f.Free(reserve) - CENTER_MARGIN * 2.0) / (x1 - x0), (f.height - CENTER_MARGIN * 2.0) / (y1 - y0))
    }
  }

  /** The smallest rectangle around the node and the region, as far as given. */
  function Around(pos: Option<Rect>, region: Option<Rect>): Option<Rect> {
    match (pos, region)
    case (None, _) => region
    case (_, None) => pos
    case (Some(p), Some(r)) => Some(Rect(Min(p.x0, r.x0), Min(p.y0, r.y0), Max(p.x1, r.x1), Max(p.y1, r.y1)))
  }

  /** Scale and translation of the SVG. */
  datatype Transform = Transform(scale: real, tx: real, ty: real)

  /** Where the coordinate `x` appears along one axis of the canvas. */
  function Screen(x: real, origin: real, scale: real, t: real): real {
    t + (x - origin) * scale
  }

  /** The stretch from `a` to `b` appears between `lo` and `hi`. */
  ghost predicate AppearsIn(a: real, b: real, origin: real, scale: real, t: real, lo: real, hi: real) {
    lo <= Screen(a, origin, scale, t) <= Screen(b, origin, scale, t) <= hi
  }

  /** The offset of the origin leaves the drawing inside the free length it is centred in. */
  predicate SmallOffset(offset: real, length: real, scale: real, free: real) {
    Abs(offset * scale) <= (free - length * scale) / 2.0
  }

  /** How far the origin of the viewBox may lie from zero for a fitted drawing to stay visible:
      fitting maps it as if it were drawn at its own coordinates, while it is drawn at the
      SVG's origin. */
  predicate OriginNearZero(f: Frame, reserve: real, scale: real) {
    SmallOffset(f.Bx(), f.Bw(), scale, f.Free(reserve)) && SmallOffset(f.By(), f.Bh(), scale, f.bandHeight)
  }

  lemma Scaled(a: real, b: real, s: real)
    requires b > 0.0 && s <= a / b
    ensures b * s <= a
  {
    assert b * (a / b) == a;
    assert b * (a / b - s) >= 0.0;
  }

  /** Where the near edge of something of that size stands in a free length: centred with a
      margin on both sides, or else at the margin. */
  function Aligned(free: real, size: real): real {
    if size <= free - FIT_MARGIN * 2.0 then (free - size) / 2.0 else FIT_MARGIN
  }

  function OverviewScale(fit: real): (s: real)
    ensures FIT_OVERVIEW_MIN <= s <= 1.0 && (s <= fit || s == FIT_OVERVIEW_MIN)
  {
    Min(MAX, Max(Max(MIN, FIT_OVERVIEW_MIN), Min(1.0, fit)))
  }

  lemma Exactly(a: real, b: real)
    requires b > 0.0
    ensures b * (a / b) == a
  {
  }

  /** Between the overview minimum and natural size the drawing fits, and it could not be larger:
      it meets its margins on one axis. */
  ghost predicate AsLargeAsFits(f: Frame, reserve: real, s: real)
    requires !f.Unmeasured()
  {
    var w, h := f.Free(reserve) - FIT_MARGIN * 2.0, f.bandHeight - FIT_MARGIN * 2.0;
    if f.Fit(reserve) < FIT_OVERVIEW_MIN then s == FIT_OVERVIEW_MIN
    else s <= 1.0 && f.Bw() * s <= w && f.Bh() * s <= h && (s == 1.0 || f.Bw() * s == w || f.Bh() * s == h)
  }

  lemma OverviewAsLargeAsFits(f: Frame, reserve: real)
    requires f.Valid() && !f.Unmeasured()
    ensures AsLargeAsFits(f, reserve, OverviewScale(f.Fit(reserve)))
  {
    var s := OverviewScale(f.Fit(reserve));
    if f.Fit(reserve) >= FIT_OVERVIEW_MIN {
      FitsAt(f, reserve, s);
      Exactly(f.Free(reserve) - FIT_MARGIN * 2.0, f.Bw());
      Exactly(f.bandHeight - FIT_MARGIN * 2.0, f.Bh());
    }
  }

  /** The near edge `edge` of something of that size leaves the same space on both sides of the
      stretch, or stands at the margin if there is no room for both. */
  ghost predicate Framed(edge: real, size: real, base: real, free: real) {
    if size <= free - FIT_MARGIN * 2.0 then edge - base == (base + free) - (edge + size) else edge == base + FIT_MARGIN
  }

  lemma AxisFramed(base: real, free: real, length: real, offset: real, scale: real, t: real)
    requires t == base + Aligned(free, length * scale) - offset * scale
    ensures Framed(Screen(offset, 0.0, scale, t), length * scale, base, free)
  {
    var size, o := length * scale, offset * scale;
    assert Screen(offset, 0.0, scale, t) == t + o;
  }

  ghost predicate FramedBy(f: Frame, reserve: real, t: Transform) {
    && Framed(Screen(f.Bx(), 0.0, t.scale, t.tx), f.Bw() * t.scale, 0.0, f.Free(reserve))
    && Framed(Screen(f.By(), 0.0, t.scale, t.ty), f.Bh() * t.scale, f.bandTop, f.bandHeight)
  }

  lemma FrameFits(f: Frame, reserve: real, s: real)
    ensures FramedBy(f, reserve, AlignedAt(f, reserve, s))
  {
    var t := AlignedAt(f, reserve, s);
    AxisFramed(0.0, f.Free(reserve), f.Bw(), f.Bx(), s, t.tx);
    AxisFramed(f.bandTop, f.bandHeight, f.Bh(), f.By(), s, t.ty);
  }

  /** In the coordinates that fitting assumes, the overview frames the drawing on both axes. */
  lemma OverviewFramed(f: Frame, reserve: real)
    requires !f.Unmeasured()
    ensures FramedBy(f, reserve, Overview(f, reserve))
  {
    FrameFits(f, reserve, OverviewScale(f.Fit(reserve)));
  }

  /** The readable stage starts at the left margin and frames a drawing that is not too tall. */
  lemma ReadableFramed(f: Frame)
    ensures
      var t := Readable(f);
      && t.scale == FIT_READABLE && Screen(f.Bx(), 0.0, t.scale, t.tx) == FIT_MARGIN
      && (f.Bh() * t.scale <= f.bandHeight - FIT_MARGIN * 2.0 || f.startY.None? ==>
            Framed(Screen(f.By(), 0.0, t.scale, t.ty), f.Bh() * t.scale, f.bandTop, f.bandHeight))
  {
    if f.Bh() * FIT_READABLE <= f.bandHeight - FIT_MARGIN * 2.0 || f.startY.None? {
      AxisFramed(f.bandTop, f.bandHeight, f.Bh(), f.By(), FIT_READABLE, Readable(f).ty);
    }
  }

  /** Second stage of fitting, and the only one for a model that fits readably: as large as
      fits, at most natural size, at least the overview minimum. */
  function Overview(f: Frame, reserve: real): Transform
    requires !f.Unmeasured()
  {
    AlignedAt(f, reserve, OverviewScale(f.Fit(reserve)))
  }

  /** At scale `s`, aligned in the free area. */
  function AlignedAt(f: Frame, reserve: real, s: real): Transform {
    Transform(s, Aligned(f.Free(reserve), f.Bw() * s) - f.Bx() * s,
              f.bandTop + Aligned(f.bandHeight, f.Bh() * s) - f.By() * s)
  }

  /** First stage for a model that does not fit readably: readable scale from the left edge on;
      vertically centred if it fits, else the main line in the middle as far as no blank space
      shows above or below the drawing. */
  function Readable(f: Frame): Transform {
    var s := FIT_READABLE;
    var h := f.Bh() * s;
    var topAligned := f.bandTop + FIT_MARGIN - f.By() * s;
    var bottomAligned := f.bandTop + f.bandHeight - FIT_MARGIN - (f.By() + f.Bh()) * s;
    Transform(s, FIT_MARGIN - f.Bx() * s,
              if h <= f.bandHeight - FIT_MARGIN * 2.0 then f.bandTop + (f.bandHeight - h) / 2.0 - f.By() * s
              else if f.startY.None? then topAligned
              else Min(topAligned, Max(bottomAligned, f.bandTop + f.bandHeight / 2.0 - f.startY.value * s)))
  }

  /** At a scale not above the fitting one the drawing fits with its margins. */
  lemma FitsAt(f: Frame, reserve: real, s: real)
    requires f.Valid() && !f.Unmeasured() && s <= f.Fit(reserve)
    ensures f.Bw() * s <= f.Free(reserve) - FIT_MARGIN * 2.0 && f.Bh() * s <= f.bandHeight - FIT_MARGIN * 2.0
  {
    Scaled(f.Free(reserve) - FIT_MARGIN * 2.0, f.Bw(), s);
    Scaled(f.bandHeight - FIT_MARGIN * 2.0, f.Bh(), s);
  }

  /** The whole drawing lies within the free area. */
  ghost predicate DrawingVisible(f: Frame, reserve: real, t: Transform) {
    && AppearsIn(f.view.x, f.view.x + f.Bw(), f.view.x, t.scale, t.tx, 0.0, f.Free(reserve))
    && AppearsIn(f.view.y, f.view.y + f.Bh(), f.view.y, t.scale, t.ty, f.bandTop, f.bandTop + f.bandHeight)
  }

  lemma AxisFitted(base: real, free: real, length: real, offset: real, origin: real, scale: real, t: real)
    requires scale > 0.0 && length >= 0.0 && length * scale <= free - FIT_MARGIN * 2.0
    requires t == base + Aligned(free, length * scale) - offset * scale
    ensures AppearsIn(origin, origin + length, origin, scale, t, base, base + free)
            <==> SmallOffset(offset, length, scale, free)
  {
    var w, o := length * scale, offset * scale;
    assert Screen(origin, origin, scale, t) == t;
    assert Screen(origin + length, origin, scale, t) == t + w;
    AxisVisible(free, w, o, base);
  }

  lemma AxisVisible(free: real, size: real, offset: real, base: real)
    requires 0.0 <= size <= free - FIT_MARGIN * 2.0
    ensures
      var edge := base + Aligned(free, size) - offset;
      base <= edge && edge + size <= base + free <==> Abs(offset) <= (free - size) / 2.0
  {
  }

  /** If the fitting scale is at least the overview minimum, the overview shows the whole
      drawing, exactly as long as the origin of the viewBox lies near zero. */
  lemma OverviewShowsAll(f: Frame, reserve: real)
    requires f.Valid() && !f.Unmeasured() && f.Fit(reserve) >= FIT_OVERVIEW_MIN
    ensures DrawingVisible(f, reserve, Overview(f, reserve)) <==> OriginNearZero(f, reserve, Overview(f, reserve).scale)
  {
    var t := Overview(f, reserve);
    FitsAt(f, reserve, t.scale);
    AxisFitted(0.0, f.Free(reserve), f.Bw(), f.Bx(), f.view.x, t.scale, t.tx);
    AxisFitted(f.bandTop, f.bandHeight, f.Bh(), f.By(), f.view.y, t.scale, t.ty);
  }

  /** A viewBox at zero is always near enough. */
  lemma OverviewAtOrigin(f: Frame, reserve: real)
    requires f.Valid() && !f.Unmeasured() && f.Fit(reserve) >= FIT_OVERVIEW_MIN && f.Bx() == 0.0 && f.By() == 0.0
    ensures DrawingVisible(f, reserve, Overview(f, reserve))
  {
    var s := Overview(f, reserve).scale;
    OverviewShowsAll(f, reserve);
    assert OriginNearZero(f, reserve, s) by {
      ZeroIsNear(f, reserve, s);
    }
  }

  /** A drawing with its viewBox extended 200 upwards is fitted at natural size, and yet the
      overview does not show all of it. */
  lemma ExtendedDrawingSticksOut()
    ensures
      var f := Frame(1000.0, 500.0, 0.0, 500.0, ViewBox(0.0, -200.0, 862.0, 400.0), 862.0, 400.0, None);
      f.Valid() && !f.Unmeasured() && f.Fit(0.0) >= 1.0 && !DrawingVisible(f, 0.0, Overview(f, 0.0))
  {
    var f := Frame(1000.0, 500.0, 0.0, 500.0, ViewBox(0.0, -200.0, 862.0, 400.0), 862.0, 400.0, None);
    assert Overview(f, 0.0).scale == 1.0;
    OverviewShowsAll(f, 0.0);
  }

  /** What a viewBox shows, and next to an overlay of that width: the stretch from its left to its
      right edge ends left of the overlay, exactly as long as its origin lies near zero. */
  lemma OverviewShowsViewBox(f: Frame, reserve: real)
    requires f.Valid() && f.view.w > 0.0 && f.view.h > 0.0 && f.bandHeight > 0.0
    requires f.width - reserve >= FREE_MIN && f.width > 0.0 && f.Fit(reserve) >= FIT_OVERVIEW_MIN
    ensures
      var t := Overview(f, reserve);
      && AppearsIn(f.view.x, f.view.x + f.view.w, f.view.x, t.scale, t.tx, 0.0, f.width - reserve)
      && AppearsIn(f.view.y, f.view.y + f.view.h, f.view.y, t.scale, t.ty, f.bandTop, f.bandTop + f.bandHeight)
      <==>
      && SmallOffset(f.view.x, f.view.w, t.scale, f.width - reserve)
      && SmallOffset(f.view.y, f.view.h, t.scale, f.bandHeight)
  {
    OverviewShowsAll(f, reserve);
  }

  /** Without a viewBox the whole SVG is shown, in its own size. */
  lemma OverviewShowsSvg(f: Frame, reserve: real)
    requires f.Valid() && f.view == ViewBox(0.0, 0.0, 0.0, 0.0) && f.svgWidth > 0.0 && f.svgHeight > 0.0
    requires f.bandHeight > 0.0 && f.width > 0.0 && f.Fit(reserve) >= FIT_OVERVIEW_MIN
    ensures
      var t := Overview(f, reserve);
      && AppearsIn(0.0, f.svgWidth, 0.0, t.scale, t.tx, 0.0, f.Free(reserve))
      && AppearsIn(0.0, f.svgHeight, 0.0, t.scale, t.ty, f.bandTop, f.bandTop + f.bandHeight)
  {
    OverviewAtOrigin(f, reserve);
  }

  lemma ZeroIsNear(f: Frame, reserve: real, s: real)
    requires f.Valid() && !f.Unmeasured() && s <= f.Fit(reserve) && f.Bx() == 0.0 && f.By() == 0.0
    ensures OriginNearZero(f, reserve, s)
  {
    FitsAt(f, reserve, s);
    NoOffset(f.Bx(), f.Bw(), s, f.Free(reserve));
    NoOffset(f.By(), f.Bh(), s, f.bandHeight);
  }

  lemma NoOffset(offset: real, length: real, scale: real, free: real)
    requires offset == 0.0 && length * scale <= free - FIT_MARGIN * 2.0
    ensures SmallOffset(offset, length, scale, free)
  {
    assert offset * scale == 0.0;
  }

  /** How far above its intended place the readable stage shows the drawing: an origin away from
      zero is subtracted although the SVG draws its corner at its own origin. */
  function Drift(f: Frame): real {
    f.By() * FIT_READABLE
  }

  /** At the readable scale, up to this drift, no blank space is wasted above or below a tall
      drawing, and the main line stands in the middle unless that would show some. */
  lemma ReadableKeepsMainLine(f: Frame)
    requires f.Valid() && f.Bh() * FIT_READABLE > f.bandHeight - FIT_MARGIN * 2.0
    ensures
      var t := Readable(f);
      var top := Screen(f.By(), f.By(), t.scale, t.ty) + Drift(f);
      var bottom := Screen(f.By() + f.Bh(), f.By(), t.scale, t.ty) + Drift(f);
      && Screen(f.Bx(), 0.0, t.scale, t.tx) == FIT_MARGIN
      && top <= f.bandTop + FIT_MARGIN && bottom >= f.bandTop + f.bandHeight - FIT_MARGIN
      && (f.startY.Some? ==>
        var line := Screen(f.startY.value, f.By(), t.scale, t.ty) + Drift(f);
        var middle := f.bandTop + f.bandHeight / 2.0;
        && (line > middle ==> bottom == f.bandTop + f.bandHeight - FIT_MARGIN)
        && (line < middle ==> top == f.bandTop + FIT_MARGIN))
  {
  }

  // ---------------------------------------------------------------- centring

  /** Translation along one axis that brings the middle of a stretch to the middle. */
  function Middle(a: real, b: real, origin: real, scale: real, free: real): real {
    free / 2.0 - ((a + b) / 2.0 - origin) * scale
  }

  /** The scale for centring: smaller if a region is asked for that does not fit. */
  function CentreScale(f: Frame, r: Rect, shrink: bool, reserve: real, before: real): (s: real)
    requires !r.Flat()
    ensures s <= before && (before >= MIN ==> s >= MIN)
  {
    if shrink && f.width > 0.0 && f.height > 0.0 then Min(before, Max(MIN, Min(1.0, r.Fit(f, reserve)))) else before
  }

  /** Centring the rectangle `r`; `shrink` allows a smaller scale so that all of it fits. */
  function Centre(f: Frame, r: Rect, shrink: bool, reserve: real, before: real): Transform
    requires !r.Flat()
  {
    var s := CentreScale(f, r, shrink, reserve, before);
    Transform(s, Middle(r.x0, r.x1, f.view.x, s, f.Free(reserve)), Middle(r.y0, r.y1, f.view.y, s, f.height))
  }

  /** Along one axis: what lies around the centre appears around the middle, within the margins
      if the scale is not above the fitting one. */
  lemma AxisCentred(x0: real, x1: real, v: real, s: real, free: real, t: real)
    requires x0 < x1 && 0.0 < s <= (free - CENTER_MARGIN * 2.0) / (x1 - x0)
    requires t == Middle(x0, x1, v, s, free)
    ensures AppearsIn(x0, x1, v, s, t, CENTER_MARGIN, free - CENTER_MARGIN)
  {
    Scaled(free - CENTER_MARGIN * 2.0, x1 - x0, s);
    var c, half := (x0 + x1) / 2.0 - v, (x1 - x0) / 2.0;
    assert x0 - v == c - half && x1 - v == c + half;
    assert (c - half) * s == c * s - half * s && (c + half) * s == c * s + half * s;
    assert half * s == ((x1 - x0) * s) / 2.0;
    assert half * s > 0.0;
  }

  /** The rectangle appears within the margins of the free area. */
  ghost predicate RectVisible(f: Frame, r: Rect, reserve: real, t: Transform) {
    && AppearsIn(r.x0, r.x1, f.view.x, t.scale, t.tx, CENTER_MARGIN, f.Free(reserve) - CENTER_MARGIN)
    && AppearsIn(r.y0, r.y1, f.view.y, t.scale, t.ty, CENTER_MARGIN, f.height - CENTER_MARGIN)
  }

  /** Centring never enlarges and keeps the scale in its bounds; a region that is asked for is
      shown as a whole unless that would take the scale below the minimum. */
  lemma CentreShowsRegion(f: Frame, r: Rect, shrink: bool, reserve: real, before: real)
    requires f.Valid() && !r.Flat() && MIN <= before <= MAX
    ensures
      var t := Centre(f, r, shrink, reserve, before);
      && MIN <= t.scale <= before && (!shrink ==> t.scale == before)
      && (shrink && f.width > 0.0 && f.height > 0.0 && r.Fit(f, reserve) >= MIN ==> RectVisible(f, r, reserve, t))
  {
    var t := Centre(f, r, shrink, reserve, before);
    if shrink && f.width > 0.0 && f.height > 0.0 && r.Fit(f, reserve) >= MIN {
      AxisCentred(r.x0, r.x1, f.view.x, t.scale, f.Free(reserve), t.tx);
      AxisCentred(r.y0, r.y1, f.view.y, t.scale, f.height, t.ty);
    }
  }

  /** The middle of the rectangle comes to the middle of the free area. */
  lemma CentreInMiddle(f: Frame, r: Rect, shrink: bool, reserve: real, before: real)
    requires !r.Flat()
    ensures
      var t := Centre(f, r, shrink, reserve, before);
      && Screen((r.x0 + r.x1) / 2.0, f.view.x, t.scale, t.tx) == f.Free(reserve) / 2.0
      && Screen((r.y0 + r.y1) / 2.0, f.view.y, t.scale, t.ty) == f.height / 2.0
  {
  }

  /** The scale goes down no further than needed: to natural size, to the minimum, or until the
      rectangle meets its margins on one axis; and not at all without a region. */
  lemma CentreShrinksAsNeeded(f: Frame, r: Rect, shrink: bool, reserve: real, before: real)
    requires f.Valid() && !r.Flat() && before >= MIN
    ensures
      var s := CentreScale(f, r, shrink, reserve, before);
      var w, h := f.Free(reserve) - CENTER_MARGIN * 2.0, f.height - CENTER_MARGIN * 2.0;
      && (!shrink || f.width == 0.0 || f.height == 0.0 ==> s == before)
      && (s < before ==>
            || (s == 1.0 && (r.x1 - r.x0) * s <= w && (r.y1 - r.y0) * s <= h)
            || (s == MIN && (w <= (r.x1 - r.x0) * s || h <= (r.y1 - r.y0) * s))
            || (r.x1 - r.x0) * s == w || (r.y1 - r.y0) * s == h)
  {
    var s := CentreScale(f, r, shrink, reserve, before);
    var w, h := f.Free(reserve) - CENTER_MARGIN * 2.0, f.height - CENTER_MARGIN * 2.0;
    Exactly(w, r.x1 - r.x0);
    Exactly(h, r.y1 - r.y0);
    if s < before && s <= r.Fit(f, reserve) {
      Scaled(w, r.x1 - r.x0, s);
      Scaled(h, r.y1 - r.y0, s);
    }
    if s < before && s >= r.Fit(f, reserve) {
      Reaches(w, r.x1 - r.x0, s);
      Reaches(h, r.y1 - r.y0, s);
    }
  }

  lemma Reaches(a: real, b: real, s: real)
    requires b > 0.0
    ensures s >= a / b ==> b * s >= a
  {
    assert b * (a / b) == a;
    if s >= a / b {
      assert b * (s - a / b) >= 0.0;
    }
  }

  /** The node alone is shown with the region, being part of the rectangle. */
  lemma NodeInAround(pos: Rect, region: Option<Rect>)
    ensures
      var r := Around(Some(pos), region).value;
      r.x0 <= pos.x0 && r.y0 <= pos.y0 && pos.x1 <= r.x1 && pos.y1 <= r.y1
  {
  }

  lemma Unscaled(x: real, s: real)
    requires s != 0.0
    ensures (x * s) / s == x
  {
  }

  class Controller {
    var scale: real
    var tx: real
    var ty: real
    var readableShown: bool
    var reserveRight: real
    var down: bool
    var dragging: bool
    var sx: real
    var sy: real
    var lastX: real
    var lastY: real

    /** The scale stays in its bounds whatever happens. */
    ghost predicate Valid()
      reads this
    {
      MIN <= scale <= MAX && reserveRight >= 0.0
    }

    constructor ()
      ensures Valid() && scale == 1.0 && tx == 0.0 && ty == 0.0 && !readableShown && !down && !dragging
              && reserveRight == 0.0
    {
      scale, tx, ty := 1.0, 0.0, 0.0;
      readableShown, reserveRight := false, 0.0;
      down, dragging := false, false;
      sx, sy, lastX, lastY := 0.0, 0.0, 0.0, 0.0;
    }

    /** Point of the SVG under a point of the canvas. */
    function UnderX(px: real): real
      requires scale != 0.0
      reads this
    {
      (px - tx) / scale
    }

    function UnderY(py: real): real
      requires scale != 0.0
      reads this
    {
      (py - ty) / scale
    }

    function Now(): Transform
      reads this
    {
      Transform(scale, tx, ty)
    }

    /** Ctrl+wheel: the point under the pointer stays under the pointer. */
    method ZoomAt(px: real, py: real, out: bool)
      requires Valid()
      modifies this`scale, this`tx, this`ty, this`readableShown
      ensures Valid() && !readableShown
      ensures UnderX(px) == old(UnderX(px)) && UnderY(py) == old(UnderY(py))
      ensures if out then old(scale) > MIN ==> scale < old(scale) else old(scale) < MAX ==> scale > old(scale)
      ensures if out then scale == MIN || scale * ZOOM_STEP == old(scale)
              else scale == MAX || scale == old(scale) * ZOOM_STEP
    {
      readableShown := false;
      var cx, cy := (px - tx) / scale, (py - ty) / scale;
      var factor := if out then 1.0 / ZOOM_STEP else ZOOM_STEP;
      var next := Min(MAX, Max(MIN, scale * factor));
      if next == scale {
        return;
      }
      scale := next;
      tx := px - cx * scale;
      ty := py - cy * scale;
      Unscaled(cx, scale);
      Unscaled(cy, scale);
    }

    /** Plain wheel: pans; with shift a vertical wheel pans sideways. */
    method WheelPan(shift: bool, deltaX: real, deltaY: real)
      requires Valid()
      modifies this`tx, this`ty, this`readableShown
      ensures Valid() && !readableShown
      ensures if shift && deltaX == 0.0 then tx == old(tx) - deltaY && ty == old(ty)
              else tx == old(tx) - deltaX && ty == old(ty) - deltaY
    {
      readableShown := false;
      var dx, dy := deltaX, deltaY;
      if shift && dx == 0.0 {
        dx, dy := dy, 0.0;
      }
      tx := tx - dx;
      ty := ty - dy;
    }

    method PointerDown(primary: bool, onFitButton: bool, x: real, y: real)
      requires Valid()
      modifies this
      ensures Valid() && scale == old(scale) && tx == old(tx) && ty == old(ty) && reserveRight == old(reserveRight)
      ensures readableShown == (onFitButton && old(readableShown))
      ensures if primary then down && !dragging && sx == lastX == x && sy == lastY == y
              else down == old(down) && dragging == old(dragging) && sx == old(sx) && sy == old(sy)
                   && lastX == old(lastX) && lastY == old(lastY)
    {
      if !onFitButton {
        readableShown := false;
      }
      if !primary {
        return;
      }
      down := true;
      dragging := false;
      sx, lastX := x, x;
      sy, lastY := y, y;
    }

    /** Moving with the button down: nothing happens within the threshold; beyond it the
        canvas follows the pointer, so that the point grabbed at the start of the drag stays
        under it. */
    method PointerMove(x: real, y: real)
      requires Valid()
      modifies this`tx, this`ty, this`dragging, this`lastX, this`lastY
      ensures Valid()
      ensures !down || (!old(dragging) && Abs(x - sx) + Abs(y - sy) < DRAG_THRESHOLD) ==>
        tx == old(tx) && ty == old(ty) && dragging == old(dragging)
      ensures down && dragging ==>
              UnderX(x) == old(UnderX(lastX)) && UnderY(y) == old(UnderY(lastY)) && lastX == x && lastY == y
      ensures down && !old(dragging) && Abs(x - sx) + Abs(y - sy) >= DRAG_THRESHOLD ==> dragging
    {
      if !down {
        return;
      }
      if !dragging && Abs(x - sx) + Abs(y - sy) < DRAG_THRESHOLD {
        return;
      }
      dragging := true;
      tx := tx + (x - lastX);
      ty := ty + (y - lastY);
      lastX, lastY := x, y;
    }

    method EndDrag()
      requires Valid()
      modifies this`down
      ensures Valid() && !down
    {
      down := false;
    }

    /** The click after a drag is swallowed, any other one passes. */
    method Click() returns (swallowed: bool)
      requires Valid()
      modifies this`dragging
      ensures Valid() && swallowed == old(dragging) && !dragging
    {
      swallowed := dragging;
      dragging := false;
    }

    method SetReserve(px: real)
      requires Valid()
      modifies this`reserveRight
      ensures Valid() && reserveRight == Max(0.0, px)
    {
      reserveRight := Max(0.0, px);
    }

    method FitReadable(f: Frame)
      modifies this`scale, this`tx, this`ty, this`readableShown
      ensures Now() == Readable(f) && readableShown
    {
      scale := FIT_READABLE;
      tx := FIT_MARGIN - f.Bx() * scale;
      var h := f.Bh() * scale;
      if h <= f.bandHeight - FIT_MARGIN * 2.0 {
        ty := f.bandTop + (f.bandHeight - h) / 2.0 - f.By() * scale;
      } else {
        var topAligned := f.bandTop + FIT_MARGIN - f.By() * scale;
        var bottomAligned := f.bandTop + f.bandHeight - FIT_MARGIN - (f.By() + f.Bh()) * scale;
        ty := if f.startY.None? then topAligned
              else Min(topAligned, Max(bottomAligned, f.bandTop + f.bandHeight / 2.0 - f.startY.value * scale));
      }
      readableShown := true;
    }

    method FitOverview(f: Frame)
      requires !f.Unmeasured()
      modifies this`scale, this`tx, this`ty, this`readableShown
      ensures Now() == Overview(f, reserveRight) && !readableShown
    {
      var s := OverviewScale(f.Fit(reserveRight));
      scale := s;
      tx := Aligned(f.Free(reserveRight), f.Bw() * s) - f.Bx() * s;
      ty := f.bandTop + Aligned(f.bandHeight, f.Bh() * s) - f.By() * s;
      readableShown := false;
    }

    /** The fit button: readable first, the overview on the next press. */
    method FitToView(f: Frame)
      requires Valid() && f.Valid()
      modifies this`scale, this`tx, this`ty, this`readableShown
      ensures Valid()
      ensures f.Unmeasured() ==> Now() == old(Now()) && readableShown == old(readableShown)
      ensures !f.Unmeasured() ==>
        && readableShown == (f.Fit(reserveRight) < FIT_READABLE && !old(readableShown))
        && Now() == (if readableShown then Readable(f) else Overview(f, reserveRight))
        && (if readableShown then scale == FIT_READABLE else AsLargeAsFits(f, reserveRight, scale))
    {
      if f.Unmeasured() {
        return;
      }
      if f.Fit(reserveRight) < FIT_READABLE && !readableShown {
        FitReadable(f);
      } else {
        OverviewAsLargeAsFits(f, reserveRight);
        FitOverview(f);
      }
    }

    /** Centres the node and the region, if there is anything to centre. */
    method CenterOn(f: Frame, pos: Option<Rect>, region: Option<Rect>)
      requires Valid() && f.Valid()
      modifies this`scale, this`tx, this`ty
      ensures Valid()
      ensures
        var around := Around(pos, region);
        Now() == if around.None? || around.value.Flat() then old(Now())
                 else Centre(f, around.value, region.Some?, reserveRight, old(scale))
    {
      var around := Around(pos, region);
      if around.None? || around.value.Flat() {
        return;
      }
      var r := around.value;
      scale := CentreScale(f, r, region.Some?, reserveRight, scale);
      tx := Middle(r.x0, r.x1, f.view.x, scale, f.Free(reserveRight));
      ty := Middle(r.y0, r.y1, f.view.y, scale, f.height);
    }
  }
}
