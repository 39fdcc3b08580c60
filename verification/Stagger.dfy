/** Staggering the labels of the provenance arcs so that none covers another.

    The labels are placed from top to bottom. One that collides with placed labels is pushed a line
    above the first of them, and again from there, at most a fixed number of times. The loops run in
    place on the array of labels and are compared with functions on its contents. */
module Stagger {
  import opened Basics

  /** Where a label stands. */
  datatype Label = Label(lx: real, ly: real)

  const NEAR := 64.0
  const GUARD := 50

  function Distance(a: real, b: real): real {
    if a < b then b - a else a - b
  }

  /** Two labels cover each other: closer than 64 across and than a line height down. */
  predicate Collides(a: Label, b: Label, lineHeight: real) {
    Distance(a.lx, b.lx) < NEAR && Distance(a.ly, b.ly) < lineHeight
  }

  /** First placed label from the `i`-th on that collides with `p`. */
  function FirstHit(placed: seq<Label>, p: Label, lineHeight: real, i: nat): (r: Option<nat>)
    requires i <= |placed|
    ensures r.Some? ==> i <= r.value < |placed| && Collides(placed[r.value], p, lineHeight)
    ensures r.Some? ==> forall k :: i <= k < r.value ==> !Collides(placed[k], p, lineHeight)
    ensures r.None? ==> forall k :: i <= k < |placed| ==> !Collides(placed[k], p, lineHeight)
    decreases |placed| - i
  {
    if i == |placed| then None
    else if Collides(placed[i], p, lineHeight) then Some(i)
    else FirstHit(placed, p, lineHeight, i + 1)
  }

  /** Pushes `p` above the first label it collides with, at most `left` times. */
  function PushUp(placed: seq<Label>, p: Label, lineHeight: real, left: nat): Label
    decreases left
  {
    if left == 0 then p
    else match FirstHit(placed, p, lineHeight, 0)
      case None => p
      case Some(i) => PushUp(placed, p.(ly := placed[i].ly - lineHeight), lineHeight, left - 1)
  }

  /** Places the labels of `rest` one after the other. */
  function PlaceAll(placed: seq<Label>, rest: seq<Label>, lineHeight: real, guard: nat): (r: seq<Label>)
    ensures |r| == |placed| + |rest|
    decreases |rest|
  {
    if rest == [] then placed
    else PlaceAll(placed + [PushUp(placed, rest[0], lineHeight, guard)], rest[1..], lineHeight, guard)
  }

  ghost predicate Clear(s: seq<Label>, lineHeight: real) {
    forall i, j :: 0 <= i < j < |s| ==> !Collides(s[i], s[j], lineHeight)
  }

  predicate Near(a: Label, x: real) {
    Distance(a.lx, x) < NEAR
  }

  /** How many labels stand near `x`. */
  ghost function Crowd(labels: seq<Label>, x: real): (n: nat)
    ensures n <= |labels|
  {
    if labels == [] then 0
    else Crowd(labels[..|labels| - 1], x) + (if Near(labels[|labels| - 1], x) then 1 else 0)
  }

  /** How many placed labels near `p` it has not been pushed past yet. */
  ghost function Ahead(placed: seq<Label>, p: Label, lineHeight: real): (n: nat)
    ensures n <= Crowd(placed, p.lx)
  {
    if placed == [] then 0
    else
      var q := placed[|placed| - 1];
      Ahead(placed[..|placed| - 1], p, lineHeight) + (if Near(q, p.lx) && q.ly - lineHeight < p.ly then 1 else 0)
  }

  lemma {:induction false} AheadShrinks(placed: seq<Label>, p: Label, y: real, lineHeight: real)
    requires y <= p.ly
    ensures Ahead(placed, p.(ly := y), lineHeight) <= Ahead(placed, p, lineHeight)
  {
    if placed != [] {
      AheadShrinks(placed[..|placed| - 1], p, y, lineHeight);
    }
  }

  /** A push past a label leaves that label behind for good. */
  lemma {:induction false} PushPasses(placed: seq<Label>, p: Label, i: nat, lineHeight: real)
    requires i < |placed| && Near(placed[i], p.lx) && placed[i].ly - lineHeight < p.ly
    ensures Ahead(placed, p.(ly := placed[i].ly - lineHeight), lineHeight) < Ahead(placed, p, lineHeight)
  {
    var init := placed[..|placed| - 1];
    if i == |placed| - 1 {
      AheadShrinks(init, p, placed[i].ly - lineHeight, lineHeight);
    } else {
      assert init[i] == placed[i];
      PushPasses(init, p, i, lineHeight);
    }
  }

  lemma {:induction false} NoneAhead(placed: seq<Label>, p: Label, lineHeight: real)
    requires Ahead(placed, p, lineHeight) == 0
    ensures forall k :: 0 <= k < |placed| ==> !Collides(placed[k], p, lineHeight)
  {
    if placed != [] {
      var init := placed[..|placed| - 1];
      NoneAhead(init, p, lineHeight);
      forall k | 0 <= k < |placed| ensures !Collides(placed[k], p, lineHeight) {
        if k < |init| {
          assert init[k] == placed[k];
        }
      }
    }
  }

  /** As many pushes as there are labels nearby that are not yet passed are enough. */
  lemma {:induction false} PushClears(placed: seq<Label>, p: Label, lineHeight: real, left: nat)
    requires Ahead(placed, p, lineHeight) <= left
    ensures forall k :: 0 <= k < |placed| ==> !Collides(placed[k], PushUp(placed, p, lineHeight, left), lineHeight)
    decreases left
  {
    if left == 0 {
      NoneAhead(placed, p, lineHeight);
    } else if FirstHit(placed, p, lineHeight, 0).Some? {
      var i := FirstHit(placed, p, lineHeight, 0).value;
      PushPasses(placed, p, i, lineHeight);
      PushClears(placed, p.(ly := placed[i].ly - lineHeight), lineHeight, left - 1);
    }
  }

  /** The guard is only a safeguard: every bound from the number of placed labels nearby on gives
      the same position, so the loop would end without it. */
  lemma {:induction false} GuardUnneeded(placed: seq<Label>, p: Label, lineHeight: real, a: nat, b: nat)
    requires Ahead(placed, p, lineHeight) <= a && Ahead(placed, p, lineHeight) <= b
    ensures PushUp(placed, p, lineHeight, a) == PushUp(placed, p, lineHeight, b)
    decreases a
  {
    if FirstHit(placed, p, lineHeight, 0).Some? {
      var i := FirstHit(placed, p, lineHeight, 0).value;
      PushPasses(placed, p, i, lineHeight);
      GuardUnneeded(placed, p.(ly := placed[i].ly - lineHeight), lineHeight, a - 1, b - 1);
    }
  }

  /** Labels only move up. */
  lemma {:induction false} PushRises(placed: seq<Label>, p: Label, lineHeight: real, left: nat)
    ensures PushUp(placed, p, lineHeight, left).lx == p.lx && PushUp(placed, p, lineHeight, left).ly <= p.ly
    decreases left
  {
    if left > 0 && FirstHit(placed, p, lineHeight, 0).Some? {
      var i := FirstHit(placed, p, lineHeight, 0).value;
      PushRises(placed, p.(ly := placed[i].ly - lineHeight), lineHeight, left - 1);
    }
  }

  /** A label stays where it is if no placed one is in its way; else it ends up one line above one
      that is placed near it. */
  lemma {:induction false} PushLands(placed: seq<Label>, p: Label, lineHeight: real, left: nat)
    requires left > 0
    ensures
      var q := PushUp(placed, p, lineHeight, left);
      if forall k :: 0 <= k < |placed| ==> !Collides(placed[k], p, lineHeight) then q == p
      else exists k :: 0 <= k < |placed| && Near(placed[k], p.lx) && q == Label(p.lx, placed[k].ly - lineHeight)
    decreases left
  {
    var hit := FirstHit(placed, p, lineHeight, 0);
    if hit.Some? {
      var p1 := p.(ly := placed[hit.value].ly - lineHeight);
      if left > 1 {
        PushLands(placed, p1, lineHeight, left - 1);
      }
      assert Near(placed[hit.value], p.lx);
    }
  }

  /** No label has more than `c` labels near it, itself included. */
  ghost predicate Sparse(labels: seq<Label>, c: nat) {
    forall i :: 0 <= i < |labels| ==> Crowd(labels, labels[i].lx) <= c
  }

  lemma {:induction false} CrowdSplit(a: seq<Label>, b: seq<Label>, x: real)
    ensures Crowd(a + b, x) == Crowd(a, x) + Crowd(b, x)
    decreases |b|
  {
    if b == [] {
      assert a + b == a;
    } else {
      assert (a + b)[..|a + b| - 1] == a + b[..|b| - 1];
      CrowdSplit(a, b[..|b| - 1], x);
    }
  }

  lemma CrowdOfOne(l: Label, x: real)
    ensures Crowd([l], x) == if Near(l, x) then 1 else 0
  {
    assert [l][..0] == [];
  }

  /** Placing a label keeps it among its neighbours. */
  lemma NextCrowd(placed: seq<Label>, p: Label, q: Label, tail: seq<Label>, x: real, lineHeight: real, guard: nat)
    requires q == PushUp(placed, p, lineHeight, guard)
    ensures Crowd(placed + [q] + tail, x) == Crowd(placed + [p] + tail, x)
    ensures Crowd(placed + [p] + tail, p.lx) >= Crowd(placed, p.lx) + 1
  {
    PushRises(placed, p, lineHeight, guard);
    CrowdOfOne(p, x);
    CrowdOfOne(q, x);
    CrowdSplit(placed + [q], tail, x);
    CrowdSplit(placed, [q], x);
    CrowdSplit(placed + [p], tail, x);
    CrowdSplit(placed, [p], x);
    CrowdOfOne(p, p.lx);
    CrowdSplit(placed + [p], tail, p.lx);
    CrowdSplit(placed, [p], p.lx);
  }

  /** The labels still to be placed have few neighbours among all. */
  ghost predicate SparseRest(placed: seq<Label>, rest: seq<Label>, c: nat) {
    forall i :: 0 <= i < |rest| ==> Crowd(placed + rest, rest[i].lx) <= c
  }

  lemma PlaceFirst(placed: seq<Label>, rest: seq<Label>, lineHeight: real, guard: nat)
    requires rest != [] && SparseRest(placed, rest, guard + 1)
    ensures Crowd(placed, rest[0].lx) <= guard
    ensures SparseRest(placed + [PushUp(placed, rest[0], lineHeight, guard)], rest[1..], guard + 1)
  {
    var p, tail := rest[0], rest[1..];
    var q := PushUp(placed, p, lineHeight, guard);
    assert placed + rest == placed + [p] + tail;
    NextCrowd(placed, p, q, tail, p.lx, lineHeight, guard);
    forall i | 0 <= i < |tail| ensures Crowd(placed + [q] + tail, tail[i].lx) <= guard + 1 {
      assert tail[i] == rest[i + 1];
      NextCrowd(placed, p, q, tail, tail[i].lx, lineHeight, guard);
    }
  }

  /** Labels with at most one neighbour more than the guard allows pushes end up without any
      overlap, however many there are. */
  lemma {:induction false} PlacedClear(placed: seq<Label>, rest: seq<Label>, lineHeight: real, guard: nat)
    requires Clear(placed, lineHeight) && SparseRest(placed, rest, guard + 1)
    ensures Clear(PlaceAll(placed, rest, lineHeight, guard), lineHeight)
    decreases |rest|
  {
    if rest != [] {
      PlaceFirst(placed, rest, lineHeight, guard);
      PushClears(placed, rest[0], lineHeight, guard);
      PlacedClear(placed + [PushUp(placed, rest[0], lineHeight, guard)], rest[1..], lineHeight, guard);
    }
  }

  /** Sparse labels are staggered without overlap. */
  lemma SparseClear(labels: seq<Label>, lineHeight: real, guard: nat)
    requires Sparse(labels, guard + 1)
    ensures Clear(PlaceAll([], labels, lineHeight, guard), lineHeight)
  {
    assert [] + labels == labels;
    PlacedClear([], labels, lineHeight, guard);
  }

  // ---------------------------------------------------------------- the bound is exact

  /** Height of the `i`-th rung of a ladder whose rungs are a line apart. */
  function Rung(i: nat, h: real): real {
    if i == 0 then 0.0 else Rung(i - 1, h) - h
  }

  lemma {:induction false} RungsApart(i: nat, j: nat, h: real)
    requires i < j && h > 0.0
    ensures Rung(j, h) <= Rung(i, h) - h
  {
    if i < j - 1 {
      RungsApart(i, j - 1, h);
    }
  }

  /** `n` labels one above the other, a line apart. */
  function Ladder(n: nat, h: real): (r: seq<Label>)
    ensures |r| == n && forall i :: 0 <= i < n ==> r[i] == Label(0.0, Rung(i, h))
  {
    seq(n, i requires i >= 0 => Label(0.0, Rung(i, h)))
  }

  function Same(n: nat): (r: seq<Label>)
    ensures |r| == n && forall i :: 0 <= i < n ==> r[i] == Label(0.0, 0.0)
  {
    seq(n, i => Label(0.0, 0.0))
  }

  /** On the `j`-th rung only the label of that rung is in the way. */
  lemma HitOnRung(n: nat, j: nat, h: real)
    requires j <= n && h > 0.0
    ensures FirstHit(Ladder(n, h), Label(0.0, Rung(j, h)), h, 0) == if j < n then Some(j) else None
  {
    var p := Label(0.0, Rung(j, h));
    forall k: nat | k < j ensures !Collides(Ladder(n, h)[k], p, h) {
      RungsApart(k, j, h);
    }
    if j < n {
      assert Collides(Ladder(n, h)[j], p, h);
    }
  }

  /** Each of these positions is one push above the one before. */
  ghost predicate Stair(placed: seq<Label>, rungs: seq<Label>, h: real) {
    forall k :: 0 <= k < |rungs| - 1 ==> PushedTo(placed, rungs[k], rungs[k + 1], h)
  }

  ghost predicate PushedTo(placed: seq<Label>, p: Label, q: Label, h: real) {
    var hit := FirstHit(placed, p, h, 0);
    hit.Some? && q == p.(ly := placed[hit.value].ly - h)
  }

  lemma OnePush(placed: seq<Label>, p: Label, q: Label, h: real, left: nat)
    requires PushedTo(placed, p, q, h) && left > 0
    ensures PushUp(placed, p, h, left) == PushUp(placed, q, h, left - 1)
  {
  }

  /** Each push takes the label one step up the stair. */
  lemma {:induction false} Climb(placed: seq<Label>, rungs: seq<Label>, h: real, left: nat)
    requires rungs != [] && Stair(placed, rungs, h)
    ensures PushUp(placed, rungs[0], h, |rungs| - 1 + left) == PushUp(placed, rungs[|rungs| - 1], h, left)
    decreases |rungs|
  {
    if |rungs| > 1 {
      assert PushedTo(placed, rungs[0], rungs[1], h);
      OnePush(placed, rungs[0], rungs[1], h, |rungs| - 1 + left);
      ShorterStair(placed, rungs, h);
      Climb(placed, rungs[1..], h, left);
    }
  }

  lemma ShorterStair(placed: seq<Label>, rungs: seq<Label>, h: real)
    requires Stair(placed, rungs, h) && |rungs| > 1
    ensures Stair(placed, rungs[1..], h)
  {
    var rest := rungs[1..];
    forall k | 0 <= k < |rest| - 1 ensures PushedTo(placed, rest[k], rest[k + 1], h) {
      assert PushedTo(placed, rungs[k + 1], rungs[k + 1 + 1], h);
    }
  }

  lemma LadderIsStair(n: nat, top: nat, h: real)
    requires top <= n && h > 0.0
    ensures Stair(Ladder(n, h), Ladder(top + 1, h), h)
  {
    var rungs := Ladder(top + 1, h);
    forall k: nat | k < top ensures PushedTo(Ladder(n, h), rungs[k], rungs[k + 1], h) {
      HitOnRung(n, k, h);
    }
  }

  /** The climb from the bottom ends at the end of the ladder or of the guard. */
  lemma ClimbEnds(n: nat, top: nat, h: real, guard: nat)
    requires top <= n && h > 0.0 && (top == guard || (top == n && n <= guard))
    ensures PushUp(Ladder(n, h), Label(0.0, 0.0), h, guard) == Label(0.0, Rung(top, h))
  {
    LadderIsStair(n, top, h);
    Climb(Ladder(n, h), Ladder(top + 1, h), h, guard - top);
    HitOnRung(n, top, h);
  }

  lemma {:induction false} SameClimbs(n: nat, m: nat, h: real, guard: nat)
    requires n + m <= guard + 1 && h > 0.0
    ensures PlaceAll(Ladder(n, h), Same(m), h, guard) == Ladder(n + m, h)
    decreases m
  {
    if m > 0 {
      NextRung(n, h, guard);
      SameTail(m);
      SameClimbs(n + 1, m - 1, h, guard);
    }
  }

  lemma SameTail(m: nat)
    requires m > 0
    ensures Same(m)[0] == Label(0.0, 0.0) && Same(m)[1..] == Same(m - 1)
  {
  }

  lemma NextRung(n: nat, h: real, guard: nat)
    requires n <= guard && h > 0.0
    ensures Ladder(n, h) + [PushUp(Ladder(n, h), Label(0.0, 0.0), h, guard)] == Ladder(n + 1, h)
  {
    ClimbEnds(n, n, h, guard);
    assert PushUp(Ladder(n, h), Label(0.0, 0.0), h, guard) == Label(0.0, Rung(n, h));
  }

  lemma {:induction false} PlacedKept(placed: seq<Label>, rest: seq<Label>, lineHeight: real, guard: nat, i: nat)
    requires i < |placed|
    ensures PlaceAll(placed, rest, lineHeight, guard)[i] == placed[i]
    decreases |rest|
  {
    if rest != [] {
      PlacedKept(placed + [PushUp(placed, rest[0], lineHeight, guard)], rest[1..], lineHeight, guard, i);
    }
  }

  lemma {:induction false} PlaceSplit(placed: seq<Label>, a: seq<Label>, b: seq<Label>, lineHeight: real, guard: nat)
    ensures PlaceAll(placed, a + b, lineHeight, guard) ==
            PlaceAll(PlaceAll(placed, a, lineHeight, guard), b, lineHeight, guard)
    decreases |a|
  {
    if a == [] {
      assert a + b == b;
    } else {
      assert (a + b)[1..] == a[1..] + b;
      PlaceSplit(placed + [PushUp(placed, a[0], lineHeight, guard)], a[1..], b, lineHeight, guard);
    }
  }

  /** With more identical labels the guard cuts the climb short: the last two that fit end up
      on the same spot. */
  lemma TooManyCollide(n: nat, h: real, guard: nat)
    requires n > guard + 1 && h > 0.0
    ensures !Clear(PlaceAll([], Same(n), h, guard), h)
  {
    var first, rest := Same(guard + 1), Same(n - guard - 1);
    assert Same(n) == first + rest;
    assert Ladder(0, h) == [];
    SameClimbs(0, guard + 1, h, guard);
    PlaceSplit([], first, rest, h, guard);
    var placed := Ladder(guard + 1, h);
    ClimbEnds(guard + 1, guard, h, guard);
    var next := placed + [PushUp(placed, rest[0], h, guard)];
    PlacedKept(next, rest[1..], h, guard, guard);
    PlacedKept(next, rest[1..], h, guard, guard + 1);
    var all := PlaceAll([], Same(n), h, guard);
    assert all == PlaceAll(next, rest[1..], h, guard);
    assert Collides(all[guard], all[guard + 1], h);
  }

  /** At every line height, unless it is empty, exactly the numbers of labels up to one more than
      the guard are always staggered without overlap; the guard of 50 is enough for 51 labels and
      not for 52. */
  lemma BoundIsExact(n: nat, h: real, guard: nat)
    ensures (forall rest: seq<Label> :: |rest| == n ==> Clear(PlaceAll([], rest, h, guard), h))
            <==> n <= guard + 1 || h <= 0.0
  {
    if n <= guard + 1 {
      forall rest: seq<Label> | |rest| == n ensures Clear(PlaceAll([], rest, h, guard), h) {
        SparseClear(rest, h, guard);
      }
    } else if h > 0.0 {
      TooManyCollide(n, h, guard);
    }
  }

  /** The same for any number of labels, counting neighbours: exactly the crowds up to one more
      than the guard are always staggered without overlap. */
  lemma CrowdBoundIsExact(c: nat, h: real, guard: nat)
    ensures (forall rest: seq<Label> :: Sparse(rest, c) ==> Clear(PlaceAll([], rest, h, guard), h))
            <==> c <= guard + 1 || h <= 0.0
  {
    if c <= guard + 1 {
      forall rest: seq<Label> | Sparse(rest, c) ensures Clear(PlaceAll([], rest, h, guard), h) {
        SparseClear(rest, h, guard);
      }
    } else if h > 0.0 {
      assert Sparse(Same(guard + 2), c);
      TooManyCollide(guard + 2, h, guard);
    }
  }

  // ---------------------------------------------------------------- in place

  /** `order` lists the indices below `n`, each once. */
  ghost predicate Permutes(order: seq<nat>, n: nat) {
    && |order| == n
    && (forall i :: 0 <= i < n ==> order[i] < n)
    && (forall i, j :: 0 <= i < j < n ==> order[i] != order[j])
  }

  ghost predicate Complete(order: seq<nat>, n: nat) {
    forall i: nat :: i < n ==> i in order
  }

  ghost predicate SortedBy(order: seq<nat>, ly: seq<real>) {
    && (forall i :: 0 <= i < |order| ==> order[i] < |ly|)
    && (forall i, j :: 0 <= i < j < |order| ==> ly[order[i]] <= ly[order[j]])
  }

  /** The stable sort of the arcs by the height of their labels, topmost first. */
  method SortByHeight(ly: seq<real>) returns (order: seq<nat>)
    ensures Permutes(order, |ly|) && SortedBy(order, ly) && Complete(order, |ly|)
  {
    order := [];
    for n := 0 to |ly|
      invariant Permutes(order, n) && SortedBy(order, ly) && Complete(order, n)
    {
      var k := n;
      while k > 0 && ly[order[k - 1]] > ly[n]
        invariant k <= n
        invariant forall j :: k <= j < n ==> ly[order[j]] > ly[n]
      {
        k := k - 1;
      }
      InsertSorted(order, ly, n, k);
      InsertComplete(order, n, k);
      order := order[..k] + [n] + order[k..];
    }
  }

  lemma InsertSorted(order: seq<nat>, ly: seq<real>, n: nat, k: nat)
    requires Permutes(order, n) && SortedBy(order, ly) && n < |ly| && k <= n
    requires forall j :: k <= j < n ==> ly[order[j]] > ly[n]
    requires k == 0 || ly[order[k - 1]] <= ly[n]
    ensures Permutes(order[..k] + [n] + order[k..], n + 1) && SortedBy(order[..k] + [n] + order[k..], ly)
  {
  }

  lemma InsertComplete(order: seq<nat>, n: nat, k: nat)
    requires Complete(order, n) && k <= |order|
    ensures Complete(order[..k] + [n] + order[k..], n + 1)
  {
    var r := order[..k] + [n] + order[k..];
    forall i: nat | i < n + 1 ensures i in r {
      if i == n {
        assert r[k] == n;
      } else {
        assert i in order;
        var j :| 0 <= j < |order| && order[j] == i;
        assert r[if j < k then j else j + 1] == i;
      }
    }
  }

  /** The labels at the given indices. */
  function LabelsAt(idx: seq<nat>, lx: seq<real>, ly: seq<real>): (r: seq<Label>)
    requires |lx| == |ly| && forall i :: 0 <= i < |idx| ==> idx[i] < |lx|
    ensures |r| == |idx| && forall i :: 0 <= i < |idx| ==> r[i] == Label(lx[idx[i]], ly[idx[i]])
  {
    seq(|idx|, i requires 0 <= i < |idx| => Label(lx[idx[i]], ly[idx[i]]))
  }

  /** The arcs of `order` that carry a label, in that order. */
  function Labelled(order: seq<nat>, labelled: seq<bool>): (r: seq<nat>)
    requires forall i :: 0 <= i < |order| ==> order[i] < |labelled|
    ensures forall i :: 0 <= i < |r| ==> r[i] < |labelled| && labelled[r[i]] && r[i] in order
  {
    if order == [] then []
    else
      var n := order[|order| - 1];
      Labelled(order[..|order| - 1], labelled) + (if labelled[n] then [n] else [])
  }

  lemma {:induction false} LabelledAll(order: seq<nat>, labelled: seq<bool>)
    requires forall i :: 0 <= i < |order| ==> order[i] < |labelled|
    requires forall i, j :: 0 <= i < j < |order| ==> order[i] != order[j]
    ensures Distinct(Labelled(order, labelled))
    ensures forall n :: n in order && labelled[n] ==> n in Labelled(order, labelled)
  {
    if order != [] {
      var init := order[..|order| - 1];
      assert order == init + [order[|order| - 1]];
      LabelledAll(init, labelled);
      assert order[|order| - 1] !in init;
    }
  }

  /** The labels in the order of placement, with their heights. */
  ghost predicate Staggered(order: seq<nat>, labelled: seq<bool>, lx: seq<real>, before: seq<real>, after: seq<real>,
      lineHeight: real, guard: nat)
    requires |labelled| == |lx| == |before| == |after| && Permutes(order, |lx|)
  {
    var idx := Labelled(order, labelled);
    LabelsAt(idx, lx, after) == PlaceAll([], LabelsAt(idx, lx, before), lineHeight, guard)
  }

  /** The first placed label that the label of arc `n` collides with. */
  method FirstCollision(lx: seq<real>, ly: array<real>, placed: seq<nat>, n: nat, lineHeight: real)
      returns (r: Option<nat>)
    requires |lx| == ly.Length && n < ly.Length
    requires forall i :: 0 <= i < |placed| ==> placed[i] < ly.Length
    ensures r == FirstHit(LabelsAt(placed, lx, ly[..]), Label(lx[n], ly[n]), lineHeight, 0)
  {
    ghost var labels := LabelsAt(placed, lx, ly[..]);
    for k := 0 to |placed|
      invariant FirstHit(labels, Label(lx[n], ly[n]), lineHeight, 0) ==
                FirstHit(labels, Label(lx[n], ly[n]), lineHeight, k)
    {
      assert labels[k] == Label(lx[placed[k]], ly[placed[k]]);
      if Collides(Label(lx[placed[k]], ly[placed[k]]), Label(lx[n], ly[n]), lineHeight) {
        return Some(k);
      }
    }
    r := None;
  }

  /** Moving a label that is not placed leaves the placed ones alone. */
  lemma PlacedStay(placed: seq<nat>, lx: seq<real>, before: seq<real>, after: seq<real>, n: nat)
    requires |lx| == |before| == |after|
    requires forall i :: 0 <= i < |placed| ==> placed[i] < |lx| && placed[i] != n
    requires forall i :: 0 <= i < |lx| && i != n ==> after[i] == before[i]
    ensures LabelsAt(placed, lx, after) == LabelsAt(placed, lx, before)
  {
  }

  /** Pushes the label of arc `n` above the placed ones it collides with. */
  method PushLabel(lx: seq<real>, ly: array<real>, placed: seq<nat>, n: nat, lineHeight: real, limit: nat)
    requires |lx| == ly.Length && n < ly.Length
    requires forall i :: 0 <= i < |placed| ==> placed[i] < ly.Length && placed[i] != n
    modifies ly
    ensures forall i :: 0 <= i < ly.Length && i != n ==> ly[i] == old(ly[i])
    ensures Label(lx[n], ly[n]) ==
            PushUp(LabelsAt(placed, lx, old(ly[..])), Label(lx[n], old(ly[n])), lineHeight, limit)
  {
    ghost var labels := LabelsAt(placed, lx, ly[..]);
    ghost var start := Label(lx[n], ly[n]);
    var guard := 0;
    var hit := true;
    while hit && guard < limit
      invariant 0 <= guard <= limit
      invariant forall i :: 0 <= i < ly.Length && i != n ==> ly[i] == old(ly[i])
      invariant LabelsAt(placed, lx, ly[..]) == labels
      invariant hit ==>
        PushUp(labels, Label(lx[n], ly[n]), lineHeight, limit - guard) == PushUp(labels, start, lineHeight, limit)
      invariant !hit ==> Label(lx[n], ly[n]) == PushUp(labels, start, lineHeight, limit)
      decreases limit - guard, hit
    {
      var k := FirstCollision(lx, ly, placed, n, lineHeight);
      guard := guard + 1;
      hit := k.Some?;
      if hit {
        assert labels[k.value] == Label(lx[placed[k.value]], ly[placed[k.value]]);
        ghost var before := ly[..];
        ly[n] := ly[placed[k.value]] - lineHeight;
        PlacedStay(placed, lx, before, ly[..], n);
      }
    }
  }

  /** The labelled arcs whose label stands near `x`. */
  ghost function Around(labelled: seq<bool>, lx: seq<real>, x: real): set<nat>
    requires |labelled| == |lx|
  {
    set i: nat | i < |lx| && labelled[i] && Distance(lx[i], x) < NEAR
  }

  /** No label has more than `c` labels near it, itself included. */
  ghost predicate FewNeighbours(labelled: seq<bool>, lx: seq<real>, c: nat)
    requires |labelled| == |lx|
  {
    forall i :: 0 <= i < |lx| && labelled[i] ==> |Around(labelled, lx, lx[i])| <= c
  }

  ghost function NearIn(idx: seq<nat>, lx: seq<real>, x: real): set<nat> {
    set n | n in idx && n < |lx| && Distance(lx[n], x) < NEAR
  }

  lemma NearOneMore(idx: seq<nat>, lx: seq<real>, x: real)
    requires idx != [] && Distinct(idx) && idx[|idx| - 1] < |lx|
    ensures |NearIn(idx, lx, x)| ==
            |NearIn(idx[..|idx| - 1], lx, x)| + (if Distance(lx[idx[|idx| - 1]], x) < NEAR then 1 else 0)
  {
    var init, last := idx[..|idx| - 1], idx[|idx| - 1];
    assert idx == init + [last];
    assert last !in NearIn(init, lx, x);
    assert NearIn(idx, lx, x) == NearIn(init, lx, x) + (if Distance(lx[last], x) < NEAR then {last} else {});
  }

  lemma LabelsButLast(idx: seq<nat>, lx: seq<real>, ly: seq<real>)
    requires |lx| == |ly| && idx != [] && forall i :: 0 <= i < |idx| ==> idx[i] < |lx|
    ensures LabelsAt(idx, lx, ly)[..|idx| - 1] == LabelsAt(idx[..|idx| - 1], lx, ly)
  {
  }

  /** Counting along a list without repetitions counts a set. */
  lemma {:induction false} CrowdIsSet(idx: seq<nat>, lx: seq<real>, ly: seq<real>, x: real)
    requires |lx| == |ly| && Distinct(idx) && forall i :: 0 <= i < |idx| ==> idx[i] < |lx|
    ensures Crowd(LabelsAt(idx, lx, ly), x) == |NearIn(idx, lx, x)|
  {
    if idx != [] {
      CrowdIsSet(idx[..|idx| - 1], lx, ly, x);
      LabelsButLast(idx, lx, ly);
      NearOneMore(idx, lx, x);
    }
  }

  /** Few labels, or few near each, are sparse in the order of placement. */
  lemma FewIsSparse(order: seq<nat>, labelled: seq<bool>, lx: seq<real>, ly: seq<real>, c: nat)
    requires |labelled| == |lx| == |ly| && Permutes(order, |lx|)
    requires |Labelled(order, labelled)| <= c || FewNeighbours(labelled, lx, c)
    ensures Sparse(LabelsAt(Labelled(order, labelled), lx, ly), c)
  {
    var idx := Labelled(order, labelled);
    LabelledAll(order, labelled);
    var labels := LabelsAt(idx, lx, ly);
    forall k | 0 <= k < |labels| ensures Crowd(labels, labels[k].lx) <= c {
      var x := lx[idx[k]];
      CrowdIsSet(idx, lx, ly, x);
      SubsetCard(NearIn(idx, lx, x), Around(labelled, lx, x));
    }
  }

  /** After `k` arcs of `order`: those with a label are placed, and only labels have moved. */
  ghost predicate PlacedSoFar(order: seq<nat>, k: nat, placed: seq<nat>, labelled: seq<bool>, lx: seq<real>,
      before: seq<real>, now: seq<real>, lineHeight: real, guard: nat)
    requires |labelled| == |lx| == |before| == |now| && Permutes(order, |lx|) && k <= |order|
  {
    && placed == Labelled(order[..k], labelled)
    && LabelsAt(placed, lx, now) == PlaceAll([], LabelsAt(placed, lx, before), lineHeight, guard)
    && (forall i :: 0 <= i < |lx| ==> now[i] <= before[i] && (!labelled[i] ==> now[i] == before[i]))
    && (forall j :: k <= j < |order| ==> now[order[j]] == before[order[j]])
  }

  /** Places the label of the next arc, if it has one. */
  method PlaceNext(order: seq<nat>, k: nat, placed: seq<nat>, labelled: seq<bool>, lx: seq<real>,
      ghost before: seq<real>, ly: array<real>, lineHeight: real, limit: nat) returns (r: seq<nat>)
    requires |labelled| == |lx| == |before| == ly.Length && Permutes(order, ly.Length) && k < |order|
    requires PlacedSoFar(order, k, placed, labelled, lx, before, ly[..], lineHeight, limit)
    modifies ly
    ensures PlacedSoFar(order, k + 1, r, labelled, lx, before, ly[..], lineHeight, limit)
  {
    var n := order[k];
    assert order[..k + 1][..k] == order[..k];
    if !labelled[n] {
      return placed;
    }
    ghost var now := ly[..];
    NotYetPlaced(order, labelled, k);
    PushLabel(lx, ly, placed, n, lineHeight, limit);
    PushRises(LabelsAt(placed, lx, now), Label(lx[n], before[n]), lineHeight, limit);
    PlaceOne(placed, n, lx, before, now, ly[..], lineHeight, limit);
    r := placed + [n];
  }

  /** The whole staggering: only labels of labelled arcs move, and only up; they end up where
      placing them one by one, topmost first, puts them. With at most 51 of them, or with at most
      50 others near each, no two cover each other afterwards. */
  method StaggerProvenanceLabels(labelled: seq<bool>, lx: seq<real>, ly: array<real>, lineHeight: real)
      returns (ghost order: seq<nat>)
    requires |labelled| == |lx| == ly.Length
    modifies ly
    ensures Permutes(order, ly.Length) && SortedBy(order, old(ly[..]))
    ensures Staggered(order, labelled, lx, old(ly[..]), ly[..], lineHeight, GUARD)
    ensures forall i :: 0 <= i < ly.Length ==> ly[i] <= old(ly[i]) && (!labelled[i] ==> ly[i] == old(ly[i]))
    ensures |Labelled(order, labelled)| <= GUARD + 1 ==> NoneCovered(labelled, lx, ly[..], lineHeight)
    ensures FewNeighbours(labelled, lx, GUARD + 1) ==> NoneCovered(labelled, lx, ly[..], lineHeight)
  {
    var limit: nat := GUARD;
    var sorted := SortByHeight(ly[..]);
    order := sorted;
    ghost var before := ly[..];
    var placed: seq<nat> := [];
    for k := 0 to |sorted|
      invariant PlacedSoFar(sorted, k, placed, labelled, lx, before, ly[..], lineHeight, limit)
    {
      placed := PlaceNext(sorted, k, placed, labelled, lx, before, ly, lineHeight, limit);
    }
    assert sorted[..|sorted|] == sorted;
    if |placed| <= limit + 1 || FewNeighbours(labelled, lx, limit + 1) {
      FewIsSparse(sorted, labelled, lx, before, limit + 1);
      AllStaggered(sorted, labelled, lx, before, ly[..], lineHeight, limit);
    }
  }

  lemma NotYetPlaced(sorted: seq<nat>, labelled: seq<bool>, k: nat)
    requires Permutes(sorted, |labelled|) && k < |sorted|
    ensures forall i :: 0 <= i < |Labelled(sorted[..k], labelled)| ==> Labelled(sorted[..k], labelled)[i] != sorted[k]
  {
    assert sorted[k] !in sorted[..k];
  }

  lemma PlaceOne(placed: seq<nat>, n: nat, lx: seq<real>, before: seq<real>, now: seq<real>, after: seq<real>,
      lineHeight: real, guard: nat)
    requires |lx| == |before| == |now| == |after| && n < |lx|
    requires forall i :: 0 <= i < |placed| ==> placed[i] < |lx| && placed[i] != n
    requires LabelsAt(placed, lx, now) == PlaceAll([], LabelsAt(placed, lx, before), lineHeight, guard)
    requires now[n] == before[n] && forall i :: 0 <= i < |lx| && i != n ==> after[i] == now[i]
    requires Label(lx[n], after[n]) == PushUp(LabelsAt(placed, lx, now), Label(lx[n], now[n]), lineHeight, guard)
    ensures LabelsAt(placed + [n], lx, after) == PlaceAll([], LabelsAt(placed + [n], lx, before), lineHeight, guard)
  {
    var a := LabelsAt(placed, lx, before);
    var b := [Label(lx[n], before[n])];
    assert LabelsAt(placed + [n], lx, before) == a + b;
    PlaceSplit([], a, b, lineHeight, guard);
    assert LabelsAt(placed + [n], lx, after) == LabelsAt(placed, lx, now) + [Label(lx[n], after[n])];
  }

  /** Every labelled arc is among `idx`, and the labels there are clear of each other. */
  ghost predicate ClearAt(idx: seq<nat>, lx: seq<real>, ly: seq<real>, lineHeight: real)
    requires |lx| == |ly|
  {
    && (forall i :: 0 <= i < |idx| ==> idx[i] < |lx|)
    && Clear(LabelsAt(idx, lx, ly), lineHeight)
  }

  lemma PairClear(idx: seq<nat>, lx: seq<real>, ly: seq<real>, lineHeight: real, i: nat, j: nat)
    requires |lx| == |ly| && ClearAt(idx, lx, ly, lineHeight) && i in idx && j in idx && i != j
    ensures i < |lx| && j < |lx| && !Collides(Label(lx[i], ly[i]), Label(lx[j], ly[j]), lineHeight)
  {
    var a :| 0 <= a < |idx| && idx[a] == i;
    var b :| 0 <= b < |idx| && idx[b] == j;
    var labels := LabelsAt(idx, lx, ly);
    assert labels[a] == Label(lx[i], ly[i]) && labels[b] == Label(lx[j], ly[j]);
    if a < b {
      assert !Collides(labels[a], labels[b], lineHeight);
    } else {
      assert !Collides(labels[b], labels[a], lineHeight);
    }
  }

  lemma StaggeredClear(order: seq<nat>, labelled: seq<bool>, lx: seq<real>, before: seq<real>, after: seq<real>,
      lineHeight: real, guard: nat)
    requires |labelled| == |lx| == |before| == |after| && Permutes(order, |lx|)
    requires Staggered(order, labelled, lx, before, after, lineHeight, guard)
             && Sparse(LabelsAt(Labelled(order, labelled), lx, before), guard + 1)
    ensures ClearAt(Labelled(order, labelled), lx, after, lineHeight)
  {
    SparseClear(LabelsAt(Labelled(order, labelled), lx, before), lineHeight, guard);
  }

  ghost predicate NoneCovered(labelled: seq<bool>, lx: seq<real>, ly: seq<real>, lineHeight: real)
    requires |labelled| == |lx| == |ly|
  {
    forall i, j :: 0 <= i < j < |lx| && labelled[i] && labelled[j] ==>
           !Collides(Label(lx[i], ly[i]), Label(lx[j], ly[j]), lineHeight)
  }

  lemma AllClear(idx: seq<nat>, labelled: seq<bool>, lx: seq<real>, ly: seq<real>, lineHeight: real)
    requires |labelled| == |lx| == |ly| && ClearAt(idx, lx, ly, lineHeight)
    requires forall i: nat :: i < |lx| && labelled[i] ==> i in idx
    ensures NoneCovered(labelled, lx, ly, lineHeight)
  {
    forall i, j | 0 <= i < j < |lx| && labelled[i] && labelled[j]
      ensures !Collides(Label(lx[i], ly[i]), Label(lx[j], ly[j]), lineHeight)
    {
      PairClear(idx, lx, ly, lineHeight, i, j);
    }
  }

  lemma AllStaggered(order: seq<nat>, labelled: seq<bool>, lx: seq<real>, before: seq<real>, after: seq<real>,
      lineHeight: real, guard: nat)
    requires |labelled| == |lx| == |before| == |after| && Permutes(order, |lx|) && Complete(order, |lx|)
    requires Staggered(order, labelled, lx, before, after, lineHeight, guard)
             && Sparse(LabelsAt(Labelled(order, labelled), lx, before), guard + 1)
    ensures NoneCovered(labelled, lx, after, lineHeight)
  {
    StaggeredClear(order, labelled, lx, before, after, lineHeight, guard);
    LabelledAll(order, labelled);
    AllClear(Labelled(order, labelled), labelled, lx, after, lineHeight);
  }
}
