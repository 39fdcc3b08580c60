/** The hierarchy of org units, and which units a unit may be moved under.

    The parents are a table with at most one parent for each unit. That it has no cycles is a
    result of the check, not something it relies on: the fixpoint ends on every table. */
module OrgUnits {
  import opened Basics

  type UnitId = string

  /** The units in key order and the parent each one names, which need not exist. */
  datatype Hierarchy = Hierarchy(ids: seq<UnitId>, parent: map<UnitId, Option<UnitId>>) {
    ghost predicate Valid() {
      forall u :: u in parent <==> u in ids
    }

    /** The unit that `u` hangs under; a unit with an unknown parent hangs under none. */
    function Parent(u: UnitId): Option<UnitId> {
      if u in parent && parent[u].Some? && parent[u].value in parent then parent[u] else None
    }

    /** The unit `k` levels above `u`. */
    function Up(u: UnitId, k: nat): Option<UnitId>
      decreases k
    {
      if k == 0 then (if u in parent then Some(u) else None)
      else match Parent(u)
        case None => None
        case Some(p) => Up(p, k - 1)
    }

    /** `u` is `a` or one of its descendants. */
    ghost predicate Within(u: UnitId, a: UnitId) {
      exists k: nat :: Up(u, k) == Some(a)
    }

    ghost predicate Acyclic() {
      forall u, k: nat :: u in parent && k > 0 ==> Up(u, k) != Some(u)
    }
  }

  lemma {:induction false} UpSplit(h: Hierarchy, u: UnitId, a: nat, b: nat)
    ensures h.Up(u, a + b) == match h.Up(u, a) case None => None case Some(x) => h.Up(x, b)
    decreases a
  {
    if a > 0 {
      match h.Parent(u)
      case None =>
      case Some(p) => UpSplit(h, p, a - 1, b);
    } else if u !in h.parent && b > 0 {
      assert h.Parent(u) == None;
    }
  }

  lemma {:induction false} UpKnown(h: Hierarchy, u: UnitId, k: nat)
    requires h.Up(u, k).Some?
    ensures u in h.parent && h.Up(u, k).value in h.parent
    decreases k
  {
    if k > 0 {
      UpKnown(h, h.Parent(u).value, k - 1);
    }
  }

  // ---------------------------------------------------------------- moving a unit

  /** The set that `moveOrgUnit` grows until nothing changes: the unit and all its
      descendants, whatever the parents look like. */
  method BlockedParents(h: Hierarchy, unit: UnitId) returns (blocked: set<UnitId>)
    requires h.Valid() && unit in h.parent
    ensures forall u :: u in blocked <==> h.Within(u, unit)
  {
    blocked := {unit};
    var changed := true;
    assert h.Up(unit, 0) == Some(unit);
    while changed
      invariant unit in blocked && blocked <= h.parent.Keys && AllWithin(h, blocked, unit)
      invariant !changed ==> ClosedBelow(h, blocked)
      decreases |h.parent.Keys - blocked|, changed
    {
      ghost var before := blocked;
      blocked, changed := Sweep(h, unit, blocked);
      if changed {
        Shrinks(h.parent.Keys, before, blocked);
      }
    }
    forall u | h.Within(u, unit) ensures u in blocked {
      var k: nat :| h.Up(u, k) == Some(unit);
      ClosedHoldsAll(h, blocked, unit, u, k);
    }
  }

  /** One pass over all units: adds every unit that hangs under a blocked one. */
  method Sweep(h: Hierarchy, unit: UnitId, before: set<UnitId>) returns (blocked: set<UnitId>, changed: bool)
    requires h.Valid() && before <= h.parent.Keys && AllWithin(h, before, unit)
    ensures before <= blocked <= h.parent.Keys && AllWithin(h, blocked, unit)
    ensures changed <==> before != blocked
    ensures !changed ==> ClosedBelow(h, blocked)
  {
    blocked := before;
    changed := false;
    for i := 0 to |h.ids|
      invariant before <= blocked <= h.parent.Keys && (changed <==> before != blocked) && AllWithin(h, blocked, unit)
      invariant !changed ==> forall k :: 0 <= k < i ==> HangsOutside(h, blocked, h.ids[k])
    {
      var u := h.ids[i];
      assert u in h.parent;
      if h.parent[u].Some? && h.parent[u].value in blocked && u !in blocked {
        ChildWithin(h, u, unit);
        blocked := blocked + {u};
        changed := true;
      }
    }
  }

  ghost predicate AllWithin(h: Hierarchy, blocked: set<UnitId>, unit: UnitId) {
    forall u :: u in blocked ==> h.Within(u, unit)
  }

  ghost predicate HangsOutside(h: Hierarchy, blocked: set<UnitId>, u: UnitId) {
    u in h.parent && h.parent[u].Some? && h.parent[u].value in blocked ==> u in blocked
  }

  ghost predicate ClosedBelow(h: Hierarchy, blocked: set<UnitId>) {
    forall u :: u in h.parent ==> HangsOutside(h, blocked, u)
  }

  lemma Shrinks<T>(all: set<T>, a: set<T>, b: set<T>)
    requires a < b <= all
    ensures |all - b| < |all - a|
  {
    var x :| x in b && x !in a;
    assert all - b <= all - a - {x};
    assert |all - a| == |all - b| + |(all - a) - (all - b)|;
    assert x in (all - a) - (all - b);
  }

  lemma ChildWithin(h: Hierarchy, u: UnitId, unit: UnitId)
    requires u in h.parent && h.parent[u].Some? && h.parent[u].value in h.parent && h.Within(h.parent[u].value, unit)
    ensures h.Within(u, unit)
  {
    var k: nat :| h.Up(h.parent[u].value, k) == Some(unit);
    assert h.Up(u, k + 1) == Some(unit);
  }

  lemma {:induction false} ClosedHoldsAll(h: Hierarchy, blocked: set<UnitId>, unit: UnitId, u: UnitId, k: nat)
    requires unit in blocked && ClosedBelow(h, blocked) && h.Up(u, k) == Some(unit)
    ensures u in blocked
    decreases k
  {
    if k > 0 {
      ClosedHoldsAll(h, blocked, unit, h.Parent(u).value, k - 1);
      assert HangsOutside(h, blocked, u);
    }
  }

  /** The hierarchy after `unit` was hung under `p`. */
  function Moved(h: Hierarchy, unit: UnitId, p: Option<UnitId>): Hierarchy {
    Hierarchy(h.ids, h.parent[unit := p])
  }

  /** The way up from `u` is the same before and after the move until it meets `unit`. */
  lemma {:induction false} UpUnmoved(h: Hierarchy, unit: UnitId, p: Option<UnitId>, u: UnitId, k: nat)
    requires unit in h.parent && forall j: nat :: j < k ==> h.Up(u, j) != Some(unit)
    ensures Moved(h, unit, p).Up(u, k) == h.Up(u, k)
    decreases k
  {
    if k > 0 {
      assert h.Up(u, 0) != Some(unit);
      match h.Parent(u)
      case None =>
      case Some(q) =>
        forall j: nat | j < k - 1 ensures h.Up(q, j) != Some(unit) {
          assert h.Up(u, j + 1) == h.Up(q, j);
        }
        UpUnmoved(h, unit, p, q, k - 1);
    }
  }

  /** The first time the way up meets `unit`. */
  lemma FirstMeeting(h: Hierarchy, unit: UnitId, u: UnitId, k: nat) returns (i: nat)
    requires h.Up(u, k) == Some(unit)
    ensures i <= k && h.Up(u, i) == Some(unit) && forall j: nat :: j < i ==> h.Up(u, j) != Some(unit)
  {
    i := 0;
    while h.Up(u, i) != Some(unit)
      invariant i <= k && forall j: nat :: j < i ==> h.Up(u, j) != Some(unit)
      decreases k - i
    {
      i := i + 1;
    }
  }

  /** In a hierarchy without cycles a unit is refused as new parent exactly if choosing it
      would close a cycle; hanging the unit at the top never does. */
  lemma BlockedIffCycle(h: Hierarchy, unit: UnitId, p: UnitId)
    requires h.Valid() && h.Acyclic() && unit in h.parent && p in h.parent
    ensures h.Within(p, unit) <==> !Moved(h, unit, Some(p)).Acyclic()
    ensures Moved(h, unit, None).Acyclic()
  {
    if h.Within(p, unit) {
      var k: nat :| h.Up(p, k) == Some(unit);
      MoveCloses(h, unit, p, k);
    }
    if !Moved(h, unit, Some(p)).Acyclic() {
      var u, k: nat :| u in h.parent && k > 0 && Moved(h, unit, Some(p)).Up(u, k) == Some(u);
      CycleThroughUnit(h, unit, Some(p), u, k);
    }
    if !Moved(h, unit, None).Acyclic() {
      var u, k: nat :| u in h.parent && k > 0 && Moved(h, unit, None).Up(u, k) == Some(u);
      CycleThroughUnit(h, unit, None, u, k);
    }
  }

  lemma MoveCloses(h: Hierarchy, unit: UnitId, p: UnitId, k: nat)
    requires h.Acyclic() && unit in h.parent && p in h.parent && h.Up(p, k) == Some(unit)
    ensures !Moved(h, unit, Some(p)).Acyclic()
  {
    var i := FirstMeeting(h, unit, p, k);
    UpUnmoved(h, unit, Some(p), p, i);
    assert Moved(h, unit, Some(p)).Up(unit, i + 1) == Some(unit);
  }

  /** A cycle after the move runs through `unit`, so its new parent was below it before. */
  lemma CycleThroughUnit(h: Hierarchy, unit: UnitId, p: Option<UnitId>, u: UnitId, k: nat)
    requires h.Acyclic() && unit in h.parent && u in h.parent && k > 0 && Moved(h, unit, p).Up(u, k) == Some(u)
    ensures p.Some? && h.Within(p.value, unit)
  {
    var h' := Moved(h, unit, p);
    if forall j: nat :: j < k ==> h.Up(u, j) != Some(unit) {
      UpUnmoved(h, unit, p, u, k);
    } else {
      var j0: nat :| j0 < k && h.Up(u, j0) == Some(unit);
      var i := FirstMeeting(h, unit, u, j0);
      UpUnmoved(h, unit, p, u, i);
      UpSplit(h', u, i, k - i);
      UpSplit(h', u, k, i);
      UpSplit(h', unit, k - i, i);
      assert h'.Up(unit, k) == Some(unit);
      var q := h'.Parent(unit).value;
      UnitComesBack(h, unit, p, q, k - 1);
    }
  }

  lemma UnitComesBack(h: Hierarchy, unit: UnitId, p: Option<UnitId>, q: UnitId, k: nat)
    requires unit in h.parent && Moved(h, unit, p).Up(q, k) == Some(unit)
    ensures h.Within(q, unit)
  {
    var i := FirstMeeting(Moved(h, unit, p), unit, q, k);
    assert Moved(Moved(h, unit, p), unit, h.parent[unit]) == h;
    UpUnmoved(Moved(h, unit, p), unit, h.parent[unit], q, i);
    assert h.Up(q, i) == Some(unit);
  }
}
