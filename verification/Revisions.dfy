/** Revisions of a process: families by lineage, and when a new revision is blocked. */
module Revisions {
  import opened Basics

  type SchemaId = string

  datatype Lifecycle = Draft | Review | Released | Deprecated | Archived {
    /** The version number is taken: released at some time. */
    predicate OnceReleased() {
      this in {Released, Deprecated, Archived}
    }

    predicate Open() {
      this in {Draft, Review}
    }

    function Rank(): nat {
      match this case Draft => 0 case Review => 1 case Released => 2 case Deprecated => 3 case Archived => 4
    }
  }

  datatype Row = Row(version: nat, state: Lifecycle, revisionOf: Option<SchemaId>)

  /** The loaded process list: ids in order, and the row of each. */
  datatype Registry = Registry(ids: seq<SchemaId>, rows: map<SchemaId, Row>) {
    ghost predicate Valid() {
      forall n :: n in rows <==> n in ids
    }

    /** The known base that `n` revises. */
    function Base(n: SchemaId): Option<SchemaId> {
      if n in rows && rows[n].revisionOf.Some? && rows[n].revisionOf.value in rows then rows[n].revisionOf else None
    }
  }

  // ---------------------------------------------------------------- families

  /** The walk up the lineage, ending at a row without known base or before a repetition. */
  function RootFrom(r: Registry, cur: SchemaId, seen: set<SchemaId>): SchemaId
    decreases |r.rows.Keys - seen|
  {
    match r.Base(cur)
    case None => cur
    case Some(b) =>
      if b in seen then cur
      else
        assert r.rows.Keys - seen == (r.rows.Keys - (seen + {b})) + {b};
        RootFrom(r, b, seen + {b})
  }

  lemma RootStep(r: Registry, cur: SchemaId, seen: set<SchemaId>)
    requires r.Base(cur).Some? && r.Base(cur).value !in seen
    ensures
      var b := r.Base(cur).value;
      && RootFrom(r, cur, seen) == RootFrom(r, b, seen + {b})
      && |r.rows.Keys - (seen + {b})| < |r.rows.Keys - seen|
  {
    OneLess(r.rows.Keys, seen, r.Base(cur).value);
  }

  function Root(r: Registry, n: SchemaId): SchemaId {
    RootFrom(r, n, {n})
  }

  /** The loop of `rootOf`; it ends on every lineage, cyclic ones included. */
  method RootOf(r: Registry, start: SchemaId) returns (cur: SchemaId)
    ensures cur == Root(r, start)
  {
    cur := start;
    var seen := {cur};
    while r.Base(cur).Some? && r.Base(cur).value !in seen
      invariant RootFrom(r, cur, seen) == Root(r, start)
      decreases |r.rows.Keys - seen|
    {
      RootStep(r, cur, seen);
      var b := r.Base(cur).value;
      cur := b;
      seen := seen + {b};
    }
  }

  predicate SameFamily(r: Registry, a: SchemaId, b: SchemaId) {
    Root(r, a) == Root(r, b)
  }

  // ---------------------------------------------------------------- the block

  /** Versions above `own` of the other family members in the chosen states, in list order. */
  function Higher(r: Registry, ids: seq<SchemaId>, id: SchemaId, open: bool): (vs: seq<nat>)
    requires id in r.rows
  {
    if ids == [] then []
    else
      var o := ids[0];
      (if o != id && o in r.rows && SameFamily(r, o, id) && r.rows[o].version > r.rows[id].version
          && (if open then r.rows[o].state.Open() else r.rows[o].state.OnceReleased())
       then [r.rows[o].version] else [])
      + Higher(r, ids[1..], id, open)
  }

  function Greatest(vs: seq<nat>): (m: nat)
    requires vs != []
    ensures m in vs && forall v :: v in vs ==> v <= m
  {
    if |vs| == 1 then vs[0]
    else
      assert vs == [vs[0]] + vs[1..];
      var m := Greatest(vs[1..]);
      if vs[0] > m then vs[0] else m
  }

  function Least(vs: seq<nat>): (m: nat)
    requires vs != []
    ensures m in vs && forall v :: v in vs ==> m <= v
  {
    if |vs| == 1 then vs[0]
    else
      assert vs == [vs[0]] + vs[1..];
      var m := Least(vs[1..]);
      if vs[0] < m then vs[0] else m
  }

  datatype BlockReason = NotLatest(version: nat) | OpenRevision(version: nat)

  function RevisionBlockReason(r: Registry, id: SchemaId): Option<BlockReason> {
    if id !in r.rows then None
    else if Higher(r, r.ids, id, false) != [] then Some(NotLatest(Greatest(Higher(r, r.ids, id, false))))
    else if Higher(r, r.ids, id, true) != [] then Some(OpenRevision(Least(Higher(r, r.ids, id, true))))
    else None
  }

  /** `o` is another member of the family with a higher version. */
  ghost predicate Newer(r: Registry, id: SchemaId, o: SchemaId) {
    id in r.rows && o in r.rows && o != id && SameFamily(r, o, id) && r.rows[o].version > r.rows[id].version
  }

  /** A newer member of that version, open or once released as asked. */
  ghost predicate NewerAt(r: Registry, id: SchemaId, o: SchemaId, open: bool, v: nat) {
    Newer(r, id, o) && r.rows[o].version == v && r.rows[o].state.Open() == open
  }

  lemma StatesSplit(s: Lifecycle)
    ensures s.Open() <==> !s.OnceReleased()
  {
  }

  lemma {:induction false} HigherElements(r: Registry, ids: seq<SchemaId>, id: SchemaId, open: bool, v: nat)
    requires id in r.rows
    ensures v in Higher(r, ids, id, open) <==> exists o :: o in ids && NewerAt(r, id, o, open, v)
  {
    if ids != [] {
      HigherElements(r, ids[1..], id, open, v);
      assert ids == [ids[0]] + ids[1..];
      var o := ids[0];
      if o in r.rows {
        StatesSplit(r.rows[o].state);
      }
      var first := if Newer(r, id, o) && r.rows[o].state.Open() == open then [r.rows[o].version] else [];
      assert Higher(r, ids, id, open) == first + Higher(r, ids[1..], id, open);
      assert v in first <==> NewerAt(r, id, o, open, v);
    }
  }

  /** A revision is blocked exactly by a newer member of the family, whatever its state. */
  lemma BlockedIffNewer(r: Registry, id: SchemaId)
    requires r.Valid() && id in r.rows
    ensures RevisionBlockReason(r, id).Some? <==> exists o :: Newer(r, id, o)
  {
    if o :| Newer(r, id, o) {
      assert NewerAt(r, id, o, r.rows[o].state.Open(), r.rows[o].version);
      HigherElements(r, r.ids, id, r.rows[o].state.Open(), r.rows[o].version);
    }
    if RevisionBlockReason(r, id).Some? {
      var open := Higher(r, r.ids, id, false) == [];
      HigherElements(r, r.ids, id, open, Higher(r, r.ids, id, open)[0]);
    }
  }

  /** The reason names the highest version once released, or if there is none the lowest one
      still in the making. */
  lemma ReasonNames(r: Registry, id: SchemaId)
    requires r.Valid() && id in r.rows && RevisionBlockReason(r, id).Some?
    ensures match RevisionBlockReason(r, id).value
      case NotLatest(v) =>
        && (exists o :: NewerAt(r, id, o, false, v))
        && (forall o, w: nat :: NewerAt(r, id, o, false, w) ==> w <= v)
      case OpenRevision(v) =>
        && (exists o :: NewerAt(r, id, o, true, v))
        && (forall o, w: nat :: NewerAt(r, id, o, true, w) ==> v <= w)
        && (forall o, w: nat :: !NewerAt(r, id, o, false, w))
  {
    forall open, v: nat ensures v in Higher(r, r.ids, id, open) ==> exists o :: NewerAt(r, id, o, open, v) {
      HigherElements(r, r.ids, id, open, v);
    }
    forall o, open, w: nat | NewerAt(r, id, o, open, w) ensures w in Higher(r, r.ids, id, open) {
      assert o in r.ids;
      HigherElements(r, r.ids, id, open, w);
    }
  }

  // ---------------------------------------------------------------- steps

  datatype Event =
    | Register(id: SchemaId, version: nat)
    | Revise(base: SchemaId, id: SchemaId)
    | Advance(id: SchemaId, to: Lifecycle)

  /** An id nobody has or refers to. */
  ghost predicate Fresh(r: Registry, n: SchemaId) {
    n !in r.rows && forall x :: x in r.rows ==> r.rows[x].revisionOf != Some(n)
  }

  /** New processes and revisions get fresh ids; a revision needs a released base and no reason
      against it; the lifecycle only advances. */
  ghost predicate Enabled(r: Registry, e: Event) {
    match e
    case Register(id, _) => Fresh(r, id)
    case Revise(b, id) =>
      b in r.rows && r.rows[b].state == Released && RevisionBlockReason(r, b).None? && Fresh(r, id)
    case Advance(id, to) => id in r.rows && r.rows[id].state.Rank() <= to.Rank()
  }

  function Add(r: Registry, n: SchemaId, row: Row): Registry {
    Registry(r.ids + [n], r.rows[n := row])
  }

  /** A revision: the next version, in the making, revising its base. */
  function Revised(r: Registry, b: SchemaId, n: SchemaId): Registry
    requires b in r.rows
  {
    Add(r, n, Row(r.rows[b].version + 1, Draft, Some(b)))
  }

  function Step(r: Registry, e: Event): Registry
    requires Enabled(r, e)
  {
    match e
    case Register(id, version) => Add(r, id, Row(version, Draft, None))
    case Revise(b, id) => Revised(r, b, id)
    case Advance(id, to) => Registry(r.ids, r.rows[id := r.rows[id].(state := to)])
  }

  /** Two members of a family have different versions, and one still in the making is newer than
      every other and the only such one. */
  ghost predicate PairOk(r: Registry, a: SchemaId, b: SchemaId)
    requires a in r.rows && b in r.rows
  {
    a != b && SameFamily(r, a, b) ==>
      && r.rows[a].version != r.rows[b].version
      && (r.rows[a].state.Open() ==> !r.rows[b].state.Open() && r.rows[b].version < r.rows[a].version)
  }

  ghost predicate Families(r: Registry) {
    forall a, b :: a in r.rows && b in r.rows ==> PairOk(r, a, b)
  }

  /** The walk up does not depend on a row nobody refers to, nor on having seen it. */
  lemma {:induction false} RootKept(r: Registry, n: SchemaId, row: Row, cur: SchemaId, seen: set<SchemaId>, extra: bool)
    requires Fresh(r, n) && cur in r.rows && n !in seen
    ensures RootFrom(Add(r, n, row), cur, if extra then seen + {n} else seen) == RootFrom(r, cur, seen)
    decreases |r.rows.Keys - seen|
  {
    var r' := Add(r, n, row);
    assert r'.Base(cur) == r.Base(cur);
    match r.Base(cur)
    case None =>
    case Some(b) =>
      if b !in seen {
        assert r.rows.Keys - seen == (r.rows.Keys - (seen + {b})) + {b};
        RootKept(r, n, row, b, seen + {b}, extra);
        assert seen + {n} + {b} == seen + {b} + {n};
      }
  }

  /** A new row leaves all other families as they are and joins the family of its base. */
  lemma FamiliesAfterAdd(r: Registry, n: SchemaId, row: Row)
    requires Fresh(r, n) && (row.revisionOf.Some? ==> row.revisionOf.value in r.rows)
    ensures forall a :: a in r.rows ==> Root(Add(r, n, row), a) == Root(r, a)
    ensures Root(Add(r, n, row), n) == if row.revisionOf.Some? then Root(r, row.revisionOf.value) else n
  {
    forall a | a in r.rows ensures Root(Add(r, n, row), a) == Root(r, a) {
      RootKept(r, n, row, a, {a}, false);
    }
    if row.revisionOf.Some? {
      var b := row.revisionOf.value;
      RootKept(r, n, row, b, {b}, true);
      assert {n} + {b} == {b} + {n};
    }
  }

  /** The root of a known row is known. */
  lemma {:induction false} RootKnown(r: Registry, cur: SchemaId, seen: set<SchemaId>)
    requires cur in r.rows
    ensures RootFrom(r, cur, seen) in r.rows
    decreases |r.rows.Keys - seen|
  {
    match r.Base(cur)
    case None =>
    case Some(b) =>
      if b !in seen {
        assert r.rows.Keys - seen == (r.rows.Keys - (seen + {b})) + {b};
        RootKnown(r, b, seen + {b});
      }
  }

  /** A revision keeps the families in order if and only if no reason speaks against it. */
  lemma ReviseKeepsIff(r: Registry, b: SchemaId, n: SchemaId)
    requires r.Valid() && Families(r) && b in r.rows && r.rows[b].state == Released && Fresh(r, n)
    ensures Families(Revised(r, b, n)) <==> RevisionBlockReason(r, b).None?
  {
    var r' := Revised(r, b, n);
    FamiliesAfterAdd(r, n, r'.rows[n]);
    BlockedIffNewer(r, b);
    if RevisionBlockReason(r, b).None? {
      forall x, y | x in r'.rows && y in r'.rows ensures PairOk(r', x, y) {
        if x in r.rows && y in r.rows {
          assert PairOk(r, x, y);
        } else if x != y && SameFamily(r', x, y) {
          var z := if x == n then y else x;
          assert z in r.rows && SameFamily(r, z, b);
          assert !Newer(r, b, z);
          assert PairOk(r, z, b) && PairOk(r, b, z);
        }
      }
    } else {
      var o :| Newer(r, b, o);
      assert SameFamily(r', n, o);
      assert !PairOk(r', n, o);
    }
  }

  lemma RegisterKeeps(r: Registry, n: SchemaId, version: nat)
    requires Families(r) && Fresh(r, n)
    ensures Families(Add(r, n, Row(version, Draft, None)))
  {
    var r' := Add(r, n, Row(version, Draft, None));
    FamiliesAfterAdd(r, n, r'.rows[n]);
    forall x, y | x in r'.rows && y in r'.rows ensures PairOk(r', x, y) {
      if x in r.rows && y in r.rows {
        assert PairOk(r, x, y);
      } else if x in r.rows {
        RootKnown(r, x, {x});
      } else if y in r.rows {
        RootKnown(r, y, {y});
      }
    }
  }

  lemma {:induction false} RootIgnoresState(r: Registry, id: SchemaId, to: Lifecycle, cur: SchemaId,
      seen: set<SchemaId>)
    requires id in r.rows
    ensures RootFrom(Registry(r.ids, r.rows[id := r.rows[id].(state := to)]), cur, seen) == RootFrom(r, cur, seen)
    decreases |r.rows.Keys - seen|
  {
    var r' := Registry(r.ids, r.rows[id := r.rows[id].(state := to)]);
    assert r'.rows.Keys == r.rows.Keys;
    assert r'.Base(cur) == r.Base(cur);
    match r.Base(cur)
    case None =>
    case Some(b) =>
      if b !in seen {
        assert r.rows.Keys - seen == (r.rows.Keys - (seen + {b})) + {b};
        RootIgnoresState(r, id, to, b, seen + {b});
      }
  }

  lemma AdvanceKeeps(r: Registry, id: SchemaId, to: Lifecycle)
    requires Families(r) && Enabled(r, Advance(id, to))
    ensures Families(Step(r, Advance(id, to)))
  {
    var r' := Step(r, Advance(id, to));
    forall x, y | x in r'.rows && y in r'.rows ensures PairOk(r', x, y) {
      RootIgnoresState(r, id, to, x, {x});
      RootIgnoresState(r, id, to, y, {y});
      assert PairOk(r, x, y);
    }
  }

  lemma StepKeeps(r: Registry, e: Event)
    requires r.Valid() && Families(r) && Enabled(r, e)
    ensures Step(r, e).Valid() && Families(Step(r, e))
  {
    match e
    case Register(id, version) => RegisterKeeps(r, id, version);
    case Revise(b, id) => ReviseKeepsIff(r, b, id);
    case Advance(id, to) => AdvanceKeeps(r, id, to);
  }

  ghost predicate Runs(r: Registry, es: seq<Event>)
    decreases |es|
  {
    es == [] || (Enabled(r, es[0]) && Runs(Step(r, es[0]), es[1..]))
  }

  function After(r: Registry, es: seq<Event>): Registry
    requires Runs(r, es)
    decreases |es|
  {
    if es == [] then r else After(Step(r, es[0]), es[1..])
  }

  /** Over every run: the versions of a family are pairwise different, and at most one member of
      it is in the making, which is then its newest. */
  lemma {:induction false} AlwaysInOrder(r: Registry, es: seq<Event>)
    requires r.Valid() && Families(r) && Runs(r, es)
    ensures Families(After(r, es))
    decreases |es|
  {
    if es != [] {
      StepKeeps(r, es[0]);
      AlwaysInOrder(Step(r, es[0]), es[1..]);
    }
  }
}
