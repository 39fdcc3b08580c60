/** The org-unit tree as `orgUnitPanel` and `renderUnitNode` build it. */
module OrgTree {
  import opened Basics
  import opened OrgUnits

  /** The key under which the units without a known parent are indexed. */
  const ROOT := "__root__"

  ghost predicate Listed(h: Hierarchy) {
    h.Valid() && Distinct(h.ids)
  }

  /** The index key of a unit. */
  function Key(h: Hierarchy, u: UnitId): UnitId {
    match h.Parent(u) case None => ROOT case Some(p) => p
  }

  function KidsAmong(h: Hierarchy, ids: seq<UnitId>, key: UnitId): (r: seq<UnitId>) {
    if ids == [] then []
    else
      var u := ids[|ids| - 1];
      KidsAmong(h, ids[..|ids| - 1], key) + (if Key(h, u) == key then [u] else [])
  }

  /** The units indexed under `key`. */
  function Kids(h: Hierarchy, key: UnitId): seq<UnitId> {
    KidsAmong(h, h.ids, key)
  }

  lemma {:induction false} KidsElements(h: Hierarchy, ids: seq<UnitId>, key: UnitId)
    ensures forall u :: u in KidsAmong(h, ids, key) <==> u in ids && Key(h, u) == key
    ensures Distinct(ids) ==> Distinct(KidsAmong(h, ids, key))
  {
    if ids != [] {
      KidsElements(h, ids[..|ids| - 1], key);
      assert ids == ids[..|ids| - 1] + [ids[|ids| - 1]];
      var r := KidsAmong(h, ids[..|ids| - 1], key);
      assert forall i :: 0 <= i < |r| ==> r[i] in r;
    }
  }

  /** The index of the children of every key. */
  method IndexChildren(h: Hierarchy) returns (childrenOf: map<UnitId, seq<UnitId>>)
    ensures forall key :: (if key in childrenOf then childrenOf[key] else []) == Kids(h, key)
  {
    childrenOf := map[];
    for i := 0 to |h.ids|
      invariant forall key :: (if key in childrenOf then childrenOf[key] else []) == KidsAmong(h, h.ids[..i], key)
    {
      var p := Key(h, h.ids[i]);
      assert h.ids[..i + 1][..i] == h.ids[..i];
      childrenOf := childrenOf[p := (if p in childrenOf then childrenOf[p] else []) + [h.ids[i]]];
    }
    assert h.ids[..|h.ids|] == h.ids;
  }

  /** The units in the order in which the tree shows them, below the given siblings included;
      None if the recursion is deeper than `depth`. */
  function Render(h: Hierarchy, kids: seq<UnitId>, depth: nat): Option<seq<UnitId>>
    decreases depth, |kids|
  {
    if kids == [] then Some([])
    else if depth == 0 then None
    else
      var below := Render(h, Kids(h, kids[0]), depth - 1);
      var rest := Render(h, kids[1..], depth);
      if below.None? || rest.None? then None else Some([kids[0]] + below.value + rest.value)
  }

  /** The recursion ends, and the tree shows every unit exactly once and nothing else. */
  ghost predicate ShowsAll(h: Hierarchy) {
    exists depth: nat :: RendersAll(h, Render(h, Kids(h, ROOT), depth))
  }

  ghost predicate RendersAll(h: Hierarchy, r: Option<seq<UnitId>>) {
    r.Some? && forall u :: multiset(r.value)[u] == if u in h.parent then 1 else 0
  }

  // ---------------------------------------------------------------- levels

  /** `u` hangs `d` levels below the top: the way up ends after exactly `d` steps. */
  ghost predicate Level(h: Hierarchy, u: UnitId, d: nat) {
    d > 0 && h.Up(u, d).None? && h.Up(u, d - 1).Some?
  }

  ghost predicate HasLevel(h: Hierarchy, u: UnitId) {
    exists d: nat :: Level(h, u, d)
  }

  lemma {:induction false} UpPrefix(h: Hierarchy, u: UnitId, a: nat, b: nat)
    requires a <= b && h.Up(u, b).Some?
    ensures h.Up(u, a).Some?
  {
    UpSplit(h, u, a, b - a);
  }

  lemma LevelUnique(h: Hierarchy, u: UnitId, d: nat, e: nat)
    requires Level(h, u, d) && Level(h, u, e)
    ensures d == e
  {
    if d < e { UpPrefix(h, u, d, e - 1); }
    if e < d { UpPrefix(h, u, e, d - 1); }
  }

  /** `k` steps further up the level is `k` smaller. */
  lemma LevelAbove(h: Hierarchy, u: UnitId, d: nat, k: nat, c: UnitId)
    requires Level(h, u, d) && h.Up(u, k) == Some(c)
    ensures k < d && Level(h, c, d - k)
  {
    if k >= d { UpPrefix(h, u, d, k); }
    UpSplit(h, u, k, d - k);
    UpSplit(h, u, k, d - 1 - k);
  }

  lemma LevelBelow(h: Hierarchy, u: UnitId, d: nat, k: nat, c: UnitId)
    requires Level(h, c, d) && h.Up(u, k) == Some(c)
    ensures Level(h, u, d + k)
  {
    UpSplit(h, u, k, d);
    UpSplit(h, u, k, d - 1);
  }

  /** The first `n` units on the way up from `u`. */
  ghost function Way(h: Hierarchy, u: UnitId, n: nat): (w: seq<UnitId>)
    requires n == 0 || h.Up(u, n - 1).Some?
    ensures |w| == n
  {
    if n == 0 then []
    else
      assert n > 1 ==> h.Up(u, n - 2).Some? by { if n > 1 { UpPrefix(h, u, n - 2, n - 1); } }
      Way(h, u, n - 1) + [h.Up(u, n - 1).value]
  }

  lemma {:induction false} WayAt(h: Hierarchy, u: UnitId, n: nat, i: nat)
    requires i < n && h.Up(u, n - 1).Some?
    ensures h.Up(u, i) == Some(Way(h, u, n)[i]) && Way(h, u, n)[i] in h.parent
  {
    UpPrefix(h, u, i, n - 1);
    UpKnown(h, u, i);
    if i < n - 1 {
      UpPrefix(h, u, n - 2, n - 1);
      WayAt(h, u, n - 1, i);
    }
  }

  /** A way up longer than the number of units comes back to where it was. */
  lemma LongWayRepeats(h: Hierarchy, u: UnitId, n: nat)
    requires n > |h.parent| && h.Up(u, n - 1).Some?
    ensures !h.Acyclic()
  {
    var w := Way(h, u, n);
    forall i | 0 <= i < n ensures h.Up(u, i) == Some(w[i]) && w[i] in h.parent {
      WayAt(h, u, n, i);
    }
    if Distinct(w) {
      DistinctCard(w);
      assert (set x | x in w) <= h.parent.Keys;
      SubsetCard((set x | x in w), h.parent.Keys);
    } else {
      var i, j :| 0 <= i < j < n && w[i] == w[j];
      UpSplit(h, u, i, j - i);
      assert h.Up(w[i], j - i) == Some(w[i]);
    }
  }

  /** Every level is at most the number of units. */
  lemma LevelBound(h: Hierarchy, u: UnitId, d: nat)
    requires Level(h, u, d)
    ensures d <= |h.parent|
  {
    var w := Way(h, u, d);
    forall i | 0 <= i < d ensures h.Up(u, i) == Some(w[i]) && w[i] in h.parent {
      WayAt(h, u, d, i);
    }
    forall i, j | 0 <= i < j < d ensures w[i] != w[j] {
      LevelAbove(h, u, d, i, w[i]);
      LevelAbove(h, u, d, j, w[j]);
      if w[i] == w[j] {
        LevelUnique(h, w[i], d - i, d - j);
      }
    }
    DistinctCard(w);
    assert (set x | x in w) <= h.parent.Keys;
    SubsetCard((set x | x in w), h.parent.Keys);
  }

  /** The end of the way up, if it comes within `n` steps. */
  lemma {:induction false} FindLevel(h: Hierarchy, u: UnitId, n: nat) returns (d: nat)
    requires h.Up(u, n).None? && u in h.parent
    ensures Level(h, u, d)
  {
    if n > 0 && h.Up(u, n - 1).Some? {
      d := n;
    } else if n > 0 {
      d := FindLevel(h, u, n - 1);
    }
  }

  /** Without cycles every unit has a level, and the other way round. */
  lemma AcyclicIffLevels(h: Hierarchy)
    ensures h.Acyclic() <==> forall u :: u in h.parent ==> HasLevel(h, u)
  {
    if h.Acyclic() {
      forall u | u in h.parent ensures HasLevel(h, u) {
        if h.Up(u, |h.parent|).Some? {
          LongWayRepeats(h, u, |h.parent| + 1);
        }
        var d := FindLevel(h, u, |h.parent|);
      }
    } else {
      var u, k: nat :| u in h.parent && k > 0 && h.Up(u, k) == Some(u);
      if HasLevel(h, u) {
        var d: nat :| Level(h, u, d);
        LevelAbove(h, u, d, k, u);
        LevelUnique(h, u, d, d - k);
      }
    }
  }

  // ---------------------------------------------------------------- what the tree shows

  /** `u` is one of `kids` or hangs below one. */
  ghost predicate Shown(h: Hierarchy, kids: seq<UnitId>, u: UnitId) {
    exists i, k: nat :: 0 <= i < |kids| && h.Up(u, k) == Some(kids[i])
  }

  ghost predicate AllAtLevel(h: Hierarchy, kids: seq<UnitId>, d: nat) {
    forall i :: 0 <= i < |kids| ==> Level(h, kids[i], d)
  }

  /** On one level `u` hangs below at most one unit, and at one distance. */
  lemma OneAncestor(h: Hierarchy, u: UnitId, d: nat, c1: UnitId, k1: nat, c2: UnitId, k2: nat)
    requires Level(h, c1, d) && Level(h, c2, d) && h.Up(u, k1) == Some(c1) && h.Up(u, k2) == Some(c2)
    ensures k1 == k2 && c1 == c2
  {
    LevelBelow(h, u, d, k1, c1);
    LevelBelow(h, u, d, k2, c2);
    LevelUnique(h, u, d + k1, d + k2);
  }

  lemma IsKid(h: Hierarchy, u: UnitId, key: UnitId)
    requires h.Valid() && u in h.parent && Key(h, u) == key
    ensures exists i :: 0 <= i < |Kids(h, key)| && Kids(h, key)[i] == u
  {
    KidsElements(h, h.ids, key);
    assert u in Kids(h, key);
  }

  lemma KidAt(h: Hierarchy, key: UnitId, i: nat)
    requires h.Valid() && i < |Kids(h, key)|
    ensures Kids(h, key)[i] in h.parent && Key(h, Kids(h, key)[i]) == key
  {
    KidsElements(h, h.ids, key);
    assert Kids(h, key)[i] in Kids(h, key);
  }

  lemma KidsDistinct(h: Hierarchy, key: UnitId)
    requires Listed(h)
    ensures Distinct(Kids(h, key))
  {
    KidsElements(h, h.ids, key);
  }

  lemma KidsOneLevelDown(h: Hierarchy, c: UnitId, d: nat)
    requires h.Valid() && ROOT !in h.parent && Level(h, c, d)
    ensures AllAtLevel(h, Kids(h, c), d + 1)
  {
    UpKnown(h, c, 0);
    forall i | 0 <= i < |Kids(h, c)| ensures Level(h, Kids(h, c)[i], d + 1) {
      KidAt(h, c, i);
      assert h.Up(Kids(h, c)[i], 1) == Some(c);
      LevelBelow(h, Kids(h, c)[i], d, 1, c);
    }
  }

  lemma KidsShow(h: Hierarchy, c: UnitId, u: UnitId)
    requires h.Valid() && ROOT !in h.parent && c in h.parent
    ensures Shown(h, Kids(h, c), u) <==> exists k: nat :: k > 0 && h.Up(u, k) == Some(c)
  {
    if Shown(h, Kids(h, c), u) {
      var i, k: nat :| 0 <= i < |Kids(h, c)| && h.Up(u, k) == Some(Kids(h, c)[i]);
      KidAt(h, c, i);
      UpSplit(h, u, k, 1);
      assert h.Up(u, k + 1) == Some(c);
    }
    if k: nat :| k > 0 && h.Up(u, k) == Some(c) {
      UpPrefix(h, u, k - 1, k);
      UpSplit(h, u, k - 1, 1);
      UpKnown(h, u, k - 1);
      IsKid(h, h.Up(u, k - 1).value, c);
    }
  }

  ghost function Bit(b: bool): nat {
    if b then 1 else 0
  }

  /** Below units of one level the recursion ends, and it shows everything there once. */
  lemma {:induction false} RenderShows(h: Hierarchy, kids: seq<UnitId>, d: nat, depth: nat)
    requires Listed(h) && ROOT !in h.parent && AllAtLevel(h, kids, d) && Distinct(kids)
    requires depth + d > |h.parent|
    ensures Render(h, kids, depth).Some?
    ensures forall u :: multiset(Render(h, kids, depth).value)[u] == Bit(Shown(h, kids, u))
    decreases depth, |kids|
  {
    if kids == [] {
      assert forall u :: !Shown(h, kids, u);
    } else {
      var c, rest := kids[0], kids[1..];
      LevelBound(h, c, d);
      KidsOneLevelDown(h, c, d);
      KidsDistinct(h, c);
      RenderShows(h, Kids(h, c), d + 1, depth - 1);
      RenderShows(h, rest, d, depth);
      var r := Render(h, kids, depth).value;
      var below, after := Render(h, Kids(h, c), depth - 1).value, Render(h, rest, depth).value;
      forall u ensures multiset(r)[u] == Bit(Shown(h, kids, u)) {
        assert multiset(r)[u] == Bit(u == c) + Bit(Shown(h, Kids(h, c), u)) + Bit(Shown(h, rest, u));
        ShownOnce(h, kids, d, u);
      }
    }
  }

  lemma ShownOnce(h: Hierarchy, kids: seq<UnitId>, d: nat, u: UnitId)
    requires Listed(h) && ROOT !in h.parent && AllAtLevel(h, kids, d) && Distinct(kids) && kids != []
    ensures Bit(Shown(h, kids, u)) ==
            Bit(u == kids[0]) + Bit(Shown(h, Kids(h, kids[0]), u)) + Bit(Shown(h, kids[1..], u))
  {
    var c, rest := kids[0], kids[1..];
    UpKnown(h, c, 0);
    KidsShow(h, c, u);
    if u == c || Shown(h, Kids(h, c), u) {
      var k: nat :| h.Up(u, k) == Some(c) && (k == 0 <==> u == c) by {
        if u == c {
          assert h.Up(u, 0) == Some(c);
          if k: nat :| k > 0 && h.Up(u, k) == Some(c) {
            OneAncestor(h, u, d, c, 0, c, k);
          }
        } else {
          assert h.Up(u, 0) != Some(c);
        }
      }
      assert Shown(h, kids, u);
      if Shown(h, rest, u) {
        var i, k': nat :| 0 <= i < |rest| && h.Up(u, k') == Some(rest[i]);
        assert kids[i + 1] == rest[i];
        OneAncestor(h, u, d, c, k, rest[i], k');
      }
      if u == c && Shown(h, Kids(h, c), u) {
        var k': nat :| k' > 0 && h.Up(u, k') == Some(c);
        OneAncestor(h, u, d, c, k, c, k');
      }
    } else {
      ShownCases(h, kids, u);
    }
  }

  lemma ShownCases(h: Hierarchy, kids: seq<UnitId>, u: UnitId)
    requires h.Valid() && ROOT !in h.parent && kids != [] && kids[0] in h.parent
    ensures Shown(h, kids, u) ==> u == kids[0] || Shown(h, Kids(h, kids[0]), u) || Shown(h, kids[1..], u)
    ensures Shown(h, kids[1..], u) ==> Shown(h, kids, u)
  {
    if Shown(h, kids, u) {
      var i, k: nat :| 0 <= i < |kids| && h.Up(u, k) == Some(kids[i]);
      if i > 0 {
        var rest := kids[1..];
        assert h.Up(u, k) == Some(rest[i - 1]);
        assert Shown(h, rest, u);
      } else if k > 0 {
        KidsShow(h, kids[0], u);
        assert k > 0 && h.Up(u, k) == Some(kids[0]);
        assert exists k: nat :: k > 0 && h.Up(u, k) == Some(kids[0]);
      }
    }
    if Shown(h, kids[1..], u) {
      var i, k: nat :| 0 <= i < |kids[1..]| && h.Up(u, k) == Some(kids[1..][i]);
      assert kids[i + 1] == kids[1..][i];
    }
  }

  /** A unit is shown somewhere in the tree exactly if it has a level. */
  lemma RootsShow(h: Hierarchy, u: UnitId)
    requires h.Valid() && ROOT !in h.parent
    ensures Shown(h, Kids(h, ROOT), u) <==> HasLevel(h, u)
  {
    RootsOnTop(h);
    if Shown(h, Kids(h, ROOT), u) {
      var i, k: nat :| 0 <= i < |Kids(h, ROOT)| && h.Up(u, k) == Some(Kids(h, ROOT)[i]);
      LevelBelow(h, u, 1, k, Kids(h, ROOT)[i]);
    }
    if d: nat :| Level(h, u, d) {
      UpSplit(h, u, d - 1, 1);
      UpKnown(h, u, d - 1);
      IsKid(h, h.Up(u, d - 1).value, ROOT);
    }
  }

  lemma RootsOnTop(h: Hierarchy)
    requires h.Valid() && ROOT !in h.parent
    ensures AllAtLevel(h, Kids(h, ROOT), 1)
  {
    forall i | 0 <= i < |Kids(h, ROOT)| ensures Level(h, Kids(h, ROOT)[i], 1) {
      KidAt(h, ROOT, i);
      assert h.Up(Kids(h, ROOT)[i], 0).Some? && h.Up(Kids(h, ROOT)[i], 1).None?;
    }
  }

  /** Where the recursion ends, the depth allowed for it does not matter. */
  lemma {:induction false} DepthIrrelevant(h: Hierarchy, kids: seq<UnitId>, a: nat, b: nat)
    requires Render(h, kids, a).Some? && Render(h, kids, b).Some?
    ensures Render(h, kids, a) == Render(h, kids, b)
    decreases a, |kids|
  {
    if kids != [] {
      DepthIrrelevant(h, Kids(h, kids[0]), a - 1, b - 1);
      DepthIrrelevant(h, kids[1..], a, b);
    }
  }

  /** What a unit in the drawing shows below itself is a proper part of the drawing. */
  lemma {:induction false} PartOfDrawing(h: Hierarchy, kids: seq<UnitId>, depth: nat, x: UnitId) returns (below: nat)
    requires Render(h, kids, depth).Some? && x in Render(h, kids, depth).value
    ensures Render(h, Kids(h, x), below).Some? && |Render(h, Kids(h, x), below).value| < |Render(h, kids, depth).value|
    decreases depth, |kids|
  {
    if x == kids[0] {
      below := depth - 1;
    } else if x in Render(h, Kids(h, kids[0]), depth - 1).value {
      below := PartOfDrawing(h, Kids(h, kids[0]), depth - 1, x);
    } else {
      below := PartOfDrawing(h, kids[1..], depth, x);
    }
  }

  /** Without a unit called like the key of the top level the recursion always ends, cycles
      or not, and shows every unit that has a level exactly once. */
  lemma RenderEnds(h: Hierarchy)
    requires Listed(h) && ROOT !in h.parent
    ensures
      var r := Render(h, Kids(h, ROOT), |h.parent|);
      r.Some? && forall u :: multiset(r.value)[u] == Bit(HasLevel(h, u))
  {
    RootsOnTop(h);
    KidsDistinct(h, ROOT);
    RenderShows(h, Kids(h, ROOT), 1, |h.parent|);
    forall u ensures Shown(h, Kids(h, ROOT), u) <==> HasLevel(h, u) {
      RootsShow(h, u);
    }
  }

  lemma RootNameSpoils(h: Hierarchy)
    requires ROOT in h.parent
    ensures !ShowsAll(h)
  {
    if ShowsAll(h) {
      var depth: nat :| RendersAll(h, Render(h, Kids(h, ROOT), depth));
      assert multiset(Render(h, Kids(h, ROOT), depth).value)[ROOT] == 1;
      assert ROOT in Render(h, Kids(h, ROOT), depth).value;
      var below := PartOfDrawing(h, Kids(h, ROOT), depth, ROOT);
      DepthIrrelevant(h, Kids(h, ROOT), depth, below);
    }
  }

  lemma LevelKnown(h: Hierarchy, u: UnitId)
    requires HasLevel(h, u)
    ensures u in h.parent
  {
    var d: nat :| Level(h, u, d);
    UpKnown(h, u, d - 1);
  }

  lemma ShowsAllIffLevels(h: Hierarchy)
    requires Listed(h) && ROOT !in h.parent
    ensures ShowsAll(h) <==> forall u :: u in h.parent ==> HasLevel(h, u)
  {
    RenderEnds(h);
    var r := Render(h, Kids(h, ROOT), |h.parent|);
    forall u ensures multiset(r.value)[u] == Bit(HasLevel(h, u)) && (HasLevel(h, u) ==> u in h.parent) {
      if HasLevel(h, u) {
        LevelKnown(h, u);
      }
    }
    if ShowsAll(h) {
      var depth: nat :| RendersAll(h, Render(h, Kids(h, ROOT), depth));
      DepthIrrelevant(h, Kids(h, ROOT), depth, |h.parent|);
      forall u | u in h.parent ensures HasLevel(h, u) {
        assert multiset(r.value)[u] == 1;
      }
    } else if forall u :: u in h.parent ==> HasLevel(h, u) {
      assert RendersAll(h, r);
    }
  }

  /** The tree shows every unit exactly once if and only if the parents have no cycle and no
      unit is called like the key of the top level. */
  lemma TreeShowsAll(h: Hierarchy)
    requires Listed(h)
    ensures ShowsAll(h) <==> h.Acyclic() && ROOT !in h.parent
  {
    if ROOT in h.parent {
      RootNameSpoils(h);
    } else {
      AcyclicIffLevels(h);
      ShowsAllIffLevels(h);
    }
  }

  /** A single top-level unit of that name is its own child in the index, and the recursion
      never ends. */
  lemma RootNameNeverEnds(depth: nat)
    ensures
      var h := Hierarchy([ROOT], map[ROOT := None]);
      h.Acyclic() && Render(h, Kids(h, ROOT), depth).None?
  {
    var h := Hierarchy([ROOT], map[ROOT := None]);
    assert h.Parent(ROOT) == None;
    assert h.ids[..0] == [] && KidsAmong(h, [], ROOT) == [];
    assert Kids(h, ROOT) == [ROOT];
    assert [ROOT][1..] == [];
    if depth > 0 {
      RootNameNeverEnds(depth - 1);
    }
  }
}
