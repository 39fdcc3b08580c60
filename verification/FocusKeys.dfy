/** Finding a focus target again after the content was drawn anew.

    A key remembers row, list and label of the target, its place among those of the same label and
    its place among all of the row. The page is given element by element, so that the target found
    can be compared with the one remembered by where the two stand. */
module FocusKeys {
  import opened Basics

  /** An element of the content: its parent, what identifies rows and lists, its label, whether
      it can take the focus and whether it is disabled. */
  datatype Element = Element(parent: nat, row: Option<string>, region: Option<string>, caption: string,
                             focusable: bool, disabled: bool)

  /** The elements in document order; the first one is the content area itself. */
  type Page = seq<Element>

  ghost predicate Tree(d: Page) {
    d != [] && forall i :: 0 < i < |d| ==> d[i].parent < i
  }

  /** `i` lies below `scope`. */
  predicate Below(d: Page, i: nat, scope: nat)
    decreases i
  {
    && 0 < i < |d| && d[i].parent < i
    && (d[i].parent == scope || Below(d, d[i].parent, scope))
  }

  /** Nearest element from `i` upwards, short of the content area, that is a row. */
  function RowOf(d: Page, i: nat): Option<nat>
    decreases i
  {
    if i == 0 || i >= |d| then None
    else if d[i].row.Some? then Some(i)
    else if d[i].parent < i then RowOf(d, d[i].parent)
    else None
  }

  function RegionOf(d: Page, i: nat): Option<string>
    decreases i
  {
    if i == 0 || i >= |d| then None
    else if d[i].region.Some? then d[i].region
    else if d[i].parent < i then RegionOf(d, d[i].parent)
    else None
  }

  // ---------------------------------------------------------------- lists of targets

  function Filter(s: seq<nat>, p: nat -> bool): (r: seq<nat>)
    ensures |r| <= |s|
  {
    if s == [] then []
    else Filter(s[..|s| - 1], p) + (if p(s[|s| - 1]) then [s[|s| - 1]] else [])
  }

  function UpTo(n: nat): (r: seq<nat>)
    ensures |r| == n && forall i :: 0 <= i < n ==> r[i] == i
  {
    seq(n, i => i)
  }

  function IsTarget(d: Page, scope: nat): nat -> bool {
    (i: nat) => Below(d, i, scope) && d[i].focusable && d[i].region.None?
  }

  function Usable(d: Page): nat -> bool {
    (i: nat) => i < |d| && !d[i].disabled
  }

  function HasLabel(d: Page, caption: string): nat -> bool {
    (i: nat) => i < |d| && d[i].caption == caption
  }

  /** The focus targets below `scope` in document order. */
  function FocusablesIn(d: Page, scope: nat): seq<nat> {
    Filter(UpTo(|d|), IsTarget(d, scope))
  }

  /** Place of the first occurrence, or 0 if there is none. */
  function Place(s: seq<nat>, n: nat): (k: nat)
    ensures n in s ==> k < |s| && s[k] == n
    ensures n !in s ==> k == 0
  {
    if n in s then (if s[0] == n then 0 else 1 + Place(s[1..], n)) else 0
  }

  datatype FocusKey = FocusKey(row: Option<string>, region: Option<string>, caption: string, nth: nat, pos: nat)

  function Scope(d: Page, n: nat): nat {
    match RowOf(d, n) case None => 0 case Some(r) => r
  }

  lemma RowIsRow(d: Page, i: nat)
    requires RowOf(d, i).Some?
    ensures 0 < RowOf(d, i).value < |d| && d[RowOf(d, i).value].row.Some?
  {
  }

  /** How `n` is remembered: row, list, label, number among its twins and place in the row. */
  function FocusKeyOf(d: Page, n: nat): Option<FocusKey> {
    if n == 0 || n >= |d| then None
    else
      var r := RowOf(d, n);
      var all := FocusablesIn(d, Scope(d, n));
      Some(FocusKey(if r.Some? && r.value < |d| then d[r.value].row else None, RegionOf(d, n), d[n].caption,
                    Place(Filter(all, HasLabel(d, d[n].caption)), n), Place(all, n)))
  }

  /** The entry at `k`, or the last one if there are fewer. */
  function AtMost(s: seq<nat>, k: nat): (r: Option<nat>)
    ensures r.None? <==> s == []
    ensures r.Some? ==> r.value in s
  {
    if s == [] then None else Some(s[if k < |s| then k else |s| - 1])
  }

  function Pick(d: Page, scope: nat, key: FocusKey): Option<nat> {
    AtMost(Filter(Filter(FocusablesIn(d, scope), Usable(d)), HasLabel(d, key.caption)), key.nth)
  }

  /** First element from `i` on whose row key is `k`. */
  function FindRow(d: Page, k: string, i: nat): (r: Option<nat>)
    ensures r.Some? ==> i <= r.value < |d| && d[r.value].row == Some(k)
    ensures r.Some? ==> forall j :: i <= j < r.value ==> d[j].row != Some(k)
    ensures r.None? ==> forall j :: i <= j < |d| ==> d[j].row != Some(k)
    decreases |d| - i
  {
    if i >= |d| then None else if d[i].row == Some(k) then Some(i) else FindRow(d, k, i + 1)
  }

  function FindRegion(d: Page, k: string, i: nat): (r: Option<nat>)
    ensures r.Some? ==> i <= r.value < |d| && d[r.value].region == Some(k)
    ensures r.Some? ==> forall j :: i <= j < r.value ==> d[j].region != Some(k)
    ensures r.None? ==> forall j :: i <= j < |d| ==> d[j].region != Some(k)
    decreases |d| - i
  {
    if i >= |d| then None else if d[i].region == Some(k) then Some(i) else FindRegion(d, k, i + 1)
  }

  /** The target in the row or, for targets outside rows, in the whole content. */
  function Hit(d: Page, key: FocusKey): Option<nat> {
    match key.row
    case None => Pick(d, 0, key)
    case Some(k) =>
      match FindRow(d, k, 1)
      case None => None
      case Some(r) =>
        var p := Pick(d, r, key);
        if p.Some? then p else AtMost(Filter(FocusablesIn(d, r), Usable(d)), key.pos)
  }

  /** Where the focus goes: the target, else the list, else the content area. */
  function Restored(d: Page, key: FocusKey): nat {
    match Hit(d, key)
    case Some(n) => n
    case None =>
      match (match key.region case None => None case Some(k) => FindRegion(d, k, 1))
      case Some(g) => g
      case None => 0
  }

  /** The document with its focus. */
  class Focus {
    const d: Page
    var focused: Option<nat>
    var tabbable: set<nat>

    constructor (d: Page)
      ensures this.d == d && focused == None && tabbable == {}
    {
      this.d := d;
      focused, tabbable := None, {};
    }

    method RestoreFocusKey(key: Option<FocusKey>) returns (r: Option<nat>)
      modifies this
      ensures key.None? ==> r.None? && focused == old(focused) && tabbable == old(tabbable)
      ensures key.Some? ==> r == Some(Restored(d, key.value)) && focused == r
      ensures key.Some? ==>
        tabbable == old(tabbable) + (if Hit(d, key.value).Some? then {} else {Restored(d, key.value)})
    {
      if key.None? {
        return None;
      }
      var hit := Hit(d, key.value);
      if hit.Some? {
        focused := hit;
        return hit;
      }
      var region := if key.value.region.None? then None else FindRegion(d, key.value.region.value, 1);
      var target := if region.Some? then region.value else 0;
      tabbable := tabbable + {target};
      focused := Some(target);
      r := focused;
    }
  }

  // ---------------------------------------------------------------- lemmas on lists

  lemma {:induction false} FilterElements(s: seq<nat>, p: nat -> bool)
    ensures forall x :: x in Filter(s, p) <==> x in s && p(x)
  {
    if s != [] {
      var init, last := s[..|s| - 1], s[|s| - 1];
      FilterElements(init, p);
      assert s == init + [last];
      forall x ensures x in Filter(s, p) <==> x in s && p(x) {
        assert x in s <==> x in init || x == last;
        assert x in Filter(s, p) <==> x in Filter(init, p) || (x == last && p(last));
      }
    }
  }

  lemma {:induction false} FiltersCommute(s: seq<nat>, p: nat -> bool, q: nat -> bool)
    ensures Filter(Filter(s, p), q) == Filter(Filter(s, q), p)
  {
    if s != [] {
      var init, last := s[..|s| - 1], s[|s| - 1];
      FiltersCommute(init, p, q);
      FilterAppend(Filter(init, p), last, q);
      FilterAppend(Filter(init, q), last, p);
      assert Filter(s, p) == if p(last) then Filter(init, p) + [last] else Filter(init, p);
      assert Filter(s, q) == if q(last) then Filter(init, q) + [last] else Filter(init, q);
    }
  }

  lemma FilterAppend(s: seq<nat>, x: nat, p: nat -> bool)
    ensures Filter(s + [x], p) == Filter(s, p) + (if p(x) then [x] else [])
  {
    assert (s + [x])[..|s|] == s;
  }

  lemma {:induction false} FilterDistinct(s: seq<nat>, p: nat -> bool)
    requires Distinct(s)
    ensures Distinct(Filter(s, p))
  {
    if s != [] {
      var init := s[..|s| - 1];
      FilterDistinct(init, p);
      FilterElements(init, p);
      assert s[|s| - 1] !in init;
      var f := Filter(init, p);
      assert forall i :: 0 <= i < |f| ==> f[i] in f;
    }
  }

  /** How many entries before the `k`-th pass the filter. */
  ghost function Passed(s: seq<nat>, p: nat -> bool, k: nat): (n: nat)
    requires k <= |s|
    ensures n <= k
  {
    |Filter(s[..k], p)|
  }

  ghost predicate AllBefore(s: seq<nat>, p: nat -> bool, k: nat) {
    k <= |s| && forall i :: 0 <= i < k ==> p(s[i])
  }

  ghost predicate NoneAfter(s: seq<nat>, p: nat -> bool, k: nat) {
    forall i :: k < i < |s| ==> !p(s[i])
  }

  /** The `k`-th entry, if it passes, comes after those passed before it; it keeps its place if
      all before it pass, and it is the last if none after it does. */
  lemma {:induction false} FilterAt(s: seq<nat>, p: nat -> bool, k: nat)
    requires k < |s| && p(s[k])
    ensures Passed(s, p, k) < |Filter(s, p)| && Filter(s, p)[Passed(s, p, k)] == s[k]
    ensures Passed(s, p, k) == k <==> AllBefore(s, p, k)
    ensures Passed(s, p, k) == |Filter(s, p)| - 1 <==> NoneAfter(s, p, k)
  {
    var init, last := s[..|s| - 1], s[|s| - 1];
    if k == |s| - 1 {
      AllPass(init, p);
    } else {
      FilterAt(init, p, k);
      assert init[..k] == s[..k];
      assert forall i :: 0 <= i < |init| ==> init[i] == s[i];
    }
  }

  lemma {:induction false} AllPass(s: seq<nat>, p: nat -> bool)
    ensures |Filter(s, p)| == |s| <==> forall i :: 0 <= i < |s| ==> p(s[i])
  {
    if s != [] {
      AllPass(s[..|s| - 1], p);
    }
  }

  /** Taking the entry at its old place, or the last one, from those that pass finds `n` again
      exactly if all before it pass or none after it does. */
  lemma FoundAgain(s: seq<nat>, p: nat -> bool, n: nat)
    requires Distinct(s) && n in s && p(n)
    ensures
      var k := Place(s, n);
      AtMost(Filter(s, p), k) == Some(n) <==> AllBefore(s, p, k) || NoneAfter(s, p, k)
  {
    var k := Place(s, n);
    FilterAt(s, p, k);
    FilterDistinct(s, p);
    SameEntry(Filter(s, p), Passed(s, p, k), k);
  }

  lemma SameEntry(s: seq<nat>, j: nat, k: nat)
    requires Distinct(s) && j < |s| && j <= k
    ensures AtMost(s, k) == Some(s[j]) <==> j == k || j == |s| - 1
  {
    var m := if k < |s| then k else |s| - 1;
    assert s[m] == s[j] <==> m == j;
  }

  // ---------------------------------------------------------------- round trip

  /** The targets with the same label as `n` in its row or, outside rows, in the content. */
  ghost function Twins(d: Page, n: nat): seq<nat>
    requires n < |d|
  {
    Filter(FocusablesIn(d, Scope(d, n)), HasLabel(d, d[n].caption))
  }

  /** `n` is the first row of its key, so that its key finds it. */
  ghost predicate RowFound(d: Page, n: nat) {
    match RowOf(d, n)
    case None => true
    case Some(r) => r < |d| && forall j :: 0 < j < |d| && d[j].row == d[r].row ==> r <= j
  }

  lemma TwinsDistinct(d: Page, n: nat)
    requires n < |d|
    ensures Distinct(Twins(d, n))
  {
    var scope := Scope(d, n);
    FilterDistinct(UpTo(|d|), IsTarget(d, scope));
    FilterDistinct(FocusablesIn(d, scope), HasLabel(d, d[n].caption));
  }

  /** The twins include `n`, and those that are usable are what is picked from. */
  lemma PickFromTwins(d: Page, n: nat, key: FocusKey)
    requires n < |d| && key.caption == d[n].caption && n in FocusablesIn(d, Scope(d, n))
    ensures n in Twins(d, n)
    ensures Pick(d, Scope(d, n), key) == AtMost(Filter(Twins(d, n), Usable(d)), key.nth)
  {
    var all := FocusablesIn(d, Scope(d, n));
    FilterElements(all, HasLabel(d, d[n].caption));
    FiltersCommute(all, Usable(d), HasLabel(d, d[n].caption));
  }

  /** Some twin is left to pick as long as one is enabled. */
  lemma SomeTwinLeft(d: Page, n: nat)
    requires n < |d| && n in Twins(d, n) && !d[n].disabled
    ensures Filter(Twins(d, n), Usable(d)) != []
  {
    FilterElements(Twins(d, n), Usable(d));
    assert n in Filter(Twins(d, n), Usable(d));
  }

  /** On unchanged content a target in a row whose key is not taken by an earlier row, or outside
      rows, is found again if and only if it is enabled and either no twin before it is disabled
      or it is the last enabled one of them. */
  lemma RoundTrip(d: Page, n: nat)
    requires Tree(d) && 0 < n < |d| && n in FocusablesIn(d, Scope(d, n)) && RowFound(d, n)
    ensures FocusKeyOf(d, n).Some? && n in Twins(d, n)
    ensures
      var twins, k := Twins(d, n), Place(Twins(d, n), n);
      Restored(d, FocusKeyOf(d, n).value) == n <==>
        && !d[n].disabled
        && (AllBefore(twins, Usable(d), k) || NoneAfter(twins, Usable(d), k))
  {
    var key := FocusKeyOf(d, n).value;
    PickFromTwins(d, n, key);
    KeyFindsScope(d, n);
    if d[n].disabled {
      FilterElements(UpTo(|d|), IsTarget(d, Scope(d, n)));
      NeverDisabled(d, key, n);
    } else {
      SomeTwinLeft(d, n);
      TwinsDistinct(d, n);
      FoundAgain(Twins(d, n), Usable(d), n);
      assert Hit(d, key) == Pick(d, Scope(d, n), key);
    }
  }

  /** The key of a target leads back to its own row or to the whole content. */
  lemma KeyFindsScope(d: Page, n: nat)
    requires Tree(d) && 0 < n < |d| && RowFound(d, n)
    ensures
      var key := FocusKeyOf(d, n).value;
      if RowOf(d, n).Some? then key.row.Some? && FindRow(d, key.row.value, 1) == Some(Scope(d, n))
      else key.row.None? && Scope(d, n) == 0
  {
    if RowOf(d, n).Some? {
      RowIsRow(d, n);
    }
  }

  /** A disabled element, not itself a list, is never the result. */
  lemma NeverDisabled(d: Page, key: FocusKey, n: nat)
    requires 0 < n < |d| && d[n].disabled && d[n].region.None?
    ensures Restored(d, key) != n
  {
    if Hit(d, key) == Some(n) {
      HitIsUsable(d, key);
    }
  }

  /** Where a key looks for its target: its row, if it still exists, or the whole content. */
  function KeyScope(d: Page, key: FocusKey): nat {
    match key.row
    case None => 0
    case Some(k) => match FindRow(d, k, 1) case None => 0 case Some(r) => r
  }

  lemma HitIsUsable(d: Page, key: FocusKey)
    requires Hit(d, key).Some?
    ensures
      var n := Hit(d, key).value;
      Below(d, n, KeyScope(d, key)) && d[n].focusable && !d[n].disabled
  {
    var scope := KeyScope(d, key);
    var all := FocusablesIn(d, scope);
    FilterElements(UpTo(|d|), IsTarget(d, scope));
    FilterElements(all, Usable(d));
    FilterElements(Filter(all, Usable(d)), HasLabel(d, key.caption));
  }

  /** On any content, changed or not, a target from a row is restored only to something below a row
      of the same key, to its list, or to the content area, and never to a disabled target. */
  lemma BelowSameKey(d: Page, d': Page, n: nat)
    requires Tree(d) && Tree(d') && 0 < n < |d| && RowOf(d, n).Some?
    ensures
      var key := FocusKeyOf(d, n).value;
      var to := Restored(d', key);
      && key.row.Some? && to < |d'|
      && (|| (exists r :: 0 < r < |d'| && d'[r].row == key.row && Below(d', to, r) && !d'[to].disabled)
          || (key.region.Some? && to > 0 && d'[to].region == key.region)
          || to == 0)
  {
    RowIsRow(d, n);
    var key := FocusKeyOf(d, n).value;
    if Hit(d', key).Some? {
      HitIsUsable(d', key);
      var r := FindRow(d', key.row.value, 1).value;
      assert d'[r].row == key.row;
    }
  }

  /** No row and no list lies below a row, and no row is a list, as in all views that name rows. */
  ghost predicate Flat(d: Page) {
    && (forall r :: 0 < r < |d| && d[r].row.Some? ==> d[r].region.None?)
    && (forall i: nat, r: nat {:trigger Below(d, i, r)} ::
          0 < r < |d| && d[r].row.Some? && Below(d, i, r) ==> d[i].row.None? && d[i].region.None?)
  }

  lemma {:induction false} RowOfBelow(d: Page, i: nat, r: nat)
    requires Flat(d) && 0 < r < |d| && d[r].row.Some? && Below(d, i, r)
    ensures RowOf(d, i) == Some(r)
    decreases i
  {
    if d[i].parent != r {
      RowOfBelow(d, d[i].parent, r);
    }
  }

  lemma {:induction false} RowAbove(d: Page, i: nat)
    requires RowOf(d, i).Some?
    ensures RowOf(d, i).value == i || Below(d, i, RowOf(d, i).value)
    decreases i
  {
    if d[i].row.None? {
      RowAbove(d, d[i].parent);
    }
  }

  /** On new content with flat rows a target from a row is restored to an enabled target in the row
      of the same key, or else to its list or the content area, in no row at all. */
  lemma FlatKeepsRows(d: Page, d': Page, n: nat)
    requires Tree(d) && Tree(d') && Flat(d') && 0 < n < |d| && RowOf(d, n).Some?
    ensures
      var key := FocusKeyOf(d, n).value;
      var to := Restored(d', key);
      && key.row.Some? && to < |d'|
      && match RowOf(d', to)
         case Some(r) => r < |d'| && d'[r].row == key.row && !d'[to].disabled
         case None => to == 0 || (key.region.Some? && d'[to].region == key.region)
  {
    BelowSameKey(d, d', n);
    var key := FocusKeyOf(d, n).value;
    var to := Restored(d', key);
    if r :| 0 < r < |d'| && d'[r].row == key.row && Below(d', to, r) && !d'[to].disabled {
      RowOfBelow(d', to, r);
    } else if to > 0 && RowOf(d', to).Some? {
      RowAbove(d', to);
      RowIsRow(d', to);
    }
  }

  /** Some part of a page without row, list or focus. */
  function Part(parent: nat): Element {
    Element(parent, None, None, "", false, false)
  }

  function RowPart(parent: nat, key: string): Element {
    Part(parent).(row := Some(key))
  }

  function Button(parent: nat, caption: string, disabled: bool): Element {
    Element(parent, None, None, caption, true, disabled)
  }

  lemma NextUpTo(n: nat, p: nat -> bool)
    ensures Filter(UpTo(n + 1), p) == Filter(UpTo(n), p) + (if p(n) then [n] else [])
  {
    assert UpTo(n + 1) == UpTo(n) + [n];
    FilterAppend(UpTo(n), n, p);
  }

  lemma {:induction false} FilterAll(s: seq<nat>, p: nat -> bool)
    requires forall i :: 0 <= i < |s| ==> p(s[i])
    ensures Filter(s, p) == s
  {
    if s != [] {
      FilterAll(s[..|s| - 1], p);
      assert s == s[..|s| - 1] + [s[|s| - 1]];
    }
  }

  /** A button `x` in the row `b` inside the row `a`. */
  ghost predicate NestedPage(d: Page, a: string, b: string, x: string) {
    |d| == 4 && d[0] == Part(0) && d[1] == RowPart(0, a) && d[2] == RowPart(1, b) && d[3] == Button(2, x, false)
  }

  /** A row with one button. */
  ghost predicate PlainPage(d: Page, a: string, x: string) {
    |d| == 3 && d[0] == Part(0) && d[1] == RowPart(0, a) && d[2] == Button(1, x, false)
  }

  lemma NestedTargets(d: Page, a: string, b: string, x: string)
    requires NestedPage(d, a, b, x)
    ensures FocusablesIn(d, 1) == [3]
  {
    var p := IsTarget(d, 1);
    NextUpTo(0, p);
    NextUpTo(1, p);
    NextUpTo(2, p);
    NextUpTo(3, p);
  }

  lemma NestedPick(d: Page, a: string, b: string, x: string, key: FocusKey)
    requires NestedPage(d, a, b, x) && key.caption == x
    ensures Pick(d, 1, key) == Some(3)
  {
    NestedTargets(d, a, b, x);
    FilterAll([3], Usable(d));
    FilterAll([3], HasLabel(d, x));
  }

  lemma NestedRestored(d: Page, a: string, b: string, x: string, key: FocusKey)
    requires NestedPage(d, a, b, x) && key.row == Some(a) && key.caption == x
    ensures Restored(d, key) == 3
  {
    NestedPick(d, a, b, x, key);
    assert FindRow(d, a, 1) == Some(1);
  }

  /** Flatness is needed: when the row `a` of the new content holds a row `b`, a target remembered
      from `a` is restored into `b`. */
  lemma NestedRowMisleads(d: Page, d': Page, a: string, b: string, x: string)
    requires PlainPage(d, a, x) && NestedPage(d', a, b, x)
    ensures Tree(d) && Tree(d') && RowOf(d, 2) == Some(1) && FocusKeyOf(d, 2).Some?
    ensures Restored(d', FocusKeyOf(d, 2).value) == 3 && RowOf(d', 3) == Some(2)
  {
    NestedRestored(d', a, b, x, FocusKeyOf(d, 2).value);
  }

  /** A row with three equal buttons, of which the first is disabled. */
  ghost predicate TwinPage(d: Page, a: string, x: string) {
    && |d| == 5 && d[0] == Part(0) && d[1] == RowPart(0, a)
    && d[2] == Button(1, x, true) && d[3] == Button(1, x, false) && d[4] == Button(1, x, false)
  }

  lemma TwinTargets(d: Page, a: string, x: string)
    requires TwinPage(d, a, x)
    ensures FocusablesIn(d, 1) == [2, 3, 4]
  {
    var p := IsTarget(d, 1);
    NextUpTo(0, p);
    NextUpTo(1, p);
    NextUpTo(2, p);
    NextUpTo(3, p);
    NextUpTo(4, p);
  }

  lemma TwinPick(d: Page, a: string, x: string, key: FocusKey)
    requires TwinPage(d, a, x) && key.caption == x && key.nth == 1
    ensures Pick(d, 1, key) == Some(4)
  {
    TwinTargets(d, a, x);
    assert [2] == [] + [2] && [2, 3] == [2] + [3] && [2, 3, 4] == [2, 3] + [4];
    FilterAppend([], 2, Usable(d));
    FilterAppend([2], 3, Usable(d));
    FilterAppend([2, 3], 4, Usable(d));
    FilterAll([3, 4], HasLabel(d, x));
  }

  lemma TwinRestored(d: Page, a: string, x: string, key: FocusKey)
    requires TwinPage(d, a, x) && key.row == Some(a) && key.caption == x && key.nth == 1
    ensures Restored(d, key) == 4
  {
    TwinPick(d, a, x, key);
    assert FindRow(d, a, 1) == Some(1);
  }

  /** The second of three twins is remembered as such. */
  lemma TwinKey(d: Page, a: string, x: string)
    requires TwinPage(d, a, x)
    ensures FocusKeyOf(d, 3).Some?
    ensures var key := FocusKeyOf(d, 3).value; key.row == Some(a) && key.caption == x && key.nth == 1
  {
    TwinTargets(d, a, x);
    FilterAll([2, 3, 4], HasLabel(d, x));
  }

  /** A disabled earlier twin misdirects: of three equal buttons in a row, the first disabled, the
      second is remembered and the third gets the focus. */
  lemma DisabledTwinMisleads(d: Page, a: string, x: string)
    requires TwinPage(d, a, x)
    ensures Tree(d) && FocusKeyOf(d, 3).Some? && Restored(d, FocusKeyOf(d, 3).value) == 4
  {
    TwinKey(d, a, x);
    TwinRestored(d, a, x, FocusKeyOf(d, 3).value);
  }

  /** As long as the row still has an enabled target with that label, the restored target has it. */
  lemma LabelKept(d: Page, key: FocusKey, r: nat, x: nat)
    requires key.row.Some? && FindRow(d, key.row.value, 1) == Some(r)
    requires x in FocusablesIn(d, r) && x < |d| && !d[x].disabled && d[x].caption == key.caption
    ensures Restored(d, key) < |d| && d[Restored(d, key)].caption == key.caption
  {
    var all := FocusablesIn(d, r);
    FilterElements(all, Usable(d));
    FilterElements(Filter(all, Usable(d)), HasLabel(d, key.caption));
    assert x in Filter(Filter(all, Usable(d)), HasLabel(d, key.caption));
  }

  // ---------------------------------------------------------------- places

  /** The numbers below `n` that pass. */
  ghost function Passing(p: nat -> bool, n: nat): set<nat> {
    set i: nat | i < n && p(i)
  }

  /** The `k`-th number that passes has `k` before it that do. */
  lemma {:induction false} PassingBefore(n: nat, p: nat -> bool, k: nat)
    requires k < |Filter(UpTo(n), p)|
    ensures Filter(UpTo(n), p)[k] < n && p(Filter(UpTo(n), p)[k])
    ensures |Passing(p, Filter(UpTo(n), p)[k])| == k
    decreases n
  {
    assert n > 0;
    NextUpTo(n - 1, p);
    if k < |Filter(UpTo(n - 1), p)| {
      PassingBefore(n - 1, p, k);
    } else {
      AllPassing(n - 1, p);
    }
  }

  lemma {:induction false} AllPassing(n: nat, p: nat -> bool)
    ensures |Passing(p, n)| == |Filter(UpTo(n), p)|
    decreases n
  {
    if n > 0 {
      AllPassing(n - 1, p);
      NextUpTo(n - 1, p);
      OneMorePassing(n - 1, p);
    }
  }

  lemma OneMorePassing(n: nat, p: nat -> bool)
    ensures |Passing(p, n + 1)| == |Passing(p, n)| + (if p(n) then 1 else 0)
  {
    assert Passing(p, n + 1) == Passing(p, n) + (if p(n) then {n} else {});
  }

  lemma {:induction false} FilterTwice(s: seq<nat>, p: nat -> bool, q: nat -> bool, pq: nat -> bool)
    requires forall i :: pq(i) == (p(i) && q(i))
    ensures Filter(Filter(s, p), q) == Filter(s, pq)
  {
    if s != [] {
      var init, last := s[..|s| - 1], s[|s| - 1];
      FilterTwice(init, p, q, pq);
      FilterAppend(Filter(init, p), last, q);
      assert pq(last) == (p(last) && q(last));
      assert Filter(s, p) == if p(last) then Filter(init, p) + [last] else Filter(init, p);
    }
  }

  /** An enabled target below `scope`. */
  function Enabled(d: Page, scope: nat): nat -> bool {
    (i: nat) => Below(d, i, scope) && d[i].focusable && d[i].region.None? && !d[i].disabled
  }

  /** An enabled target below `scope` with that label. */
  function EnabledTwin(d: Page, scope: nat, caption: string): nat -> bool {
    (i: nat) => Enabled(d, scope)(i) && d[i].caption == caption
  }

  lemma EnabledTargets(d: Page, scope: nat)
    ensures Filter(FocusablesIn(d, scope), Usable(d)) == Filter(UpTo(|d|), Enabled(d, scope))
  {
    FilterTwice(UpTo(|d|), IsTarget(d, scope), Usable(d), Enabled(d, scope));
  }

  lemma EnabledTwins(d: Page, scope: nat, caption: string)
    ensures Filter(Filter(FocusablesIn(d, scope), Usable(d)), HasLabel(d, caption)) ==
            Filter(UpTo(|d|), EnabledTwin(d, scope, caption))
  {
    EnabledTargets(d, scope);
    FilterTwice(UpTo(|d|), Enabled(d, scope), HasLabel(d, caption), EnabledTwin(d, scope, caption));
  }

  /** `n` passes, and `k` others before it do, or if there are fewer it is the last that passes. */
  ghost predicate AtPlace(p: nat -> bool, size: nat, n: nat, k: nat) {
    && n < size && p(n)
    && |Passing(p, n)| == if k < |Passing(p, size)| then k else |Passing(p, size)| - 1
  }

  lemma AtMostAt(p: nat -> bool, size: nat, k: nat)
    requires Passing(p, size) != {}
    ensures
      var r := AtMost(Filter(UpTo(size), p), k);
      r.Some? && AtPlace(p, size, r.value, k)
  {
    AllPassing(size, p);
    var s := Filter(UpTo(size), p);
    PassingBefore(size, p, if k < |s| then k else |s| - 1);
  }

  lemma AtMostNone(p: nat -> bool, size: nat, k: nat)
    requires Passing(p, size) == {}
    ensures AtMost(Filter(UpTo(size), p), k).None?
  {
    AllPassing(size, p);
  }

  /** The scope of a key that is there: its row, or the whole content. */
  ghost predicate ScopeFound(d: Page, key: FocusKey, scope: nat) {
    match key.row
    case None => scope == 0
    case Some(k) => FindRow(d, k, 1) == Some(scope)
  }

  /** The first list of the remembered name, or the content area. */
  function ListOrContent(d: Page, key: FocusKey): nat {
    if key.region.Some? && FindRegion(d, key.region.value, 1).Some? then FindRegion(d, key.region.value, 1).value else 0
  }

  /** Where the focus goes, when the row is still there or the target was outside rows. With enabled
      targets of the label: to the one with the remembered number among them, or the last. Else, in
      a row with enabled targets: to the one at the remembered place, or the last. Else to the first
      list of the remembered name, or if there is none to the content area. */
  lemma RestoredInScope(d: Page, key: FocusKey, scope: nat)
    requires ScopeFound(d, key, scope)
    ensures
      var n, twins, all := Restored(d, key), EnabledTwin(d, scope, key.caption), Enabled(d, scope);
      if Passing(twins, |d|) != {} then AtPlace(twins, |d|, n, key.nth)
      else if key.row.Some? && Passing(all, |d|) != {} then AtPlace(all, |d|, n, key.pos)
      else n == ListOrContent(d, key)
  {
    var twins, all := EnabledTwin(d, scope, key.caption), Enabled(d, scope);
    EnabledTwins(d, scope, key.caption);
    EnabledTargets(d, scope);
    if Passing(twins, |d|) != {} {
      AtMostAt(twins, |d|, key.nth);
    } else {
      AtMostNone(twins, |d|, key.nth);
      if Passing(all, |d|) != {} {
        AtMostAt(all, |d|, key.pos);
      } else {
        AtMostNone(all, |d|, key.pos);
      }
    }
  }

  /** When the row is gone: to the list or the content area. */
  lemma RestoredWithoutRow(d: Page, key: FocusKey)
    requires key.row.Some? && forall i :: 0 < i < |d| ==> d[i].row != key.row
    ensures Restored(d, key) == ListOrContent(d, key)
  {
    assert FindRow(d, key.row.value, 1).None?;
  }

  /** The place of a passing number among the passing ones. */
  lemma PlaceCounts(p: nat -> bool, size: nat, n: nat)
    requires n < size && p(n)
    ensures Place(Filter(UpTo(size), p), n) == |Passing(p, n)|
  {
    FilterElements(UpTo(size), p);
    var s := Filter(UpTo(size), p);
    assert UpTo(size)[n] == n;
    assert n in s;
    PassingBefore(size, p, Place(s, n));
  }

  function Twin(d: Page, scope: nat, caption: string): nat -> bool {
    (i: nat) => IsTarget(d, scope)(i) && d[i].caption == caption
  }

  /** What is remembered of a target: how many targets of its row or of the content stand before it,
      and how many of these have its label. */
  lemma KeyCounts(d: Page, n: nat)
    requires 0 < n < |d| && n in FocusablesIn(d, Scope(d, n))
    ensures FocusKeyOf(d, n).Some?
    ensures
      var key, scope := FocusKeyOf(d, n).value, Scope(d, n);
      && key.caption == d[n].caption && key.region == RegionOf(d, n)
      && key.pos == |Passing(IsTarget(d, scope), n)| && key.nth == |Passing(Twin(d, scope, d[n].caption), n)|
  {
    var scope := Scope(d, n);
    FilterElements(UpTo(|d|), IsTarget(d, scope));
    FilterTwice(UpTo(|d|), IsTarget(d, scope), HasLabel(d, d[n].caption), Twin(d, scope, d[n].caption));
    PlaceCounts(IsTarget(d, scope), |d|, n);
    PlaceCounts(Twin(d, scope, d[n].caption), |d|, n);
  }

  // ---------------------------------------------------------------- never another row

  /** The enabled targets below the first row of key `k`. */
  function RowTargets(d: Page, k: string): seq<nat> {
    match FindRow(d, k, 1)
    case None => []
    case Some(r) => Filter(FocusablesIn(d, r), Usable(d))
  }

  /** `to` lies in a row of key `k`, or in no row. */
  ghost predicate InOwnRow(d: Page, to: nat, k: string) {
    match RowOf(d, to)
    case None => true
    case Some(r) => r < |d| && d[r].row == Some(k)
  }

  /** The first list of its name. */
  predicate FirstRegion(d: Page, g: nat) {
    g < |d| && d[g].region.Some? && FindRegion(d, d[g].region.value, 1) == Some(g)
  }

  /** No enabled target below the row of key `k` stands in an inner row of another key; and if
      there is no such target at all, no list stands in a row of another key. */
  ghost predicate RowsApart(d: Page, k: string) {
    && (forall t: nat :: t in RowTargets(d, k) ==> InOwnRow(d, t, k))
    && (RowTargets(d, k) == [] ==> forall g: nat :: FirstRegion(d, g) ==> InOwnRow(d, g, k))
  }

  /** A target is hit exactly if the row has an enabled one, and then it is one of these. */
  lemma HitInTargets(d: Page, key: FocusKey)
    requires key.row.Some?
    ensures Hit(d, key).None? <==> RowTargets(d, key.row.value) == []
    ensures Hit(d, key).Some? ==> Hit(d, key).value in RowTargets(d, key.row.value)
  {
    FilterElements(RowTargets(d, key.row.value), HasLabel(d, key.caption));
  }

  lemma {:induction false} RegionFound(d: Page, k: string, i: nat)
    requires FindRegion(d, k, i).Some?
    ensures FindRegion(d, k, FindRegion(d, k, i).value) == FindRegion(d, k, i)
    decreases |d| - i
  {
    if d[i].region != Some(k) {
      RegionFound(d, k, i + 1);
    }
  }

  /** Where rows are apart, every key of a row leads into that row or into no row. */
  lemma KeyKeepsRow(d: Page, key: FocusKey)
    requires key.row.Some? && RowsApart(d, key.row.value)
    ensures InOwnRow(d, Restored(d, key), key.row.value)
  {
    HitInTargets(d, key);
    if Hit(d, key).None? && key.region.Some? && FindRegion(d, key.region.value, 1).Some? {
      assert FirstRegion(d, FindRegion(d, key.region.value, 1).value);
    }
  }

  /** A row in a list (if `region` is given) with equal buttons. */
  ghost predicate MemoryPage(d: Page, k: string, region: Option<string>, caption: string) {
    && |d| >= 3 && d[0] == Part(0) && d[1] == Part(0).(region := region) && d[2] == RowPart(1, k)
    && (forall i :: 3 <= i < |d| ==> d[i] == Button(2, caption, false))
  }

  /** The `n` numbers from 3 on. */
  function FromThree(n: nat): (s: seq<nat>)
    ensures |s| == n && forall i :: 0 <= i < n ==> s[i] == 3 + i
  {
    seq(n, i => 3 + i)
  }

  lemma MemoryHead(d: Page, k: string, region: Option<string>, caption: string)
    requires MemoryPage(d, k, region, caption)
    ensures Filter(UpTo(3), IsTarget(d, 2)) == []
  {
    var p := IsTarget(d, 2);
    NextUpTo(0, p);
    NextUpTo(1, p);
    NextUpTo(2, p);
  }

  lemma {:induction false} MemoryTargets(d: Page, k: string, region: Option<string>, caption: string, n: nat)
    requires MemoryPage(d, k, region, caption) && 3 + n <= |d|
    ensures Filter(UpTo(3 + n), IsTarget(d, 2)) == FromThree(n)
  {
    var p := IsTarget(d, 2);
    if n == 0 {
      MemoryHead(d, k, region, caption);
    } else {
      MemoryTargets(d, k, region, caption, n - 1);
      NextUpTo(3 + n - 1, p);
      assert Below(d, 3 + n - 1, 2);
      assert FromThree(n) == FromThree(n - 1) + [3 + n - 1];
    }
  }

  lemma MemoryScope(d: Page, k: string, region: Option<string>, caption: string, n: nat)
    requires MemoryPage(d, k, region, caption) && 3 <= n < |d|
    ensures Tree(d) && RowOf(d, n) == Some(2) && RegionOf(d, n) == region
  {
    assert RowOf(d, 2) == Some(2);
    assert RegionOf(d, 1) == region;
    assert RegionOf(d, 2) == region;
  }

  lemma MemoryTwins(d: Page, k: string, region: Option<string>, caption: string)
    requires MemoryPage(d, k, region, caption)
    ensures FocusablesIn(d, 2) == FromThree(|d| - 3)
    ensures Filter(FocusablesIn(d, 2), HasLabel(d, caption)) == FromThree(|d| - 3)
  {
    MemoryTargets(d, k, region, caption, |d| - 3);
    FilterAll(FromThree(|d| - 3), HasLabel(d, caption));
  }

  /** Some content in which `n` is a target in a row of key `k`. */
  ghost predicate Remembered(d: Page, n: nat, k: string) {
    && Tree(d) && 0 < n < |d| && n in FocusablesIn(d, Scope(d, n))
    && RowOf(d, n).Some? && RowOf(d, n).value < |d| && d[RowOf(d, n).value].row == Some(k)
  }

  /** Every combination of row, list, label and number is remembered from some content. */
  lemma KeyRemembered(k: string, region: Option<string>, caption: string, nth: nat) returns (d: Page, n: nat)
    ensures Remembered(d, n, k) && FocusKeyOf(d, n) == Some(FocusKey(Some(k), region, caption, nth, nth))
  {
    d := [Part(0), Part(0).(region := region), RowPart(1, k)] + seq(nth + 1, _ => Button(2, caption, false));
    n := 3 + nth;
    MemoryTarget(d, k, region, caption, nth);
    MemoryKey(d, k, region, caption, nth);
  }

  lemma MemoryTarget(d: Page, k: string, region: Option<string>, caption: string, nth: nat)
    requires MemoryPage(d, k, region, caption) && |d| == 4 + nth
    ensures Remembered(d, 3 + nth, k)
  {
    MemoryScope(d, k, region, caption, 3 + nth);
    MemoryTwins(d, k, region, caption);
    PlaceFromThree(nth);
  }

  lemma MemoryKey(d: Page, k: string, region: Option<string>, caption: string, nth: nat)
    requires MemoryPage(d, k, region, caption) && |d| == 4 + nth
    ensures FocusKeyOf(d, 3 + nth) == Some(FocusKey(Some(k), region, caption, nth, nth))
  {
    MemoryScope(d, k, region, caption, 3 + nth);
    MemoryTwins(d, k, region, caption);
    PlaceFromThree(nth);
  }

  lemma PlaceFromThree(nth: nat)
    ensures 3 + nth in FromThree(nth + 1) && Place(FromThree(nth + 1), 3 + nth) == nth
  {
    assert FromThree(nth + 1)[nth] == 3 + nth;
  }

  /** A target below the row is hit by the key with its label and its number among the enabled
      targets of that label. */
  lemma TargetHit(d: Page, k: string, t: nat) returns (nth: nat)
    requires t in RowTargets(d, k) && t < |d|
    ensures forall key: FocusKey ::
      key.row == Some(k) && key.caption == d[t].caption && key.nth == nth ==> Restored(d, key) == t
  {
    var same := Filter(RowTargets(d, k), HasLabel(d, d[t].caption));
    FilterElements(RowTargets(d, k), HasLabel(d, d[t].caption));
    nth := Place(same, t);
  }

  /** On new content the targets remembered from rows of key `k`, on whatever content, are all
      restored into rows of that key or into no row, if and only if its rows are apart. */
  lemma NeverAnotherRow(d': Page, k: string)
    requires Tree(d')
    ensures (forall d: Page, n: nat :: Remembered(d, n, k) ==> InOwnRow(d', Restored(d', FocusKeyOf(d, n).value), k))
            <==> RowsApart(d', k)
  {
    if RowsApart(d', k) {
      forall d: Page, n: nat | Remembered(d, n, k) ensures InOwnRow(d', Restored(d', FocusKeyOf(d, n).value), k) {
        KeyKeepsRow(d', FocusKeyOf(d, n).value);
      }
    } else {
      var d, n := StrayRemembered(d', k);
    }
  }

  lemma TargetKnown(d: Page, k: string, t: nat)
    requires t in RowTargets(d, k)
    ensures t < |d| && !d[t].disabled && Below(d, t, FindRow(d, k, 1).value)
  {
    var r := FindRow(d, k, 1).value;
    FilterElements(FocusablesIn(d, r), Usable(d));
    FilterElements(UpTo(|d|), IsTarget(d, r));
  }

  lemma StrayRemembered(d': Page, k: string) returns (d: Page, n: nat)
    requires Tree(d') && !RowsApart(d', k)
    ensures Remembered(d, n, k) && !InOwnRow(d', Restored(d', FocusKeyOf(d, n).value), k)
  {
    if t: nat :| t in RowTargets(d', k) && !InOwnRow(d', t, k) {
      TargetKnown(d', k, t);
      var nth := TargetHit(d', k, t);
      d, n := KeyRemembered(k, None, d'[t].caption, nth);
    } else {
      var g: nat :| FirstRegion(d', g) && !InOwnRow(d', g, k);
      d, n := KeyRemembered(k, d'[g].region, "", 0);
      HitInTargets(d', FocusKeyOf(d, n).value);
    }
  }

  /** Flat rows are apart. */
  lemma FlatIsApart(d: Page, k: string)
    requires Tree(d) && Flat(d)
    ensures RowsApart(d, k)
  {
    forall t | t in RowTargets(d, k) ensures InOwnRow(d, t, k) {
      TargetKnown(d, k, t);
      RowOfBelow(d, t, FindRow(d, k, 1).value);
    }
    forall g | FirstRegion(d, g) ensures InOwnRow(d, g, k) {
      if RowOf(d, g).Some? {
        RowAbove(d, g);
        RowIsRow(d, g);
      }
    }
  }
}
