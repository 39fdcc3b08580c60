/** Block-structured processes as terms, and what it means for a graph to draw one.

    The columns of a term are defined by recursion on it and proved to be the longest-path
    columns of every graph that draws it. */
module Flows {
  import opened Basics
  import opened Graphs
  import opened Depths

  /** A sequence of serial steps, split/join blocks and loops. A branch may be `Done`
      (an empty branch: the split points straight at its join). */
  datatype Flow =
    | Done
    | Step(id: NodeId, next: Flow)
    | Block(split: NodeId, xor: bool, branches: Branches, join: NodeId, next: Flow)
    | Loop(start: NodeId, body: Flow, end: NodeId, next: Flow)

  datatype Branches = NoMore | Branch(head: Flow, rest: Branches)

  ghost function Nodes(f: Flow): set<NodeId> {
    match f
    case Done => {}
    case Step(id, next) => {id} + Nodes(next)
    case Block(s, _, bs, j, next) => {s} + BranchNodes(bs) + {j} + Nodes(next)
    case Loop(s, body, e, next) => {s} + Nodes(body) + {e} + Nodes(next)
  }

  ghost function BranchNodes(bs: Branches): set<NodeId> {
    match bs
    case NoMore => {}
    case Branch(h, r) => Nodes(h) + BranchNodes(r)
  }

  function Width(bs: Branches): nat {
    match bs
    case NoMore => 0
    case Branch(_, r) => 1 + Width(r)
  }

  /** Every node occurs once. */
  ghost predicate WellFormed(f: Flow) {
    match f
    case Done => true
    case Step(id, next) => id !in Nodes(next) && WellFormed(next)
    case Block(s, _, bs, j, next) =>
      && s != j
      && {s, j} !! BranchNodes(bs) && {s, j} !! Nodes(next) && BranchNodes(bs) !! Nodes(next)
      && WellFormedBranches(bs) && WellFormed(next)
    case Loop(s, body, e, next) =>
      && s != e
      && {s, e} !! Nodes(body) && {s, e} !! Nodes(next) && Nodes(body) !! Nodes(next)
      && WellFormed(body) && WellFormed(next)
  }

  ghost predicate WellFormedBranches(bs: Branches) {
    match bs
    case NoMore => true
    case Branch(h, r) => Nodes(h) !! BranchNodes(r) && WellFormed(h) && WellFormedBranches(r)
  }

  /** Where control enters `f` when `stop` follows it. */
  function Entry(f: Flow, stop: Option<NodeId>): Option<NodeId> {
    match f
    case Done => stop
    case Step(id, _) => Some(id)
    case Block(s, _, _, _, _) => Some(s)
    case Loop(s, _, _, _) => Some(s)
  }

  function Heads(bs: Branches, j: NodeId): (r: seq<NodeId>)
    ensures |r| == Width(bs)
  {
    match bs
    case NoMore => []
    case Branch(h, r) => [Entry(h, Some(j)).value] + Heads(r, j)
  }

  /** The successor list of a serial node. */
  function Only(target: Option<NodeId>): seq<NodeId> {
    match target
    case None => []
    case Some(t) => [t]
  }

  type Successors = map<NodeId, seq<NodeId>>

  /** The successor lists are those of `f` followed by `stop`; every split opens at least
      two branches. */
  ghost predicate Embeds(out: Successors, f: Flow, stop: Option<NodeId>) {
    match f
    case Done => true
    case Step(id, next) => Serial(out, id, next, stop) && Embeds(out, next, stop)
    case Block(s, _, bs, j, next) =>
      && s in out && out[s] == Heads(bs, j) && Width(bs) >= 2 && EmbedsBranches(out, bs, j)
      && Serial(out, j, next, stop) && Embeds(out, next, stop)
    case Loop(s, body, e, next) =>
      && Serial(out, s, body, Some(e)) && Embeds(out, body, Some(e))
      && Serial(out, e, next, stop) && Embeds(out, next, stop)
  }

  ghost predicate EmbedsBranches(out: Successors, bs: Branches, j: NodeId) {
    match bs
    case NoMore => true
    case Branch(h, r) => Embeds(out, h, Some(j)) && EmbedsBranches(out, r, j)
  }

  /** The only successor of `id`, if any, is the entry of `f`. */
  ghost predicate Serial(out: Successors, id: NodeId, f: Flow, stop: Option<NodeId>) {
    id in out && out[id] == Only(Entry(f, stop))
  }

  ghost predicate Arc(out: Successors, a: NodeId, b: NodeId) {
    a in out && b in out[a]
  }

  /** The graph is exactly the drawing of the process `f`. */
  ghost predicate Draws(g: Graph, f: Flow) {
    && g.Valid()
    && f != Done && WellFormed(f)
    && g.out.Keys == Nodes(f)
    && Embeds(g.out, f, None)
  }

  // ---------------------------------------------------------------- columns

  /** The column after `f` when it starts in column `c`. */
  function EndCol(f: Flow, c: nat): (r: nat)
    ensures r >= c && (f != Done ==> r > c)
  {
    match f
    case Done => c
    case Step(_, next) => EndCol(next, c + 1)
    case Block(_, _, bs, _, next) => EndCol(next, JoinCol(bs, c + 1) + 1)
    case Loop(_, body, _, next) => EndCol(next, EndCol(body, c + 1) + 1)
  }

  /** The first column right of all branches. */
  function JoinCol(bs: Branches, c: nat): (r: nat)
    ensures r >= c
  {
    match bs
    case NoMore => c
    case Branch(h, r) =>
      var a, b := EndCol(h, c), JoinCol(r, c);
      if a > b then a else b
  }

  /** `m` gives the nodes of `f` their columns when `f` starts in column `c`. */
  ghost predicate InColumns(m: map<NodeId, nat>, f: Flow, c: nat) {
    match f
    case Done => true
    case Step(id, next) => id in m && m[id] == c && InColumns(m, next, c + 1)
    case Block(s, _, bs, j, next) =>
      var jc := JoinCol(bs, c + 1);
      && s in m && m[s] == c && j in m && m[j] == jc
      && BranchesInColumns(m, bs, c + 1) && InColumns(m, next, jc + 1)
    case Loop(s, body, e, next) =>
      var ec := EndCol(body, c + 1);
      && s in m && m[s] == c && e in m && m[e] == ec
      && InColumns(m, body, c + 1) && InColumns(m, next, ec + 1)
  }

  ghost predicate BranchesInColumns(m: map<NodeId, nat>, bs: Branches, c: nat) {
    match bs
    case NoMore => true
    case Branch(h, r) => InColumns(m, h, c) && BranchesInColumns(m, r, c)
  }

  ghost function Columns(f: Flow, c: nat): (m: map<NodeId, nat>)
    ensures m.Keys == Nodes(f)
  {
    match f
    case Done => map[]
    case Step(id, next) => Columns(next, c + 1)[id := c]
    case Block(s, _, bs, j, next) =>
      var jc := JoinCol(bs, c + 1);
      (BranchColumns(bs, c + 1) + Columns(next, jc + 1))[s := c][j := jc]
    case Loop(s, body, e, next) =>
      var ec := EndCol(body, c + 1);
      (Columns(body, c + 1) + Columns(next, ec + 1))[s := c][e := ec]
  }

  ghost function BranchColumns(bs: Branches, c: nat): (m: map<NodeId, nat>)
    ensures m.Keys == BranchNodes(bs)
  {
    match bs
    case NoMore => map[]
    case Branch(h, r) => Columns(h, c) + BranchColumns(r, c)
  }

  lemma SplitExtends(m: map<NodeId, nat>, a: map<NodeId, nat>, b: map<NodeId, nat>, s: NodeId, x: nat, j: NodeId,
      y: nat)
    requires Extends((a + b)[s := x][j := y], m)
    requires s != j && {s, j} !! a.Keys && {s, j} !! b.Keys && a.Keys !! b.Keys
    ensures Extends(a, m) && Extends(b, m)
    ensures s in m && m[s] == x && j in m && m[j] == y
  {
    var u := (a + b)[s := x][j := y];
    assert s in u && j in u;
    forall n | n in a ensures n in m && m[n] == a[n] {
      assert n !in b && n in u;
    }
    forall n | n in b ensures n in m && m[n] == b[n] {
      assert n in u;
    }
  }

  lemma SplitBlock(m: map<NodeId, nat>, f: Flow, c: nat)
    requires WellFormed(f) && f.Block? && Extends(Columns(f, c), m)
    ensures WellFormedBranches(f.branches) && WellFormed(f.next)
    ensures
      var jc := JoinCol(f.branches, c + 1);
      && Extends(BranchColumns(f.branches, c + 1), m) && Extends(Columns(f.next, jc + 1), m)
      && f.split in m && m[f.split] == c && f.join in m && m[f.join] == jc
  {
    var jc := JoinCol(f.branches, c + 1);
    SplitExtends(m, BranchColumns(f.branches, c + 1), Columns(f.next, jc + 1), f.split, c, f.join, jc);
  }

  lemma SplitLoop(m: map<NodeId, nat>, f: Flow, c: nat)
    requires WellFormed(f) && f.Loop? && Extends(Columns(f, c), m)
    ensures WellFormed(f.body) && WellFormed(f.next)
    ensures
      var ec := EndCol(f.body, c + 1);
      && Extends(Columns(f.body, c + 1), m) && Extends(Columns(f.next, ec + 1), m)
      && f.start in m && m[f.start] == c && f.end in m && m[f.end] == ec
  {
    var ec := EndCol(f.body, c + 1);
    SplitExtends(m, Columns(f.body, c + 1), Columns(f.next, ec + 1), f.start, c, f.end, ec);
  }

  lemma {:induction false} ColumnsFit(m: map<NodeId, nat>, f: Flow, c: nat)
    requires WellFormed(f) && Extends(Columns(f, c), m)
    ensures InColumns(m, f, c)
    decreases f, 1
  {
    match f
    case Done =>
    case Step(id, next) =>
      assert id in Columns(f, c);
      forall n | n in Columns(next, c + 1) ensures n in m && m[n] == Columns(next, c + 1)[n] {
        assert n in Columns(f, c);
      }
      ColumnsFit(m, next, c + 1);
    case Block(_, _, _, _, _) => BlockColumnsFit(m, f, c);
    case Loop(_, _, _, _) => LoopColumnsFit(m, f, c);
  }

  lemma {:induction false} LoopColumnsFit(m: map<NodeId, nat>, f: Flow, c: nat)
    requires WellFormed(f) && f.Loop? && Extends(Columns(f, c), m)
    ensures InColumns(m, f, c)
    decreases f, 0
  {
    SplitLoop(m, f, c);
    ColumnsFit(m, f.body, c + 1);
    ColumnsFit(m, f.next, EndCol(f.body, c + 1) + 1);
  }

  lemma {:induction false} BlockColumnsFit(m: map<NodeId, nat>, f: Flow, c: nat)
    requires WellFormed(f) && f.Block? && Extends(Columns(f, c), m)
    ensures InColumns(m, f, c)
    decreases f, 0
  {
    SplitBlock(m, f, c);
    BranchColumnsFit(m, f.branches, c + 1);
    ColumnsFit(m, f.next, JoinCol(f.branches, c + 1) + 1);
  }

  lemma {:induction false} BranchColumnsFit(m: map<NodeId, nat>, bs: Branches, c: nat)
    requires WellFormedBranches(bs) && Extends(BranchColumns(bs, c), m)
    ensures BranchesInColumns(m, bs, c)
    decreases bs
  {
    match bs
    case NoMore =>
    case Branch(h, r) =>
      ColumnsFit(m, h, c);
      BranchColumnsFit(m, r, c);
  }

  /** Nodes of `f` lie in columns `c .. EndCol(f, c) - 1`. */
  lemma {:induction false} ColumnRange(m: map<NodeId, nat>, f: Flow, c: nat, n: NodeId)
    requires InColumns(m, f, c) && n in Nodes(f)
    ensures n in m && c <= m[n] < EndCol(f, c)
    decreases f, 1
  {
    match f
    case Done =>
    case Step(id, next) => if n != id { ColumnRange(m, next, c + 1, n); }
    case Block(_, _, _, _, _) => BlockColumnRange(m, f, c, n);
    case Loop(_, _, _, _) => LoopColumnRange(m, f, c, n);
  }

  lemma {:induction false} BlockColumnRange(m: map<NodeId, nat>, f: Flow, c: nat, n: NodeId)
    requires InColumns(m, f, c) && n in Nodes(f) && f.Block?
    ensures n in m && c <= m[n] < EndCol(f, c)
    decreases f, 0
  {
    var jc := JoinCol(f.branches, c + 1);
    assert EndCol(f, c) == EndCol(f.next, jc + 1) >= jc + 1;
    if n in BranchNodes(f.branches) {
      BranchColumnRange(m, f.branches, c + 1, n);
    } else if n in Nodes(f.next) {
      ColumnRange(m, f.next, jc + 1, n);
    }
  }

  lemma {:induction false} LoopColumnRange(m: map<NodeId, nat>, f: Flow, c: nat, n: NodeId)
    requires InColumns(m, f, c) && n in Nodes(f) && f.Loop?
    ensures n in m && c <= m[n] < EndCol(f, c)
    decreases f, 0
  {
    var ec := EndCol(f.body, c + 1);
    assert EndCol(f, c) == EndCol(f.next, ec + 1) >= ec + 1;
    if n in Nodes(f.body) {
      ColumnRange(m, f.body, c + 1, n);
    } else if n in Nodes(f.next) {
      ColumnRange(m, f.next, ec + 1, n);
    }
  }

  lemma {:induction false} BranchColumnRange(m: map<NodeId, nat>, bs: Branches, c: nat, n: NodeId)
    requires BranchesInColumns(m, bs, c) && n in BranchNodes(bs)
    ensures n in m && c <= m[n] < JoinCol(bs, c)
    decreases bs
  {
    match bs
    case NoMore =>
    case Branch(h, r) =>
      if n in Nodes(h) { ColumnRange(m, h, c, n); } else { BranchColumnRange(m, r, c, n); }
  }

  /** Control enters `f` in its first column; without nodes it passes on to `stop`. */
  lemma EntryColumn(m: map<NodeId, nat>, f: Flow, c: nat, stop: Option<NodeId>)
    requires InColumns(m, f, c)
    ensures f != Done ==> Entry(f, stop).Some? && Entry(f, stop).value in Nodes(f)
                          && Entry(f, stop).value in m && m[Entry(f, stop).value] == c
  {
  }

  /** The edge `a -> b` stays inside `nodes` and runs right, or it leaves to `stop`. */
  ghost predicate RunsRight(m: map<NodeId, nat>, nodes: set<NodeId>, end: nat, stop: Option<NodeId>, a: NodeId,
      b: NodeId) {
    && a in m
    && ((b in nodes && b in m && m[a] < m[b]) || (stop == Some(b) && m[a] < end))
  }

  /** A serial node in column `c - 1` before `f`. */
  lemma SerialRunsRight(out: Successors, m: map<NodeId, nat>, f: Flow, c: nat, stop: Option<NodeId>, a: NodeId,
      b: NodeId)
    requires InColumns(m, f, c) && Arc(out, a, b) && Serial(out, a, f, stop)
    requires a in m && m[a] + 1 == c
    ensures RunsRight(m, Nodes(f), EndCol(f, c), stop, a, b)
  {
    EntryColumn(m, f, c, stop);
  }

  /** Every edge that leaves a node of `f` runs to the right, inside `f` or to `stop`. */
  lemma {:induction false} EdgesRunRight(out: Successors, m: map<NodeId, nat>, f: Flow, c: nat, stop: Option<NodeId>,
      a: NodeId, b: NodeId)
    requires Embeds(out, f, stop) && InColumns(m, f, c)
    requires a in Nodes(f) && Arc(out, a, b)
    ensures RunsRight(m, Nodes(f), EndCol(f, c), stop, a, b)
    decreases f, 1
  {
    match f
    case Done =>
    case Step(id, next) =>
      if a == id {
        SerialRunsRight(out, m, next, c + 1, stop, a, b);
      } else {
        EdgesRunRight(out, m, next, c + 1, stop, a, b);
      }
    case Block(_, _, _, _, _) => BlockRunsRight(out, m, f, c, stop, a, b);
    case Loop(_, _, _, _) => LoopRunsRight(out, m, f, c, stop, a, b);
  }

  lemma {:induction false} BlockRunsRight(out: Successors, m: map<NodeId, nat>, f: Flow, c: nat,
      stop: Option<NodeId>, a: NodeId, b: NodeId)
    requires Embeds(out, f, stop) && InColumns(m, f, c) && f.Block?
    requires a in Nodes(f) && Arc(out, a, b)
    ensures RunsRight(m, Nodes(f), EndCol(f, c), stop, a, b)
    decreases f, 0
  {
    var jc := JoinCol(f.branches, c + 1);
    if a == f.split {
      HeadColumn(m, f.branches, c + 1, f.join, b);
    } else if a == f.join {
      SerialRunsRight(out, m, f.next, jc + 1, stop, a, b);
    } else if a in BranchNodes(f.branches) {
      BranchEdgesRunRight(out, m, f.branches, c + 1, f.join, a, b);
    } else {
      EdgesRunRight(out, m, f.next, jc + 1, stop, a, b);
    }
  }

  lemma {:induction false} LoopRunsRight(out: Successors, m: map<NodeId, nat>, f: Flow, c: nat, stop: Option<NodeId>,
      a: NodeId, b: NodeId)
    requires Embeds(out, f, stop) && InColumns(m, f, c) && f.Loop?
    requires a in Nodes(f) && Arc(out, a, b)
    ensures RunsRight(m, Nodes(f), EndCol(f, c), stop, a, b)
    decreases f, 0
  {
    var ec := EndCol(f.body, c + 1);
    if a == f.start {
      SerialRunsRight(out, m, f.body, c + 1, Some(f.end), a, b);
    } else if a == f.end {
      SerialRunsRight(out, m, f.next, ec + 1, stop, a, b);
    } else if a in Nodes(f.body) {
      EdgesRunRight(out, m, f.body, c + 1, Some(f.end), a, b);
    } else {
      EdgesRunRight(out, m, f.next, ec + 1, stop, a, b);
    }
  }

  lemma {:induction false} HeadColumn(m: map<NodeId, nat>, bs: Branches, c: nat, j: NodeId, b: NodeId)
    requires BranchesInColumns(m, bs, c) && b in Heads(bs, j)
    ensures b == j || (b in BranchNodes(bs) && b in m && m[b] == c)
    decreases bs
  {
    match bs
    case NoMore =>
    case Branch(h, r) =>
      EntryColumn(m, h, c, Some(j));
      if b in Heads(r, j) { HeadColumn(m, r, c, j, b); }
  }

  lemma {:induction false} BranchEdgesRunRight(out: Successors, m: map<NodeId, nat>, bs: Branches, c: nat, j: NodeId,
      a: NodeId, b: NodeId)
    requires EmbedsBranches(out, bs, j) && BranchesInColumns(m, bs, c)
    requires a in BranchNodes(bs) && Arc(out, a, b)
    ensures RunsRight(m, BranchNodes(bs), JoinCol(bs, c), Some(j), a, b)
    decreases bs
  {
    match bs
    case NoMore =>
    case Branch(h, r) =>
      if a in Nodes(h) {
        EdgesRunRight(out, m, h, c, Some(j), a, b);
      } else {
        BranchEdgesRunRight(out, m, r, c, j, a, b);
      }
  }

  /** `a` is a predecessor of `b` in the column directly left of `c`. */
  ghost predicate Adjacent(out: Successors, m: map<NodeId, nat>, a: NodeId, b: NodeId, c: nat)
  {
    Arc(out, a, b) && a in m && m[a] + 1 == c
  }

  /** What `ColumnsTight` finds for a node `b` of `nodes` or for `stop`. */
  ghost predicate TightFor(out: Successors, m: map<NodeId, nat>, end: nat, stop: Option<NodeId>, a: NodeId, b: NodeId)
  {
    if stop == Some(b) then Adjacent(out, m, a, b, end) else b in m && Adjacent(out, m, a, b, m[b])
  }

  /** A serial node in column `c - 1` before `f` serves the entry of `f`; the other nodes
      are served by `f` itself. */
  lemma {:induction false} SerialTight(out: Successors, m: map<NodeId, nat>, f: Flow, c: nat, stop: Option<NodeId>,
      s: NodeId, b: NodeId) returns (a: NodeId)
    requires Embeds(out, f, stop) && InColumns(m, f, c)
    requires Serial(out, s, f, stop) && s in m && m[s] + 1 == c
    requires b in Nodes(f) || stop == Some(b)
    ensures a == s || a in Nodes(f)
    ensures TightFor(out, m, EndCol(f, c), stop, a, b)
    decreases f, 2
  {
    EntryColumn(m, f, c, stop);
    if f == Done || (Entry(f, stop) == Some(b) && stop != Some(b)) {
      a := s;
      assert b in out[s];
    } else {
      a := ColumnsTight(out, m, f, c, stop, b);
    }
  }

  /** Every node of `f` but its entry has a predecessor directly left of it, and so does
      `stop` if it stands in the column after `f`. */
  lemma {:induction false} ColumnsTight(out: Successors, m: map<NodeId, nat>, f: Flow, c: nat, stop: Option<NodeId>,
      b: NodeId) returns (a: NodeId)
    requires Embeds(out, f, stop) && InColumns(m, f, c) && f != Done
    requires (b in Nodes(f) && Entry(f, stop) != Some(b)) || stop == Some(b)
    ensures a in Nodes(f)
    ensures TightFor(out, m, EndCol(f, c), stop, a, b)
    decreases f, 1
  {
    match f
    case Step(id, next) => a := SerialTight(out, m, next, c + 1, stop, id, b);
    case Block(_, _, _, _, _) => a := BlockTight(out, m, f, c, stop, b);
    case Loop(s, body, e, next) =>
      if stop != Some(b) && (b == e || b in Nodes(body)) {
        a := SerialTight(out, m, body, c + 1, Some(e), s, b);
      } else {
        a := SerialTight(out, m, next, EndCol(body, c + 1) + 1, stop, e, b);
      }
  }

  lemma {:induction false} BlockTight(out: Successors, m: map<NodeId, nat>, f: Flow, c: nat, stop: Option<NodeId>,
      b: NodeId) returns (a: NodeId)
    requires Embeds(out, f, stop) && InColumns(m, f, c) && f.Block?
    requires (b in Nodes(f) && Entry(f, stop) != Some(b)) || stop == Some(b)
    ensures a in Nodes(f)
    ensures TightFor(out, m, EndCol(f, c), stop, a, b)
    decreases f, 0
  {
    if stop != Some(b) && b == f.join {
      a := JoinTight(out, m, f.branches, c + 1, f.split, f.join);
    } else if stop != Some(b) && b in BranchNodes(f.branches) {
      a := BranchTight(out, m, f.branches, c + 1, f.split, f.join, b);
    } else {
      a := SerialTight(out, m, f.next, JoinCol(f.branches, c + 1) + 1, stop, f.join, b);
    }
  }

  /** The branch that reaches furthest right ends directly left of the join. */
  lemma {:induction false} JoinTight(out: Successors, m: map<NodeId, nat>, bs: Branches, c: nat, s: NodeId,
      j: NodeId) returns (a: NodeId)
    requires EmbedsBranches(out, bs, j) && BranchesInColumns(m, bs, c)
    requires s in out && s in m && m[s] + 1 == c && bs != NoMore
    requires forall k :: k in Heads(bs, j) ==> k in out[s]
    ensures a == s || a in BranchNodes(bs)
    ensures Adjacent(out, m, a, j, JoinCol(bs, c))
    decreases bs
  {
    match bs
    case Branch(h, r) =>
      if r != NoMore && EndCol(h, c) <= JoinCol(r, c) {
        a := JoinTight(out, m, r, c, s, j);
      } else if h == Done {
        a := s;
        assert j in Heads(bs, j);
      } else {
        a := ColumnsTight(out, m, h, c, Some(j), j);
      }
  }

  lemma {:induction false} BranchTight(out: Successors, m: map<NodeId, nat>, bs: Branches, c: nat, s: NodeId,
      j: NodeId, b: NodeId) returns (a: NodeId)
    requires EmbedsBranches(out, bs, j) && BranchesInColumns(m, bs, c)
    requires s in out && s in m && m[s] + 1 == c && b in BranchNodes(bs) && b != j
    requires forall k :: k in Heads(bs, j) ==> k in out[s]
    ensures a == s || a in BranchNodes(bs)
    ensures b in m && Adjacent(out, m, a, b, m[b])
    decreases bs
  {
    match bs
    case Branch(h, r) =>
      if b !in Nodes(h) {
        a := BranchTight(out, m, r, c, s, j, b);
      } else if Entry(h, Some(j)) == Some(b) {
        EntryColumn(m, h, c, Some(j));
        a := s;
        assert b in Heads(bs, j);
      } else {
        a := ColumnsTight(out, m, h, c, Some(j), b);
      }
  }

  lemma DrawnPredecessors(g: Graph, f: Flow, m: map<NodeId, nat>, n: NodeId, p: NodeId)
    requires Draws(g, f) && InColumns(m, f, 0) && n in g.out && p in g.inc[n]
    ensures n in m && p in m && m[p] < m[n]
  {
    assert g.Edge(p, n);
    assert p in g.out.Keys;
    EdgesRunRight(g.out, m, f, 0, None, p, n);
  }

  lemma DrawnTight(g: Graph, f: Flow, m: map<NodeId, nat>, n: NodeId)
    requires Draws(g, f) && InColumns(m, f, 0) && n in g.out && Entry(f, None) != Some(n)
    ensures Tight(g, m, n)
  {
    assert n in g.out.Keys;
    var p := ColumnsTight(g.out, m, f, 0, None, n);
    assert p in g.out.Keys;
    assert g.Edge(p, n);
  }

  /** The longest-path depth of a drawn process is given by the structure of its term. */
  lemma DrawnColumns(g: Graph, f: Flow)
    requires Draws(g, f)
    ensures DepthMap(g, Columns(f, 0)) && InColumns(Columns(f, 0), f, 0)
  {
    var m := Columns(f, 0);
    ColumnsFit(m, f, 0);
    EntryColumn(m, f, 0, None);
    forall n ensures n in m <==> n in g.out {
      assert n in g.out.Keys <==> n in Nodes(f);
    }
    forall n, p | n in m && p in g.inc[n] ensures p in m && m[p] < m[n] {
      DrawnPredecessors(g, f, m, n, p);
    }
    forall n | n in m && m[n] > 0 ensures Tight(g, m, n) {
      DrawnTight(g, f, m, n);
    }
  }

  /** The entry of a drawn process is its only node without predecessor. */
  lemma DrawnRoot(g: Graph, f: Flow)
    requires Draws(g, f)
    ensures Entry(f, None).Some? && Entry(f, None).value in g.out
    ensures forall n :: n in g.out ==> (g.inc[n] == [] <==> Entry(f, None) == Some(n))
  {
    var m := Columns(f, 0);
    DrawnColumns(g, f);
    EntryColumn(m, f, 0, None);
    assert Entry(f, None).value in g.out.Keys;
    forall n | n in g.out ensures g.inc[n] == [] <==> Entry(f, None) == Some(n) {
      if Entry(f, None) == Some(n) {
        if g.inc[n] != [] {
          DrawnPredecessors(g, f, m, n, g.inc[n][0]);
        }
      } else {
        DrawnTight(g, f, m, n);
      }
    }
  }
}
