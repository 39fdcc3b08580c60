/** Which LOOP_END closes a LOOP_START, and what lies between them. */
module Loops {
  import opened Basics
  import opened Graphs
  import opened Depths
  import opened Flows
  import opened Blocks
  import opened Schemas
  import opened Lanes

  type Lists = map<NodeId, seq<NodeId>>

  datatype LoopPair = LoopPair(start: NodeId, end: NodeId, body: set<NodeId>)

  /** A node on the search stack with the loop depth it is entered at. */
  datatype Visit = Visit(id: NodeId, depth: int)

  function Next(out: Lists, id: NodeId): seq<NodeId> {
    if id in out then out[id] else []
  }

  function Push(ts: seq<NodeId>, d: int): (r: seq<Visit>)
    ensures |r| == |ts| && forall i :: 0 <= i < |ts| ==> r[i] == Visit(ts[i], d)
  {
    seq(|ts|, i requires 0 <= i < |ts| => Visit(ts[i], d))
  }

  /** Depth at which control leaves a node that it entered at depth `d`. */
  function Leave(nodes: map<NodeId, Node>, id: NodeId, d: int): int {
    if id !in nodes then d
    else if nodes[id].kind == LoopStart then d + 1
    else if nodes[id].kind == LoopEnd then d - 1
    else d
  }

  /** The search from one LOOP_START: pops the last entry until the stack is empty. */
  ghost function Trace(nodes: map<NodeId, Node>, out: Lists, stack: seq<Visit>, body: set<NodeId>,
      end: Option<NodeId>): (Option<NodeId>, set<NodeId>)
    decreases |nodes.Keys - body|, |stack|
  {
    if stack == [] then (end, body)
    else
      var v, rest := stack[|stack| - 1], stack[..|stack| - 1];
      if v.id !in nodes || v.id in body then Trace(nodes, out, rest, body, end)
      else if nodes[v.id].kind == LoopEnd && v.depth == 0 then Trace(nodes, out, rest, body, Some(v.id))
      else
        assert nodes.Keys - body == (nodes.Keys - (body + {v.id})) + {v.id};
        Trace(nodes, out, rest + Push(Next(out, v.id), Leave(nodes, v.id, v.depth)), body + {v.id}, end)
  }

  ghost function TraceFrom(nodes: map<NodeId, Node>, out: Lists, start: NodeId): (Option<NodeId>, set<NodeId>) {
    Trace(nodes, out, Push(Next(out, start), 0), {}, None)
  }

  method TraceLoop(nodes: map<NodeId, Node>, out: Lists, start: NodeId) returns (end: Option<NodeId>, body: set<NodeId>)
    ensures (end, body) == TraceFrom(nodes, out, start)
  {
    body := {};
    end := None;
    var stack := Push(Next(out, start), 0);
    while stack != []
      invariant Trace(nodes, out, stack, body, end) == TraceFrom(nodes, out, start)
      decreases |nodes.Keys - body|, |stack|
    {
      var v := stack[|stack| - 1];
      stack := stack[..|stack| - 1];
      if v.id !in nodes || v.id in body {
        continue;
      }
      if nodes[v.id].kind == LoopEnd && v.depth == 0 {
        end := Some(v.id);
        continue;
      }
      assert nodes.Keys - body == (nodes.Keys - (body + {v.id})) + {v.id};
      body := body + {v.id};
      stack := stack + Push(Next(out, v.id), Leave(nodes, v.id, v.depth));
    }
  }

  /** Targets of the edges leaving `n`, known or not. */
  function AllTargets(es: seq<SchemaEdge>, n: NodeId): (r: seq<NodeId>) {
    if es == [] then []
    else AllTargets(es[..|es| - 1], n) + (if es[|es| - 1].source == n then [es[|es| - 1].target] else [])
  }

  lemma {:induction false} AllTargetsAreEdges(es: seq<SchemaEdge>, a: NodeId, b: NodeId)
    ensures b in AllTargets(es, a) <==> HasEdge(es, a, b)
  {
    if es != [] {
      AllTargetsAreEdges(es[..|es| - 1], a, b);
      assert es == es[..|es| - 1] + [es[|es| - 1]];
    }
  }

  /** `out` lists the targets of the first `i` edges. */
  ghost predicate TargetsUpTo(out: Lists, es: seq<SchemaEdge>, i: nat)
    requires i <= |es|
  {
    forall n :: Next(out, n) == AllTargets(es[..i], n)
  }

  lemma OneMoreTarget(es: seq<SchemaEdge>, i: nat, n: NodeId)
    requires i < |es|
    ensures AllTargets(es[..i + 1], n) == AllTargets(es[..i], n) + (if es[i].source == n then [es[i].target] else [])
  {
    assert es[..i + 1][..i] == es[..i];
  }

  lemma AddTarget(out: Lists, es: seq<SchemaEdge>, i: nat)
    requires i < |es| && TargetsUpTo(out, es, i)
    ensures TargetsUpTo(out[es[i].source := Next(out, es[i].source) + [es[i].target]], es, i + 1)
  {
    var out' := out[es[i].source := Next(out, es[i].source) + [es[i].target]];
    forall n ensures Next(out', n) == AllTargets(es[..i + 1], n) {
      OneMoreTarget(es, i, n);
      assert Next(out, n) == AllTargets(es[..i], n);
    }
  }

  method BuildTargets(s: Schema) returns (out: Lists)
    ensures forall n :: Next(out, n) == AllTargets(ControlEdges(s.edges), n)
  {
    var es := ControlEdges(s.edges);
    out := map[];
    for i := 0 to |es|
      invariant TargetsUpTo(out, es, i)
    {
      AddTarget(out, es, i);
      out := out[es[i].source := Next(out, es[i].source) + [es[i].target]];
    }
    assert es[..|es|] == es;
  }

  // ---------------------------------------------------------------- block structure

  /** The loop from `s` over `body` to `e` occurs in `f`, at any nesting. */
  ghost predicate HasLoop(f: Flow, s: NodeId, body: Flow, e: NodeId) {
    match f
    case Done => false
    case Step(_, next) => HasLoop(next, s, body, e)
    case Block(_, _, bs, _, next) => BranchesHaveLoop(bs, s, body, e) || HasLoop(next, s, body, e)
    case Loop(s', b', e', next) =>
      (s' == s && b' == body && e' == e) || HasLoop(b', s, body, e) || HasLoop(next, s, body, e)
  }

  ghost predicate BranchesHaveLoop(bs: Branches, s: NodeId, body: Flow, e: NodeId) {
    match bs
    case NoMore => false
    case Branch(h, r) => HasLoop(h, s, body, e) || BranchesHaveLoop(r, s, body, e)
  }

  /** Depth at which control enters `n` when it enters `f` at depth `k`. */
  function LevelOf(f: Flow, k: int, n: NodeId): int {
    match f
    case Done => k
    case Step(id, next) => if n == id then k else LevelOf(next, k, n)
    case Block(s, _, bs, j, next) =>
      if n == s || n == j then k
      else if InBranches(bs, n) then LevelIn(bs, k, n)
      else LevelOf(next, k, n)
    case Loop(s, body, e, next) =>
      if n == s then k
      else if n == e then k + 1
      else if InFlow(body, n) then LevelOf(body, k + 1, n)
      else LevelOf(next, k, n)
  }

  function LevelIn(bs: Branches, k: int, n: NodeId): int {
    match bs
    case NoMore => k
    case Branch(h, r) => if InFlow(h, n) then LevelOf(h, k, n) else LevelIn(r, k, n)
  }

  lemma EntryLevel(f: Flow, k: int, stop: Option<NodeId>, b: NodeId)
    requires Entry(f, stop) == Some(b) && f != Done
    ensures b in Nodes(f) && LevelOf(f, k, b) == k
  {
  }

  /** No loop closes inside `f` at the depth of `f` itself. */
  lemma {:induction false} EndsAreDeeper(nodes: map<NodeId, Node>, f: Flow, k: int, n: NodeId)
    requires Typed(nodes, f) && n in Nodes(f) && n in nodes && nodes[n].kind == LoopEnd
    ensures LevelOf(f, k, n) > k
    decreases f
  {
    match f
    case Step(id, next) => EndsAreDeeper(nodes, next, k, n);
    case Block(s, _, bs, j, next) =>
      if n in BranchNodes(bs) {
        EndsAreDeeperIn(nodes, bs, k, n);
      } else {
        EndsAreDeeper(nodes, next, k, n);
      }
    case Loop(s, body, e, next) =>
      if n in Nodes(body) {
        EndsAreDeeper(nodes, body, k + 1, n);
      } else if n != e {
        EndsAreDeeper(nodes, next, k, n);
      }
  }

  lemma {:induction false} EndsAreDeeperIn(nodes: map<NodeId, Node>, bs: Branches, k: int, n: NodeId)
    requires TypedBranches(nodes, bs) && n in BranchNodes(bs) && n in nodes && nodes[n].kind == LoopEnd
    ensures LevelIn(bs, k, n) > k
    decreases bs
  {
    match bs
    case Branch(h, r) =>
      if n in Nodes(h) {
        EndsAreDeeper(nodes, h, k, n);
      } else {
        EndsAreDeeperIn(nodes, r, k, n);
      }
  }

  /** Where an edge from a node leads: to a node of `f` at its own depth, or out of `f` at
      the depth control entered `f` with. */
  ghost predicate StepsTo(f: Flow, k: int, stop: Option<NodeId>, b: NodeId, d: int) {
    (b in Nodes(f) && LevelOf(f, k, b) == d) || (stop == Some(b) && d == k)
  }

  lemma SerialLevel(out: Successors, id: NodeId, f: Flow, k: int, stop: Option<NodeId>, b: NodeId)
    requires Serial(out, id, f, stop) && Arc(out, id, b)
    ensures StepsTo(f, k, stop, b, k)
  {
    if f != Done {
      EntryLevel(f, k, stop, b);
    }
  }

  /** The depth counter of the search is the nesting depth of the term. */
  lemma {:induction false} EdgesKeepLevel(out: Successors, nodes: map<NodeId, Node>, f: Flow, k: int,
      stop: Option<NodeId>, a: NodeId, b: NodeId)
    requires Embeds(out, f, stop) && Typed(nodes, f) && WellFormed(f) && a in Nodes(f) && Arc(out, a, b)
    ensures StepsTo(f, k, stop, b, Leave(nodes, a, LevelOf(f, k, a)))
    decreases f, 1
  {
    match f
    case Step(id, next) =>
      if a == id {
        SerialLevel(out, id, next, k, stop, b);
      } else {
        EdgesKeepLevel(out, nodes, next, k, stop, a, b);
      }
    case Block(_, _, _, _, _) => BlockKeepsLevel(out, nodes, f, k, stop, a, b);
    case Loop(_, _, _, _) => LoopKeepsLevel(out, nodes, f, k, stop, a, b);
  }

  lemma {:induction false} BlockKeepsLevel(out: Successors, nodes: map<NodeId, Node>, f: Flow, k: int,
      stop: Option<NodeId>, a: NodeId, b: NodeId)
    requires Embeds(out, f, stop) && Typed(nodes, f) && WellFormed(f) && a in Nodes(f) && Arc(out, a, b) && f.Block?
    ensures StepsTo(f, k, stop, b, Leave(nodes, a, LevelOf(f, k, a)))
    decreases f, 0
  {
    if a == f.split {
      HeadLevel(f.branches, k, f.join, b);
    } else if a == f.join {
      SerialLevel(out, a, f.next, k, stop, b);
    } else if a in BranchNodes(f.branches) {
      BranchEdgesKeepLevel(out, nodes, f.branches, k, f.join, a, b);
    } else {
      EdgesKeepLevel(out, nodes, f.next, k, stop, a, b);
    }
  }

  lemma {:induction false} LoopKeepsLevel(out: Successors, nodes: map<NodeId, Node>, f: Flow, k: int,
      stop: Option<NodeId>, a: NodeId, b: NodeId)
    requires Embeds(out, f, stop) && Typed(nodes, f) && WellFormed(f) && a in Nodes(f) && Arc(out, a, b) && f.Loop?
    ensures StepsTo(f, k, stop, b, Leave(nodes, a, LevelOf(f, k, a)))
    decreases f, 0
  {
    if a == f.start {
      SerialLevel(out, a, f.body, k + 1, Some(f.end), b);
    } else if a == f.end {
      SerialLevel(out, a, f.next, k, stop, b);
    } else if a in Nodes(f.body) {
      EdgesKeepLevel(out, nodes, f.body, k + 1, Some(f.end), a, b);
    } else {
      EdgesKeepLevel(out, nodes, f.next, k, stop, a, b);
    }
  }

  ghost predicate BranchStepsTo(bs: Branches, k: int, j: NodeId, b: NodeId, d: int) {
    (b in BranchNodes(bs) && LevelIn(bs, k, b) == d) || (b == j && d == k)
  }

  lemma {:induction false} HeadLevel(bs: Branches, k: int, j: NodeId, b: NodeId)
    requires WellFormedBranches(bs) && b in Heads(bs, j)
    ensures BranchStepsTo(bs, k, j, b, k)
  {
    match bs
    case Branch(h, r) =>
      if b == Entry(h, Some(j)).value {
        if h != Done {
          EntryLevel(h, k, Some(j), b);
        }
      } else {
        HeadLevel(r, k, j, b);
      }
  }

  lemma {:induction false} BranchEdgesKeepLevel(out: Successors, nodes: map<NodeId, Node>, bs: Branches, k: int,
      j: NodeId, a: NodeId, b: NodeId)
    requires EmbedsBranches(out, bs, j) && TypedBranches(nodes, bs) && WellFormedBranches(bs)
             && a in BranchNodes(bs) && Arc(out, a, b)
    ensures BranchStepsTo(bs, k, j, b, Leave(nodes, a, LevelIn(bs, k, a)))
    decreases bs
  {
    match bs
    case Branch(h, r) =>
      if a in Nodes(h) {
        EdgesKeepLevel(out, nodes, h, k, Some(j), a, b);
      } else {
        BranchEdgesKeepLevel(out, nodes, r, k, j, a, b);
      }
  }

  /** A set that holds the entry of `f` and the successors of its own nodes up to `e` holds
      all of `f` and the node after it. */
  lemma {:induction false} Covered(out: Successors, f: Flow, t: NodeId, c: set<NodeId>, e: NodeId)
    requires Embeds(out, f, Some(t)) && e !in Nodes(f) && Entry(f, Some(t)).value in c
    requires forall a, b {:trigger Arc(out, a, b)} :: a in c && a != e && Arc(out, a, b) ==> b in c
    ensures Nodes(f) <= c && t in c
    decreases f, 1
  {
    match f
    case Done =>
    case Step(id, next) =>
      assert Arc(out, id, Entry(next, Some(t)).value);
      Covered(out, next, t, c, e);
    case Block(_, _, _, _, _) => BlockCovered(out, f, t, c, e);
    case Loop(s, body, e', next) =>
      assert Arc(out, s, Entry(body, Some(e')).value);
      Covered(out, body, e', c, e);
      assert Arc(out, e', Entry(next, Some(t)).value);
      Covered(out, next, t, c, e);
  }

  lemma {:induction false} BlockCovered(out: Successors, f: Flow, t: NodeId, c: set<NodeId>, e: NodeId)
    requires Embeds(out, f, Some(t)) && e !in Nodes(f) && Entry(f, Some(t)).value in c && f.Block?
    requires forall a, b {:trigger Arc(out, a, b)} :: a in c && a != e && Arc(out, a, b) ==> b in c
    ensures Nodes(f) <= c && t in c
    decreases f, 0
  {
    forall h | h in Heads(f.branches, f.join) ensures h in c {
      assert Arc(out, f.split, h);
    }
    BranchesCovered(out, f.branches, f.join, c, e);
    assert Arc(out, f.join, Entry(f.next, Some(t)).value);
    Covered(out, f.next, t, c, e);
  }

  lemma {:induction false} BranchesCovered(out: Successors, bs: Branches, j: NodeId, c: set<NodeId>, e: NodeId)
    requires EmbedsBranches(out, bs, j) && e !in BranchNodes(bs) && forall h :: h in Heads(bs, j) ==> h in c
    requires forall a, b {:trigger Arc(out, a, b)} :: a in c && a != e && Arc(out, a, b) ==> b in c
    ensures BranchNodes(bs) <= c && (bs != NoMore ==> j in c)
    decreases bs
  {
    match bs
    case NoMore =>
    case Branch(h, r) =>
      assert Heads(bs, j)[0] in c;
      Covered(out, h, j, c, e);
      forall x | x in Heads(r, j) ensures x in c {
        assert x in Heads(bs, j);
      }
      BranchesCovered(out, r, j, c, e);
  }

  // ---------------------------------------------------------------- the search

  /** What the search needs to know about one loop of the process. */
  ghost predicate LoopFacts(out: Successors, nodes: map<NodeId, Node>, s: NodeId, b: Flow, e: NodeId) {
    && Serial(out, s, b, Some(e)) && Embeds(out, b, Some(e)) && Typed(nodes, b) && WellFormed(b)
    && s in nodes && nodes[s].kind == LoopStart && e in nodes && nodes[e].kind == LoopEnd
    && s != e && s !in Nodes(b) && e !in Nodes(b)
  }

  lemma {:induction false} FindLoop(out: Successors, nodes: map<NodeId, Node>, f: Flow, stop: Option<NodeId>,
      s: NodeId, b: Flow, e: NodeId)
    requires Embeds(out, f, stop) && Typed(nodes, f) && WellFormed(f) && HasLoop(f, s, b, e)
    ensures LoopFacts(out, nodes, s, b, e)
    decreases f
  {
    match f
    case Step(_, next) => FindLoop(out, nodes, next, stop, s, b, e);
    case Block(_, _, bs, j, next) =>
      if BranchesHaveLoop(bs, s, b, e) {
        FindLoopIn(out, nodes, bs, j, s, b, e);
      } else {
        FindLoop(out, nodes, next, stop, s, b, e);
      }
    case Loop(s', b', e', next) =>
      if HasLoop(b', s, b, e) {
        FindLoop(out, nodes, b', Some(e'), s, b, e);
      } else if HasLoop(next, s, b, e) {
        FindLoop(out, nodes, next, stop, s, b, e);
      }
  }

  lemma {:induction false} FindLoopIn(out: Successors, nodes: map<NodeId, Node>, bs: Branches, j: NodeId, s: NodeId,
      b: Flow, e: NodeId)
    requires EmbedsBranches(out, bs, j) && TypedBranches(nodes, bs) && WellFormedBranches(bs)
             && BranchesHaveLoop(bs, s, b, e)
    ensures LoopFacts(out, nodes, s, b, e)
    decreases bs
  {
    match bs
    case Branch(h, r) =>
      if HasLoop(h, s, b, e) {
        FindLoop(out, nodes, h, Some(j), s, b, e);
      } else {
        FindLoopIn(out, nodes, r, j, s, b, e);
      }
  }

  /** The raw target lists and the graph agree on edges between known nodes. */
  ghost predicate ListsOf(nodes: map<NodeId, Node>, lists: Lists, out: Successors) {
    forall n, t {:trigger Arc(out, n, t)} {:trigger t in Next(lists, n)} ::
      n in nodes ==> (Arc(out, n, t) <==> t in Next(lists, n) && t in nodes)
  }

  /** The node is on the stack. */
  ghost predicate Waiting(stack: seq<Visit>, t: NodeId) {
    exists i :: 0 <= i < |stack| && stack[i].id == t
  }

  ghost predicate Found(e: NodeId, stack: seq<Visit>, body: set<NodeId>, end: Option<NodeId>, t: NodeId) {
    t in body || (t == e && end == Some(e)) || Waiting(stack, t)
  }

  /** Every known node on the stack lies in the loop at its own depth, or is the LOOP_END at
      depth 0. */
  ghost predicate StackFits(nodes: map<NodeId, Node>, b: Flow, e: NodeId, stack: seq<Visit>) {
    forall i :: 0 <= i < |stack| && stack[i].id in nodes ==> StepsTo(b, 0, Some(e), stack[i].id, stack[i].depth)
  }

  ghost predicate TraceInv(out: Successors, nodes: map<NodeId, Node>, b: Flow, e: NodeId, stack: seq<Visit>,
      body: set<NodeId>, end: Option<NodeId>) {
    && body <= Nodes(b) && (end == None || end == Some(e))
    && StackFits(nodes, b, e, stack)
    && Found(e, stack, body, end, Entry(b, Some(e)).value)
    && (forall x, t {:trigger Arc(out, x, t)} :: x in body && Arc(out, x, t) ==> Found(e, stack, body, end, t))
  }

  /** Popping a visit whose node has been dealt with loses nothing. */
  lemma PopFound(e: NodeId, stack: seq<Visit>, body: set<NodeId>, end: Option<NodeId>, stack': seq<Visit>,
      body': set<NodeId>, end': Option<NodeId>, t: NodeId)
    requires stack != [] && Found(e, stack, body, end, t)
    requires |stack'| >= |stack| - 1 && stack'[..|stack| - 1] == stack[..|stack| - 1]
    requires body <= body' && (end == Some(e) ==> end' == Some(e))
    requires var v := stack[|stack| - 1].id; v in body' || (v == e && end' == Some(e)) || t != v
    ensures Found(e, stack', body', end', t)
  {
    if Waiting(stack, t) {
      var i :| 0 <= i < |stack| && stack[i].id == t;
      if i < |stack| - 1 {
        assert stack'[..|stack| - 1][i] == stack[..|stack| - 1][i];
        assert stack'[i].id == t;
      }
    }
  }

  /** Dropping the last visit, its node being unknown, done, or the LOOP_END. */
  lemma DropKeeps(out: Successors, nodes: map<NodeId, Node>, b: Flow, e: NodeId, stack: seq<Visit>,
      body: set<NodeId>, end: Option<NodeId>, end': Option<NodeId>)
    requires TraceInv(out, nodes, b, e, stack, body, end) && stack != []
    requires out.Keys <= nodes.Keys && (forall n, t {:trigger Arc(out, n, t)} :: Arc(out, n, t) ==> t in nodes)
    requires Entry(b, Some(e)).value in nodes
    requires var v := stack[|stack| - 1].id; v !in nodes || v in body || (v == e && end' == Some(e))
    requires end' == end || end' == Some(e)
    ensures TraceInv(out, nodes, b, e, stack[..|stack| - 1], body, end')
  {
    var rest := stack[..|stack| - 1];
    PopFound(e, stack, body, end, rest, body, end', Entry(b, Some(e)).value);
    forall x, t {:trigger Arc(out, x, t)} | x in body && Arc(out, x, t) ensures Found(e, rest, body, end', t) {
      PopFound(e, stack, body, end, rest, body, end', t);
    }
  }

  /** The successors of a node of the loop fit on the stack. */
  lemma PushFits(out: Successors, nodes: map<NodeId, Node>, lists: Lists, b: Flow, e: NodeId, rest: seq<Visit>,
      n: NodeId)
    requires Embeds(out, b, Some(e)) && Typed(nodes, b) && WellFormed(b) && e !in Nodes(b)
    requires ListsOf(nodes, lists, out) && StackFits(nodes, b, e, rest) && n in nodes && n in Nodes(b)
    ensures StackFits(nodes, b, e, rest + Push(Next(lists, n), Leave(nodes, n, LevelOf(b, 0, n))))
  {
    var d := Leave(nodes, n, LevelOf(b, 0, n));
    var pushed := Push(Next(lists, n), d);
    forall i | 0 <= i < |pushed| && pushed[i].id in nodes ensures StepsTo(b, 0, Some(e), pushed[i].id, d) {
      assert pushed[i].id in Next(lists, n);
      assert Arc(out, n, pushed[i].id);
      EdgesKeepLevel(out, nodes, b, 0, Some(e), n, pushed[i].id);
    }
  }

  /** The successors of a node are found once they are on the stack. */
  lemma PushFound(out: Successors, nodes: map<NodeId, Node>, lists: Lists, e: NodeId, rest: seq<Visit>,
      body: set<NodeId>, end: Option<NodeId>, n: NodeId, d: int, t: NodeId)
    requires ListsOf(nodes, lists, out) && n in nodes && Arc(out, n, t)
    ensures Found(e, rest + Push(Next(lists, n), d), body, end, t)
  {
    var i :| 0 <= i < |Next(lists, n)| && Next(lists, n)[i] == t;
    assert (rest + Push(Next(lists, n), d))[|rest| + i].id == t;
  }

  /** Taking a node of the loop into the body and its successors onto the stack. */
  lemma TakeKeeps(out: Successors, nodes: map<NodeId, Node>, lists: Lists, s: NodeId, b: Flow, e: NodeId,
      stack: seq<Visit>, body: set<NodeId>, end: Option<NodeId>)
    requires TraceInv(out, nodes, b, e, stack, body, end) && stack != []
    requires ListsOf(nodes, lists, out) && LoopFacts(out, nodes, s, b, e)
    requires var v := stack[|stack| - 1]; v.id in nodes && v.id in Nodes(b) && LevelOf(b, 0, v.id) == v.depth
    ensures
      var v := stack[|stack| - 1];
      TraceInv(out, nodes, b, e, stack[..|stack| - 1] + Push(Next(lists, v.id), Leave(nodes, v.id, v.depth)),
               body + {v.id}, end)
  {
    var v := stack[|stack| - 1];
    var d := Leave(nodes, v.id, v.depth);
    var rest := stack[..|stack| - 1];
    var stack' := rest + Push(Next(lists, v.id), d);
    var body' := body + {v.id};
    assert stack'[..|stack| - 1] == rest;
    PopFound(e, stack, body, end, stack', body', end, Entry(b, Some(e)).value);
    forall x, t {:trigger Arc(out, x, t)} | x in body' && Arc(out, x, t) ensures Found(e, stack', body', end, t) {
      if x in body {
        PopFound(e, stack, body, end, stack', body', end, t);
      } else {
        PushFound(out, nodes, lists, e, rest, body', end, v.id, d, t);
      }
    }
    PushFits(out, nodes, lists, b, e, rest, v.id);
  }

  /** With an empty stack everything reached has been dealt with. */
  lemma TraceDone(out: Successors, nodes: map<NodeId, Node>, s: NodeId, b: Flow, e: NodeId, body: set<NodeId>,
      end: Option<NodeId>)
    requires TraceInv(out, nodes, b, e, [], body, end) && LoopFacts(out, nodes, s, b, e)
    ensures end == Some(e) && body == Nodes(b)
  {
    var c := if end == Some(e) then body + {e} else body;
    forall x, t {:trigger Arc(out, x, t)} | x in c && x != e && Arc(out, x, t) ensures t in c {
      assert Found(e, [], body, end, t);
    }
    Covered(out, b, e, c, e);
    assert e !in body;
  }

  /** The search ends with the loop's own LOOP_END and exactly the nodes of its body. */
  lemma {:induction false} TraceFinds(out: Successors, nodes: map<NodeId, Node>, lists: Lists, s: NodeId, b: Flow,
      e: NodeId, stack: seq<Visit>, body: set<NodeId>, end: Option<NodeId>)
    requires TraceInv(out, nodes, b, e, stack, body, end)
    requires ListsOf(nodes, lists, out) && LoopFacts(out, nodes, s, b, e)
    requires out.Keys <= nodes.Keys && (forall n, t {:trigger Arc(out, n, t)} :: Arc(out, n, t) ==> t in nodes)
    ensures Trace(nodes, lists, stack, body, end) == (Some(e), Nodes(b))
    decreases |nodes.Keys - body|, |stack|
  {
    if stack == [] {
      TraceDone(out, nodes, s, b, e, body, end);
    } else {
      assert Arc(out, s, Entry(b, Some(e)).value);
      var v := stack[|stack| - 1];
      if v.id in nodes && v.id !in body {
        assert StepsTo(b, 0, Some(e), v.id, v.depth);
        if v.id == e {
          DropKeeps(out, nodes, b, e, stack, body, end, Some(e));
          TraceFinds(out, nodes, lists, s, b, e, stack[..|stack| - 1], body, Some(e));
        } else {
          if nodes[v.id].kind == LoopEnd {
            EndsAreDeeper(nodes, b, 0, v.id);
          }
          TakeKeeps(out, nodes, lists, s, b, e, stack, body, end);
          assert nodes.Keys - body == (nodes.Keys - (body + {v.id})) + {v.id};
          TraceFinds(out, nodes, lists, s, b, e,
                     stack[..|stack| - 1] + Push(Next(lists, v.id), Leave(nodes, v.id, v.depth)), body + {v.id}, end);
        }
      } else {
        DropKeeps(out, nodes, b, e, stack, body, end, end);
        TraceFinds(out, nodes, lists, s, b, e, stack[..|stack| - 1], body, end);
      }
    }
  }

  /** From its LOOP_START the search finds the loop. */
  lemma TraceFromFinds(out: Successors, nodes: map<NodeId, Node>, lists: Lists, s: NodeId, b: Flow, e: NodeId)
    requires ListsOf(nodes, lists, out) && LoopFacts(out, nodes, s, b, e)
    requires out.Keys <= nodes.Keys && (forall n, t {:trigger Arc(out, n, t)} :: Arc(out, n, t) ==> t in nodes)
    ensures TraceFrom(nodes, lists, s) == (Some(e), Nodes(b))
  {
    var stack := Push(Next(lists, s), 0);
    var first := Entry(b, Some(e)).value;
    assert Arc(out, s, first);
    var i :| 0 <= i < |Next(lists, s)| && Next(lists, s)[i] == first;
    assert stack[i].id == first;
    forall i | 0 <= i < |stack| && stack[i].id in nodes ensures StepsTo(b, 0, Some(e), stack[i].id, stack[i].depth) {
      assert stack[i].id in Next(lists, s);
      assert Arc(out, s, stack[i].id);
      SerialLevel(out, s, b, 0, Some(e), stack[i].id);
    }
    TraceFinds(out, nodes, lists, s, b, e, stack, {}, None);
  }

  // ---------------------------------------------------------------- pairs

  /** The LOOP_STARTs among the first `k` nodes, in key order. */
  function LoopStarts(s: Schema, k: nat): (r: seq<NodeId>)
    requires k <= |s.ids|
  {
    if k == 0 then []
    else
      var n := s.ids[k - 1];
      LoopStarts(s, k - 1) + (if n in s.nodes && s.nodes[n].kind == LoopStart then [n] else [])
  }

  /** The pair of a LOOP_START: its own LOOP_END and exactly the nodes of its body. */
  ghost predicate IsPair(f: Flow, n: NodeId, p: LoopPair) {
    && p.start == n
    && (exists b, e :: HasLoop(f, n, b, e))
    && (forall b, e :: HasLoop(f, n, b, e) ==> p.end == e && p.body == Nodes(b))
  }

  /** One pair per LOOP_START, in key order. */
  ghost predicate ArePairs(f: Flow, starts: seq<NodeId>, pairs: seq<LoopPair>) {
    |pairs| == |starts| && forall i :: 0 <= i < |pairs| ==> IsPair(f, starts[i], pairs[i])
  }

  /** The pairs found for the first `k` nodes. */
  ghost function PairsUpTo(s: Schema, out: Lists, k: nat): seq<LoopPair>
    requires k <= |s.ids|
  {
    if k == 0 then [] else PairsUpTo(s, out, k - 1) + PairOf(s, out, s.ids[k - 1])
  }

  ghost function PairOf(s: Schema, out: Lists, n: NodeId): seq<LoopPair> {
    if n !in s.nodes || s.nodes[n].kind != LoopStart then []
    else
      var t := TraceFrom(s.nodes, out, n);
      if t.0.Some? then [LoopPair(n, t.0.value, t.1)] else []
  }

  /** All loop pairs. On a block-structured schema: exactly one for every LOOP_START, with
      its own LOOP_END and exactly the nodes between the two. */
  method LoopPairsOf(s: Schema) returns (pairs: seq<LoopPair>)
    requires s.Valid()
    ensures forall f :: BlockStructured(s, f) ==> ArePairs(f, LoopStarts(s, |s.ids|), pairs)
  {
    var out := BuildTargets(s);
    pairs := [];
    for i := 0 to |s.ids|
      invariant pairs == PairsUpTo(s, out, i)
    {
      var n := s.ids[i];
      if n in s.nodes && s.nodes[n].kind == LoopStart {
        var end, body := TraceLoop(s.nodes, out, n);
        if end.Some? {
          pairs := pairs + [LoopPair(n, end.value, body)];
        }
      }
    }
    AllPairsFound(s, out);
  }

  lemma AllPairsFound(s: Schema, lists: Lists)
    requires s.Valid() && forall n :: Next(lists, n) == AllTargets(ControlEdges(s.edges), n)
    ensures forall f :: BlockStructured(s, f) ==> ArePairs(f, LoopStarts(s, |s.ids|), PairsUpTo(s, lists, |s.ids|))
  {
    forall f | BlockStructured(s, f) ensures ArePairs(f, LoopStarts(s, |s.ids|), PairsUpTo(s, lists, |s.ids|)) {
      ListsAreGraph(s, lists);
      PairsComplete(s, lists, GraphOf(s).out, f, |s.ids|);
    }
  }

  lemma ListsAreGraph(s: Schema, lists: Lists)
    requires s.Valid() && forall n :: Next(lists, n) == AllTargets(ControlEdges(s.edges), n)
    ensures ListsOf(s.nodes, lists, GraphOf(s).out)
    ensures forall n, t {:trigger Arc(GraphOf(s).out, n, t)} :: Arc(GraphOf(s).out, n, t) ==> t in s.nodes
  {
    var es := ControlEdges(s.edges);
    var out := GraphOf(s).out;
    forall n, t ensures Arc(out, n, t) <==> n in s.nodes && t in s.nodes && t in Next(lists, n) {
      TargetsAreEdges(es, s.nodes, n, t);
      AllTargetsAreEdges(es, n, t);
    }
  }

  /** What the search knows about the whole process. */
  ghost predicate Searchable(nodes: map<NodeId, Node>, lists: Lists, out: Successors, f: Flow) {
    && Embeds(out, f, None) && Typed(nodes, f) && WellFormed(f)
    && out.Keys == nodes.Keys && nodes.Keys == Nodes(f) && ListsOf(nodes, lists, out)
    && (forall n, t {:trigger Arc(out, n, t)} :: Arc(out, n, t) ==> t in nodes)
  }

  lemma {:induction false} PairsComplete(s: Schema, lists: Lists, out: Successors, f: Flow, k: nat)
    requires k <= |s.ids| && Searchable(s.nodes, lists, out, f)
    ensures ArePairs(f, LoopStarts(s, k), PairsUpTo(s, lists, k))
  {
    if k > 0 {
      PairsComplete(s, lists, out, f, k - 1);
      var n := s.ids[k - 1];
      if n in s.nodes && s.nodes[n].kind == LoopStart {
        PairFound(s, lists, out, f, n);
      }
    }
  }

  lemma PairFound(s: Schema, lists: Lists, out: Successors, f: Flow, n: NodeId)
    requires Searchable(s.nodes, lists, out, f) && n in s.nodes && s.nodes[n].kind == LoopStart
    ensures |PairOf(s, lists, n)| == 1 && IsPair(f, n, PairOf(s, lists, n)[0])
  {
    var b, e := OwnLoop(s.nodes, f, n);
    forall b, e | HasLoop(f, n, b, e) ensures TraceFrom(s.nodes, lists, n) == (Some(e), Nodes(b)) {
      OneLoopFound(s.nodes, lists, out, f, n, b, e);
    }
  }

  lemma OneLoopFound(nodes: map<NodeId, Node>, lists: Lists, out: Successors, f: Flow, n: NodeId, b: Flow, e: NodeId)
    requires Searchable(nodes, lists, out, f) && HasLoop(f, n, b, e)
    ensures TraceFrom(nodes, lists, n) == (Some(e), Nodes(b))
  {
    FindLoop(out, nodes, f, None, n, b, e);
    TraceFromFinds(out, nodes, lists, n, b, e);
  }

  /** Every LOOP_START of a process opens a loop of it. */
  lemma {:induction false} OwnLoop(nodes: map<NodeId, Node>, f: Flow, n: NodeId) returns (b: Flow, e: NodeId)
    requires Typed(nodes, f) && n in Nodes(f) && n in nodes && nodes[n].kind == LoopStart
    ensures HasLoop(f, n, b, e)
    decreases f
  {
    match f
    case Step(_, next) => b, e := OwnLoop(nodes, next, n);
    case Block(_, _, bs, _, next) =>
      if n in BranchNodes(bs) {
        b, e := OwnLoopIn(nodes, bs, n);
      } else {
        b, e := OwnLoop(nodes, next, n);
      }
    case Loop(s', b', e', next) =>
      if n == s' {
        b, e := b', e';
      } else if n in Nodes(b') {
        b, e := OwnLoop(nodes, b', n);
      } else {
        b, e := OwnLoop(nodes, next, n);
      }
  }

  lemma {:induction false} OwnLoopIn(nodes: map<NodeId, Node>, bs: Branches, n: NodeId) returns (b: Flow, e: NodeId)
    requires TypedBranches(nodes, bs) && n in BranchNodes(bs) && n in nodes && nodes[n].kind == LoopStart
    ensures BranchesHaveLoop(bs, n, b, e)
    decreases bs
  {
    match bs
    case Branch(h, r) =>
      if n in Nodes(h) {
        b, e := OwnLoop(nodes, h, n);
      } else {
        b, e := OwnLoopIn(nodes, r, n);
      }
  }

  /** All nodes of a loop. */
  ghost function Extent(s: NodeId, b: Flow, e: NodeId): set<NodeId> {
    {s, e} + Nodes(b)
  }

  lemma {:induction false} LoopNodes(f: Flow, s: NodeId, b: Flow, e: NodeId)
    requires HasLoop(f, s, b, e)
    ensures Extent(s, b, e) <= Nodes(f)
    decreases f
  {
    match f
    case Step(_, next) => LoopNodes(next, s, b, e);
    case Block(_, _, bs, _, next) =>
      if BranchesHaveLoop(bs, s, b, e) { LoopNodesIn(bs, s, b, e); } else { LoopNodes(next, s, b, e); }
    case Loop(_, b', _, next) =>
      if HasLoop(b', s, b, e) {
        LoopNodes(b', s, b, e);
      } else if HasLoop(next, s, b, e) {
        LoopNodes(next, s, b, e);
      }
  }

  lemma {:induction false} LoopNodesIn(bs: Branches, s: NodeId, b: Flow, e: NodeId)
    requires BranchesHaveLoop(bs, s, b, e)
    ensures Extent(s, b, e) <= BranchNodes(bs)
    decreases bs
  {
    match bs
    case Branch(h, r) => if HasLoop(h, s, b, e) { LoopNodes(h, s, b, e); } else { LoopNodesIn(r, s, b, e); }
  }

  /** Two loops have no node in common, or one lies in the body of the other. */
  ghost predicate DisjointOrNested(s1: NodeId, b1: Flow, e1: NodeId, s2: NodeId, b2: Flow, e2: NodeId) {
    || Extent(s1, b1, e1) !! Extent(s2, b2, e2)
    || Extent(s1, b1, e1) <= Nodes(b2)
    || Extent(s2, b2, e2) <= Nodes(b1)
  }

  lemma {:induction false} LoopsNest(f: Flow, s1: NodeId, b1: Flow, e1: NodeId, s2: NodeId, b2: Flow, e2: NodeId)
    requires WellFormed(f) && HasLoop(f, s1, b1, e1) && HasLoop(f, s2, b2, e2) && s1 != s2
    ensures DisjointOrNested(s1, b1, e1, s2, b2, e2)
    decreases f
  {
    match f
    case Step(_, next) => LoopsNest(next, s1, b1, e1, s2, b2, e2);
    case Block(_, _, bs, _, next) =>
      if BranchesHaveLoop(bs, s1, b1, e1) { LoopNodesIn(bs, s1, b1, e1); } else { LoopNodes(next, s1, b1, e1); }
      if BranchesHaveLoop(bs, s2, b2, e2) { LoopNodesIn(bs, s2, b2, e2); } else { LoopNodes(next, s2, b2, e2); }
      if BranchesHaveLoop(bs, s1, b1, e1) && BranchesHaveLoop(bs, s2, b2, e2) {
        LoopsNestIn(bs, s1, b1, e1, s2, b2, e2);
      } else if !BranchesHaveLoop(bs, s1, b1, e1) && !BranchesHaveLoop(bs, s2, b2, e2) {
        LoopsNest(next, s1, b1, e1, s2, b2, e2);
      }
    case Loop(s', b', e', next) =>
      LoopPlace(f, s1, b1, e1);
      LoopPlace(f, s2, b2, e2);
      if HasLoop(b', s1, b1, e1) && HasLoop(b', s2, b2, e2) {
        LoopsNest(b', s1, b1, e1, s2, b2, e2);
      } else if HasLoop(next, s1, b1, e1) && HasLoop(next, s2, b2, e2) {
        LoopsNest(next, s1, b1, e1, s2, b2, e2);
      }
  }

  /** A loop of `f`, itself a loop, is `f` or lies in its body or after it. */
  lemma LoopPlace(f: Flow, s: NodeId, b: Flow, e: NodeId)
    requires f.Loop? && HasLoop(f, s, b, e)
    ensures
      || (s == f.start && b == f.body && e == f.end)
      || (HasLoop(f.body, s, b, e) && Extent(s, b, e) <= Nodes(f.body))
      || (HasLoop(f.next, s, b, e) && Extent(s, b, e) <= Nodes(f.next))
  {
    if HasLoop(f.body, s, b, e) {
      LoopNodes(f.body, s, b, e);
    } else if HasLoop(f.next, s, b, e) {
      LoopNodes(f.next, s, b, e);
    }
  }

  lemma {:induction false} LoopsNestIn(bs: Branches, s1: NodeId, b1: Flow, e1: NodeId, s2: NodeId, b2: Flow, e2: NodeId)
    requires WellFormedBranches(bs) && BranchesHaveLoop(bs, s1, b1, e1) && BranchesHaveLoop(bs, s2, b2, e2) && s1 != s2
    ensures DisjointOrNested(s1, b1, e1, s2, b2, e2)
    decreases bs
  {
    match bs
    case Branch(h, r) =>
      if HasLoop(h, s1, b1, e1) { LoopNodes(h, s1, b1, e1); } else { LoopNodesIn(r, s1, b1, e1); }
      if HasLoop(h, s2, b2, e2) { LoopNodes(h, s2, b2, e2); } else { LoopNodesIn(r, s2, b2, e2); }
      if HasLoop(h, s1, b1, e1) && HasLoop(h, s2, b2, e2) {
        LoopsNest(h, s1, b1, e1, s2, b2, e2);
      } else if !HasLoop(h, s1, b1, e1) && !HasLoop(h, s2, b2, e2) {
        LoopsNestIn(r, s1, b1, e1, s2, b2, e2);
      }
  }

  /** The bodies of two different pairs are disjoint, or one lies inside the other with its
      LOOP_START and LOOP_END. */
  lemma PairsNest(s: Schema, f: Flow, pairs: seq<LoopPair>, i: nat, j: nat)
    requires BlockStructured(s, f) && ArePairs(f, LoopStarts(s, |s.ids|), pairs)
    requires i < |pairs| && j < |pairs| && i != j
    ensures
      var p, q := pairs[i], pairs[j];
      || {p.start, p.end} + p.body !! {q.start, q.end} + q.body
      || {p.start, p.end} + p.body <= q.body
      || {q.start, q.end} + q.body <= p.body
  {
    var starts := LoopStarts(s, |s.ids|);
    StartsDistinct(s, |s.ids|);
    assert IsPair(f, starts[i], pairs[i]) && IsPair(f, starts[j], pairs[j]);
    var b1, e1 :| HasLoop(f, starts[i], b1, e1);
    var b2, e2 :| HasLoop(f, starts[j], b2, e2);
    LoopsNest(f, starts[i], b1, e1, starts[j], b2, e2);
  }

  /** The loop nodes are listed once each, so the pairs have different starts. */
  lemma {:induction false} StartsDistinct(s: Schema, k: nat)
    requires s.Valid() && k <= |s.ids|
    ensures forall n :: n in LoopStarts(s, k) <==> n in s.ids[..k] && n in s.nodes && s.nodes[n].kind == LoopStart
    ensures forall i, j :: 0 <= i < j < |LoopStarts(s, k)| ==> LoopStarts(s, k)[i] != LoopStarts(s, k)[j]
  {
    if k > 0 {
      StartsDistinct(s, k - 1);
      assert s.ids[..k] == s.ids[..k - 1] + [s.ids[k - 1]];
      assert s.ids[k - 1] !in s.ids[..k - 1];
      var r := LoopStarts(s, k - 1);
      assert forall i :: 0 <= i < |r| ==> r[i] in r;
    }
  }

  // ---------------------------------------------------------------- between

  /** Control that enters `f` can come to every node of it. */
  lemma EntryReaches(g: Graph, f: Flow, t: NodeId, n: NodeId)
    requires g.Valid() && Embeds(g.out, f, Some(t)) && n in Nodes(f) && t in g.out && t !in Nodes(f)
    ensures g.Reach(Entry(f, Some(t)).value, n)
  {
    var c := set y | y in g.out && g.Reach(Entry(f, Some(t)).value, y);
    ReachRefl(g, Entry(f, Some(t)).value);
    forall a, b {:trigger Arc(g.out, a, b)} | a in c && a != t && Arc(g.out, a, b) ensures b in c {
      ArcEdge(g, a, b);
      ReachTrans(g, Entry(f, Some(t)).value, a, b);
    }
    Covered(g.out, f, t, c, t);
  }

  /** The body of a loop is what lies strictly between its LOOP_START and its LOOP_END: the
      nodes behind the one from which control can still reach the other. */
  lemma BodyIsBetween(s: Schema, f: Flow, st: NodeId, b: Flow, e: NodeId, n: NodeId)
    requires BlockStructured(s, f) && HasLoop(f, st, b, e)
    ensures n in Nodes(b) <==> GraphOf(s).ReachPlus(st, n) && GraphOf(s).ReachPlus(n, e)
  {
    var g := GraphOf(s);
    var m := Columns(f, 0);
    DrawnColumns(g, f);
    FindLoop(g.out, s.nodes, f, None, st, b, e);
    LoopNodes(f, st, b, e);
    assert e in g.out.Keys;
    if n in Nodes(b) {
      BodyReached(g, st, b, e, n);
    }
    if g.ReachPlus(st, n) && g.ReachPlus(n, e) && n !in Nodes(b) {
      var c := LoopColumn(m, f, 0, st, b, e);
      PlusEscapes(g, m, st, b, c, e, n);
      PlusDeeper(g, m, n, e);
      ReachDeeper(g, m, e, n);
    }
  }

  lemma BodyReached(g: Graph, st: NodeId, b: Flow, e: NodeId, n: NodeId)
    requires g.Valid() && Serial(g.out, st, b, Some(e)) && Embeds(g.out, b, Some(e))
    requires n in Nodes(b) && e in g.out && e !in Nodes(b)
    ensures g.ReachPlus(st, n) && g.ReachPlus(n, e)
  {
    var first := Entry(b, Some(e)).value;
    assert Arc(g.out, st, first);
    ArcEdge(g, st, first);
    EntryReaches(g, b, e, n);
    PlusThenReach(g, st, first, n);
    LeadsToStop(g, b, e, n);
  }

  /** Behind a LOOP_START lie only its body and what follows its LOOP_END. */
  lemma PlusEscapes(g: Graph, m: map<NodeId, nat>, st: NodeId, b: Flow, c: nat, e: NodeId, n: NodeId)
    requires g.Valid() && Serial(g.out, st, b, Some(e)) && Embeds(g.out, b, Some(e)) && InColumns(m, b, c) && e in g.out
    requires g.ReachPlus(st, n)
    ensures n in Nodes(b) || g.Reach(e, n)
  {
    var x :| g.Edge(st, x) && g.Reach(x, n);
    assert x == Entry(b, Some(e)).value;
    HeadEscape(g, m, b, c, e, n);
  }

  /** The column in which the body of a loop starts. */
  lemma {:induction false} LoopColumn(m: map<NodeId, nat>, f: Flow, c: nat, s: NodeId, b: Flow, e: NodeId)
      returns (d: nat)
    requires InColumns(m, f, c) && HasLoop(f, s, b, e)
    ensures InColumns(m, b, d)
    decreases f
  {
    match f
    case Step(_, next) => d := LoopColumn(m, next, c + 1, s, b, e);
    case Block(_, _, bs, _, next) =>
      if BranchesHaveLoop(bs, s, b, e) {
        d := LoopColumnIn(m, bs, c + 1, s, b, e);
      } else {
        d := LoopColumn(m, next, JoinCol(bs, c + 1) + 1, s, b, e);
      }
    case Loop(_, b', _, next) =>
      if HasLoop(b', s, b, e) {
        d := LoopColumn(m, b', c + 1, s, b, e);
      } else if HasLoop(next, s, b, e) {
        d := LoopColumn(m, next, EndCol(b', c + 1) + 1, s, b, e);
      } else {
        d := c + 1;
      }
  }

  lemma {:induction false} LoopColumnIn(m: map<NodeId, nat>, bs: Branches, c: nat, s: NodeId, b: Flow,
      e: NodeId) returns (d: nat)
    requires BranchesInColumns(m, bs, c) && BranchesHaveLoop(bs, s, b, e)
    ensures InColumns(m, b, d)
    decreases bs
  {
    match bs
    case Branch(h, r) =>
      if HasLoop(h, s, b, e) {
        d := LoopColumn(m, h, c, s, b, e);
      } else {
        d := LoopColumnIn(m, r, c, s, b, e);
      }
  }
}
