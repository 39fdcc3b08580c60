/** Staff rules: who may perform a step, and why some steps must not be removed. */
module StaffRules {
  import opened Basics

  type StepId = s: string | s != "" witness "step"
  type AgentId = string

  datatype RuleKind = Role | OrgUnit | AgentRef | Performer | Supervisor | And | Or | Except

  /** A rule term; `ref` is empty where a term names nothing. */
  datatype StaffRule = StaffRule(kind: RuleKind, ref: string, recursive: bool, operands: seq<StaffRule>)

  // ---------------------------------------------------------------- the analysis

  /** The steps the four-eyes parts of `rule` refer to: supervisor terms everywhere, performer
      terms where an odd number of right-hand operands of EXCEPT lies above them. */
  function FourEyesRefs(rule: StaffRule, excluding: bool): (r: seq<StepId>)
    decreases rule, |rule.operands| + 1
  {
    (if rule.ref != "" && (rule.kind == Supervisor || (rule.kind == Performer && excluding)) then [rule.ref] else [])
    + OperandRefs(rule, excluding, 0)
  }

  /** `flatMap` over the operands from the `i`-th on. */
  function OperandRefs(rule: StaffRule, excluding: bool, i: nat): (r: seq<StepId>)
    requires i <= |rule.operands|
    decreases rule, |rule.operands| - i
  {
    if i == |rule.operands| then []
    else FourEyesRefs(rule.operands[i], Flips(rule, i) != excluding) + OperandRefs(rule, excluding, i + 1)
  }

  predicate Flips(rule: StaffRule, i: nat) {
    rule.kind == Except && i >= 1
  }

  lemma {:induction false} OperandRefsIncluded(rule: StaffRule, excluding: bool, k: nat, i: nat, x: StepId)
    requires k <= i < |rule.operands| && x in FourEyesRefs(rule.operands[i], Flips(rule, i) != excluding)
    ensures x in OperandRefs(rule, excluding, k)
    decreases i - k
  {
    if k < i {
      OperandRefsIncluded(rule, excluding, k + 1, i, x);
    }
  }

  /** A step no part of the rule refers to is not referred to by any operand either. */
  lemma OperandFree(rule: StaffRule, excluding: bool, i: nat, x: StepId)
    requires i < |rule.operands| && x !in FourEyesRefs(rule, excluding)
    ensures x !in FourEyesRefs(rule.operands[i], Flips(rule, i) != excluding)
  {
    if x in FourEyesRefs(rule.operands[i], Flips(rule, i) != excluding) {
      OperandRefsIncluded(rule, excluding, 0, i, x);
    }
  }

  /** A way down from a rule to one of its terms: which operand to take at every step. */
  type Path = seq<nat>

  predicate IsPath(rule: StaffRule, path: Path) {
    path == [] || (path[0] < |rule.operands| && IsPath(rule.operands[path[0]], path[1..]))
  }

  function TermAt(rule: StaffRule, path: Path): StaffRule
    requires IsPath(rule, path)
  {
    if path == [] then rule else TermAt(rule.operands[path[0]], path[1..])
  }

  /** How often the way leads into what an EXCEPT takes away: any operand but its first. */
  function Exclusions(rule: StaffRule, path: Path): nat
    requires IsPath(rule, path)
  {
    if path == [] then 0
    else (if rule.kind == Except && path[0] > 0 then 1 else 0) + Exclusions(rule.operands[path[0]], path[1..])
  }

  /** The term at the end of the way is a supervisor term for `x`, or a performer term for it on an
      excluding side. */
  ghost predicate RefersAt(rule: StaffRule, path: Path, excluding: bool, x: StepId) {
    && IsPath(rule, path) && TermAt(rule, path).ref == x
    && (|| TermAt(rule, path).kind == Supervisor
        || (TermAt(rule, path).kind == Performer && (Exclusions(rule, path) % 2 == 1) != excluding))
  }

  lemma {:induction false} RefersIsListed(rule: StaffRule, path: Path, excluding: bool, x: StepId)
    requires RefersAt(rule, path, excluding, x)
    ensures x in FourEyesRefs(rule, excluding)
    decreases |path|
  {
    if path != [] {
      var i := path[0];
      RefersIsListed(rule.operands[i], path[1..], Flips(rule, i) != excluding, x);
      OperandRefsIncluded(rule, excluding, 0, i, x);
    }
  }

  lemma {:induction false} ListedRefers(rule: StaffRule, excluding: bool, x: StepId) returns (path: Path)
    requires x in FourEyesRefs(rule, excluding)
    ensures RefersAt(rule, path, excluding, x)
    decreases rule, |rule.operands| + 1
  {
    if x in OperandRefs(rule, excluding, 0) {
      path := OperandListed(rule, excluding, 0, x);
    } else {
      path := [];
    }
  }

  lemma {:induction false} OperandListed(rule: StaffRule, excluding: bool, i: nat, x: StepId) returns (path: Path)
    requires i <= |rule.operands| && x in OperandRefs(rule, excluding, i)
    ensures RefersAt(rule, path, excluding, x)
    decreases rule, |rule.operands| - i
  {
    if x in FourEyesRefs(rule.operands[i], Flips(rule, i) != excluding) {
      var rest := ListedRefers(rule.operands[i], Flips(rule, i) != excluding, x);
      path := [i] + rest;
      assert path[1..] == rest;
    } else {
      path := OperandListed(rule, excluding, i + 1, x);
    }
  }

  /** Some part of the rule refers to `x`. */
  ghost predicate Refers(rule: StaffRule, x: StepId) {
    exists path :: RefersAt(rule, path, false, x)
  }

  /** Exactly the steps are listed that a four-eyes part of the rule refers to. */
  lemma RefsExact(rule: StaffRule, x: StepId)
    ensures x in FourEyesRefs(rule, false) <==> Refers(rule, x)
  {
    if x in FourEyesRefs(rule, false) {
      var path := ListedRefers(rule, false, x);
    }
    if path :| RefersAt(rule, path, false, x) {
      RefersIsListed(rule, path, false, x);
    }
  }

  // ---------------------------------------------------------------- who satisfies a rule

  datatype Agent = Agent(roles: set<string>, unit: string, deputy: string)

  datatype Unit = Unit(parent: string, manager: string)

  datatype Org = Org(agents: map<AgentId, Agent>, units: map<string, Unit>) {
    /** The unit `k` levels above `u`. */
    function Above(u: string, k: nat): Option<string>
      decreases k
    {
      if k == 0 then Some(u)
      else if u !in units || units[u].parent == "" then None
      else Above(units[u].parent, k - 1)
    }

    /** Nearest manager from `u` upwards who is not the performer. */
    function ManagerAbove(u: string, performer: AgentId, seen: set<string>): Option<AgentId>
      decreases |units.Keys - seen|
    {
      if u == "" || u in seen || u !in units then None
      else if units[u].manager != "" && units[u].manager != performer then Some(units[u].manager)
      else
        assert units.Keys - seen == (units.Keys - (seen + {u})) + {u};
        ManagerAbove(units[u].parent, performer, seen + {u})
    }
  }

  /** Units, each the parent of the one before. */
  ghost predicate WayUp(org: Org, way: seq<string>) {
    way != [] && forall i :: 0 <= i < |way| - 1 ==> ParentOf(org, way[i], way[i + 1])
  }

  ghost predicate ParentOf(org: Org, u: string, p: string) {
    u in org.units && p != "" && org.units[u].parent == p
  }

  lemma {:induction false} AboveIsWayUp(org: Org, u: string, k: nat, v: string)
    ensures org.Above(u, k) == Some(v) <==>
      exists way :: WayUp(org, way) && |way| == k + 1 && way[0] == u && way[k] == v
    decreases k
  {
    if k == 0 {
      if u == v {
        assert WayUp(org, [u]) && [u][0] == u;
      }
    } else {
      if org.Above(u, k) == Some(v) {
        var p := org.units[u].parent;
        AboveIsWayUp(org, p, k - 1, v);
        var way :| WayUp(org, way) && |way| == k && way[0] == p && way[k - 1] == v;
        StepUp(org, u, way);
      }
      if way :| WayUp(org, way) && |way| == k + 1 && way[0] == u && way[k] == v {
        assert ParentOf(org, way[0], way[0 + 1]);
        RestOfWay(org, way);
        AboveIsWayUp(org, way[1], k - 1, v);
      }
    }
  }

  lemma StepUp(org: Org, u: string, way: seq<string>)
    requires WayUp(org, way) && ParentOf(org, u, way[0])
    ensures WayUp(org, [u] + way)
  {
    var w := [u] + way;
    forall i | 0 <= i < |w| - 1 ensures ParentOf(org, w[i], w[i + 1]) {
      if i > 0 {
        assert ParentOf(org, way[i - 1], way[i - 1 + 1]);
      }
    }
  }

  lemma RestOfWay(org: Org, way: seq<string>)
    requires WayUp(org, way) && |way| > 1
    ensures WayUp(org, way[1..])
  {
    var w := way[1..];
    forall i | 0 <= i < |w| - 1 ensures ParentOf(org, w[i], w[i + 1]) {
      assert ParentOf(org, way[i + 1], way[i + 1 + 1]);
    }
  }

  /** A unit without a manager other than the performer. */
  ghost predicate Skipped(org: Org, u: string, performer: AgentId) {
    u in org.units && org.units[u].manager in {"", performer}
  }

  /** The manager found is the first on the way up from the performer's unit who is not the performer. */
  lemma {:induction false} ManagerIsNearest(org: Org, u: string, performer: AgentId, seen: set<string>)
      returns (way: seq<string>)
    requires org.ManagerAbove(u, performer, seen).Some?
    ensures WayUp(org, way) && way[0] == u && way[|way| - 1] in org.units
    ensures org.ManagerAbove(u, performer, seen) == Some(org.units[way[|way| - 1]].manager)
    ensures !Skipped(org, way[|way| - 1], performer)
    ensures forall i :: 0 <= i < |way| - 1 ==> Skipped(org, way[i], performer)
    decreases |org.units.Keys - seen|
  {
    if !Skipped(org, u, performer) {
      way := [u];
    } else {
      OneLess(org.units.Keys, seen, u);
      var rest := ManagerIsNearest(org, org.units[u].parent, performer, seen + {u});
      StepUp(org, u, rest);
      way := [u] + rest;
    }
  }

  /** If there is such a manager on the way up, one is found. */
  lemma {:induction false} ManagerFound(org: Org, way: seq<string>, performer: AgentId, seen: set<string>)
    requires WayUp(org, way) && way[0] != "" && way[|way| - 1] in org.units && !Skipped(org, way[|way| - 1], performer)
    requires forall i, j :: 0 <= i < j < |way| ==> way[i] != way[j]
    requires forall i :: 0 <= i < |way| ==> way[i] !in seen
    ensures org.ManagerAbove(way[0], performer, seen).Some?
    decreases |way|
  {
    if |way| > 1 && Skipped(org, way[0], performer) {
      assert ParentOf(org, way[0], way[0 + 1]);
      RestOfWay(org, way);
      ManagerFound(org, way[1..], performer, seen + {way[0]});
    } else if |way| > 1 {
      assert ParentOf(org, way[0], way[0 + 1]);
    }
  }

  /** Who performed which step. */
  type Performers = map<string, AgentId>

  /** Agent `a` satisfies `rule` in a case with these performers. */
  ghost predicate May(org: Org, rule: StaffRule, performed: Performers, a: AgentId) {
    match rule.kind
    case Role => a in org.agents && rule.ref in org.agents[a].roles
    case OrgUnit =>
      && a in org.agents
      && exists k: nat :: (k == 0 || rule.recursive) && org.Above(org.agents[a].unit, k) == Some(rule.ref)
    case AgentRef => a == rule.ref && a in org.agents
    case Performer => rule.ref != "" && rule.ref in performed && performed[rule.ref] == a
    case Supervisor =>
      && rule.ref != "" && rule.ref in performed && performed[rule.ref] in org.agents
      && org.ManagerAbove(org.agents[performed[rule.ref]].unit, performed[rule.ref], {}) == Some(a)
    case And => rule.operands != [] && forall i :: 0 <= i < |rule.operands| ==> May(org, rule.operands[i], performed, a)
    case Or => exists i :: 0 <= i < |rule.operands| && May(org, rule.operands[i], performed, a)
    case Except =>
      && rule.operands != [] && May(org, rule.operands[0], performed, a)
      && (|rule.operands| >= 2 ==> !May(org, rule.operands[1], performed, a))
  }

  /** The same case without a performer of `x`. */
  function Unperformed(performed: Performers, x: string): Performers {
    performed - {x}
  }

  /** Polarity: where `x` is not referred to, losing the performer of `x` can only shrink the
      set of those who satisfy the rule; on an excluding side it can only grow. */
  lemma {:induction false} RulePolarity(org: Org, rule: StaffRule, excluding: bool, performed: Performers, x: StepId,
      a: AgentId)
    requires x !in FourEyesRefs(rule, excluding)
    ensures !excluding && May(org, rule, Unperformed(performed, x), a) ==> May(org, rule, performed, a)
    ensures excluding && May(org, rule, performed, a) ==> May(org, rule, Unperformed(performed, x), a)
    decreases rule
  {
    forall i | 0 <= i < |rule.operands|
      ensures
        var e := Flips(rule, i) != excluding;
        && (!e && May(org, rule.operands[i], Unperformed(performed, x), a) ==> May(org, rule.operands[i], performed, a))
        && (e && May(org, rule.operands[i], performed, a) ==> May(org, rule.operands[i], Unperformed(performed, x), a))
    {
      OperandFree(rule, excluding, i, x);
      RulePolarity(org, rule.operands[i], Flips(rule, i) != excluding, performed, x, a);
    }
  }

  // ---------------------------------------------------------------- who is kept out

  /** The EXCEPT operand above the `i`-th operand that is evaluated to decide who is kept out;
      an exclusion inside an exclusion selects again. */
  function Subtracted(rule: StaffRule, i: nat, sub: Option<StaffRule>): Option<StaffRule>
    requires i < |rule.operands|
  {
    if !Flips(rule, i) then sub else if sub.Some? then None else Some(rule.operands[i])
  }

  /** `p` performed a step that the four-eyes parts of the rule keep from its performer. */
  ghost predicate Barred(org: Org, rule: StaffRule, performed: Performers, sub: Option<StaffRule>, p: AgentId)
    decreases rule
  {
    || (rule.ref != "" && rule.ref in performed && performed[rule.ref] == p
        && (rule.kind == Supervisor || (rule.kind == Performer && sub.Some? && May(org, sub.value, performed, p))))
    || (exists i :: 0 <= i < |rule.operands| && Barred(org, rule.operands[i], performed, Subtracted(rule, i, sub), p))
  }

  /** Nobody who is kept out is let in by losing the performer of a step not referred to. */
  lemma {:induction false} BarredStays(org: Org, rule: StaffRule, performed: Performers, sub: Option<StaffRule>,
      x: StepId, p: AgentId)
    requires x !in FourEyesRefs(rule, sub.Some?) && (sub.Some? ==> x !in FourEyesRefs(sub.value, true))
    requires Barred(org, rule, performed, sub, p)
    ensures Barred(org, rule, Unperformed(performed, x), sub, p)
    decreases rule
  {
    if i :| 0 <= i < |rule.operands| && Barred(org, rule.operands[i], performed, Subtracted(rule, i, sub), p) {
      OperandFree(rule, sub.Some?, i, x);
      BarredStays(org, rule.operands[i], performed, Subtracted(rule, i, sub), x, p);
    } else if sub.Some? {
      RulePolarity(org, sub.value, true, performed, x, p);
    }
  }

  // ---------------------------------------------------------------- who may perform a step

  datatype Stage = Stage(functional: bool, rule: StaffRule)

  /** The rules of a schema by step, in key order, and the escalation stages. */
  datatype Rules = Rules(ids: seq<StepId>, of: map<StepId, StaffRule>, stages: map<StepId, seq<Stage>>) {
    ghost predicate Valid() {
      forall n :: n in of <==> n in ids
    }
  }

  /** A running case: performers, fired escalation stages, absent agents. */
  datatype Case = Case(performedBy: Performers, fired: map<StepId, nat>, absent: set<AgentId>)

  /** The agent `k` substitutions behind `a`, each across an absent agent. */
  function Deputy(org: Org, absent: set<AgentId>, a: AgentId, k: nat): Option<AgentId>
    decreases k
  {
    if k == 0 then Some(a)
    else if a !in org.agents || org.agents[a].deputy == "" || a !in absent then None
    else Deputy(org, absent, org.agents[a].deputy, k - 1)
  }

  /** Agents, each the deputy of the one before, who is absent. */
  ghost predicate Substitutions(org: Org, absent: set<AgentId>, chain: seq<AgentId>) {
    chain != [] && forall i :: 0 <= i < |chain| - 1 ==> DeputyFor(org, absent, chain[i], chain[i + 1])
  }

  ghost predicate DeputyFor(org: Org, absent: set<AgentId>, a: AgentId, b: AgentId) {
    a in org.agents && a in absent && b != "" && org.agents[a].deputy == b
  }

  lemma {:induction false} DeputyIsChain(org: Org, absent: set<AgentId>, a: AgentId, k: nat, b: AgentId)
    ensures Deputy(org, absent, a, k) == Some(b) <==>
      exists chain :: Substitutions(org, absent, chain) && |chain| == k + 1 && chain[0] == a && chain[k] == b
    decreases k
  {
    if k == 0 {
      if a == b {
        assert Substitutions(org, absent, [a]) && [a][0] == a;
      }
    } else {
      if Deputy(org, absent, a, k) == Some(b) {
        var d := org.agents[a].deputy;
        DeputyIsChain(org, absent, d, k - 1, b);
        var chain :| Substitutions(org, absent, chain) && |chain| == k && chain[0] == d && chain[k - 1] == b;
        Substituted(org, absent, a, chain);
      }
      if chain :| Substitutions(org, absent, chain) && |chain| == k + 1 && chain[0] == a && chain[k] == b {
        assert DeputyFor(org, absent, chain[0], chain[0 + 1]);
        RestOfChain(org, absent, chain);
        DeputyIsChain(org, absent, chain[1], k - 1, b);
      }
    }
  }

  lemma Substituted(org: Org, absent: set<AgentId>, a: AgentId, chain: seq<AgentId>)
    requires Substitutions(org, absent, chain) && DeputyFor(org, absent, a, chain[0])
    ensures Substitutions(org, absent, [a] + chain)
  {
    var c := [a] + chain;
    forall i | 0 <= i < |c| - 1 ensures DeputyFor(org, absent, c[i], c[i + 1]) {
      if i > 0 {
        assert DeputyFor(org, absent, chain[i - 1], chain[i - 1 + 1]);
      }
    }
  }

  lemma RestOfChain(org: Org, absent: set<AgentId>, chain: seq<AgentId>)
    requires Substitutions(org, absent, chain) && |chain| > 1
    ensures Substitutions(org, absent, chain[1..])
  {
    var c := chain[1..];
    forall i | 0 <= i < |c| - 1 ensures DeputyFor(org, absent, c[i], c[i + 1]) {
      assert DeputyFor(org, absent, chain[i + 1], chain[i + 1 + 1]);
    }
  }

  ghost predicate StageAdds(org: Org, rs: Rules, n: StepId, c: Case, a: AgentId, i: nat)
    requires n in rs.of
  {
    && n in rs.stages && i < |rs.stages[n]| && n in c.fired && i < c.fired[n]
    && rs.stages[n][i].functional && May(org, rs.stages[n][i].rule, c.performedBy, a)
    && !Barred(org, rs.of[n], c.performedBy, None, a)
  }

  /** By the rule itself or by a fired functional escalation stage. */
  ghost predicate InBase(org: Org, rs: Rules, n: StepId, c: Case, a: AgentId) {
    n in rs.of && (May(org, rs.of[n], c.performedBy, a) || exists i: nat :: StageAdds(org, rs, n, c, a, i))
  }

  /** Agent `a` may perform step `n`: in the base set, or as deputy along a chain of absent
      agents, unless kept out by the rule's four-eyes parts. */
  ghost predicate Eligible(org: Org, rs: Rules, n: StepId, c: Case, a: AgentId) {
    || InBase(org, rs, n, c, a)
    || (n in rs.of && !Barred(org, rs.of[n], c.performedBy, None, a)
        && exists b, k: nat :: InBase(org, rs, n, c, b) && Deputy(org, c.absent, b, k) == Some(a))
  }

  // ---------------------------------------------------------------- removing a step

  /** String order of the client's `sort`. */
  predicate Less(a: string, b: string) {
    if b == "" then false
    else if a == "" then true
    else a[0] < b[0] || (a[0] == b[0] && Less(a[1..], b[1..]))
  }

  /** First element after sorting. */
  function Smallest(s: seq<StepId>): (r: Option<StepId>) {
    if s == [] then None
    else
      var b := Smallest(s[1..]);
      if b.None? || !Less(b.value, s[0]) then Some(s[0]) else b
  }

  lemma {:induction false} LessTotal(a: string, b: string)
    ensures Less(a, b) || Less(b, a) || a == b
    ensures !(Less(a, b) && Less(b, a))
    decreases |a|
  {
    if a != "" && b != "" {
      LessTotal(a[1..], b[1..]);
      assert a == [a[0]] + a[1..] && b == [b[0]] + b[1..];
    }
  }

  lemma {:induction false} LessTransitive(a: string, b: string, c: string)
    requires Less(a, b) && Less(b, c)
    ensures Less(a, c)
    decreases |a|
  {
    if a != "" && a[0] == b[0] && b[0] == c[0] {
      LessTransitive(a[1..], b[1..], c[1..]);
    }
  }

  lemma {:induction false} SmallestIsLeast(s: seq<StepId>)
    ensures Smallest(s).None? <==> s == []
    ensures Smallest(s).Some? ==> Smallest(s).value in s && forall x :: x in s ==> !Less(x, Smallest(s).value)
  {
    if s != [] {
      SmallestIsLeast(s[1..]);
      assert s == [s[0]] + s[1..];
      var m := Smallest(s).value;
      forall x | x in s ensures !Less(x, m) {
        LessTotal(x, m);
        var b := Smallest(s[1..]);
        if b.Some? && Less(x, m) {
          LessTotal(b.value, s[0]);
          LessTotal(x, b.value);
          if x != s[0] && m == s[0] && b.value != s[0] {
            LessTransitive(x, m, b.value);
          }
        }
      }
    }
  }

  datatype Relation = Carries | Referenced

  datatype BlockReason = BlockReason(other: StepId, relation: Relation)

  function RefsOf(rs: Rules, n: StepId): seq<StepId> {
    if n in rs.of then FourEyesRefs(rs.of[n], false) else []
  }

  /** The other steps whose rules refer to `x`. */
  function Referrers(rs: Rules, ids: seq<StepId>, x: StepId): (r: seq<StepId>)
    ensures forall n :: n in r <==> n in ids && n != x && x in RefsOf(rs, n)
  {
    if ids == [] then []
    else
      assert ids == [ids[0]] + ids[1..];
      (if ids[0] != x && x in RefsOf(rs, ids[0]) then [ids[0]] else []) + Referrers(rs, ids[1..], x)
  }

  /** Why step `x` cannot be removed ad hoc, if it cannot. */
  function AdhocDeleteBlockReason(rs: Rules, x: StepId): Option<BlockReason> {
    match Smallest(RefsOf(rs, x))
    case Some(o) => Some(BlockReason(o, Carries))
    case None =>
      match Smallest(Referrers(rs, rs.ids, x))
      case Some(o) => Some(BlockReason(o, Referenced))
      case None => None
  }

  /** The rule of step `n`, if it has one, refers to `x`. */
  ghost predicate StepRefers(rs: Rules, n: StepId, x: StepId) {
    n in rs.of && Refers(rs.of[n], x)
  }

  ghost predicate RefersToNone(rs: Rules, x: StepId) {
    forall y: StepId :: !StepRefers(rs, x, y)
  }

  /** `o` is the first in string order of the steps that the rule of `x` refers to. */
  ghost predicate FirstReferred(rs: Rules, x: StepId, o: StepId) {
    StepRefers(rs, x, o) && forall y: StepId :: StepRefers(rs, x, y) ==> !Less(y, o)
  }

  ghost predicate ReferredByNone(rs: Rules, x: StepId) {
    forall n: StepId :: StepRefers(rs, n, x) ==> n == x
  }

  /** `o` is the first in string order of the other steps whose rules refer to `x`. */
  ghost predicate FirstReferrer(rs: Rules, x: StepId, o: StepId) {
    StepRefers(rs, o, x) && o != x && forall n: StepId :: StepRefers(rs, n, x) && n != x ==> !Less(n, o)
  }

  /** A step may go exactly if its own rule refers to no step and the rule of no other step refers to
      it; otherwise the reason names the smallest step on the other end. */
  lemma BlockReasonSpec(rs: Rules, x: StepId)
    requires rs.Valid()
    ensures
      match AdhocDeleteBlockReason(rs, x)
      case None => RefersToNone(rs, x) && ReferredByNone(rs, x)
      case Some(r) =>
        if r.relation == Carries then FirstReferred(rs, x, r.other)
        else RefersToNone(rs, x) && FirstReferrer(rs, x, r.other)
  {
    ReasonListed(rs, x);
    forall n: StepId, y: StepId ensures y in RefsOf(rs, n) <==> StepRefers(rs, n, y) {
      ListedIffRefers(rs, n, y);
    }
  }

  lemma ListedIffRefers(rs: Rules, n: StepId, y: StepId)
    ensures y in RefsOf(rs, n) <==> StepRefers(rs, n, y)
    ensures n in rs.of ==> (y in FourEyesRefs(rs.of[n], false) <==> StepRefers(rs, n, y))
  {
    if n in rs.of {
      RefsExact(rs.of[n], y);
    }
  }

  /** The reason in terms of the lists. */
  lemma ReasonListed(rs: Rules, x: StepId)
    requires rs.Valid()
    ensures
      var r := AdhocDeleteBlockReason(rs, x);
      && (r.None? <==> RefsOf(rs, x) == [] && forall n :: n in rs.of && n != x ==> x !in FourEyesRefs(rs.of[n], false))
      && (r.Some? ==>
          var o := r.value.other;
          if r.value.relation == Carries
          then o in RefsOf(rs, x) && forall y :: y in RefsOf(rs, x) ==> !Less(y, o)
          else
            && o in rs.of && o != x && x in FourEyesRefs(rs.of[o], false)
            && forall n :: n in rs.of && n != x && x in FourEyesRefs(rs.of[n], false) ==> !Less(n, o))
  {
    SmallestIsLeast(RefsOf(rs, x));
    SmallestIsLeast(Referrers(rs, rs.ids, x));
    forall n | n in rs.of && n != x && x in FourEyesRefs(rs.of[n], false) ensures n in Referrers(rs, rs.ids, x) {
      assert x in RefsOf(rs, n);
    }
  }

  /** A rule without any term that names a step; escalation stages only have such rules. */
  ghost predicate NamesNoStep(rule: StaffRule) {
    && rule.kind !in {Performer, Supervisor}
    && forall i :: 0 <= i < |rule.operands| ==> NamesNoStep(rule.operands[i])
  }

  lemma {:induction false} NoStepNoChange(org: Org, rule: StaffRule, performed: Performers, performed': Performers,
      a: AgentId)
    requires NamesNoStep(rule)
    ensures May(org, rule, performed, a) == May(org, rule, performed', a)
    decreases rule
  {
    forall i | 0 <= i < |rule.operands|
      ensures May(org, rule.operands[i], performed, a) == May(org, rule.operands[i], performed', a)
    {
      NoStepNoChange(org, rule.operands[i], performed, performed', a);
    }
  }

  /** The rules after step `x` was removed. */
  function Without(rs: Rules, x: StepId): Rules {
    Rules(Drop(rs.ids, x), rs.of - {x}, rs.stages - {x})
  }

  function Drop(ids: seq<StepId>, x: StepId): (r: seq<StepId>)
    ensures forall n :: n in r <==> n in ids && n != x
  {
    if ids == [] then []
    else
      assert ids == [ids[0]] + ids[1..];
      (if ids[0] == x then [] else [ids[0]]) + Drop(ids[1..], x)
  }

  ghost predicate StagesNameNoStep(rs: Rules) {
    forall n, i :: n in rs.stages && 0 <= i < |rs.stages[n]| ==> NamesNoStep(rs.stages[n][i].rule)
  }

  lemma BaseShrinks(org: Org, rs: Rules, n: StepId, x: StepId, c: Case, a: AgentId)
    requires n in rs.of && n != x && x !in FourEyesRefs(rs.of[n], false) && StagesNameNoStep(rs)
    requires InBase(org, Without(rs, x), n, c.(performedBy := Unperformed(c.performedBy, x)), a)
    ensures InBase(org, rs, n, c, a)
  {
    var performed' := Unperformed(c.performedBy, x);
    RulePolarity(org, rs.of[n], false, c.performedBy, x, a);
    if !May(org, rs.of[n], performed', a) {
      var i: nat :| StageAdds(org, Without(rs, x), n, c.(performedBy := performed'), a, i);
      NoStepNoChange(org, rs.stages[n][i].rule, performed', c.performedBy, a);
      if Barred(org, rs.of[n], c.performedBy, None, a) {
        BarredStays(org, rs.of[n], c.performedBy, None, x, a);
      }
      assert StageAdds(org, rs, n, c, a, i);
    }
  }

  /** A step for which no reason is given can be removed without letting anybody perform any
      other step who could not perform it before, whoever performed the step: neither by a
      rule nor by an escalation stage nor as a deputy. */
  lemma RemovalWidensNothing(org: Org, rs: Rules, x: StepId, n: StepId, c: Case, a: AgentId)
    requires rs.Valid() && StagesNameNoStep(rs) && AdhocDeleteBlockReason(rs, x).None? && n != x
    requires Eligible(org, Without(rs, x), n, c.(performedBy := Unperformed(c.performedBy, x)), a)
    ensures Eligible(org, rs, n, c, a)
  {
    var c' := c.(performedBy := Unperformed(c.performedBy, x));
    ReasonListed(rs, x);
    assert n in rs.of;
    if InBase(org, Without(rs, x), n, c', a) {
      BaseShrinks(org, rs, n, x, c, a);
    } else {
      var b, k: nat :| InBase(org, Without(rs, x), n, c', b) && Deputy(org, c.absent, b, k) == Some(a);
      BaseShrinks(org, rs, n, x, c, b);
      if Barred(org, rs.of[n], c.performedBy, None, a) {
        BarredStays(org, rs.of[n], c.performedBy, None, x, a);
      }
    }
  }

  // ---------------------------------------------------------------- the steps offered for removal

  /** What the ad-hoc panel knows about the steps of a running case. */
  datatype Progress = Progress(ids: seq<StepId>, activities: set<StepId>, reached: set<StepId>, edges: seq<(StepId,
      StepId)>)

  function CountFrom(edges: seq<(StepId, StepId)>, n: StepId): nat {
    if edges == [] then 0 else (if edges[0].0 == n then 1 else 0) + CountFrom(edges[1..], n)
  }

  function CountInto(edges: seq<(StepId, StepId)>, n: StepId): nat {
    if edges == [] then 0 else (if edges[0].1 == n then 1 else 0) + CountInto(edges[1..], n)
  }

  /** An activity not yet reached with one edge in and one edge out. */
  predicate Candidate(p: Progress, n: StepId) {
    n in p.activities && n !in p.reached && CountInto(p.edges, n) == 1 && CountFrom(p.edges, n) == 1
  }

  /** Exactly one edge of the list has the property. */
  ghost predicate ExactlyOne(edges: seq<(StepId, StepId)>, into: bool, n: StepId) {
    exists i :: 0 <= i < |edges| && EndIs(edges[i], into, n) && NoOther(edges, into, n, i)
  }

  ghost predicate NoOther(edges: seq<(StepId, StepId)>, into: bool, n: StepId, i: int) {
    forall k :: 0 <= k < |edges| && k != i ==> !EndIs(edges[k], into, n)
  }

  predicate EndIs(e: (StepId, StepId), into: bool, n: StepId) {
    if into then e.1 == n else e.0 == n
  }

  function Count(edges: seq<(StepId, StepId)>, into: bool, n: StepId): nat {
    if into then CountInto(edges, n) else CountFrom(edges, n)
  }

  lemma {:induction false} NoneCounted(edges: seq<(StepId, StepId)>, into: bool, n: StepId)
    ensures Count(edges, into, n) == 0 <==> NoEnd(edges, into, n)
    decreases |edges|
  {
    if edges != [] {
      NoneCounted(edges[1..], into, n);
      assert edges == [edges[0]] + edges[1..];
    }
  }

  ghost predicate NoEnd(edges: seq<(StepId, StepId)>, into: bool, n: StepId) {
    forall i :: 0 <= i < |edges| ==> !EndIs(edges[i], into, n)
  }

  lemma FirstIsOne(edges: seq<(StepId, StepId)>, into: bool, n: StepId)
    requires edges != [] && EndIs(edges[0], into, n)
    ensures ExactlyOne(edges, into, n) <==> NoEnd(edges[1..], into, n)
  {
    if NoEnd(edges[1..], into, n) {
      forall k | 0 <= k < |edges| && k != 0 ensures !EndIs(edges[k], into, n) {
        assert edges[k] == edges[1..][k - 1];
      }
      assert NoOther(edges, into, n, 0);
    }
    if i :| 0 <= i < |edges| && EndIs(edges[i], into, n) && NoOther(edges, into, n, i) {
      assert i == 0;
    }
  }

  lemma OneInRest(edges: seq<(StepId, StepId)>, into: bool, n: StepId)
    requires edges != [] && !EndIs(edges[0], into, n)
    ensures ExactlyOne(edges, into, n) <==> ExactlyOne(edges[1..], into, n)
  {
    var t := edges[1..];
    if i :| 0 <= i < |t| && EndIs(t[i], into, n) && NoOther(t, into, n, i) {
      forall k | 0 <= k < |edges| && k != i + 1 ensures !EndIs(edges[k], into, n) {
        assert k > 0 ==> edges[k] == t[k - 1];
      }
      assert EndIs(edges[i + 1], into, n) && NoOther(edges, into, n, i + 1);
    }
    if i :| 0 <= i < |edges| && EndIs(edges[i], into, n) && NoOther(edges, into, n, i) {
      assert EndIs(t[i - 1], into, n) && NoOther(t, into, n, i - 1);
    }
  }

  lemma {:induction false} OneCounted(edges: seq<(StepId, StepId)>, into: bool, n: StepId)
    ensures Count(edges, into, n) == 1 <==> ExactlyOne(edges, into, n)
    decreases |edges|
  {
    if edges != [] {
      if EndIs(edges[0], into, n) {
        NoneCounted(edges[1..], into, n);
        FirstIsOne(edges, into, n);
      } else {
        OneCounted(edges[1..], into, n);
        OneInRest(edges, into, n);
      }
    }
  }

  /** What is offered: the activities not yet reached with exactly one edge in and one out, whose own
      rule refers to no step and which the rule of no other step refers to. */
  lemma OfferedSpec(rs: Rules, p: Progress, x: StepId)
    requires rs.Valid()
    ensures x in DeleteTargets(rs, p, p.ids) <==>
      && x in p.ids && x in p.activities && x !in p.reached
      && ExactlyOne(p.edges, true, x) && ExactlyOne(p.edges, false, x)
      && RefersToNone(rs, x) && ReferredByNone(rs, x)
  {
    OneCounted(p.edges, true, x);
    OneCounted(p.edges, false, x);
    BlockReasonSpec(rs, x);
  }

  function DeleteTargets(rs: Rules, p: Progress, ids: seq<StepId>): (r: seq<StepId>)
    ensures forall n :: n in r <==> n in ids && Candidate(p, n) && AdhocDeleteBlockReason(rs, n).None?
  {
    if ids == [] then []
    else
      assert ids == [ids[0]] + ids[1..];
      (if Candidate(p, ids[0]) && AdhocDeleteBlockReason(rs, ids[0]).None? then [ids[0]] else [])
      + DeleteTargets(rs, p, ids[1..])
  }

  /** Whatever the panel offers for removal can go without widening anybody's rights. */
  lemma TargetsAreSafe(org: Org, rs: Rules, p: Progress, x: StepId, n: StepId, c: Case, a: AgentId)
    requires rs.Valid() && StagesNameNoStep(rs) && x in DeleteTargets(rs, p, p.ids) && n != x
    ensures Eligible(org, Without(rs, x), n, c.(performedBy := Unperformed(c.performedBy, x)), a) ==>
            Eligible(org, rs, n, c, a)
  {
    if Eligible(org, Without(rs, x), n, c.(performedBy := Unperformed(c.performedBy, x)), a) {
      RemovalWidensNothing(org, rs, x, n, c, a);
    }
  }

  /** "Anyone of `left` except whoever did `x`". */
  function AllBut(left: StaffRule, x: StepId): StaffRule {
    StaffRule(Except, "", false, [left, StaffRule(Performer, x, false, [])])
  }

  /** The analysis is needed: such a rule refers to `x`, and without a performer of `x` it lets
      exactly that person in. */
  lemma ExclusionWouldOpen(org: Org, left: StaffRule, x: StepId, performed: Performers)
    requires x in performed && May(org, left, performed, performed[x]) && NamesNoStep(left)
    ensures x in FourEyesRefs(AllBut(left, x), false)
    ensures !May(org, AllBut(left, x), performed, performed[x])
            && May(org, AllBut(left, x), Unperformed(performed, x), performed[x])
  {
    var rule := AllBut(left, x);
    assert rule.operands[1] == StaffRule(Performer, x, false, []);
    OperandRefsIncluded(rule, false, 0, 1, x);
    assert !May(org, rule.operands[1], Unperformed(performed, x), performed[x])
           && May(org, rule.operands[1], performed, performed[x]);
    assert rule.operands[0] == left;
    NoStepNoChange(org, left, performed, Unperformed(performed, x), performed[x]);
  }
}
