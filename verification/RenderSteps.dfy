/** The render pipeline as a transition system; every link of the promise chain is a step. */
module RenderSteps {
  import opened Basics

  /** A view; the live ones draw through the stage. */
  datatype View = View(name: string, live: bool)

  /** What stands in the content area: the outage banner, or something drawn by a run of a
      view that loaded its data in a certain session. */
  datatype Piece = Banner | Drawn(view: View, session: nat)

  datatype Stage = Stage(node: nat, used: bool, discarded: bool)

  /** Where the view function of a run draws. */
  datatype Target = IntoContent | IntoNode(node: nat)

  /** Progress of a run: its view function is still drawing, or the chain has come this far;
      a link that fails skips to the last phase. */
  datatype Phase = Drawing | Settled | Committed | Marked | Bannered | Scrolled

  /** A run in flight: the local variables of one call of `render` that started a view. */
  datatype Run = Run(
    view: View, keep: bool, scrollTop: real, staged: bool, firstDraw: bool, target: Target, session: nat, phase: Phase)

  /** The module variables, the content and its scroll offset, the detached stage nodes, the
      runs in flight, and the number of the session. */
  datatype State = State(
    busy: bool, queued: bool, queuedKeep: bool, drawnView: Option<View>, view: View, title: View,
    stage: Option<Stage>, nodes: seq<seq<Piece>>, content: seq<Piece>, scrollTop: real,
    runs: seq<Run>, session: nat)

  // ---------------------------------------------------------------- steps

  function OpenStage(s: State): State {
    s.(stage := Some(Stage(|s.nodes|, false, false)), nodes := s.nodes + [[]])
  }

  /** `beginViewContent`: the open stage, once, or else the emptied content. */
  function Begin(s: State): (State, Target) {
    if s.stage.Some? && !s.stage.value.used then
      (s.(stage := Some(s.stage.value.(used := true))), IntoNode(s.stage.value.node))
    else (s.(content := []), IntoContent)
  }

  function Commit(s: State): State {
    match s.stage
    case None => s
    case Some(st) =>
      if st.used && !st.discarded && st.node < |s.nodes|
      then s.(stage := None, content := s.nodes[st.node], nodes := s.nodes[st.node := []])
      else s.(stage := None)
  }

  function Discard(s: State): State {
    match s.stage
    case None => s
    case Some(st) => s.(stage := Some(st.(discarded := true)))
  }

  /** The part of `render` behind the busy test, up to the call of the view function. */
  function Start(s: State, keep: bool): State {
    var staged := s.view.live && s.drawnView == Some(s.view) && s.content != [];
    var firstDraw := s.view.live && !staged;
    var s1 := s.(busy := true, title := s.view, content := if firstDraw then [] else s.content);
    var s2 := if staged || firstDraw then OpenStage(s1) else s1;
    var (s3, target) := if s.view.live then Begin(s2) else (s2, IntoContent);
    var offset := if keep then s.scrollTop else 0.0;
    s3.(runs := s3.runs + [Run(s.view, keep, offset, staged, firstDraw, target, s.session, Drawing)])
  }

  function Render(s: State, keep: bool): State {
    if s.busy then s.(queued := true, queuedKeep := s.queuedKeep && keep) else Start(s, keep)
  }

  /** The render-related part of `resetSessionState`; a new session begins. */
  function ResetSession(s: State): State {
    Discard(s).(drawnView := None, queued := false, queuedKeep := true, content := [], session := s.session + 1)
  }

  function Draw(s: State, r: Run): State {
    var p := Drawn(r.view, r.session);
    match r.target
    case IntoContent => s.(content := s.content + [p])
    case IntoNode(n) => if n < |s.nodes| then s.(nodes := s.nodes[n := s.nodes[n] + [p]]) else s
  }

  function SetPhase(s: State, i: nat, p: Phase): State
    requires i < |s.runs|
  {
    s.(runs := s.runs[i := s.runs[i].(phase := p)])
  }

  function CommitOwn(s: State, r: Run): State {
    if r.staged || r.firstDraw then Commit(s) else s
  }

  function AddBanner(s: State, offline: bool): State {
    if offline && Banner !in s.content then s.(content := [Banner] + s.content) else s
  }

  function RestoreScroll(s: State, r: Run): State {
    if r.keep then s.(scrollTop := r.scrollTop) else s
  }

  /** The run is over, and its stage, if it is still open, is closed. */
  function Closed(s: State, i: nat): State
    requires i < |s.runs|
  {
    CommitOwn(s, s.runs[i]).(busy := false, runs := s.runs[..i] + s.runs[i + 1..])
  }

  /** The `finally` link: the run is over, and a merged request is caught up with. */
  function Finish(s: State, i: nat): State
    requires i < |s.runs|
  {
    var s1 := Closed(s, i);
    if s.queued then Render(s1.(queued := false, queuedKeep := true), s.queuedKeep) else s1
  }

  /** What may happen next. `i` numbers the runs in flight; `Roll` is the person or the browser
      scrolling, `Fail` a link of the chain that throws. */
  datatype Event =
    | Call(keep: bool) | Reset | Navigate(to: View) | Roll(offset: real)
    | Append(i: nat) | Wipe(i: nat) | Settle(i: nat)
    | Swap(i: nat) | Mark(i: nat) | Outage(i: nat, offline: bool) | Scroll(i: nat) | Fail(i: nat) | End(i: nat)

  ghost predicate InPhase(s: State, i: nat, p: Phase) {
    i < |s.runs| && s.runs[i].phase == p
  }

  /** The links that can throw: the one that remembers the view state right before the swap of a
      redraw, the banner, and the links behind it up to the tour. */
  ghost predicate MayFail(s: State, i: nat) {
    i < |s.runs| && ((s.runs[i].phase == Settled && s.runs[i].staged) || s.runs[i].phase in {Marked, Bannered})
  }

  ghost predicate Enabled(s: State, e: Event) {
    match e
    case Call(_) => true
    case Reset => true
    case Navigate(_) => true
    case Roll(_) => true
    case Append(i) => InPhase(s, i, Drawing)
    case Wipe(i) => InPhase(s, i, Drawing) && !s.runs[i].view.live
    case Settle(i) => InPhase(s, i, Drawing)
    case Swap(i) => InPhase(s, i, Settled)
    case Mark(i) => InPhase(s, i, Committed)
    case Outage(i, _) => InPhase(s, i, Marked)
    case Scroll(i) => InPhase(s, i, Bannered)
    case Fail(i) => MayFail(s, i)
    case End(i) => InPhase(s, i, Scrolled)
  }

  function Step(s: State, e: Event): State
    requires Enabled(s, e)
  {
    match e
    case Call(keep) => Render(s, keep)
    case Reset => ResetSession(s)
    case Navigate(v) => s.(view := v)
    case Roll(offset) => s.(scrollTop := offset)
    case Append(i) => Draw(s, s.runs[i])
    case Wipe(_) => s.(content := [])
    case Settle(i) => SetPhase(s, i, Settled)
    case Swap(i) => SetPhase(CommitOwn(s, s.runs[i]), i, Committed)
    case Mark(i) => SetPhase(s.(drawnView := Some(s.runs[i].view)), i, Marked)
    case Outage(i, offline) => SetPhase(AddBanner(s, offline), i, Bannered)
    case Scroll(i) => SetPhase(RestoreScroll(s, s.runs[i]), i, Scrolled)
    case Fail(i) => SetPhase(s, i, Scrolled)
    case End(i) => Finish(s, i)
  }

  function Initial(v: View): State {
    State(false, false, true, None, v, v, None, [], [], 0.0, [], 0)
  }

  // ---------------------------------------------------------------- what every step keeps

  /** Everything drawn here was drawn by a run of `v` in session `n`. */
  ghost predicate AllFrom(ps: seq<Piece>, v: View, n: nat) {
    forall i :: 0 <= i < |ps| && ps[i].Drawn? ==> ps[i] == Drawn(v, n)
  }

  /** Nothing that a live view drew in an earlier session. */
  ghost predicate Current(ps: seq<Piece>, n: nat) {
    forall i :: 0 <= i < |ps| && ps[i].Drawn? && ps[i].view.live ==> ps[i].session == n
  }

  /** Everything drawn here was drawn by `v`. */
  ghost predicate OnlyBy(ps: seq<Piece>, v: View) {
    forall i :: 0 <= i < |ps| && ps[i].Drawn? ==> ps[i].view == v
  }

  /** The open stage is that of this run, discarded if and only if there was a reset since the
      run began, and holds nothing but what the run drew. */
  ghost predicate OwnStage(s: State, r: Run) {
    && r.target.IntoNode? && r.target.node < |s.nodes|
    && s.stage == Some(Stage(r.target.node, true, r.session < s.session))
    && AllFrom(s.nodes[r.target.node], r.view, r.session)
  }

  /** A run in flight and its stage. Behind the swap the stage is closed, unless a link failed
      before it in a redraw. */
  ghost predicate RunOk(s: State, r: Run) {
    && r.view == s.title && r.session <= s.session
    && (r.view.live <==> r.staged || r.firstDraw)
    && (r.view.live ==> r.target.IntoNode? && r.target.node < |s.nodes|)
    && (!r.view.live ==> r.target.IntoContent? && s.stage.None?)
    && (r.view.live && r.phase in {Drawing, Settled} ==> OwnStage(s, r))
    && (r.phase in {Committed, Marked, Bannered} ==> s.stage.None?)
    && (r.phase == Scrolled && s.stage.Some? ==> r.staged && OwnStage(s, r))
    && (r.staged || r.phase in {Marked, Bannered, Scrolled} ==> s.drawnView.Some? ==> s.drawnView == Some(s.title))
  }

  ghost predicate Inv(s: State) {
    && |s.runs| <= 1 && (s.busy <==> |s.runs| == 1) && (s.queued ==> s.busy)
    && (!s.queued ==> s.queuedKeep)
    && (s.runs == [] ==> s.stage.None? && (s.drawnView.Some? ==> s.drawnView == Some(s.title)))
    && (s.runs != [] ==> RunOk(s, s.runs[0]))
    && Current(s.content, s.session)
    && (s.title.live ==> OnlyBy(s.content, s.title))
  }

  lemma StartKeeps(s: State, keep: bool)
    requires Inv(s) && !s.busy
    ensures Inv(Start(s, keep))
  {
  }

  lemma RenderKeeps(s: State, keep: bool)
    requires Inv(s)
    ensures Inv(Render(s, keep))
  {
    if !s.busy {
      StartKeeps(s, keep);
    }
  }

  /** The state between the end of a run and the run that catches up. */
  function Ended(s: State, i: nat): State
    requires i < |s.runs|
  {
    Closed(s, i).(queued := false, queuedKeep := true)
  }

  lemma EndedKeeps(s: State, i: nat)
    requires Inv(s) && InPhase(s, i, Scrolled)
    ensures Ended(s, i).runs == [] && Inv(Ended(s, i))
  {
  }

  lemma EndKeeps(s: State, i: nat)
    requires Inv(s) && InPhase(s, i, Scrolled)
    ensures Inv(Finish(s, i))
  {
    EndedKeeps(s, i);
    if s.queued {
      RenderKeeps(Ended(s, i), s.queuedKeep);
    }
  }

  lemma ResetKeeps(s: State)
    requires Inv(s)
    ensures Inv(ResetSession(s))
  {
  }

  lemma AppendKeeps(s: State, i: nat)
    requires Inv(s) && InPhase(s, i, Drawing)
    ensures Inv(Draw(s, s.runs[i]))
  {
  }

  lemma SwapKeeps(s: State, i: nat)
    requires Inv(s) && InPhase(s, i, Settled)
    ensures Inv(SetPhase(CommitOwn(s, s.runs[i]), i, Committed))
  {
  }

  lemma OutageKeeps(s: State, i: nat, offline: bool)
    requires Inv(s) && InPhase(s, i, Marked)
    ensures Inv(SetPhase(AddBanner(s, offline), i, Bannered))
  {
  }

  /** A link that touches neither content nor stage. */
  lemma QuietKeeps(s: State, e: Event)
    requires Inv(s) && Enabled(s, e) && (e.Settle? || e.Mark? || e.Scroll? || e.Fail?)
    ensures Inv(Step(s, e))
  {
  }

  /** What the person does without calling `render`, and a view that empties the content itself. */
  lemma OutsideKeeps(s: State, e: Event)
    requires Inv(s) && Enabled(s, e) && (e.Navigate? || e.Roll? || e.Wipe?)
    ensures Inv(Step(s, e))
  {
  }

  lemma StepKeeps(s: State, e: Event)
    requires Inv(s) && Enabled(s, e)
    ensures Inv(Step(s, e))
  {
    match e
    case Call(keep) => RenderKeeps(s, keep);
    case Reset => ResetKeeps(s);
    case Append(i) => AppendKeeps(s, i);
    case Swap(i) => SwapKeeps(s, i);
    case Outage(i, offline) => OutageKeeps(s, i, offline);
    case End(i) => EndKeeps(s, i);
    case Navigate(_) => OutsideKeeps(s, e);
    case Roll(_) => OutsideKeeps(s, e);
    case Wipe(_) => OutsideKeeps(s, e);
    case _ => QuietKeeps(s, e);
  }

  /** The states of a run of the system: from the initial state by enabled steps. */
  ghost predicate Runs(s: State, es: seq<Event>)
    decreases |es|
  {
    es == [] || (Enabled(s, es[0]) && Runs(Step(s, es[0]), es[1..]))
  }

  function After(s: State, es: seq<Event>): State
    requires Runs(s, es)
    decreases |es|
  {
    if es == [] then s else After(Step(s, es[0]), es[1..])
  }

  lemma {:induction false} AlwaysInv(s: State, es: seq<Event>)
    requires Inv(s) && Runs(s, es)
    ensures Inv(After(s, es))
    decreases |es|
  {
    if es != [] {
      StepKeeps(s, es[0]);
      AlwaysInv(Step(s, es[0]), es[1..]);
    }
  }

  /** Whatever the interleaving: at most one view function is in flight; the content holds
      nothing that a live view drew with the data of an earlier session, whether in a first
      draw or in a redraw; and under the title of a live view stands only what it drew. */
  lemma Safety(v: View, es: seq<Event>)
    requires Runs(Initial(v), es)
    ensures
      var s := After(Initial(v), es);
      && |s.runs| <= 1
      && Current(s.content, s.session)
      && (s.title.live ==> OnlyBy(s.content, s.title))
  {
    AlwaysInv(Initial(v), es);
  }
}
