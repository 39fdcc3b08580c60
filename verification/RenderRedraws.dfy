/** What stays on the screen while a view that already stands there is drawn anew. */
module RenderRedraws {
  import opened Basics
  import opened RenderSteps

  ghost predicate StaysOnView(es: seq<Event>) {
    forall i :: 0 <= i < |es| ==> !es[i].Reset? && !es[i].Navigate?
  }

  /** Neither the swap nor the end of a run, and no reset. */
  ghost predicate BeforeSwap(es: seq<Event>) {
    forall i :: 0 <= i < |es| ==> !es[i].Reset? && !es[i].Swap? && !es[i].End?
  }

  /** `v` is selected, stands on the screen and is known to do so. */
  ghost predicate Standing(s: State, v: View) {
    Inv(s) && s.view == v && s.title == v && s.drawnView == Some(v)
  }

  lemma MarkStands(s: State, i: nat)
    requires Inv(s) && InPhase(s, i, Committed) && s.runs[i].view == s.view
    ensures Standing(Step(s, Mark(i)), s.view)
  {
    StepKeeps(s, Mark(i));
  }

  lemma StandingStep(s: State, e: Event, v: View)
    requires Standing(s, v) && Enabled(s, e) && !e.Reset? && !e.Navigate?
    ensures Standing(Step(s, e), v)
  {
    StepKeeps(s, e);
    ViewAndTitle(s, e, v);
  }

  /** Whatever runs start, they are of the view that is selected. */
  lemma ViewAndTitle(s: State, e: Event, v: View)
    requires s.view == v && s.title == v && s.drawnView == Some(v) && Enabled(s, e) && !e.Reset? && !e.Navigate?
    requires forall i :: 0 <= i < |s.runs| ==> s.runs[i].view == v
    ensures var t := Step(s, e); t.view == v && t.title == v && t.drawnView == Some(v)
  {
    match e
    case Call(_) =>
    case End(_) =>
    case Mark(_) =>
    case _ =>
  }

  lemma {:induction false} StandingStays(s: State, es: seq<Event>, v: View)
    requires Standing(s, v) && Runs(s, es) && StaysOnView(es)
    ensures Standing(After(s, es), v)
    decreases |es|
  {
    if es != [] {
      StandingStep(s, es[0], v);
      StandingStays(Step(s, es[0]), es[1..], v);
    }
  }

  /** A staged run in flight that has not swapped yet. */
  ghost predicate Unswapped(s: State) {
    && |s.runs| == 1 && s.busy && s.runs[0].staged && s.runs[0].view.live && s.runs[0].target.IntoNode?
    && s.runs[0].phase in {Drawing, Settled, Scrolled}
  }

  lemma StartUnswapped(s: State, keep: bool)
    requires Standing(s, s.view) && s.view.live && !s.busy && s.content != []
    ensures Unswapped(Start(s, keep)) && Start(s, keep).content == s.content
  {
  }

  lemma UnswappedStep(s: State, e: Event)
    requires Unswapped(s) && Enabled(s, e) && !e.Reset? && !e.Swap? && !e.End?
    ensures Unswapped(Step(s, e)) && Step(s, e).content == s.content
  {
    match e
    case Call(_) =>
    case Append(_) =>
    case Settle(_) =>
    case Fail(_) =>
    case _ =>
  }

  lemma {:induction false} UnswappedStays(s: State, es: seq<Event>)
    requires Unswapped(s) && Runs(s, es) && BeforeSwap(es)
    ensures After(s, es).content == s.content
    decreases |es|
  {
    if es != [] {
      UnswappedStep(s, es[0]);
      UnswappedStays(Step(s, es[0]), es[1..]);
    }
  }

  /** A state in which a live view has just been drawn, followed by anything but a reset or a change
      of the view. */
  lemma DrawnStands(v: View, before: seq<Event>, i: nat, since: seq<Event>) returns (s: State)
    requires Runs(Initial(v), before)
    requires InPhase(After(Initial(v), before), i, Committed)
    requires After(Initial(v), before).runs[i].view == After(Initial(v), before).view
    requires Runs(Step(After(Initial(v), before), Mark(i)), since) && StaysOnView(since)
    ensures s == After(Step(After(Initial(v), before), Mark(i)), since)
    ensures Standing(s, After(Initial(v), before).view)
  {
    AlwaysInv(Initial(v), before);
    var drawn := After(Initial(v), before);
    MarkStands(drawn, i);
    StandingStays(Step(drawn, Mark(i)), since, drawn.view);
    s := After(Step(drawn, Mark(i)), since);
  }

  /** In every run of the system: a live view was drawn, and nobody reset the session or left the
      view since. When no run is in flight any more and there is something on the screen, the next
      call leaves it there, and so does whatever comes before the swap of the new drawing. */
  lemma RedrawLeavesContent(v: View, before: seq<Event>, i: nat, since: seq<Event>, keep: bool, es: seq<Event>)
    requires Runs(Initial(v), before)
    requires
      var drawn := After(Initial(v), before);
      && InPhase(drawn, i, Committed) && drawn.runs[i].view == drawn.view && drawn.view.live
      && Runs(Step(drawn, Mark(i)), since) && StaysOnView(since)
    requires
      var s := After(Step(After(Initial(v), before), Mark(i)), since);
      && !s.busy && s.content != [] && Runs(Step(s, Call(keep)), es) && BeforeSwap(es)
    ensures
      var s := After(Step(After(Initial(v), before), Mark(i)), since);
      After(Step(s, Call(keep)), es).content == s.content
  {
    var s := DrawnStands(v, before, i, since);
    StartUnswapped(s, keep);
    UnswappedStays(Step(s, Call(keep)), es);
  }

  /** The same for the run that catches up with merged requests: it leaves what the end of the run
      before it has left. */
  lemma CatchUpLeavesContent(v: View, before: seq<Event>, i: nat, since: seq<Event>, k: nat, es: seq<Event>)
    requires Runs(Initial(v), before)
    requires
      var drawn := After(Initial(v), before);
      && InPhase(drawn, i, Committed) && drawn.runs[i].view == drawn.view && drawn.view.live
      && Runs(Step(drawn, Mark(i)), since) && StaysOnView(since)
    requires
      var s := After(Step(After(Initial(v), before), Mark(i)), since);
      && s.queued && InPhase(s, k, Scrolled) && Closed(s, k).content != []
      && Runs(Step(s, End(k)), es) && BeforeSwap(es)
    ensures
      var s := After(Step(After(Initial(v), before), Mark(i)), since);
      After(Step(s, End(k)), es).content == Closed(s, k).content
  {
    var s := DrawnStands(v, before, i, since);
    EndedKeeps(s, k);
    EndedStands(s, k);
    StartUnswapped(Ended(s, k), s.queuedKeep);
    UnswappedStays(Step(s, End(k)), es);
  }

  lemma EndedStands(s: State, k: nat)
    requires Standing(s, s.view) && InPhase(s, k, Scrolled) && Inv(Ended(s, k))
    ensures Standing(Ended(s, k), s.view) && !Ended(s, k).busy && Ended(s, k).view == s.view
    ensures Ended(s, k).content == Closed(s, k).content
  {
  }

  // ---------------------------------------------------------------- after a reset

  lemma {:induction false} ForgottenStays(s: State, es: seq<Event>)
    requires s.drawnView.None? && Runs(s, es) && forall i :: 0 <= i < |es| ==> !es[i].Mark?
    ensures After(s, es).drawnView.None?
    decreases |es|
  {
    if es != [] {
      ForgottenStep(s, es[0]);
      ForgottenStays(Step(s, es[0]), es[1..]);
    }
  }

  lemma ForgottenStep(s: State, e: Event)
    requires s.drawnView.None? && Enabled(s, e) && !e.Mark?
    ensures Step(s, e).drawnView.None?
  {
  }

  /** A reset empties the screen, and until some view has been drawn completely every live view
      starts on an empty screen. */
  lemma ResetForgets(s: State, es: seq<Event>, keep: bool)
    requires Runs(ResetSession(s), es) && forall i :: 0 <= i < |es| ==> !es[i].Mark?
    ensures ResetSession(s).content == []
    ensures var t := After(ResetSession(s), es); t.view.live ==> Start(t, keep).content == []
  {
    ForgottenStays(ResetSession(s), es);
  }

  // ---------------------------------------------------------------- what a run has drawn

  /** How often the view function has added something. */
  function Appends(es: seq<Event>): nat {
    if es == [] then 0 else (if es[0].Append? then 1 else 0) + Appends(es[1..])
  }

  /** A live run that is still drawing, or has settled, with `k` pieces in its stage. */
  ghost predicate Holds(s: State, v: View, session: nat, k: nat) {
    && |s.runs| == 1 && s.busy && s.runs[0].phase in {Drawing, Settled}
    && s.runs[0].view == v && v.live && s.runs[0].session == session
    && s.runs[0].target.IntoNode? && s.runs[0].target.node < |s.nodes|
    && s.nodes[s.runs[0].target.node] == seq(k, _ => Drawn(v, session))
  }

  lemma HoldsStep(s: State, e: Event, v: View, session: nat, k: nat)
    requires Holds(s, v, session, k) && Enabled(s, e) && !e.Swap? && !e.Fail?
    ensures Holds(Step(s, e), v, session, k + (if e.Append? then 1 else 0))
  {
    if e.Append? {
      assert seq(k, _ => Drawn(v, session)) + [Drawn(v, session)] == seq(k + 1, _ => Drawn(v, session));
    }
  }

  ghost predicate NoSwap(es: seq<Event>) {
    forall i :: 0 <= i < |es| ==> !es[i].Swap? && !es[i].Fail?
  }

  lemma {:induction false} HoldsAfter(s: State, es: seq<Event>, v: View, session: nat, k: nat)
    requires Holds(s, v, session, k) && Runs(s, es) && NoSwap(es)
    ensures Holds(After(s, es), v, session, k + Appends(es))
    decreases |es|
  {
    if es != [] {
      HoldsStep(s, es[0], v, session, k);
      HoldsAfter(Step(s, es[0]), es[1..], v, session, k + (if es[0].Append? then 1 else 0));
    }
  }

  /** The swap brings onto the screen exactly what the view function has added since the run began,
      unless the session was reset meanwhile; then the screen is left alone. */
  lemma SwapShowsAppended(s: State, keep: bool, es: seq<Event>)
    requires Inv(s) && !s.busy && s.view.live && Runs(Start(s, keep), es) && NoSwap(es)
    requires Enabled(After(Start(s, keep), es), Swap(0))
    ensures
      var t := After(Start(s, keep), es);
      Step(t, Swap(0)).content ==
        if t.session == s.session then seq(Appends(es), _ => Drawn(s.view, s.session)) else t.content
  {
    StartKeeps(s, keep);
    HoldsAfter(Start(s, keep), es, s.view, s.session, 0);
    AlwaysInv(Start(s, keep), es);
  }

  // ---------------------------------------------------------------- the outage banner

  function Banners(ps: seq<Piece>): nat {
    if ps == [] then 0 else Banners(ps[..|ps| - 1]) + (if ps[|ps| - 1] == Banner then 1 else 0)
  }

  ghost predicate NoBanner(ps: seq<Piece>) {
    forall i :: 0 <= i < |ps| ==> ps[i] != Banner
  }

  lemma {:induction false} NoneCounted(ps: seq<Piece>)
    ensures Banners(ps) == 0 <==> NoBanner(ps)
  {
    if ps != [] {
      NoneCounted(ps[..|ps| - 1]);
    }
  }

  lemma {:induction false} CountFirst(ps: seq<Piece>)
    ensures Banners([Banner] + ps) == 1 + Banners(ps)
    decreases |ps|
  {
    if ps == [] {
      assert ([Banner] + ps)[..0] == [];
    } else {
      assert ([Banner] + ps)[..|ps|] == [Banner] + ps[..|ps| - 1];
      CountFirst(ps[..|ps| - 1]);
    }
  }

  lemma CountLast(ps: seq<Piece>, p: Piece)
    ensures Banners(ps + [p]) == Banners(ps) + (if p == Banner then 1 else 0)
  {
    assert (ps + [p])[..|ps|] == ps;
  }

  /** At most one banner on the screen, and none in what is drawn off the screen. */
  ghost predicate OneBanner(s: State) {
    Banners(s.content) <= 1 && forall i :: 0 <= i < |s.nodes| ==> NoBanner(s.nodes[i])
  }

  /** While the server is out of reach the banner is shown, once, and everything else stays. */
  lemma BannerShown(s: State, offline: bool)
    requires OneBanner(s)
    ensures
      var t := AddBanner(s, offline);
      && OneBanner(t)
      && (offline ==> Banners(t.content) == 1)
      && (t.content == s.content || (Banners(s.content) == 0 && t.content == [Banner] + s.content))
      && (!offline ==> t.content == s.content)
  {
    NoneCounted(s.content);
    CountFirst(s.content);
  }

  lemma CommitOneBanner(s: State)
    requires OneBanner(s)
    ensures OneBanner(Commit(s))
  {
    if s.stage.Some? && s.stage.value.node < |s.nodes| {
      NoneCounted(s.nodes[s.stage.value.node]);
    }
  }

  lemma StartOneBanner(s: State, keep: bool)
    requires OneBanner(s)
    ensures OneBanner(Start(s, keep))
  {
  }

  lemma DrawOneBanner(s: State, r: Run)
    requires OneBanner(s)
    ensures OneBanner(Draw(s, r))
  {
    CountLast(s.content, Drawn(r.view, r.session));
  }

  lemma BannerStep(s: State, e: Event)
    requires OneBanner(s) && Enabled(s, e)
    ensures OneBanner(Step(s, e))
  {
    match e
    case Call(keep) => StartOneBanner(s, keep);
    case Append(i) => DrawOneBanner(s, s.runs[i]);
    case Swap(i) => CommitOneBanner(s);
    case Outage(i, offline) => BannerShown(s, offline);
    case End(i) =>
      CommitOneBanner(s);
      StartOneBanner(Ended(s, i), s.queuedKeep);
    case _ =>
  }

  lemma {:induction false} AlwaysOneBanner(s: State, es: seq<Event>)
    requires OneBanner(s) && Runs(s, es)
    ensures OneBanner(After(s, es))
    decreases |es|
  {
    if es != [] {
      BannerStep(s, es[0]);
      AlwaysOneBanner(Step(s, es[0]), es[1..]);
    }
  }

  /** In every run from the start there is never more than one banner, and the link that adds it
      leaves one standing while the server is out of reach. */
  lemma BannerOverRuns(v: View, es: seq<Event>, i: nat)
    requires Runs(Initial(v), es)
    ensures var s := After(Initial(v), es);
      Banners(s.content) <= 1 && (Enabled(s, Outage(i, true)) ==> Banners(Step(s, Outage(i, true)).content) == 1)
  {
    AlwaysOneBanner(Initial(v), es);
    BannerShown(After(Initial(v), es), true);
  }
}
