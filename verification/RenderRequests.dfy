/** What becomes of every call of `render`, and whether its run keeps the scroll position. */
module RenderRequests {
  import opened RenderSteps

  /** A call of `render` at a point in time. */
  datatype Ask = Ask(time: nat, keep: bool)

  /** The run that serves a call: when it starts and whether it keeps the scroll position. */
  datatype Serve = Serve(ask: Ask, start: nat, keep: bool)

  /** The pipeline with the history of its requests; `pending` are the merged ones. */
  datatype World = World(s: State, now: nat, pending: seq<Ask>, served: seq<Serve>)

  function ServeAll(asks: seq<Ask>, start: nat, keep: bool): (r: seq<Serve>)
    ensures |r| == |asks| && forall i :: 0 <= i < |asks| ==> r[i] == Serve(asks[i], start, keep)
  {
    seq(|asks|, i requires 0 <= i < |asks| => Serve(asks[i], start, keep))
  }

  function Track(w: World, e: Event): World
    requires Enabled(w.s, e)
  {
    var s := Step(w.s, e);
    match e
    case Call(keep) =>
      if w.s.busy then World(s, w.now + 1, w.pending + [Ask(w.now, keep)], w.served)
      else World(s, w.now + 1, w.pending, w.served + [Serve(Ask(w.now, keep), w.now, keep)])
    case Reset => World(s, w.now + 1, [], w.served)
    case End(_) =>
      if w.s.queued then World(s, w.now + 1, [], w.served + ServeAll(w.pending, w.now, w.s.queuedKeep))
      else World(s, w.now + 1, w.pending, w.served)
    case _ => World(s, w.now + 1, w.pending, w.served)
  }

  /** Every merged request asked to keep the scroll position. */
  ghost predicate AllKeep(asks: seq<Ask>) {
    forall i :: 0 <= i < |asks| ==> asks[i].keep
  }

  ghost predicate InTime(w: World) {
    && (forall i :: 0 <= i < |w.pending| ==> w.pending[i].time < w.now)
    && (forall i :: 0 <= i < |w.served| ==> w.served[i].ask.time <= w.served[i].start < w.now)
  }

  ghost predicate WorldInv(w: World) {
    && Inv(w.s) && InTime(w)
    && (w.s.queued <==> w.pending != [])
    && (w.s.queuedKeep <==> AllKeep(w.pending))
  }

  lemma TrackKeeps(w: World, e: Event)
    requires WorldInv(w) && Enabled(w.s, e)
    ensures WorldInv(Track(w, e))
  {
    StepKeeps(w.s, e);
    QueueKeeps(w, e);
  }

  lemma QueueKeeps(w: World, e: Event)
    requires WorldInv(w) && Enabled(w.s, e)
    ensures
      var w' := Track(w, e);
      InTime(w') && (w'.s.queued <==> w'.pending != []) && (w'.s.queuedKeep <==> AllKeep(w'.pending))
  {
    match e
    case Call(keep) => TrackCall(w, keep);
    case End(i) => TrackEnd(w, i);
    case Reset =>
    case _ => OthersKeepQueue(w.s, e);
  }

  lemma TrackCall(w: World, keep: bool)
    requires WorldInv(w)
    ensures
      var w' := Track(w, Call(keep));
      InTime(w') && (w'.s.queued <==> w'.pending != []) && (w'.s.queuedKeep <==> AllKeep(w'.pending))
  {
    if w.s.busy {
      AllKeepAppend(w.pending, Ask(w.now, keep));
    } else {
      assert w.pending == [] && Step(w.s, Call(keep)).queuedKeep == w.s.queuedKeep;
    }
  }

  lemma TrackEnd(w: World, i: nat)
    requires WorldInv(w) && Enabled(w.s, End(i))
    ensures
      var w' := Track(w, End(i));
      InTime(w') && (w'.s.queued <==> w'.pending != []) && (w'.s.queuedKeep <==> AllKeep(w'.pending))
  {
    EndQueue(w.s, i);
  }

  /** After the end of a run nothing is merged any more. */
  lemma EndQueue(s: State, i: nat)
    requires Inv(s) && InPhase(s, i, Scrolled)
    ensures !Finish(s, i).queued && Finish(s, i).queuedKeep
  {
  }

  lemma OthersKeepQueue(s: State, e: Event)
    requires Enabled(s, e) && !e.Call? && !e.End? && !e.Reset?
    ensures Step(s, e).queued == s.queued && Step(s, e).queuedKeep == s.queuedKeep
  {
  }

  lemma AllKeepAppend(asks: seq<Ask>, a: Ask)
    ensures AllKeep(asks + [a]) <==> AllKeep(asks) && a.keep
  {
    if AllKeep(asks + [a]) {
      assert (asks + [a])[|asks|] == a;
      forall i | 0 <= i < |asks| ensures asks[i].keep {
        assert (asks + [a])[i] == asks[i];
      }
    }
  }

  /** When a run ends with merged requests, exactly one run starts at once and serves all of
      them; it keeps the scroll position if and only if each of them asked for that. */
  lemma CatchUp(w: World, i: nat)
    requires WorldInv(w) && Enabled(w.s, End(i)) && w.pending != []
    ensures
      var w' := Track(w, End(i));
      && w'.pending == [] && |w'.s.runs| == 1 && w'.s.runs[0].phase == Drawing
      && (w'.s.runs[0].keep <==> AllKeep(w.pending))
      && (forall k :: 0 <= k < |w.pending| ==> Serve(w.pending[k], w.now, w'.s.runs[0].keep) in w'.served)
  {
    var w' := Track(w, End(i));
    assert w.s.runs[..i] + w.s.runs[i + 1..] == [];
    var caught := ServeAll(w.pending, w.now, w.s.queuedKeep);
    forall k | 0 <= k < |w.pending| ensures Serve(w.pending[k], w.now, w'.s.runs[0].keep) in w'.served {
      assert w'.served[|w.served| + k] == caught[k];
    }
  }

  /** When a run ends and nothing was merged, none starts. */
  lemma QuietEnd(w: World, i: nat)
    requires WorldInv(w) && Enabled(w.s, End(i)) && w.pending == []
    ensures var w' := Track(w, End(i)); w'.s.runs == [] && !w'.s.busy && w'.pending == [] && w'.served == w.served
  {
    EndedKeeps(w.s, i);
  }

  // ---------------------------------------------------------------- whole runs

  function Behind(w: World, es: seq<Event>): World
    requires Runs(w.s, es)
    decreases |es|
  {
    if es == [] then w else Behind(Track(w, es[0]), es[1..])
  }

  /** Before anything has happened. */
  function WorldStart(v: View): World {
    World(Initial(v), 0, [], [])
  }

  /** Whatever the interleaving, resets included: requests are pending exactly if a run is queued,
      and the queued run keeps the scroll position exactly if all of them asked for that. */
  lemma {:induction false} AlwaysWorldInv(w: World, es: seq<Event>)
    requires WorldInv(w) && Runs(w.s, es)
    ensures WorldInv(Behind(w, es))
    decreases |es|
  {
    if es != [] {
      TrackKeeps(w, es[0]);
      AlwaysWorldInv(Track(w, es[0]), es[1..]);
    }
  }

  /** The history changes nothing about the pipeline. */
  lemma {:induction false} BehindIsAfter(w: World, es: seq<Event>)
    requires Runs(w.s, es)
    ensures Behind(w, es).s == After(w.s, es)
    decreases |es|
  {
    if es != [] {
      BehindIsAfter(Track(w, es[0]), es[1..]);
    }
  }

  /** The world behind a run from the start. */
  function WorldAfter(v: View, es: seq<Event>): (w: World)
    requires Runs(Initial(v), es)
    ensures w.s == After(Initial(v), es)
  {
    BehindIsAfter(WorldStart(v), es);
    Behind(WorldStart(v), es)
  }

  lemma ReachedInv(v: View, es: seq<Event>)
    requires Runs(Initial(v), es)
    ensures WorldInv(WorldAfter(v, es))
  {
    AlwaysWorldInv(WorldStart(v), es);
  }

  ghost predicate NoReset(es: seq<Event>) {
    forall i :: 0 <= i < |es| ==> es[i] != Reset
  }

  ghost predicate IsServed(w: World, a: Ask) {
    exists i :: 0 <= i < |w.served| && w.served[i].ask == a
  }

  /** The request waits for the run in flight to end, or a run that started no earlier than
      the request serves it. */
  ghost predicate TakenCareOf(w: World, a: Ask) {
    (a in w.pending && w.s.busy) || IsServed(w, a)
  }

  lemma CareStep(w: World, e: Event, a: Ask)
    requires WorldInv(w) && Enabled(w.s, e) && e != Reset && TakenCareOf(w, a)
    ensures TakenCareOf(Track(w, e), a)
  {
    var w' := Track(w, e);
    if IsServed(w, a) {
      var i :| 0 <= i < |w.served| && w.served[i].ask == a;
      assert w'.served[i] == w.served[i];
    } else if e.End? {
      var k :| 0 <= k < |w.pending| && w.pending[k] == a;
      assert w'.served[|w.served| + k].ask == a;
    }
  }

  lemma {:induction false} CareStays(w: World, es: seq<Event>, a: Ask)
    requires WorldInv(w) && Runs(w.s, es) && NoReset(es) && TakenCareOf(w, a)
    ensures WorldInv(Behind(w, es)) && TakenCareOf(Behind(w, es), a)
    decreases |es|
  {
    if es != [] {
      TrackKeeps(w, es[0]);
      CareStep(w, es[0], a);
      CareStays(Track(w, es[0]), es[1..], a);
    }
  }

  lemma CallTaken(w: World, keep: bool)
    requires WorldInv(w)
    ensures TakenCareOf(Track(w, Call(keep)), Ask(w.now, keep))
  {
    var w1 := Track(w, Call(keep));
    if w.s.busy {
      assert w1.pending[|w.pending|] == Ask(w.now, keep);
    } else {
      assert w1.served[|w.served|].ask == Ask(w.now, keep);
    }
  }

  /** No call of `render` is lost: after any further steps without a reset it still waits for
      the run in flight to end, or a run that started no earlier than the call serves it. */
  lemma EveryCallServed(w: World, keep: bool, es: seq<Event>)
    requires WorldInv(w) && Runs(Step(w.s, Call(keep)), es) && NoReset(es)
    ensures
      var a := Ask(w.now, keep);
      var end := Behind(Track(w, Call(keep)), es);
      || (a in end.pending && end.s.busy)
      || (exists i :: 0 <= i < |end.served| && end.served[i].ask == a && end.served[i].start >= w.now)
  {
    var a := Ask(w.now, keep);
    var w1 := Track(w, Call(keep));
    TrackKeeps(w, Call(keep));
    CallTaken(w, keep);
    CareStays(w1, es, a);
    var end := Behind(w1, es);
    if IsServed(end, a) {
      var i :| 0 <= i < |end.served| && end.served[i].ask == a;
      assert end.served[i].start >= w.now;
    }
  }

  ghost predicate SomeEnd(es: seq<Event>) {
    exists i :: 0 <= i < |es| && es[i].End?
  }

  lemma EndServes(w: World, i: nat, a: Ask)
    requires WorldInv(w) && Enabled(w.s, End(i)) && TakenCareOf(w, a)
    ensures IsServed(Track(w, End(i)), a)
  {
    var w' := Track(w, End(i));
    if IsServed(w, a) {
      var k :| 0 <= k < |w.served| && w.served[k].ask == a;
      assert w'.served[k] == w.served[k];
    } else {
      var k :| 0 <= k < |w.pending| && w.pending[k] == a;
      assert w'.served[|w.served| + k].ask == a;
    }
  }

  lemma ServedStep(w: World, e: Event, a: Ask)
    requires Enabled(w.s, e) && IsServed(w, a)
    ensures IsServed(Track(w, e), a)
  {
    var k :| 0 <= k < |w.served| && w.served[k].ask == a;
    assert Track(w, e).served[k] == w.served[k];
  }

  lemma {:induction false} ServedStays(w: World, es: seq<Event>, a: Ask)
    requires Runs(w.s, es) && IsServed(w, a)
    ensures IsServed(Behind(w, es), a)
    decreases |es|
  {
    if es != [] {
      ServedStep(w, es[0], a);
      ServedStays(Track(w, es[0]), es[1..], a);
    }
  }

  lemma {:induction false} ServedByEnd(w: World, es: seq<Event>, a: Ask)
    requires WorldInv(w) && Runs(w.s, es) && NoReset(es) && SomeEnd(es) && TakenCareOf(w, a)
    ensures IsServed(Behind(w, es), a)
    decreases |es|
  {
    TrackKeeps(w, es[0]);
    if es[0].End? {
      EndServes(w, es[0].i, a);
      ServedStays(Track(w, es[0]), es[1..], a);
    } else {
      CareStep(w, es[0], a);
      var i :| 0 <= i < |es| && es[i].End?;
      assert es[1..][i - 1] == es[i];
      ServedByEnd(Track(w, es[0]), es[1..], a);
    }
  }

  /** Whatever happens after a call of `render`, as long as it is no reset: from the first end of
      a run on, the call is served. */
  lemma ServedByNextEnd(w: World, keep: bool, es: seq<Event>)
    requires WorldInv(w) && Runs(Step(w.s, Call(keep)), es) && NoReset(es) && SomeEnd(es)
    ensures IsServed(Behind(Track(w, Call(keep)), es), Ask(w.now, keep))
  {
    TrackKeeps(w, Call(keep));
    CallTaken(w, keep);
    ServedByEnd(Track(w, Call(keep)), es, Ask(w.now, keep));
  }

  /** The call is served by a run that started no earlier. */
  ghost predicate ServedInTime(w: World, a: Ask) {
    exists i :: 0 <= i < |w.served| && w.served[i].ask == a && w.served[i].start >= a.time
  }

  lemma InTimeServed(w: World, a: Ask)
    requires InTime(w) && IsServed(w, a)
    ensures ServedInTime(w, a)
  {
    var i :| 0 <= i < |w.served| && w.served[i].ask == a;
    assert w.served[i].start >= a.time;
  }

  /** No call is lost in any run from the start: take a call after any steps, resets included, and
      any steps without a reset behind it. Then the call is served by a run that started no earlier,
      or it still waits for the run in flight; once a run has ended behind the call, it is served. */
  lemma NoCallLost(v: View, before: seq<Event>, keep: bool, es: seq<Event>)
    requires Runs(Initial(v), before) && Runs(Step(WorldAfter(v, before).s, Call(keep)), es) && NoReset(es)
    ensures
      var w := WorldAfter(v, before);
      var a, end := Ask(w.now, keep), Behind(Track(w, Call(keep)), es);
      && (ServedInTime(end, a) || (a in end.pending && end.s.busy))
      && (SomeEnd(es) ==> ServedInTime(end, a))
  {
    ReachedInv(v, before);
    var w := WorldAfter(v, before);
    var a, w1 := Ask(w.now, keep), Track(w, Call(keep));
    TrackKeeps(w, Call(keep));
    CallTaken(w, keep);
    CareStays(w1, es, a);
    var end := Behind(w1, es);
    if SomeEnd(es) {
      ServedByEnd(w1, es, a);
    }
    if IsServed(end, a) {
      InTimeServed(end, a);
    }
  }

  /** In any run from the start: when a run ends with merged requests, exactly one run starts at
      once and serves all of them, keeping the scroll position exactly if each asked for that. */
  lemma AlwaysCaughtUp(v: View, es: seq<Event>, i: nat)
    requires Runs(Initial(v), es) && Enabled(WorldAfter(v, es).s, End(i)) && WorldAfter(v, es).pending != []
    ensures
      var w := WorldAfter(v, es);
      var w' := Track(w, End(i));
      && w'.pending == [] && |w'.s.runs| == 1 && w'.s.runs[0].phase == Drawing
      && (w'.s.runs[0].keep <==> AllKeep(w.pending))
      && (forall k :: 0 <= k < |w.pending| ==> Serve(w.pending[k], w.now, w'.s.runs[0].keep) in w'.served)
  {
    ReachedInv(v, es);
    CatchUp(WorldAfter(v, es), i);
  }

  /** In any run from the start: when a run ends and no call was merged, no run is in flight. */
  lemma AlwaysQuiet(v: View, es: seq<Event>, i: nat)
    requires Runs(Initial(v), es) && Enabled(WorldAfter(v, es).s, End(i)) && WorldAfter(v, es).pending == []
    ensures Step(WorldAfter(v, es).s, End(i)).runs == [] && !Step(WorldAfter(v, es).s, End(i)).busy
  {
    ReachedInv(v, es);
    QuietEnd(WorldAfter(v, es), i);
  }

  /** The link of the promise chain that follows a phase. */
  function NextLink(p: Phase): Event {
    match p
    case Drawing => Settle(0)
    case Settled => Swap(0)
    case Committed => Mark(0)
    case Marked => Outage(0, false)
    case Bannered => Scroll(0)
    case Scrolled => End(0)
  }

  function LinksLeft(p: Phase): nat {
    match p
    case Drawing => 5 case Settled => 4 case Committed => 3 case Marked => 2 case Bannered => 1 case Scrolled => 0
  }

  lemma LinkMovesOn(s: State)
    requires s.busy && |s.runs| == 1
    ensures
      var e := NextLink(s.runs[0].phase);
      && Enabled(s, e) && !e.Reset? && !e.Call?
      && (!e.End? ==> Step(s, e).busy && |Step(s, e).runs| == 1)
      && (!e.End? ==> LinksLeft(Step(s, e).runs[0].phase) == LinksLeft(s.runs[0].phase) - 1)
      && (e.End? <==> LinksLeft(s.runs[0].phase) == 0)
  {
    match s.runs[0].phase
    case Drawing =>
    case Settled =>
    case Committed =>
    case Marked =>
    case Bannered =>
    case Scrolled =>
  }

  /** Once the view function in flight settles, the rest of its chain alone brings every
      waiting request its run. */
  lemma {:induction false} Drains(w: World) returns (es: seq<Event>)
    requires WorldInv(w) && w.pending != []
    ensures Runs(w.s, es) && |es| == LinksLeft(w.s.runs[0].phase) + 1 && NoReset(es)
    ensures Behind(w, es).pending == []
    ensures forall k :: 0 <= k < |w.pending| ==> IsServed(Behind(w, es), w.pending[k])
    decreases LinksLeft(w.s.runs[0].phase)
  {
    var e := NextLink(w.s.runs[0].phase);
    LinkMovesOn(w.s);
    TrackKeeps(w, e);
    if e.End? {
      es := [e];
      LastLinkServes(w, 0);
    } else {
      var rest := Drains(Track(w, e));
      es := [e] + rest;
      assert es[1..] == rest;
    }
  }

  lemma LastLinkServes(w: World, i: nat)
    requires WorldInv(w) && w.pending != [] && Enabled(w.s, End(i))
    ensures Runs(w.s, [End(i)]) && Behind(w, [End(i)]).pending == []
    ensures forall k :: 0 <= k < |w.pending| ==> IsServed(Behind(w, [End(i)]), w.pending[k])
  {
    var w' := Track(w, End(i));
    assert [End(i)][1..] == [] && Behind(w', []) == w';
    forall k | 0 <= k < |w.pending| ensures IsServed(w', w.pending[k]) {
      assert w'.served[|w.served| + k].ask == w.pending[k];
    }
  }

  // ---------------------------------------------------------------- what the runs bring

  /** A run that is not overtaken by a reset brings exactly what it drew onto the screen. */
  lemma SwapShows(s: State, i: nat)
    requires Inv(s) && InPhase(s, i, Settled) && s.runs[i].view.live && s.runs[i].session == s.session
    ensures s.runs[i].target.IntoNode? && s.runs[i].target.node < |s.nodes|
    ensures Step(s, Swap(i)).content == s.nodes[s.runs[i].target.node]
  {
  }

  /** When the link of the swap failed in a redraw, the last link brings what was drawn onto the
      screen, unless there was a reset; then the content is left alone. Either way no stage stays
      open behind the run. */
  lemma LateSwap(s: State, i: nat)
    requires Inv(s) && InPhase(s, i, Scrolled) && s.stage.Some?
    ensures s.runs[i].target.IntoNode? && s.runs[i].target.node < |s.nodes|
    ensures Ended(s, i).stage.None?
    ensures Ended(s, i).content ==
            if s.runs[i].session == s.session then s.nodes[s.runs[i].target.node] else s.content
  {
  }

  /** Until its swap a redraw of the same live view leaves the old content alone. */
  lemma OldContentStands(s: State, i: nat, e: Event)
    requires Inv(s) && i < |s.runs| && s.runs[i].staged && s.runs[i].phase in {Drawing, Settled}
    requires Enabled(s, e) && !e.Reset? && !e.Swap?
    ensures Step(s, e).content == s.content
  {
  }

  ghost predicate NoEnd(es: seq<Event>) {
    forall i :: 0 <= i < |es| ==> !es[i].End?
  }

  lemma RunStaysStep(s: State, e: Event)
    requires s.busy && |s.runs| == 1 && Enabled(s, e) && !e.End?
    ensures var t := Step(s, e);
      t.busy && |t.runs| == 1 && t.runs[0].keep == s.runs[0].keep && t.runs[0].scrollTop == s.runs[0].scrollTop
  {
    match e
    case Call(_) =>
    case Reset =>
    case Append(_) =>
    case Swap(_) =>
    case Outage(_, _) =>
    case _ =>
  }

  lemma {:induction false} RunStays(s: State, es: seq<Event>)
    requires Inv(s) && s.busy && Runs(s, es) && NoEnd(es)
    ensures var t := After(s, es);
      |t.runs| == 1 && t.runs[0].keep == s.runs[0].keep && t.runs[0].scrollTop == s.runs[0].scrollTop
    decreases |es|
  {
    if es != [] {
      StepKeeps(s, es[0]);
      RunStaysStep(s, es[0]);
      RunStays(Step(s, es[0]), es[1..]);
    }
  }

  /** A run that keeps the scroll position puts the content back to the offset at which the run
      found it, whatever happened in between, scrolling and resets included; any other run leaves
      the offset alone. */
  lemma ScrollReturns(s: State, keep: bool, es: seq<Event>)
    requires Inv(s) && !s.busy && Runs(Start(s, keep), es) && NoEnd(es)
    requires Enabled(After(Start(s, keep), es), Scroll(0))
    ensures
      var t := After(Start(s, keep), es);
      Step(t, Scroll(0)).scrollTop == if keep then s.scrollTop else t.scrollTop
  {
    StartKeeps(s, keep);
    assert Start(s, keep).runs[0].keep == keep && (keep ==> Start(s, keep).runs[0].scrollTop == s.scrollTop);
    RunStays(Start(s, keep), es);
  }
}
