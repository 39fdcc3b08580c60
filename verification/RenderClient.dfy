/** The render pipeline with its module variables, one method for every link of the chain. */
module RenderClient {
  import opened Basics
  import RenderSteps

  type View = RenderSteps.View
  type Piece = RenderSteps.Piece
  type Stage = RenderSteps.Stage
  type Target = RenderSteps.Target
  type Run = RenderSteps.Run

  class Client {
    var renderBusy: bool
    var renderQueued: bool
    var renderQueuedKeepScroll: bool
    var drawnView: Option<View>
    var view: View
    var title: View
    var viewStage: Option<Stage>
    var nodes: seq<seq<Piece>>
    var content: seq<Piece>
    var scrollTop: real
    var runs: seq<Run>
    var session: nat

    function Abs(): RenderSteps.State
      reads this
    {
      RenderSteps.State(renderBusy, renderQueued, renderQueuedKeepScroll, drawnView, view, title,
                        viewStage, nodes, content, scrollTop, runs, session)
    }

    ghost predicate Valid()
      reads this
    {
      RenderSteps.Inv(Abs())
    }

    constructor (v: View)
      ensures Valid() && Abs() == RenderSteps.Initial(v)
    {
      renderBusy, renderQueued, renderQueuedKeepScroll := false, false, true;
      drawnView, view, title, viewStage := None, v, v, None;
      nodes, content, scrollTop, runs, session := [], [], 0.0, [], 0;
    }

    method OpenViewStage()
      modifies this
      ensures Abs() == RenderSteps.OpenStage(old(Abs()))
      ensures viewStage.Some? && !viewStage.value.used && !viewStage.value.discarded && content == old(content)
      ensures viewStage.value.node < |nodes| && nodes[viewStage.value.node] == []
    {
      viewStage := Some(RenderSteps.Stage(|nodes|, false, false));
      nodes := nodes + [[]];
    }

    method BeginViewContent() returns (target: Target)
      modifies this
      ensures (Abs(), target) == RenderSteps.Begin(old(Abs()))
      ensures viewStage.Some? ==> viewStage.value.used
      ensures target.IntoNode? ==> viewStage.Some? && target.node == viewStage.value.node && content == old(content)
      ensures target.IntoContent? ==> content == [] && viewStage == old(viewStage)
    {
      if viewStage.Some? && !viewStage.value.used {
        viewStage := Some(viewStage.value.(used := true));
        return RenderSteps.IntoNode(viewStage.value.node);
      }
      content := [];
      target := RenderSteps.IntoContent;
    }

    /** A stage is open that a view has asked for and nobody has discarded. */
    ghost predicate StageFinished()
      reads this
    {
      && viewStage.Some? && viewStage.value.node < |nodes|
      && viewStage.value.used && !viewStage.value.discarded
    }

    method CommitViewStage()
      modifies this
      ensures Abs() == RenderSteps.Commit(old(Abs()))
      ensures viewStage.None?
      ensures old(StageFinished()) ==> content == old(nodes[viewStage.value.node])
      ensures !old(StageFinished()) ==> content == old(content)
    {
      var s := viewStage;
      viewStage := None;
      if s.None? || !s.value.used || s.value.discarded || s.value.node >= |nodes| {
        return;
      }
      content := nodes[s.value.node];
      nodes := nodes[s.value.node := []];
    }

    method DiscardViewStage()
      modifies this
      ensures Abs() == RenderSteps.Discard(old(Abs()))
      ensures !StageFinished() && content == old(content) && (viewStage.Some? <==> old(viewStage).Some?)
    {
      if viewStage.Some? {
        viewStage := Some(viewStage.value.(discarded := true));
      }
    }

    /** Starts a run, or merges the request into the one to be caught up with. */
    method Render(keepScroll: bool)
      requires Valid()
      modifies this
      ensures Valid() && Abs() == RenderSteps.Render(old(Abs()), keepScroll)
    {
      RenderSteps.RenderKeeps(Abs(), keepScroll);
      if renderBusy {
        renderQueued := true;
        renderQueuedKeepScroll := renderQueuedKeepScroll && keepScroll;
        return;
      }
      StartRun(keepScroll);
    }

    /** What `render` does behind the busy test. */
    method StartRun(keepScroll: bool)
      modifies this
      ensures Abs() == RenderSteps.Start(old(Abs()), keepScroll)
    {
      renderBusy := true;
      var offset := if keepScroll then scrollTop else 0.0;
      title := view;
      var staged := view.live && drawnView == Some(view) && content != [];
      var firstDraw := view.live && !staged;
      if firstDraw {
        content := [];
      }
      if staged || firstDraw {
        OpenViewStage();
      }
      var target := RenderSteps.IntoContent;
      if view.live {
        target := BeginViewContent();
      }
      runs := runs + [RenderSteps.Run(view, keepScroll, offset, staged, firstDraw, target, session,
                                      RenderSteps.Drawing)];
    }

    method ResetSessionState()
      requires Valid()
      modifies this
      ensures Valid() && Abs() == RenderSteps.ResetSession(old(Abs()))
      ensures !renderQueued && content == []
    {
      RenderSteps.ResetKeeps(Abs());
      DiscardViewStage();
      drawnView := None;
      renderQueued := false;
      renderQueuedKeepScroll := true;
      content := [];
      session := session + 1;
    }

    /** The view function of a run appends something to where it draws. */
    method Append(i: nat)
      requires Valid() && RenderSteps.InPhase(Abs(), i, RenderSteps.Drawing)
      modifies this
      ensures Valid() && Abs() == RenderSteps.Step(old(Abs()), RenderSteps.Append(i))
    {
      RenderSteps.StepKeeps(Abs(), RenderSteps.Append(i));
      var piece := RenderSteps.Drawn(runs[i].view, runs[i].session);
      match runs[i].target {
        case IntoContent => content := content + [piece];
        case IntoNode(n) =>
          if n < |nodes| {
            nodes := nodes[n := nodes[n] + [piece]];
          }
      }
    }

    /** The view function has settled; its error, if any, was shown. */
    method Settle(i: nat)
      requires Valid() && RenderSteps.InPhase(Abs(), i, RenderSteps.Drawing)
      modifies this
      ensures Valid() && Abs() == RenderSteps.Step(old(Abs()), RenderSteps.Settle(i))
    {
      RenderSteps.StepKeeps(Abs(), RenderSteps.Settle(i));
      runs := runs[i := runs[i].(phase := RenderSteps.Settled)];
    }

    /** First link of the chain: the swap. */
    method Swap(i: nat)
      requires Valid() && RenderSteps.InPhase(Abs(), i, RenderSteps.Settled)
      modifies this
      ensures Valid() && Abs() == RenderSteps.Step(old(Abs()), RenderSteps.Swap(i))
    {
      RenderSteps.StepKeeps(Abs(), RenderSteps.Swap(i));
      if runs[i].staged || runs[i].firstDraw {
        CommitViewStage();
      }
      runs := runs[i := runs[i].(phase := RenderSteps.Committed)];
    }

    method MarkDrawn(i: nat)
      requires Valid() && RenderSteps.InPhase(Abs(), i, RenderSteps.Committed)
      modifies this
      ensures Valid() && Abs() == RenderSteps.Step(old(Abs()), RenderSteps.Mark(i))
    {
      RenderSteps.StepKeeps(Abs(), RenderSteps.Mark(i));
      drawnView := Some(runs[i].view);
      runs := runs[i := runs[i].(phase := RenderSteps.Marked)];
    }

    method ShowOutageBanner(i: nat, offline: bool)
      requires Valid() && RenderSteps.InPhase(Abs(), i, RenderSteps.Marked)
      modifies this
      ensures Valid() && Abs() == RenderSteps.Step(old(Abs()), RenderSteps.Outage(i, offline))
    {
      RenderSteps.StepKeeps(Abs(), RenderSteps.Outage(i, offline));
      if offline && RenderSteps.Banner !in content {
        content := [RenderSteps.Banner] + content;
      }
      runs := runs[i := runs[i].(phase := RenderSteps.Bannered)];
    }

    method RestoreScroll(i: nat)
      requires Valid() && RenderSteps.InPhase(Abs(), i, RenderSteps.Bannered)
      modifies this
      ensures Valid() && Abs() == RenderSteps.Step(old(Abs()), RenderSteps.Scroll(i))
    {
      RenderSteps.StepKeeps(Abs(), RenderSteps.Scroll(i));
      if runs[i].keep {
        scrollTop := runs[i].scrollTop;
      }
      runs := runs[i := runs[i].(phase := RenderSteps.Scrolled)];
    }

    /** A link of the chain has thrown: what is left of it is the last link. */
    method CatchFailure(i: nat)
      requires Valid() && RenderSteps.MayFail(Abs(), i)
      modifies this
      ensures Valid() && Abs() == RenderSteps.Step(old(Abs()), RenderSteps.Fail(i))
    {
      RenderSteps.StepKeeps(Abs(), RenderSteps.Fail(i));
      runs := runs[i := runs[i].(phase := RenderSteps.Scrolled)];
    }

    /** The last link: the run is over; whatever was merged meanwhile is caught up with. */
    method Finally(i: nat)
      requires Valid() && RenderSteps.InPhase(Abs(), i, RenderSteps.Scrolled)
      modifies this
      ensures Valid() && Abs() == RenderSteps.Step(old(Abs()), RenderSteps.End(i))
    {
      RenderSteps.EndedKeeps(Abs(), i);
      CloseRun(i);
      if renderQueued {
        var keep := renderQueuedKeepScroll;
        renderQueued := false;
        renderQueuedKeepScroll := true;
        Render(keep);
      }
    }

    /** The first half of the last link: no stage stays open, and the run is over. */
    method CloseRun(i: nat)
      requires i < |runs|
      modifies this
      ensures Abs() == RenderSteps.Closed(old(Abs()), i)
    {
      if runs[i].staged || runs[i].firstDraw {
        CommitViewStage();
      }
      renderBusy := false;
      runs := runs[..i] + runs[i + 1..];
    }
  }
}
