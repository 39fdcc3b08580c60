# The process client, modelled and proved

This project models the logic of the browser client of a process management system and proves
what it promises. The system keeps processes as flat tables of nodes and edges; the client
recovers their block structure to draw them, keeps the drawing navigable, redraws its views
while data is loading, and decides which changes it offers.

What the project covers, one group of modules each:

- **Drawing a process** (`Graphs`, `Depths`, `Joins`, `Flows`, `Blocks`, `Spine`, `Bands`,
  `Lanes`, `WalkBands`, `Walks`, `Schemas`, `Realisation`, `SpineLayout`, `BlockLayout`,
  `Fans`, `StackedLayout`, `LayoutSchemas`). Processes are block terms (`Flow`): steps, AND/XOR blocks with possibly empty branches, and
  loops whose back edge is not stored. `Draws` says that a graph is the drawing of a term;
  `Realisation` shows which terms have one. The graph algorithms are written as the client has them, with their tables as fields of
  `DepthTable`, `SpineWalk` and `TolerantDepth`, and proved equal to specification functions
  (`Search`, `MatchingJoin`, `Measure`, `Place`); those are proved to agree with the structural
  recursion on the term. The result: on every block-structured schema none of the defensive
  throws can occur, and on every schema the drawing has no overlaps.
- **Reading the graph** (`EmptyBranches`, `Loops`, `Ancestors`, `Navigation`, `KeyboardRuns`,
  `Stagger`, `PanZoom`).
- **Redrawing views** (`RenderSteps`, `RenderRequests`, `RenderRedraws`, `RenderClient`): a transition system in
  which calls, resets, navigation, the drawing of a view and every link of the promise chain
  are separate steps that may interleave in any order, links that throw included; the client's
  functions are methods proved against these steps. A session counter, raised by every reset, says with whose data
  something was drawn.
- **Staff rules** (`StaffRules`), **org units** (`OrgUnits`, `OrgTree`), **revisions**
  (`Revisions`), **focus** (`FocusKeys`).

Lanes, pixels and scales are reals. Ids are strings (`NodeId` wraps one). `Basics` holds stock
types and facts: optional values, numbers, lists and sets.

Where the code does not do what its comments promise for every input, the model follows the
code:

- `staggerProvenanceLabels` shifts labels so that none covers another, with at most 50 shifts
  each; from 52 labels on that bound can leave two of them on one spot. `Stagger.BoundIsExact`
  says for which numbers of labels this cannot happen, `Stagger.CrowdBoundIsExact` for which
  numbers of labels near each other.
- `fitToView` maps a viewBox with an origin away from zero differently from `centerOn` and from
  how the browser draws it. `PanZoom.OverviewShowsAll` gives the exact condition under which the
  whole drawing is visible, `PanZoom.ExtendedDrawingSticksOut` a case in which it is not, and
  `PanZoom.ReadableKeepsMainLine` by how much the readable stage is off.
- The index of the org-unit tree uses the key `__root__` for the top level; a unit of that very
  id makes the recursion endless or hides units. `OrgTree.TreeShowsAll` includes this condition,
  `OrgTree.RootNameNeverEnds` is the smallest case.
- `restoreFocusKey` counts twins among enabled targets while `focusKeyOf` counts all of them, so
  a disabled earlier twin shifts the result. `FocusKeys.RoundTrip` states the exact condition,
  `FocusKeys.DisabledTwinMisleads` is the smallest page on which the wrong button gets the focus.

That `restoreFocusKey` never moves the focus to another row depends on how rows are nested.
`FocusKeys.NeverAnotherRow` states the exact condition on the new content. Flat rows, as in all
views that name rows, meet it; the page in `FocusKeys.NestedRowMisleads`, which does not, is no
page of the client.

`dafny verify dfyconfig.toml` checks the whole project.

## Model

| member | source | states |
|---|---|---|
| `Depths.DepthTable.D` | web/js/graph.js:129-137 | longest-path depth, memoised: the finished part of the table is always a depth map, and an error means that the graph has a cycle |
| `Depths.DepthTable.All` | web/js/graph.js:128-138 | `ids.forEach(d)` succeeds if and only if the control flow has no cycle, and then every node sits right of all its predecessors and directly right of one of them |
| `Depths.DepthIsLongestPath` | web/js/graph.js:126-137 | a depth map is the longest-path depth: a walk of that many edges ends at the node and no walk to it is longer |
| `Depths.DepthUnique` | web/js/graph.js:126-137 | a graph has at most one depth map, so both layouts put a node in the same column |
| `Depths.ColumnsContiguous` | web/js/graph.js:126-137 | left of every occupied column every column is occupied |
| `Depths.DepthBound` | web/js/graph.js:180 | no column index reaches the number of nodes, which is what the guards of `measure` and `place` rely on |
| `Joins.DescIsReach` | web/js/graph.js:148-155 | the depth-first search finds exactly the nodes that are reached by at least one edge |
| `Joins.CommonIsReach` | web/js/graph.js:158-163 | the intersection over all branch heads is exactly the set of nodes below (or equal to) every head |
| `Joins.MatchingJoinSpec` | web/js/graph.js:156-168 | `matchingJoin` returns the first of the shallowest common descendants of all branch heads, strictly right of the split, and fails exactly if there is none |
| `Blocks.LeadsToStop` | web/js/graph.js:99-112 | from every node of a block term control runs on to the node after it |
| `Blocks.Escape` | web/js/graph.js:99-112 | control leaves a block term only through the node after it |
| `Blocks.DrawnJoins` | web/js/graph.js:156-168 | for every split of a block-structured process, at any nesting, `matchingJoin` is the join that closes its block |
| `Realisation.SchemaDraws` | web/js/graph.js:99-112 | every non-empty term that names each node once and opens at least two branches at every split is the process of a schema, built here from its node list, node types and edges |
| `Realisation.Realisable` | web/js/graph.js:99-112 | these are all terms that any block-structured schema draws |
| `Flows.DrawnColumns` | web/js/graph.js:128-138 | the columns of the block term are a depth map of its graph |
| `Flows.DrawnRoot` | web/js/graph.js:140-143 | the entry of the process is its only node without predecessor |
| `Flows.EdgesRunRight` | web/js/graph.js:108 | every edge of a block term runs to the right, inside the term or to the node after it |
| `Bands.MeasureFlow` | web/js/graph.js:177-193 | `measure` over a block term computes the structural span of the term, the maximum along the sequence and the sum with gaps across branches |
| `Bands.PlaceFlow` | web/js/graph.js:198-225 | `place` over a block term succeeds and adds exactly the structural placement of the term |
| `Lanes.PlacedLane` | web/js/graph.js:198-225 | the placement gives every node of the term its structural lane and leaves all other lanes alone |
| `WalkBands.PlaceBand` | web/js/graph.js:171-226 | the band invariant of the two walks on every graph without cycles: whatever `place` assigns between `start` and `stop`, reserved lanes of empty branches included, lies within half of what `measure` returns less one of `center` |
| `WalkBands.MeasureGrows` | web/js/graph.js:177-193 | `measure` never returns less than the height reached before, which is one lane at the start |
| `WalkBands.TermBand` | web/js/graph.js:195-225 | for a block term inside a graph the band invariant is one of its structural lanes and span |
| `Lanes.BandInvariant` | web/js/graph.js:195-225 | the same for the structural lanes of any term, drawn or not: each lies within half of the span of the term less one of `center` |
| `Spine.CentersApart` | web/js/graph.js:208-218 | the centres of two branches are half of each span and a gap apart |
| `Spine.BlockFansOut` | web/js/graph.js:206-219 | the branches of a block of any heights stand side by side: neighbouring middle lines are half of each height and the gap apart, the two outer edges lie symmetrically around the middle line of the block, and the height of the block is their distance |
| `Spine.OneFan` | web/js/graph.js:206-219 | there is only one way for branches to stand like that |
| `Fans.SpanIsHeight` | web/js/graph.js:173-193 | the span of a term is its height: one lane or that of its tallest block, a block being as high as its branches one below the other with a gap between any two |
| `Fans.MeasureIsHeight` | web/js/graph.js:177-193 | `measure` over a block term returns this height |
| `Fans.BranchLane` | web/js/graph.js:208-218 | the nodes on the middle line of a branch stand where the branch has its place beside its siblings around the split, at any nesting |
| `Fans.ShowsFanOut` | web/js/graph.js:195-226 | the drawing of a term: the main line on one line, and every block fanned out around the line of its split and join, the line of an empty branch included |
| `Lanes.ColumnNeighbours` | web/js/graph.js:70-76 | two different nodes of one column are at least one lane and the branch gap apart |
| `Lanes.PlacedEmpty` | web/js/graph.js:211-215 | a block with an empty branch gets a reserved lane, and it is the middle of the last of its empty branches |
| `Lanes.EmptyApart` | web/js/graph.js:211-218 | a reserved lane keeps one lane and the gap from every node in the columns between split and join, nodes of enclosing sibling branches included |
| `BlockLayout.JoinOnSplitLane` | web/js/graph.js:112 | every join stands on the lane of its split, at any nesting |
| `Walks.SpineWalk.constructor` | web/js/graph.js:147-197 | the tables start empty |
| `Walks.SpineWalk.Descendants` | web/js/graph.js:148-155 | the search loop returns the specified sequence, whose elements are exactly the nodes reached |
| `Walks.SpineWalk.CommonOf` | web/js/graph.js:158-163 | the loop over the heads computes the common descendants |
| `Walks.SpineWalk.ShallowestOf` | web/js/graph.js:165-166 | the loop picks the first of the shallowest nodes |
| `Walks.SpineWalk.MatchingJoin` | web/js/graph.js:156-168 | the memoised lookup equals the specified matching join and keeps the cache correct |
| `Walks.SpineWalk.Measure` | web/js/graph.js:177-193 | the loop returns what the specification function `Measure` gives; the runaway guard never fires |
| `Walks.SpineWalk.Place` | web/js/graph.js:198-225 | the loop changes lanes, placed nodes and reserved lanes exactly as the specification function `Place` says, error cases included; the runaway guard never fires |
| `Schemas.GraphIsControlFlow` | web/js/graph.js:119-124 | the adjacency lists form one graph whose edges are exactly the control edges between known nodes |
| `Schemas.ControlEdges` | web/js/graph.js:88-90 | exactly the edges that are not SYNC |
| `Schemas.BadgeHeight` | web/js/graph.js:62-65 | height of the badge stack, at most that of four chips |
| `Schemas.ChipsShowAll` | web/js/graph.js:29-57 | the chips counted stand for all bindings and the staff rule of an activity, at most three of them for bindings |
| `Schemas.BadgeIsDrawnHeight` | web/js/graph.js:62-65 | the reserved height is exactly that of the chips as they are drawn and the space below the last one |
| `SpineLayout.BuildGraph` | web/js/graph.js:119-124 | the loop builds the graph of the schema |
| `SpineLayout.TallestBadge` | web/js/graph.js:233-234 | the maximum of all badge stacks |
| `SpineLayout.ToPixels` | web/js/graph.js:229-268 | uniform columns, origin and a pitch that is that of the tallest badge stack: every box and every line of an empty branch keeps the margin inside the returned size, something touches the upper margin, and the size is no larger than needed |
| `SpineLayout.HasOverlap` | web/js/graph.js:273-286 | true if and only if two boxes with their badge stacks overlap |
| `BlockLayout.DrawnPlacement` | web/js/graph.js:226-227 | on a block-structured schema placing from the root on lane 0 succeeds and places every node |
| `BlockLayout.DrawnShows` | web/js/graph.js:229-264 | the pixels show the term: column, lane and reserved line of every block |
| `BlockLayout.ShowsClear` | web/js/graph.js:254-256 | no two boxes of such a drawing overlap, badge stacks included |
| `BlockLayout.EmptyRunIsFree` | web/js/graph.js:211-218 | the straight run of an empty branch on its reserved line touches no box and no badge stack of any node |
| `LayoutSchemas.AssignLanes` | web/js/graph.js:126-227 | exactly what depth map, roots and `Place` lead to: columns and lanes, or the reason why not; a cycle is reported if and only if there is one, the runaway guards never fire, and a block-structured graph always succeeds with its structural placement |
| `LayoutSchemas.LayoutSchemaSpine` | web/js/graph.js:114-269 | whatever it returns has no overlap, keeps inside a size no larger than needed, and draws the lanes assigned in the columns of the longest paths; it gives up for an overlap exactly if that drawing has one; on every block-structured schema none of its throws can occur and the result draws the term with its blocks fanned out |
| `StackedLayout.TolerantDepth.D` | web/js/graph.js:299-308 | the recursion that counts a node being visited as depth 0 ends on every graph; without cycles it computes the longest-path depth |
| `StackedLayout.TolerantDepth.All` | web/js/graph.js:299-309 | fails exactly on an edge from an unknown node into a known one; without cycles the result is the depth map |
| `StackedLayout.StackedClear` | web/js/graph.js:325-332 | no two stacked boxes overlap, badge stacks included |
| `StackedLayout.StackedInside` | web/js/graph.js:324-335 | every stacked box keeps the margin inside the returned size |
| `StackedLayout.IndexIsDepth` | web/js/graph.js:310-312 | without cycles the index of a column is the depth of its nodes |
| `StackedLayout.SortedColumns` | web/js/graph.js:310-312 | the column keys: exactly the occurring depths, strictly ascending |
| `StackedLayout.ColumnInOrder` | web/js/graph.js:310-311 | a column lists its nodes in key order |
| `StackedLayout.NextBelow` | web/js/graph.js:325-332 | below each node of a column, its badges and the gap, stands the next one |
| `StackedLayout.ColumnCentred` | web/js/graph.js:325-328 | above and below every column is the same space |
| `StackedLayout.LayoutSchemaStacked` | web/js/graph.js:291-336 | for every schema without a dangling source, cyclic ones included, a drawing without overlaps inside its size that stacks the nodes by depth; without cycles in the columns of the longest paths |
| `LayoutSchemas.LayoutSchema` | web/js/graph.js:91-97 | always a drawing without overlaps inside its size if no edge dangles, either of the lanes assigned or stacked by depth; the former whenever it has no overlap, so a block-structured schema always gets the spine drawing, and a schema without cycles always the columns of its longest paths |
| `EmptyBranches.EmptyBranchJoin` | web/js/modelling.js:2526-2535 | on a block-structured schema the result is given exactly for XOR blocks with an empty branch, and then it is the block's join, the node `matchingJoin` finds |
| `Ancestors.AncestorsOf` | web/js/modelling.js:1634-1646 | exactly the nodes from which control edges lead to the node; ends on cycles as well |
| `Loops.EdgesKeepLevel` | web/js/graph.js:480-486 | the depth counter of the search is the nesting depth of the loop term |
| `Loops.TraceFinds` | web/js/graph.js:476-487 | from every state of the search that fits a loop it ends with the loop's own LOOP_END and exactly the nodes of its body |
| `Loops.TraceLoop` | web/js/graph.js:474-487 | the stack loop computes the specified search; it ends on every schema |
| `Loops.LoopPairsOf` | web/js/graph.js:468-491 | on a block-structured schema exactly one pair per LOOP_START, in key order, with its own LOOP_END and exactly the nodes of its body |
| `Loops.BodyIsBetween` | web/js/graph.js:463-467 | the body is exactly what lies strictly between: behind the LOOP_START and still before the LOOP_END |
| `Loops.LoopsNest` | web/js/graph.js:463-467 | two loops of a process have no node in common, or one lies with both its ends in the body of the other |
| `Loops.PairsNest` | web/js/graph.js:468-491 | the bodies of any two pairs are disjoint or nested |
| `Navigation.GraphNeighbor` | web/js/modelling.js:1090-1120 | the loop over all nodes returns what the specified scan gives |
| `Navigation.ScanFindsNearest` | web/js/modelling.js:1104-1118 | up and down stay in the column and select the nearest node in it |
| `Navigation.UpDownReturns` | web/js/modelling.js:1107-1119 | on every layout without overlaps on the column grid: if up moves the selection, down moves it back, and the other way round |
| `Navigation.OneColumn` | web/js/modelling.js:1104-1118 | on the columns of the longest paths left and right move exactly one column and stop only at the last one |
| `Navigation.ScanFindsFirst` | web/js/modelling.js:1107-1119 | left and right find the entry of the nearest occupied column whose middle line is nearest, and of those the first in key order |
| `Navigation.StraightAhead` | web/js/modelling.js:1095-1119 | what left and right select in terms of the boxes, and that they stay exactly if nothing lies in the direction |
| `Navigation.ClearIsTidy` | web/js/graph.js:247-256 | every layout returned by `layoutSchema` meets what navigation needs |
| `KeyboardRuns.LastColumn` | web/js/graph.js:247-250 | the last column of a process holds its last node only |
| `KeyboardRuns.RightReachesEnd` | web/js/modelling.js:1095-1119 | without a selection any key selects START; from there the k-th press of right stands in column k, the last one selects END and there it stays |
| `Stagger.PushClears` | web/js/graph.js:652-660 | as many pushes as there are labels nearby not yet passed leave the label clear of all placed ones |
| `Stagger.PushPasses` | web/js/graph.js:656-657 | a push past a label leaves that label behind for good, so each is passed at most once |
| `Stagger.PushLands` | web/js/graph.js:652-660 | a label with nothing in its way stays; any other ends up exactly one line above one that is placed near it |
| `Stagger.GuardUnneeded` | web/js/graph.js:652-654 | every guard from the number of labels nearby not yet passed on gives the same position |
| `Stagger.PlacedClear` | web/js/graph.js:647-663 | labels with at most as many others near each as the guard allows pushes are staggered without overlap, however many there are |
| `Stagger.BoundIsExact` | web/js/graph.js:647-663 | at every line height (unless it is empty) a guard of g staggers exactly the numbers of labels up to g+1 always without overlap; 50 is enough for 51 and not for 52 |
| `Stagger.CrowdBoundIsExact` | web/js/graph.js:647-663 | counting labels near each other instead: exactly the crowds up to g+1 are always staggered without overlap |
| `Stagger.SortByHeight` | web/js/graph.js:649 | a permutation sorted by height |
| `Stagger.PushLabel` | web/js/graph.js:652-660 | the inner loop, in place: only this label moves, to where the specified pushes put it |
| `Stagger.StaggerProvenanceLabels` | web/js/graph.js:647-663 | in place: only labelled arcs move and only up, to where placing them topmost first puts them; with at most 51 of them, or with at most 50 others near each, no two labels cover each other |
| `PanZoom.Controller.constructor` | web/js/graph.js:1241-1252 | natural size, no translation, no reserve |
| `PanZoom.Controller.ZoomAt` | web/js/graph.js:1343-1357 | the scale changes by the factor 1.1 or stops at its bound, and the model point under the pointer stays under the pointer |
| `PanZoom.Controller.WheelPan` | web/js/graph.js:1358-1361 | pans by the wheel movement; shift turns a vertical wheel sideways; the scale is kept |
| `PanZoom.Controller.PointerDown` | web/js/graph.js:1367-1375 | starts a possible drag; only a press outside the fit button returns fitting to its first stage |
| `PanZoom.Controller.PointerMove` | web/js/graph.js:1376-1396 | nothing moves within the threshold; beyond it the model point that was grabbed stays under the pointer |
| `PanZoom.Controller.EndDrag` | web/js/graph.js:1397-1406 | the drag is over |
| `PanZoom.Controller.SetReserve` | web/js/graph.js:1501 | the reserved width, never negative |
| `PanZoom.Controller.Click` | web/js/graph.js:1407-1411 | the click after a drag is swallowed, any other passes, whether or not the button is still down |
| `PanZoom.Controller.FitToView` | web/js/graph.js:1441-1488 | readable stage first, the overview on the next press, as large as fits; nothing happens without sizes; the scale stays in its bounds |
| `PanZoom.OverviewShowsAll` | web/js/graph.js:1475-1485 | if the fitting scale is at least 0.35 the overview shows the whole drawing, exactly as long as the viewBox origin lies near zero |
| `PanZoom.OverviewAtOrigin` | web/js/graph.js:1475-1485 | with the viewBox origin at zero the overview then always shows the whole drawing |
| `PanZoom.OverviewAsLargeAsFits` | web/js/graph.js:1476 | between the overview minimum and natural size the drawing fits with its margins and meets them on one axis; below the minimum the scale is the minimum |
| `PanZoom.OverviewFramed` | web/js/graph.js:1477-1484 | on each axis the overview leaves the same space on both sides, or starts at the margin if there is no room for both |
| `PanZoom.OverviewShowsViewBox` | web/js/graph.js:1443-1485 | with a viewBox and an overlay on the right: all of it is shown left of the overlay, exactly as long as its origin lies near zero |
| `PanZoom.OverviewShowsSvg` | web/js/graph.js:1443-1485 | without a viewBox the whole SVG is shown in its own size |
| `PanZoom.ReadableFramed` | web/js/graph.js:1459-1466 | the readable stage starts at the left margin and frames a drawing that is not too tall |
| `PanZoom.ExtendedDrawingSticksOut` | web/js/graph.js:1443-1447 | for a drawing 862 wide and 400 high whose viewBox is extended 200 upwards the fitting scale is above 1 and the overview does not show all of it |
| `PanZoom.ReadableKeepsMainLine` | web/js/graph.js:1457-1473 | in the readable stage of a tall drawing, up to the drift by the viewBox origin (none at zero), no blank space shows above or below, and the main line is in the middle unless that would show some |
| `PanZoom.CentreShowsRegion` | web/js/graph.js:1519-1544 | centring never enlarges and keeps the scale in its bounds; a region is shown as a whole within the margins whenever the fitting scale is at least the minimum |
| `PanZoom.CentreInMiddle` | web/js/graph.js:1541-1543 | the middle of the node, or of node and region, comes to the middle of the free area |
| `PanZoom.CentreShrinksAsNeeded` | web/js/graph.js:1535-1540 | without a region the scale is kept; with one it goes down no further than to natural size, to the minimum, or until the region meets its margins on one axis |
| `PanZoom.NodeInAround` | web/js/graph.js:1527-1533 | the node is part of the rectangle that is brought into view |
| `PanZoom.Controller.CenterOn` | web/js/graph.js:1519-1544 | the transform becomes the specified one, or stays if there is nothing to centre |
| `RenderSteps.StepKeeps` | web/app.js:1174-1259 | every step of every run keeps the invariant of the pipeline: one run in flight at most, its stage open until the swap, or in a redraw until the last link if a link failed before, and discarded exactly if a reset came after its start |
| `RenderSteps.Safety` | web/app.js:601-656 | over all interleavings, failing links included: at most one view function in flight; nothing drawn by a live view with the data of an earlier session is ever in the content; under the title of a live view stands only what that view drew |
| `RenderRequests.CatchUp` | web/app.js:1246-1258 | the end of a run with merged requests starts exactly one run that serves all of them, and it keeps the scroll position if and only if each of them asked for it |
| `RenderRequests.AlwaysWorldInv` | web/app.js:1123-1259 | over every run, resets included: requests are pending if and only if a run is queued, and the queued run keeps the scroll position if and only if all of them asked for it |
| `RenderRequests.NoCallLost` | web/app.js:1174-1259 | in every run from the start: a call at any point, with no reset behind it, is served by a run that starts no earlier or waits for the run in flight, and it is served once a run has ended behind it |
| `RenderRequests.AlwaysCaughtUp` | web/app.js:1246-1258 | in every run from the start: the end of a run with merged requests starts exactly one run that serves all of them, and it keeps the scroll position if and only if each of them asked for it |
| `RenderRequests.AlwaysQuiet` | web/app.js:1251-1258 | in every run from the start: when a run ends and nothing was merged, no run starts |
| `RenderRequests.EveryCallServed` | web/app.js:1174-1181 | the same from any world that satisfies the invariant: without a reset a call waits for the run in flight to end or is served by a run that starts no earlier than the call |
| `RenderRequests.ServedByNextEnd` | web/app.js:1174-1259 | from any world that satisfies the invariant: after a call, every sequence of steps without a reset in which a run ends leaves the call served |
| `RenderRequests.Drains` | web/app.js:1225-1258 | once the view function in flight settles, its chain alone brings every waiting request its run |
| `RenderRequests.TrackKeeps` | web/app.js:1174-1181 | every step keeps the agreement of pending requests and queue flags |
| `RenderRequests.SwapShows` | web/js/core.js:1014-1022 | a live run not overtaken by a reset brings exactly what it drew onto the screen |
| `RenderRequests.LateSwap` | web/app.js:1247-1250 | when a link failed before the swap of a redraw, the last link brings what was drawn onto the screen, or nothing of it after a reset; no stage stays open |
| `RenderRequests.OldContentStands` | web/app.js:1209-1224 | until its swap a redraw of the same live view leaves the old content alone |
| `RenderRedraws.RedrawLeavesContent` | web/app.js:1209-1233 | in every run: once a live view has been drawn, and as long as nobody resets the session or leaves the view, the next call leaves what is on the screen, and so does everything before the swap |
| `RenderRedraws.CatchUpLeavesContent` | web/app.js:1209-1258 | the same for the run that catches up with merged requests |
| `RenderRedraws.SwapShowsAppended` | web/app.js:1224-1232 | the swap brings exactly what the view function has added since its run began, or after a reset nothing of it |
| `RenderRedraws.ResetForgets` | web/app.js:643-653 | a reset empties the screen, and until a view has been drawn completely every live view starts on an empty screen |
| `RenderRedraws.BannerOverRuns` | web/app.js:1268-1272 | in every run: never more than one outage banner, and one after its link while the server is out of reach |
| `RenderRequests.ScrollReturns` | web/app.js:1185-1237 | a run that keeps the scroll position puts the content back to the offset at which the run found it, whatever happened in between; any other run leaves the offset alone |
| `RenderClient.Client.OpenViewStage` | web/js/core.js:967-970 | a fresh, empty stage, unused and not discarded; the content stands |
| `RenderClient.Client.BeginViewContent` | web/js/core.js:982-990 | the open stage once, else the emptied content |
| `RenderClient.Client.CommitViewStage` | web/js/core.js:1014-1022 | swaps in a used stage that was not discarded, else the content stands; the stage is closed in any case |
| `RenderClient.Client.DiscardViewStage` | web/js/core.js:1029-1031 | marks the open stage, if any, so that no commit swaps it in |
| `RenderClient.Client.Render` | web/app.js:1174-1224 | merges the request while a run is in flight, else starts one as the transition system does, whose redraws leave the content standing; keeps the invariant |
| `RenderClient.Client.ResetSessionState` | web/app.js:643-653 | discards the stage, forgets the drawn view and the queued run, empties the content |
| `RenderClient.Client.Swap` | web/app.js:1227-1232 | the first link of the chain: the swap of a staged or first draw |
| `RenderClient.Client.MarkDrawn` | web/app.js:1233 | the view becomes the drawn one |
| `RenderClient.Client.ShowOutageBanner` | web/app.js:1234-1236 | the banner is put on top once if the server is out of reach |
| `RenderClient.Client.RestoreScroll` | web/app.js:1237 | the link after the banner: the remembered offset, for a run that keeps the position |
| `RenderClient.Client.CatchFailure` | web/app.js:1246 | after a link that throws only the last one is left |
| `RenderClient.Client.Append` | web/js/core.js:982-990 | the view adds to where it draws, the stage for a live view |
| `RenderClient.Client.Settle` | web/app.js:1225-1226 | the view function has settled, with or without an error |
| `RenderClient.Client.Finally` | web/app.js:1246-1258 | closes a stage that a failed link left open, ends the run and catches up with merged requests |
| `StaffRules.RulePolarity` | web/js/execution.js:495-502 | where a step is not referred to, losing its performer can only shrink the set of those who satisfy the rule, on an excluding side only grow it |
| `StaffRules.OperandFree` | web/js/execution.js:499-501 | a step no part of a rule refers to is not referred to by any operand, with the side flipped below right operands of EXCEPT |
| `StaffRules.RefsExact` | web/js/execution.js:495-502 | exactly the steps are listed for which some way down the rule ends at a supervisor term naming them, or at a performer term behind an odd number of right operands of EXCEPT |
| `StaffRules.ManagerIsNearest` | core/src/procworks/assignment.py:621-658 | the supervisor is the manager of the first unit on the way up whose manager is not the performer |
| `StaffRules.ManagerFound` | core/src/procworks/assignment.py:621-658 | if there is such a unit on the way up, a supervisor is found |
| `StaffRules.DeputyIsChain` | core/src/procworks/assignment.py:783-797 | deputies are reached exactly along chains of absent agents |
| `StaffRules.BarredStays` | core/src/procworks/assignment.py:674-741 | nobody kept out by the four-eyes parts is let in by losing the performer of a step not referred to |
| `StaffRules.BlockReasonSpec` | web/js/execution.js:516-533 | a step may go exactly if its own rule refers to no step and the rule of no other step refers to it; otherwise the reason names the smallest such step |
| `StaffRules.RemovalWidensNothing` | web/js/execution.js:505-533 | removing a step without such a reason lets nobody perform another step who could not before: neither by rule nor by escalation nor as deputy |
| `StaffRules.DeleteTargets` | web/js/execution.js:301-305 | exactly the unreached serial activities without a reason |
| `StaffRules.OfferedSpec` | web/js/execution.js:301-305 | offered are exactly the activities not yet reached with exactly one edge in and one out, whose own rule refers to no step and which the rule of no other step refers to |
| `StaffRules.TargetsAreSafe` | web/js/execution.js:299-305 | whatever the panel offers for removal can go without widening anybody's rights |
| `StaffRules.ExclusionWouldOpen` | web/js/execution.js:480-494 | the analysis is needed: "anyone except whoever did X" would let exactly that person in |
| `StaffRules.SmallestIsLeast` | web/js/execution.js:522-529 | the first element after sorting |
| `OrgUnits.BlockedParents` | web/js/data-resources.js:859-869 | the fixpoint ends on every parent table and blocks exactly the unit and its descendants |
| `OrgUnits.BlockedIffCycle` | web/js/data-resources.js:859-873 | without cycles an existing unit is refused as new parent if and only if choosing it would close a cycle; moving to the top never does |
| `OrgTree.IndexChildren` | web/js/data-resources.js:499-505 | the index holds under every key exactly its children |
| `OrgTree.AcyclicIffLevels` | web/js/data-resources.js:499-510 | there is no cycle if and only if the way up from every unit ends |
| `OrgTree.RenderShows` | web/js/data-resources.js:514-539 | below units of one level the recursion ends and shows everything there exactly once |
| `OrgTree.RenderEnds` | web/js/data-resources.js:507-539 | without a unit called like the top-level key the recursion always ends, cycles or not |
| `OrgTree.TreeShowsAll` | web/js/data-resources.js:499-539 | the tree shows every unit exactly once if and only if the parents have no cycle and no unit is called like the top-level key |
| `OrgTree.RootNameNeverEnds` | web/js/data-resources.js:502-508 | a single top-level unit of that name is its own child in the index, and the recursion never ends |
| `Revisions.RootOf` | web/js/modelling.js:2578-2587 | the walk ends on every lineage, cyclic ones included, at the specified root |
| `Revisions.BlockedIffNewer` | web/js/modelling.js:2588-2604 | a revision is blocked exactly by a newer member of the family, whatever its state |
| `Revisions.ReasonNames` | web/js/modelling.js:2595-2602 | the reason names the highest version once released, or if there is none the lowest one in the making |
| `Revisions.ReviseKeepsIff` | web/js/modelling.js:2564-2576 | a revision keeps the order of its family if and only if no reason speaks against it |
| `Revisions.AlwaysInOrder` | web/js/findings.js:139-153 | over every run the versions of a family are pairwise different and at most one member is in the making, then the newest |
| `FocusKeys.Focus.RestoreFocusKey` | web/js/core.js:807-833 | sets the focus to the specified target; only a fallback target becomes focusable |
| `FocusKeys.KeyCounts` | web/js/core.js:746-761 | what is remembered of a target: its label, its list, how many targets stand before it, and how many of these have its label |
| `FocusKeys.RestoredInScope` | web/js/core.js:807-833 | with the row still there: to the enabled target of the label with the remembered number, or the last; else to the enabled target at the remembered place, or the last; else to the first list of the remembered name or the content area |
| `FocusKeys.RestoredWithoutRow` | web/js/core.js:825-832 | with the row gone: to the first list of the remembered name, or the content area |
| `FocusKeys.RoundTrip` | web/js/core.js:746-833 | on unchanged content a target is found again if and only if it is enabled and no twin before it is disabled or it is the last enabled twin |
| `FocusKeys.NeverAnotherRow` | web/js/core.js:792-833 | the targets remembered from rows of a key, on whatever content, are all restored into rows of that key or into no row, if and only if in the new content no enabled target below that row stands in an inner row of another key and, if there is no such target, no list stands in a row of another key |
| `FocusKeys.FlatKeepsRows` | web/js/core.js:792-796 | on new content with flat rows a target from a row is restored to an enabled target in the row of the same key, or else to its list or the content area, in no row at all |
| `FocusKeys.FlatIsApart` | web/js/core.js:792-796 | flat rows meet that condition for every key |
| `FocusKeys.BelowSameKey` | web/js/core.js:807-833 | on any content such a target is restored only to something enabled below a row of the same key, to its list, or to the content area |
| `FocusKeys.NestedRowMisleads` | web/js/core.js:815-822 | with a row inside the row of that key the focus goes to the inner, foreign row |
| `FocusKeys.DisabledTwinMisleads` | web/js/core.js:809-814 | of three equal buttons in a row, the first disabled, the second is remembered and the third gets the focus |
| `FocusKeys.LabelKept` | web/js/core.js:810-822 | as long as the row has an enabled target of that label, the restored one has it |

## Left out

- Rounding: lanes, pixels and scales are exact reals; the tolerance of one pixel in `graphNeighbor` is modelled as it stands.
- The error path of a dangling edge in the spine layout: such edges are dropped there, as in the code; the stacked layout reports them as an error value instead of a TypeError.
- Object keys: node and unit ids that collide with properties of JavaScript objects are not modelled; the `__root__` key of the org-unit index is.
- Order of children in the org-unit tree: they are listed in key order, not sorted by name; the tree shows the same units.
- The object identity of provenance arcs: the labels' heights are an array indexed by arc, the rest of an arc is immutable here.
- The middle-button double click of the canvas, which only calls `fitToView`, and the drawing of the edge arrows.
- Stage-independent views: views that are not live write straight into the content; they are part of the render model, but what they draw is outside the session property. `showStartPending` is left out.
- View functions: they draw only until they settle, they settle, and neither they nor what `render` does before them throws synchronously (the call stands outside the promise chain at web/app.js:1225); the restoring of focus and open sections and the tour link of the chain change nothing that the render model observes, but they may throw.
- Links that throw: the one that remembers the view state before the swap of a redraw, the banner and everything behind it may throw at any time; `toastError`, `commitViewStage` and the assignment of `drawnView` do not.
- A view function takes its stage as its first synchronous step, so the start of a run and `beginViewContent` are one step here.
- Scrolling: the offset may change at any time; that the browser cuts an assigned offset down to the height of the content is not modelled.
- The meaning of staff rules follows core/src/procworks/assignment.py; step ids are non-empty strings; escalation stages name no steps, which the validator guarantees for stored schemas. How deputies are found is stated as reachability over absent agents, not as a worklist.
- Deleting a schema and importing lineages: runs of `Revisions` consist of registering, revising and advancing; cyclic lineages are covered where only one list is read.
- StaffRules.RemovalWidensNothing: one direction only, because the analysis is syntactic: a rule may refer to a step and still exclude nobody by it; `StaffRules.ExclusionWouldOpen` gives the rules for which the reference matters.
- Loops.LoopPairsOf: says nothing about schemas that are not block-structured beyond ending.
- The Python kernel (validator, execution engine, operations, migration), storage, network, login, dialogs, messages and SVG construction: no logic of the client.
