# shux: verified core

shux is a terminal multiplexer daemon. This project models the parts of it that carry hard invariants and proves
what they promise, for every input and every run:

- the **session graph** (`GraphModel`, `GraphOps`, `GraphBatch`, `SessionGraph`): one writer over sessions, windows and
  panes; every mutation edits a copy of the snapshot, commits it once and publishes typed events. Every command is
  reduced to a few kinds of edit (`GraphSteps`, `GraphRuns`), and the invariants (`GraphInvariants`), the replay of
  events (`GraphReplay`), the agreement of layouts with panes (`GraphAgreement`), versions (`GraphVersions`), PTY
  ownership and status (`GraphOwnership`), single commands (`GraphCommands`, `GraphOutcomes`), their errors
  (`GraphRefusals`) and events (`GraphEvents`) and batches (`GraphBatchLaws`) are proved over all of them;
  `GraphWitnesses` holds short runs on which a promise fails;
- the **layout engine** (`Layout`, `LayoutFit`, `WindowLayout`): a binary split tree with integer rounding, clamped
  ratios, zoom, directional focus and the search for the least viewport that fits given pane sizes;
- the **command engine** (`CommandScanner`, `CommandEngine`, `CommandInterleaving`, `CommandReports`, `ShellQuote`): a
  streaming marker scanner with held-back bytes inside a per-pane state machine, and the shell quoter;
- **program status**, OSC 7501 (`StatusModel`, `Base64`, `StatusWire`, `StatusWireLaws`, `StatusTable`,
  `StatusTableLaws`): the wire codec and the hierarchical record table with eviction;
- the **event bus history** (`EventBus`) and the **plugin registry protocol** (`PluginManager`).

Stateful parts of the program are classes whose methods are proved equal to a specification function of the old
state; the laws are proved of those functions, over runs. Every method of `SessionGraph` keeps the graph's whole
invariant. `dafny verify dfyconfig.toml` checks everything.

Conventions. Ids come from a supply: every id at or above it is unused. Ratios are reals in [0.05, 0.95] and
`Share(total, r)` is `total * r` rounded half up. The order in which a hash table is walked is a parameter (`Env.walk`,
any order of the keys, free to change at each commit), as are JSON byte counts, derived pane titles and the Unicode
letter test. Every committed snapshot has a new version, so a theorem for all `Env` covers all orders.

Where the code and its comments disagree the model follows the code, and says exactly how far the comment holds:

- `resize_pane` changes the outermost split of the given direction, not the nearest (`ResizeChangesOutermost`,
  `ResizeMissesNearest`); `ResizeIsNearestIff` says exactly when that is the same.
- `create_pane` adds a pane the layout never learns of. `AgreementKeptIff` gives the exact condition under which a
  command keeps layout and panes in agreement, `HiddenPaneOrphansTheLayout` and `OrphanRun` what follows otherwise.
- Not every layout change moves the versions of the window's panes, although `swap_panes` relies on it.
  `LayoutChangesMoveVersionsIff` says for which commands it does; `StaleSwapPassesAfterSplit` and `StaleSwapRun` show a
  swap that passes with a version read before a split.
- `sanitize_title_clamped` is not idempotent; `ClampedTwice` says exactly when it is, `ClampedTwiceDiffers` shows a title.
- `events_from_seq(0)` counts one lost event too many; `GapIsExactFromOne` says exactly when the count is right.
- `fitted` can return more than the least extent when panes ask for zero cells (`ZeroSizesOverestimate`);
  `FittedIsLeast` says exactly when it returns the least.
- The panes of a row fit exactly into what `fitted` adds up only where no clamped ratio takes cells from one of them:
  `ChainFitsAtOnceIff` gives the exact condition, `EvenTreesFitAtOnce` carries it to every tree.

## Model

| member | source | states |
|---|---|---|
| `GraphInvariants.ReachableGraphsAreValid` | crates/shux-core/src/graph.rs:525-832 | Every graph any run of the 29 commands reaches from the empty one has: non-empty, duplicate-free window lists holding the active window; each window listed by its own session and no other; at least one pane per window; live zoomed panes; valid, unique session names; valid titles unique per session; at most 1024 panes and 4 MiB of pane bytes per session; side maps whose keys are live panes; no id at or above the supply |
| `GraphInvariants.RunsKeepValid` | crates/shux-core/src/graph.rs:669-675 | The same invariant survives any further run from any state that satisfies it |
| `GraphInvariants.EditRefers` | crates/shux-core/src/graph.rs:837-1456 | Each kind of committed edit keeps all parent references, window lists, pane populations and zooms consistent |
| `GraphInvariants.EditNames` | crates/shux-core/src/graph.rs:917-1201 | Each kind of committed edit keeps session names valid and unique and window titles valid and unique within their session |
| `GraphInvariants.CapacityKept` | crates/shux-core/src/graph.rs:2393-2435 | Since a pane is only added where the check found room, no session ever passes 1024 panes or 4 MiB of commands and directories |
| `GraphRuns.RunMoves` | crates/shux-core/src/graph.rs:2566-2678 | Every run, atomic batches included, is a sequence of single commits and single advances of a live pane's owner or status watermark |
| `GraphReplay.EventsRebuildTheGraph` | crates/shux-core/src/graph.rs:811-2150 | Folding all events published over any run rebuilds exactly the live sessions with their names, windows with session and title, panes with window and session, and the set of live zoomed panes; a natural exit removes nothing |
| `GraphReplay.EditReplays` | crates/shux-core/src/graph.rs:1442-1454 | The events of one commit carry a mirror of the old snapshot to a mirror of the new one, for every kind of edit |
| `GraphReplay.ReplayExits` | crates/shux-core/src/graph.rs:885-911 | The exits fired for a dying window or session remove exactly its panes, in whatever order the table is walked |
| `GraphAgreement.LayoutsAgree` | crates/shux-core/src/graph.rs:1842-2248 | Over every run without create_pane, each window's unzoomed tree has exactly the window's panes as distinct leaves, the active pane is one of them, and a zoomed window shows the single zoomed leaf, which is its active pane |
| `GraphAgreement.LayoutNeverFails` | crates/shux-core/src/graph.rs:1842-1885 | Where layouts and panes agree, neither a split, nor a staged split, nor a swap fails with a layout error |
| `GraphAgreement.AgreementKeptIff` | crates/shux-core/src/graph.rs:1313-1357 | From an agreeing graph a command keeps the agreement if and only if it is not a create_pane on an existing window whose session has room |
| `GraphAgreement.HiddenPaneOrphansTheLayout` | crates/shux-core/src/graph.rs:1419-1440 | After such a create_pane in a window with one shown pane, destroying that pane succeeds and leaves the tree and the focus naming the dead pane |
| `GraphWitnesses.OrphanRun` | crates/shux-core/src/graph.rs:1313-1440 | A run from the empty graph that ends so: open a session, create a pane in its window, destroy pane 0 |
| `GraphVersions.VersionsAreSound` | crates/shux-core/src/graph.rs:917-2248 | Between any two points of any run, no surviving session, window or pane goes back in version, one with the same version at both is the same record, and an id that is gone never returns |
| `GraphVersions.LayoutChangesMoveVersionsIff` | crates/shux-core/src/graph.rs:2172-2179 | For every command, window and pane that stays in it: if the command changed the window's layout, the pane's version moved, by one, if and only if the command is not a split, a destroy, a closing with empty parents or a batch; those leave the pane's whole record as it was |
| `GraphVersions.StaleSwapPassesAfterSplit` | crates/shux-core/src/graph.rs:2201-2210 | After any split in a window, a swap of two panes that were there before and that expects the version its anchor had before the split commits |
| `GraphWitnesses.StaleSwapRun` | crates/shux-core/src/graph.rs:2172-2210 | A run from the empty graph: open, split, split again; the layout changed, pane 0 kept its version, and a swap expecting that version commits |
| `GraphVersions.LayoutEditsTouchEveryPane` | crates/shux-core/src/graph.rs:1923-2248 | A resize, zoom or swap that commits moves the version of every pane of the window by one; a focus does so exactly when it unzooms |
| `GraphVersions.SplitsTouchNoOtherPane` | crates/shux-core/src/graph.rs:1842-1910 | A split changes the window's tree and leaves every other pane's record, version included, as it was, contrary to the comment on swap_panes |
| `GraphVersions.DestroysTouchNoOtherPane` | crates/shux-core/src/graph.rs:1378-1456 | Destroying a pane of an agreeing graph changes the window's tree and leaves every other pane's record as it was; so does the cascade to every pane it leaves |
| `GraphOwnership.OwnersNeverGoBack` | crates/shux-core/src/graph.rs:1462-1475 | While a pane lives, the PTY incarnation that owns it and its status watermark never decrease, over every run |
| `GraphOwnership.ReplacedPtyCannotExit` | crates/shux-core/src/graph.rs:1500-1518 | Once an incarnation has claimed a pane, an exit reported by an earlier one changes and publishes nothing, whatever was run in between |
| `GraphOwnership.ForeignExitIsNothing` | crates/shux-core/src/graph.rs:1504-1514 | An owned exit from any incarnation but the current owner leaves the state and the events untouched |
| `GraphOwnership.AcceptedTakesEffect` | crates/shux-core/src/graph.rs:1760-1813 | A publication that beats the watermark of a running pane becomes its status and its watermark; any other leaves the status alone and publishes no status change |
| `GraphOwnership.AcceptedGenerationsIncrease` | crates/shux-core/src/graph.rs:1781-1788 | Of any two publications accepted for one pane over a run, the later has the strictly larger generation |
| `GraphOwnership.NoStatusBetweenExitAndRespawn` | crates/shux-core/src/graph.rs:1767-1771 | In the events of every run no pane.status_changed follows a pane.exited of the same pane before its pane.respawned |
| `GraphOutcomes.StoredTitlesAreEffective` | crates/shux-core/src/model.rs:306-417 | In every reachable graph each pane's stored title is the one its manual, program and derived sources resolve to; pinned only with auto off |
| `GraphOutcomes.CascadeTakesOnlyTheEmpty` | crates/shux-core/src/graph.rs:1358-1376 | Closing a live pane with its empty parents always succeeds and takes the pane, its window exactly if that held no other pane, its session exactly if that held no other pane, and nothing else |
| `GraphOutcomes.FocusShowsThePane` | crates/shux-core/src/graph.rs:1923-1980 | Focusing succeeds on every live pane of a valid graph; the pane is then active and no zoom hides it, the tree and other windows are unchanged, and the reply is the pane that lost focus |
| `GraphOutcomes.ZoomTwiceRestores` | crates/shux-core/src/graph.rs:2073-2150 | Zooming a pane of an unzoomed window twice restores the window's layout |
| `GraphOutcomes.ReorderPlaces` | crates/shux-core/src/graph.rs:1297-1305 | Reordering puts the window at the index asked for and keeps the others in their order |
| `GraphSteps.MoveToReorders` | crates/shux-core/src/graph.rs:1297-1305 | Reordering lists the same windows, each once |
| `GraphOutcomes.DestroyUndoesSplit` | crates/shux-core/src/graph.rs:1842-1910 | Destroying the pane just split off restores the pane table, the sessions, the window's tree and every other window |
| `GraphOutcomes.DestroyUndoesCreateSession` | crates/shux-core/src/graph.rs:769-911 | Destroying the session just created restores the sessions, windows, panes and side maps exactly |
| `GraphBatchLaws.AllOrNothing` | crates/shux-core/src/graph.rs:525-662 | A failing batch changes and publishes nothing; a successful one staged every operation, one version tick each |
| `GraphBatchLaws.BatchIsOneByOne` | crates/shux-core/src/graph.rs:2261-2513 | A batch without title or directory overrides succeeds exactly when its operations succeed one by one, and then gives the same ids, graph, side maps and event sequence |
| `GraphBatchLaws.BackRefsReachBack` | crates/shux-core/src/graph.rs:2515-2563 | In a successful batch every back-reference names an earlier operation; the wrong-type error cannot occur |
| `GraphBatchLaws.StageResolves` | crates/shux-core/src/graph.rs:2517-2563 | A back-reference to the operation itself or a later one fails with the out-of-range error naming both |
| `GraphBatch.FreeName` | crates/shux-core/src/graph.rs:547-563 | The first session-N from the count of sessions plus one up that no session bears; the scan always ends |
| `GraphBatch.DecimalInjective` | crates/shux-core/src/graph.rs:557-557 | Distinct numbers render differently, so the scan cannot run into one name twice |
| `GraphModel.SessionNameError` | crates/shux-core/src/graph.rs:677-695 | A name is refused exactly when it is empty, over 128 characters, or has a character other than letters, digits, hyphen, underscore and dot |
| `GraphModel.CheckWindowTitle` | crates/shux-core/src/graph.rs:739-752 | A raw title is accepted exactly when its sanitized form is 1 to 128 clean characters and not a window number, and what is stored is that form |
| `SessionGraphs.CommandKeeps` | crates/shux-core/src/graph.rs:2566-2678 | Every command keeps the class invariant: the graph invariant, a subscriber in step with the snapshot, no status between exit and respawn, and stored titles in sync |
| `SessionGraphs.CheckCapacity` | crates/shux-core/src/graph.rs:2403-2435 | The loop-based check refuses exactly what the bounds on panes and bytes refuse |
| `SessionGraphs.StageSession` | crates/shux-core/src/graph.rs:2261-2328 | Stages a session on the copy after name, uniqueness, capacity and title checks in that order |
| `SessionGraphs.StageWindow` | crates/shux-core/src/graph.rs:2334-2391 | Stages a window on the copy, the session looked up before the title is checked |
| `SessionGraphs.StageSplit` | crates/shux-core/src/graph.rs:2453-2513 | Stages a split on the copy, in the given directory or the target's |
| `SessionGraphs.StageOne` | crates/shux-core/src/graph.rs:537-645 | Resolves names, references and directories against what was staged before, and stages the operation |
| `SessionGraphs.SessionUsage` | crates/shux-core/src/graph.rs:2412-2425 | The fold over a session's panes gives the pane count and byte total whatever order the table is walked in |
| `SessionGraphs.UnusedName` | crates/shux-core/src/graph.rs:551-562 | The scanning loop ends and finds the first free session-N |
| `SessionGraphs.BumpEach` | crates/shux-core/src/graph.rs:2048-2060 | The loop over the table moves the version of exactly the window's panes |
| `SessionGraphs.RemoveEach` | crates/shux-core/src/graph.rs:866-878 | The loop over the table removes exactly the panes of the listed windows and lists their exits in table order |
| `SessionGraphs.SessionGraph.constructor` | crates/shux-core/src/graph.rs:461-481 | Starts from the empty graph, which satisfies the class invariant |
| `SessionGraphs.SessionGraph.CommitSnapshot` | crates/shux-core/src/graph.rs:669-675 | Swaps the snapshot, drops side-map entries of dead panes and appends the events |
| `SessionGraphs.SessionGraph.CreateSession` | crates/shux-core/src/graph.rs:769-834 | The new state and reply are those of creating the session with its first window and pane; every refusal leaves the state as it was |
| `SessionGraphs.SessionGraph.DestroySession` | crates/shux-core/src/graph.rs:837-914 | The session, its windows and their panes go; exits, kills and the session's own event follow in that order |
| `SessionGraphs.SessionGraph.RenameSession` | crates/shux-core/src/graph.rs:917-965 | Renames after the version and uniqueness checks, or refuses with no change |
| `SessionGraphs.SessionGraph.CreateWindow` | crates/shux-core/src/graph.rs:983-1048 | Adds the window last, active, with its first pane, after title, session, conflict and capacity checks in that order |
| `SessionGraphs.SessionGraph.DestroyWindow` | crates/shux-core/src/graph.rs:1050-1134 | Takes the window and its panes, refocuses the first window left, refuses the last window |
| `SessionGraphs.SessionGraph.RenameWindow` | crates/shux-core/src/graph.rs:1137-1201 | Retitles unless a sibling in the session bears the title |
| `SessionGraphs.SessionGraph.FocusWindow` | crates/shux-core/src/graph.rs:1204-1255 | The new state and reply are those of which FocusWindowActivates says that the window is active and the reply the one that was |
| `SessionGraphs.SessionGraph.ReorderWindow` | crates/shux-core/src/graph.rs:1258-1310 | Moves the window in its session's order, or refuses an index out of range |
| `SessionGraphs.SessionGraph.CreatePane` | crates/shux-core/src/graph.rs:1313-1356 | Adds a pane to the table without touching the layout |
| `SessionGraphs.SessionGraph.SplitPane` | crates/shux-core/src/graph.rs:1842-1913 | Splits in the layout, unzooming first, and focuses the new pane; the rectangles are those of SplitPaneDivides |
| `SessionGraphs.SessionGraph.DestroyPane` | crates/shux-core/src/graph.rs:1378-1456 | Removes the pane from table and layout, refocuses the first leaf if it was active, refuses the last pane |
| `SessionGraphs.SessionGraph.DestroyPaneAndEmptyParents` | crates/shux-core/src/graph.rs:1361-1376 | Falls through from pane to window to session on the last-pane and last-window refusals only |
| `SessionGraphs.SessionGraph.ClaimPanePty` | crates/shux-core/src/graph.rs:1462-1498 | A newer claim stands; a claim on an exited pane clears the exit and publishes the respawn |
| `SessionGraphs.SessionGraph.SetPaneExit` | crates/shux-core/src/graph.rs:1524-1556 | Records and publishes a natural exit |
| `SessionGraphs.SessionGraph.SetProgramStatus` | crates/shux-core/src/graph.rs:1760-1813 | The watermark advances before the equality check, which suppresses only the commit and the event |
| `SessionGraphs.SessionGraph.SetExitOwned` | crates/shux-core/src/graph.rs:1504-1518 | The final status commits before the exit, both only for the owning incarnation |
| `SessionGraphs.SessionGraph.FocusPane` | crates/shux-core/src/graph.rs:1923-1980 | Focuses the pane, first undoing a zoom that hides it |
| `SessionGraphs.SessionGraph.CommitLayout` | crates/shux-core/src/graph.rs:2044-2063 | Commits a changed layout together with the version of every pane of the window |
| `SessionGraphs.SessionGraph.ResizePane` | crates/shux-core/src/graph.rs:2009-2070 | Unzooms and re-ratios the tree, or succeeds without a change when no split matches |
| `SessionGraphs.SessionGraph.ZoomPane` | crates/shux-core/src/graph.rs:2073-2150 | Toggles the zoom, moves focus to the zoomed pane, and changes nothing when the zoom did not change |
| `SessionGraphs.SessionGraph.SwapPanes` | crates/shux-core/src/graph.rs:2180-2248 | Swaps two panes of one window in the unzoomed tree, with its five refusals in order |
| `SessionGraphs.SessionGraph.SetSessionTag` | crates/shux-core/src/graph.rs:1559-1581 | Sets one tag and moves the session's version; nothing is published |
| `SessionGraphs.SessionGraph.SetSessionTheme` | crates/shux-core/src/graph.rs:1602-1623 | Sets or clears the theme and moves the session's version |
| `SessionGraphs.SessionGraph.SetPaneTag` | crates/shux-core/src/graph.rs:1583-1600 | Sets one tag and moves the pane's version |
| `SessionGraphs.SessionGraph.SetPaneTheme` | crates/shux-core/src/graph.rs:1625-1641 | Sets or clears the theme and moves the pane's version |
| `SessionGraphs.SessionGraph.SetPaneTitle` | crates/shux-core/src/graph.rs:1654-1697 | Sets the auto flag, then the manual title, and publishes exactly a change of the displayed title |
| `SessionGraphs.SessionGraph.SetPaneOscTitle` | crates/shux-core/src/graph.rs:1704-1748 | A repeated title that is not shown commits nothing; otherwise only a change of the displayed title is published |
| `SessionGraphs.SessionGraph.CommitTitle` | crates/shux-core/src/graph.rs:1683-1695 | Commits the retitled pane, with the event exactly when the displayed title differs |
| `SessionGraphs.SessionGraph.FocusPaneDirection` | crates/shux-core/src/graph.rs:1983-2006 | Focuses the neighbour of the active pane, or succeeds without a change when there is none |
| `SessionGraphs.SessionGraph.ZoomPaneIfFocused` | crates/shux-core/src/graph.rs:2158-2171 | Zooms only when the given pane is focused, nothing is zoomed and there are two panes to show; otherwise nothing changes |
| `SessionGraphs.SessionGraph.ApplyBatch` | crates/shux-core/src/graph.rs:525-662 | Stages in a loop on a copy and commits it once if every operation passes |
| `Titles.SanitizeIsClean` | crates/shux-core/src/model.rs:637-727 | Sanitizing removes every hostile character and outer space, leaves a clean title alone, and is idempotent |
| `Titles.ClampedTwice` | crates/shux-core/src/model.rs:735-742 | Clamping twice equals clamping once if and only if the cut does not leave a space at the end |
| `Titles.ClampedTwiceDiffers` | crates/shux-core/src/model.rs:735-742 | 63 letters, a space and a letter: clamped once it ends in the space, clamped again it does not |
| `Layout.ShareGrowsSlowly` | crates/shux-core/src/layout.rs:87-122 | A larger total never gives side a fewer cells, and at most one more per cell added |
| `Layout.PanesTileTheViewport` | crates/shux-core/src/layout.rs:270-287 | For every tree and viewport: one rectangle per leaf in leaf order, visible ones inside, none overlapping, every viewport cell in exactly one pane or on exactly one separator |
| `Layout.Tiling` | crates/shux-core/src/layout.rs:91-122 | Counting panes and separators at any cell gives one inside the viewport and none outside |
| `Layout.SeparatorsOneCell` | crates/shux-core/src/layout.rs:91-122 | Each split has one separator, across the split, right after side a and before side b, one cell thick or empty where the extent is zero |
| `Layout.RectsFitU16` | crates/shux-core/src/layout.rs:91-122 | No rectangle leaves 16 bits while the viewport leaves room for one cell per level of the tree |
| `Layout.SplitPaneLeaves` | crates/shux-core/src/layout.rs:290-319 | Splitting succeeds exactly on a pane of the tree and puts the new pane right after it in leaf order; SplitDividesTheTarget says where it lies |
| `Layout.RemovePaneLeaves` | crates/shux-core/src/layout.rs:388-417 | With distinct leaves, removing succeeds exactly on a pane of a split tree and drops just that leaf |
| `Layout.RemoveUndoesSplit` | crates/shux-core/src/layout.rs:388-417 | Removing a freshly split pane restores the tree |
| `Layout.SwapTwice` | crates/shux-core/src/layout.rs:420-445 | Swapping the same two panes twice restores the tree |
| `LayoutFit.RectsHaveExtents` | crates/shux-core/src/layout.rs:91-122 | Each axis is computed on its own: rectangles along one axis follow from the viewport along that axis |
| `LayoutFit.ExtentsGrowSlowly` | crates/shux-core/src/layout.rs:91-122 | Enlarging the viewport by k cells enlarges every pane by between 0 and k cells |
| `LayoutFit.ResizeSucceedsIff` | crates/shux-core/src/layout.rs:341-385 | Resizing succeeds exactly when some split above the pane has that direction |
| `LayoutFit.ResizeChangesOutermost` | crates/shux-core/src/layout.rs:362-374 | Resizing keeps the pane order and changes a single ratio of the whole tree: the one of the outermost split in that direction above the pane |
| `LayoutFit.ResizeIsNearestIff` | crates/shux-core/src/layout.rs:340-374 | Resizing does what its comment says, moving the nearest split in that direction, if and only if at most one split above the pane has that direction or both the outermost and the nearest of them are already at the limit they would be moved to |
| `LayoutFit.ResizeMissesNearest` | crates/shux-core/src/layout.rs:340-374 | A nested pair of columns beside a third: growing the first column moves the outer line and not its own |
| `LayoutFit.ResizeKeepsOtherAxis` | crates/shux-core/src/layout.rs:341-385 | Resizing leaves every pane's extent on the other axis unchanged in every viewport |
| `LayoutFit.ResizeMovesTowardsDelta` | crates/shux-core/src/layout.rs:341-385 | A non-negative delta never makes the pane smaller along that axis in any viewport; a non-positive one never larger |
| `LayoutFit.Fitted` | crates/shux-core/src/layout.rs:199-234 | None exactly when some pane has no size; otherwise the re-ratioed tree and, per axis, the extent the growth loop ends at: just what the panes and separators ask for, up to the maximum, where every split along the axis can be shared evenly; in general the least extent up to the maximum that gives every pane its size if and only if one cell less than the capped start would leave some pane short; which holds whenever every pane asks for a cell |
| `LayoutFit.GrowAlong` | crates/shux-core/src/layout.rs:217-231 | The growth loop ends and never passes an extent that fits |
| `LayoutFit.FittedIsLeast` | crates/shux-core/src/layout.rs:199-267 | For every tree, sizes, axis and maximum: the growth loop ends at the least fitting extent up to the maximum if and only if the summed size, capped at the maximum, is zero or one cell less than it does not fit |
| `LayoutFit.AskingACellStartsTight` | crates/shux-core/src/layout.rs:238-267 | Where every pane asks for at least one cell along the axis that condition holds, so the extent is the least |
| `LayoutFit.FitsMonotone` | crates/shux-core/src/layout.rs:91-122 | An extent larger than one that fits every pane fits every pane too |
| `LayoutFit.LowerBound` | crates/shux-core/src/layout.rs:238-267 | The size the re-ratioing adds up is a lower bound: no smaller extent fits |
| `LayoutFit.DeficitNeverOvershoots` | crates/shux-core/src/layout.rs:217-231 | Every extent that fits is at least the present one plus the largest shortfall |
| `LayoutFit.ZeroSizesOverestimate` | crates/shux-core/src/layout.rs:238-267 | Two side-by-side panes that ask for no cells get one column though none is needed, and the condition above fails for them |
| `WindowLayouts.ToggleZoomTwice` | crates/shux-core/src/layout.rs:524-543 | Zooming and unzooming a pane is the identity, except that it drops another pane's zoom |
| `WindowLayouts.EditsKeepWellFormed` | crates/shux-core/src/layout.rs:524-593 | Zoom, split and remove keep a zoom showing one pane of a saved tree with others; a toggle never changes the tree behind the zoom |
| `WindowLayouts.NeighborIsNearest` | crates/shux-core/src/layout.rs:448-496 | The neighbour is the nearest pane on that side of the current one, or none when no pane lies there |
| `WindowLayouts.DirectionalFocus` | crates/shux-core/src/layout.rs:448-496 | The search loop returns that neighbour |
| `WindowLayouts.WindowLayout.constructor` | crates/shux-core/src/layout.rs:513-518 | A new layout shows its one pane unzoomed |
| `WindowLayouts.WindowLayout.Toggle` | crates/shux-core/src/layout.rs:524-543 | The new value is the toggled one |
| `WindowLayouts.WindowLayout.Split` | crates/shux-core/src/layout.rs:550-566 | Unzooms, then splits, and reports whether the target was found |
| `WindowLayouts.WindowLayout.Remove` | crates/shux-core/src/layout.rs:582-593 | Unzooms, then removes, and reports whether a pane was removed |
| `CommandScanner.ClassifyExitIff` | crates/shux-pty/src/command.rs:406-429 | A marker candidate is an exit with a code exactly when the code, written by repeated division by ten in one to three digits, zeros in front allowed, follows, and then the end word |
| `CommandScanner.ClassifyStable` | crates/shux-pty/src/command.rs:406-429 | Once decided, later bytes never change the classification |
| `CommandScanner.ScanConserves` | crates/shux-pty/src/command.rs:236-265 | Until the end marker, the kept and held-back bytes are exactly the input, in order |
| `CommandScanner.ScanSplits` | crates/shux-pty/src/command.rs:236-265 | Scanning a first part and then what it held back with a second part is scanning both at once |
| `CommandScanner.ScanStopsAtFirstGenuine` | crates/shux-pty/src/command.rs:236-265 | The scan ends exactly at the first genuine end marker, with its code, and keeps exactly the bytes before it |
| `CommandScanner.ConsumeSplits` | crates/shux-pty/src/command.rs:208-265 | Where a read ends makes no difference, before or after the BEGIN line |
| `CommandScanner.StreamMeaning` | crates/shux-pty/src/command.rs:208-265 | A stream completes with a code if and only if a payload started and holds a first genuine marker with that code; the bytes kept are those between |
| `CommandEngines.ReadsMakeNoDifference` | crates/shux-pty/src/command.rs:208-265 | However a pane's stream is cut into reads, the engine ends in the same state and reports the same completions |
| `CommandEngines.CommandReportsItsOutput` | crates/shux-pty/src/command.rs:208-265 | A registered command completes exactly when its stream holds a BEGIN line and after it a genuine end marker; it reports the first one's code and the bytes between, cut at the cap, with the truncated flag exactly when more were written |
| `CommandInterleavings.InterleavingMakesNoDifference` | crates/shux-pty/src/command.rs:208-265 | Under any interleaving with registrations, output, timeouts, cancels and pane losses of other panes, a pane's reads report the same completions and leave the same command and held bytes as if they came alone |
| `CommandInterleavings.InterleavedCommandReportsItsOutput` | crates/shux-pty/src/command.rs:153-365 | So a registered command reports its code and output, as above, whatever happens in other panes meanwhile |
| `CommandEngines.MarkersAreEndPrefixes` | crates/shux-pty/src/command.rs:123-150 | Every marker the engine makes gives an end prefix that cannot overlap itself |
| `CommandEngines.EarlyEndOwnsThePayload` | crates/shux-pty/src/command.rs:271-306 | A command ended early owns its whole payload so far, but for an end marker begun and still open |
| `CommandEngines.StepKeeps` | crates/shux-pty/src/command.rs:153-365 | Every engine step keeps the invariant and undoes nothing issued, answered or resulted |
| `CommandEngines.RunsKeep` | crates/shux-pty/src/command.rs:271-365 | At every point of every run: each pane holds at most one command, tracked commands are those holding a pane plus at most 64 finished ones, a released command has a result, a result once set never changes, and each waiter is answered at most once and no later than its pane's release |
| `CommandEngines.CommandEngine.constructor` | crates/shux-pty/src/command.rs:113-120 | Starts with nothing tracked |
| `CommandEngines.CommandEngine.RegisterCommand` | crates/shux-pty/src/command.rs:153-188 | Tracks the command in a free pane, or names the one running there |
| `CommandEngines.CommandEngine.FinishCommand` | crates/shux-pty/src/command.rs:271-306 | Sets the result once, owns the held bytes of an early end and answers the waiter |
| `CommandEngines.CommandEngine.ReleaseCommand` | crates/shux-pty/src/command.rs:309-324 | Frees the pane and files the command as finished, keeping at most 64 |
| `CommandEngines.CommandEngine.TrimFinished` | crates/shux-pty/src/command.rs:309-324 | Forgets the oldest finished commands past the bound |
| `CommandEngines.CommandEngine.ProcessOutput` | crates/shux-pty/src/command.rs:208-268 | Feeds a read and reports the command it completed; the report is what ShellOutputIsReported says of every cut of the stream |
| `CommandEngines.CommandEngine.CheckTimeouts` | crates/shux-pty/src/command.rs:327-344 | Times out every overdue command, in any table order, leaving it in its pane |
| `CommandEngines.CommandEngine.CancelCommand` | crates/shux-pty/src/command.rs:347-356 | Ends and releases the command that holds its pane |
| `CommandEngines.CommandEngine.ForgetPane` | crates/shux-pty/src/command.rs:359-365 | Ends and releases the command of a pane that went away |
| `CommandEngines.SplitPayload` | crates/shux-pty/src/command.rs:236-265 | The draining loop computes what the recursive scan does |
| `ShellQuote.SplitUndoesEscape` | crates/shux-pty/src/command.rs:473-504 | Reading the escaped line by the quoting and token rules of sections 2.2 and 2.3 of POSIX.1-2017 Shell Command Language returns exactly the argument list, empty arguments included |
| `ShellQuote.EscapeIsInjective` | crates/shux-pty/src/command.rs:499-504 | Distinct argument lists never render alike |
| `EventBuses.RingIsTail` | crates/shux-core/src/bus.rs:121-137 | After any publishes the ring is exactly the last max(1, capacity) events |
| `EventBuses.QueryReturnsRetained` | crates/shux-core/src/bus.rs:152-165 | A query returns exactly the retained events numbered from or later |
| `EventBuses.GapAccountsForEverything` | crates/shux-core/src/bus.rs:152-165 | For every from between 1 and the next number, the gap plus the events returned is all that was published since |
| `EventBuses.GapIsExactFromOne` | crates/shux-core/src/bus.rs:152-165 | The gap is the number of events aged out if and only if from is at least 1 or nothing was published; from 0 counts one too many |
| `EventBuses.TakeBackIsLastMatching` | crates/shux-core/src/bus.rs:174-186 | A filtered history query gives the last matching events, at most the count asked for, in order |
| `EventBuses.EventBus.constructor` | crates/shux-core/src/bus.rs:198-213 | Starts with an empty log numbered from 1 |
| `EventBuses.EventBus.Publish` | crates/shux-core/src/bus.rs:226-253 | Numbers the event one past the last and pushes it, dropping the oldest at capacity |
| `EventBuses.EventBus.EventsFromSeq` | crates/shux-core/src/bus.rs:295-307 | Returns the retained events and the gap |
| `EventBuses.EventBus.HistoryFiltered` | crates/shux-core/src/bus.rs:285-292 | Returns the last matching events |
| `StatusModel.ParseRecordId` | crates/shux-program-status/src/model.rs:79-94 | Accepts exactly the ids of one to the allowed number of non-empty segments of allowed bytes, within the length limit |
| `StatusModel.IsWithinIffSegments` | crates/shux-program-status/src/model.rs:101-106 | An id lies within another exactly when the other's segments are a prefix of its own |
| `StatusModel.ParentDropsLastSegment` | crates/shux-program-status/src/model.rs:108-112 | The parent drops exactly the last segment; a single segment has none |
| `Base64.DecodeUndoesEncode` | crates/shux-program-status/src/wire.rs:248-268 | Decoding undoes encoding by section 4 of RFC 4648, padded or not |
| `Base64.DecodeAcceptsExactly` | crates/shux-program-status/src/wire.rs:248-268 | A byte string decodes to a text exactly when it is that text's canonical encoding, padded or not, as section 3.5 of RFC 4648 asks |
| `StatusWire.DecodedIsWellFormed` | crates/shux-program-status/src/wire.rs:107-217 | Whatever bytes arrive, an accepted report respects every limit and field rule |
| `StatusWire.DecodeUndoesEncode` | crates/shux-program-status/src/wire.rs:65-104 | A well-formed report is written within the size limit and read back as itself |
| `StatusWire.AcceptedReportsRoundTrip` | crates/shux-program-status/src/wire.rs:65-217 | Any report accepted from arbitrary bytes re-encodes within the limit to a payload that decodes to the same report |
| `StatusWire.DecodePayload` | crates/shux-program-status/src/wire.rs:107-131 | The loop over pairs computes the decoding, refusing at the first pair that refuses |
| `StatusWire.EncodePayload` | crates/shux-program-status/src/wire.rs:65-104 | The appending loop writes the words of the report in wire order |
| `StatusTables.RunsKeepValid` | crates/shux-program-status/src/table.rs:102-137 | After any operations: at most 256 records under distinct keys, each stamped with its last report |
| `StatusTables.RecordsLeaveOnlyFor` | crates/shux-program-status/src/table.rs:50-145 | A record leaves only by a clear of everything or of a path whose segments its own begin with, by a prompt or exit while it is neither done nor failed, by a full reset, or at the cap after 256 other keys were reported since its own last report |
| `StatusTables.EvictedWasCrowdedOut` | crates/shux-program-status/src/table.rs:102-137 | An evicted record was not reported while 256 other keys were |
| `StatusTables.RevisionTracksContents` | crates/shux-program-status/src/table.rs:102-145 | The revision moves, by one, exactly when some key's record changes, appears or goes |
| `StatusTables.SortIsOrderedListing` | crates/shux-program-status/src/rank.rs:7-21 | Reading lists every record once, by urgency, then root first, then newest |
| `StatusTables.TopIsHeadOfSort` | crates/shux-program-status/src/table.rs:76-100 | The summary leads with the head of the listing |
| `StatusTables.LineageIsEnclosing` | crates/shux-program-status/src/table.rs:149-166 | The keys outward of an entry are exactly its own, the paths that enclose it and the root |
| `StatusTables.EffectiveAppIsNearest` | crates/shux-program-status/src/table.rs:147-166 | The app an entry goes by is its own, or else that of the deepest enclosing record that has one, the root last; none exactly when no enclosing record has one |
| `StatusTables.EntriesRemember` | crates/shux-program-status/src/table.rs:102-137 | In every run each entry carries the number of the report at which its record last changed, the stamp of its last report, and per state the stamp of the last report in that state since the record appeared |
| `StatusTables.StatusTable.constructor` | crates/shux-program-status/src/table.rs:29-33 | Starts empty at revision 0 |
| `StatusTables.StatusTable.Set` | crates/shux-program-status/src/table.rs:102-137 | Replaces, appends, or evicts the least recently reported record at the cap |
| `StatusTables.StatusTable.RetainWhere` | crates/shux-program-status/src/table.rs:139-146 | Keeps the accepted entries in order and moves the revision only if one went |
| `StatusTables.StatusTable.ApplyOp` | crates/shux-program-status/src/table.rs:50-73 | Applies a report or a lifetime event; what is then left is what ClearTakesTheSubtree, DoneAndFailedSurvive, ClearAllEmpties and SetPutsTheRecord say |
| `StatusTables.StatusTable.FindApp` | crates/shux-program-status/src/table.rs:149-166 | The outward walk finds the nearest app |
| `StatusTables.StatusTable.Records` | crates/shux-program-status/src/table.rs:76-80 | Lists every record exactly once, none ahead of one it should follow, each with the app it has or inherits from the nearest enclosing record |
| `StatusTables.StatusTable.Summarize` | crates/shux-program-status/src/table.rs:83-100 | None exactly when empty; otherwise the head of the listing and, for every state, the number of its records |
| `PluginManagers.RunsKeep` | crates/shux-plugin/src/lib.rs:842-1088 | In every interleaving of install, reload, kill and shutdown steps, each reload still able to install has its flag pending under its name or already set |
| `PluginManagers.KilledStaysDead` | crates/shux-plugin/src/lib.rs:1029-1047 | After kill returns, no reload of that name begun earlier registers anything, whatever happens in between |
| `PluginManagers.NothingRegistersAfterShutdown` | crates/shux-plugin/src/lib.rs:1051-1064 | Once shutdown has set stopping, the registry stays empty |
| `PluginManagers.PluginManager.constructor` | crates/shux-plugin/src/lib.rs:405-425 | Starts with nothing registered or pending |
| `PluginManagers.PluginManager.Take` | crates/shux-plugin/src/lib.rs:1079-1088 | Raises and forgets the flag pending under the name |
| `PluginManagers.PluginManager.StopRunning` | crates/shux-plugin/src/lib.rs:1132-1138 | Unregisters the plugin and raises its watcher's flag; reports whether it was there |
| `PluginManagers.PluginManager.StartReload` | crates/shux-plugin/src/lib.rs:842-857 | Unregisters the plugin and leaves its own flag pending under the name in one section, stopping whatever was pending; nothing changes when it was not running |
| `PluginManagers.PluginManager.RegisterPlugin` | crates/shux-plugin/src/lib.rs:672-829 | Refuses, in order, while stopping, when its flag is raised, and on a taken name; otherwise supersedes what is pending and registers |
| `PluginManagers.PluginManager.SettleReload` | crates/shux-plugin/src/lib.rs:868-896 | A failed reload still pending under its own flag hands the name to its new watcher or withdraws it; otherwise it stops that watcher |
| `PluginManagers.PluginManager.KillPlugin` | crates/shux-plugin/src/lib.rs:1029-1047 | Unregisters and raises the pending flag under the name |
| `PluginManagers.PluginManager.ShutDown` | crates/shux-plugin/src/lib.rs:1051-1064 | Sets stopping and drains the registry, raising each watcher's flag |
| `GraphCommands.CreateSessionMakesOne` | crates/shux-core/src/graph.rs:769-834 | Succeeds exactly if the name is valid and free and there is room; the new session has one window with one pane, active, running the command in the directory; nothing else changes |
| `GraphCommands.FirstWindowIsNamed` | crates/shux-core/src/graph.rs:219-232 | The first window is titled by what its pane runs, sanitized, or window where that is no valid title |
| `GraphCommands.RoomIff` | crates/shux-core/src/graph.rs:2403-2435 | There is room for a pane exactly below 1024 panes and within 4 MiB with the new one counted |
| `GraphCommands.DestroySessionTakesAll` | crates/shux-core/src/graph.rs:837-914 | Succeeds exactly on a session with the version expected; exactly its windows and panes go with it |
| `GraphCommands.RenameSessionRenames` | crates/shux-core/src/graph.rs:917-965 | Succeeds exactly on a live session with the version expected and a valid, free name; the name is then the new one and nothing else but the version changes |
| `GraphCommands.SessionTagIsSet` | crates/shux-core/src/graph.rs:1559-1581 | Succeeds exactly on a live session; that tag has the value and nothing else but the version changes |
| `GraphCommands.SessionThemeIsSet` | crates/shux-core/src/graph.rs:1602-1623 | Succeeds exactly on a live session; the theme is the one given and nothing else but the version changes |
| `GraphCommands.CreateWindowMakesOne` | crates/shux-core/src/graph.rs:983-1048 | Succeeds exactly with a valid sanitized title no window of the session has, and room; the window comes last, is active and has one new pane |
| `GraphCommands.TitleTakenIff` | crates/shux-core/src/graph.rs:201-214 | The title lookup over the window list finds a window exactly when some window of the session has the title |
| `GraphCommands.DestroyWindowTakesItsPanes` | crates/shux-core/src/graph.rs:1050-1134 | Succeeds exactly if the version is as expected and the session has another window; its panes go, and the focus moves to the first window left only if it was there |
| `GraphCommands.RenameWindowRenames` | crates/shux-core/src/graph.rs:1137-1201 | Succeeds exactly if no sibling has the sanitized title; the window has it, and its layout, focus and all other records stay |
| `GraphCommands.FocusWindowActivates` | crates/shux-core/src/graph.rs:1204-1255 | Succeeds exactly on a live window with the version expected; it is then active, the reply is the window that lost focus or none, and windows, panes and other sessions stay |
| `GraphCommands.ReorderMovesTheWindow` | crates/shux-core/src/graph.rs:1258-1310 | Succeeds exactly for an index within the session; the window is at it and the others keep their order |
| `GraphCommands.CreatePaneAddsToTheTable` | crates/shux-core/src/graph.rs:1313-1356 | Succeeds exactly on a live window with room; the pane is in the table and no window changes |
| `GraphCommands.SplitPaneDivides` | crates/shux-core/src/graph.rs:1842-1913 | In an agreeing graph succeeds exactly on a live pane with room; in every viewport the target rectangle is divided in the direction and ratio asked for, target first, and every other pane keeps its rectangle; the new pane is active |
| `GraphCommands.DestroyPaneHandsOver` | crates/shux-core/src/graph.rs:1378-1456 | In an agreeing graph succeeds exactly if the window has another pane; the rectangle of the split above goes to the sibling, other panes keep theirs, and the focus moves to the first pane left only if it was on the pane |
| `GraphCommands.SwapPanesTrades` | crates/shux-core/src/graph.rs:2180-2248 | In an agreeing graph succeeds exactly on two panes of one window; they trade rectangles in every viewport and the others keep theirs |
| `GraphCommands.ResizePaneMoves` | crates/shux-core/src/graph.rs:2009-2070 | Growing never makes the pane smaller and shrinking never larger, in every viewport; with no split in that direction nothing changes at all |
| `GraphCommands.ZoomPaneFills` | crates/shux-core/src/graph.rs:2073-2150 | The zoomed pane alone fills the viewport and is active; the second time the tree shows as before; the reply says which |
| `GraphCommands.DirectionalFocusMoves` | crates/shux-core/src/graph.rs:1983-2006 | The focus goes to the neighbour of the active pane among what is shown; without one nothing changes |
| `GraphCommands.ZoomIfFocusedZooms` | crates/shux-core/src/graph.rs:2158-2171 | Zooms exactly if the pane given has the focus, nothing is zoomed and the tree has two panes; otherwise nothing changes |
| `GraphCommands.PaneTagIsSet` | crates/shux-core/src/graph.rs:1583-1600 | Succeeds exactly on a live pane; that tag has the value and nothing else but the version changes |
| `GraphCommands.PaneThemeIsSet` | crates/shux-core/src/graph.rs:1625-1641 | Succeeds exactly on a live pane; the theme is the one given and nothing else but the version changes |
| `GraphCommands.SetTitleShows` | crates/shux-core/src/graph.rs:1654-1697 | A manual title is shown clamped; clearing it shows the title of the program, else the derived one, or with auto off keeps what was shown; nothing else changes |
| `GraphCommands.OscTitleShows` | crates/shux-core/src/graph.rs:1704-1748 | A title from the program is stored clamped and shown exactly where no manual title is set and auto is on; an empty one brings the derived title back |
| `GraphCommands.ExitIsRecorded` | crates/shux-core/src/graph.rs:1524-1556 | Succeeds exactly on a live pane and changes only its exit |
| `GraphCommands.ClaimTakesThePane` | crates/shux-core/src/graph.rs:1462-1498 | Granted exactly unless a newer incarnation owns the pane; the claimant then owns it and it counts as running; a refused claim changes nothing |
| `GraphCommands.OwnedExitIsRecorded` | crates/shux-core/src/graph.rs:1500-1518 | From the owner, always succeeds: the exit is recorded and its event comes last |
| `GraphRefusals.RefusedForTheFirstReason` | crates/shux-core/src/graph.rs:677-2248 | In every valid graph each of the 25 commands that commit at most once fails exactly when a reason stands against it: a bad or taken name or title, something missing, a version other than expected, a last window or pane, a swap of one pane or across windows, an index out of range, no room, a pane the layout does not hold. The error is the first reason in one fixed order, with what it reports true of the graph and the request |
| `GraphEvents.CommandsTellTheTruth` | crates/shux-core/src/graph.rs:811-2248 | Every event one of these commands publishes is true of what it did: ids, parents, names, titles before and after, exit, status, focus and zoom are those of the graph before and after |
| `GraphEvents.CommitsTellTheTruth` | crates/shux-core/src/graph.rs:669-675 | The same of every single edit: each staged operation of a batch, and each claim, status and exit |
| `GraphEvents.NothingHappensInSilence` | crates/shux-core/src/graph.rs:1524-1813 | No commit changes the displayed title, the exit or the status of a surviving pane without an event that says so |
| `GraphBatchLaws.StagedSessionIsAsAsked` | crates/shux-core/src/graph.rs:2261-2328 | A staged session has the name, directory and command asked for, and its first window the title asked for, sanitized, or the default where none or an empty one is given |
| `GraphBatchLaws.StagedSplitIsAsAsked` | crates/shux-core/src/graph.rs:2453-2513 | A staged split puts the new pane in the layout and focus, in the directory given or that of the target |
| `GraphBatchLaws.WindowCwdIsAPanes` | crates/shux-core/src/graph.rs:588-602 | A staged window without a directory starts where some pane of its session is, or in the current directory if it has none |
| `Titles.SanitizeKeepsTheRest` | crates/shux-core/src/model.rs:637-727 | Sanitizing loses nothing but hostile characters, one by one, and the spaces at either end |
| `Layout.ShareIsNearest` | crates/shux-core/src/layout.rs:91-122 | Side a of a split gets its proportion of the cells to within half a cell |
| `LayoutFit.SplitDividesTheTarget` | crates/shux-core/src/layout.rs:290-319 | For every tree, viewport and pane: after a split the target and the new pane divide the old rectangle of the target, target first, in the direction and clamped ratio given, and every other pane keeps its rectangle |
| `LayoutFit.RemoveGivesToTheSibling` | crates/shux-core/src/layout.rs:388-417 | Removing a pane lays its sibling out in the rectangle of the split above it; every pane outside the sibling keeps its rectangle |
| `LayoutFit.SwapTradesRectangles` | crates/shux-core/src/layout.rs:420-445 | Swapped panes trade rectangles in every viewport; the others keep theirs |
| `LayoutFit.ProportionIsExactIff` | crates/shux-core/src/layout.rs:263-264 | The ratio taken from two sides gives both back exactly if and only if neither asks for more than 19 times the other, or the clamped ratio still rounds to them |
| `LayoutFit.RatioIsProportion` | crates/shux-core/src/layout.rs:238-267 | At a split along the axis the new ratio gives each side just what it asks for out of their sum if and only if the two are even |
| `LayoutFit.EvenTreesFitAtOnce` | crates/shux-core/src/layout.rs:193-234 | For every tree whose splits along the axis are even and whose sum stays within 16 bits, every pane fits into the summed size, so the loop does not grow |
| `LayoutFit.EvenChainsFitExactly` | crates/shux-core/src/layout.rs:196-197 | In a row of panes with even splits each gets exactly the size it asks for: nothing cropped and nothing to spare |
| `LayoutFit.ChainFitsAtOnceIff` | crates/shux-core/src/layout.rs:196-234 | A row of panes that each ask for a cell fits into the summed size if and only if all its splits are even |
| `LayoutFit.EvenTreesAreFramedExactly` | crates/shux-core/src/layout.rs:199-234 | With even splits the growth loop ends at the summed size, up to the maximum |
| `WindowLayouts.ZoomFillsTheViewport` | crates/shux-core/src/layout.rs:524-543 | A zoomed pane gets the whole viewport; toggled off, or on a pane that cannot be zoomed, the tree is laid out as before |
| `WindowLayouts.FocusCrossesSplits` | crates/shux-core/src/layout.rs:448-496 | Across any split with visible panes on both sides, focus can move from one side to the other and back |
| `WindowLayouts.DistanceComparesInOrder` | crates/shux-core/src/layout.rs:478-488 | Between panes of a viewport under a thousand cells each way, the weighted distance compares the distance of centres along the direction first and across it second |
| `WindowLayouts.SidesAreSides` | crates/shux-core/src/layout.rs:467-475 | Of two visible rectangles side by side one lies to the left and the other to the right, and likewise above and below |
| `CommandScanner.ClassifyIncompleteIff` | crates/shux-pty/src/command.rs:406-429 | A marker is waited for exactly while it is not complete and some bytes still to come would complete it |
| `CommandScanner.ValueIsPadded` | crates/shux-pty/src/command.rs:425-428 | The code read from digits and the digits a printer of that width writes are inverse to each other |
| `CommandScanner.PrintedIsPadded` | crates/shux-pty/src/command.rs:425-428 | A number of up to three digits prints at just its width |
| `CommandReports.ShellOutputIsReported` | crates/shux-pty/src/command.rs:123-265 | Whatever the pane shows before and after, and however the stream is cut into reads, the line typed for a command makes the engine report the exit code the shell printed, for every code up to 999, and the output of the command, cut at the limit |
| `CommandReports.EarlyEndIsReported` | crates/shux-pty/src/command.rs:271-306 | A command that times out, is cancelled or loses its pane reports its whole output so far, but for an end marker begun and still open, cut at the limit; nothing if its BEGIN line has not come |
| `CommandReports.TrimKeepsTheLatest` | crates/shux-pty/src/command.rs:309-324 | The results remembered are those of the commands released last |
| `CommandReports.EndingFreesThePane` | crates/shux-pty/src/command.rs:347-365 | Ending the command of a pane frees the pane and leaves the command a result, the one it had if it was over |
| `CommandReports.CancelEndsTheHolder` | crates/shux-pty/src/command.rs:347-356 | A cancel works exactly on a command that holds its pane, names the pane and frees it; otherwise nothing changes |
| `CommandReports.TimeoutKeepsThePane` | crates/shux-pty/src/command.rs:327-344 | A timeout gives a running command its result and leaves it in its pane; one that is over stays as it is |
| `CommandReports.ForgetEndsTheCommand` | crates/shux-pty/src/command.rs:359-365 | A pane that goes away ends its command and leaves nothing held for it |
| `CommandReports.RegisterTakesFreePanes` | crates/shux-pty/src/command.rs:153-188 | A command is taken on exactly when its pane is free, and else the one running there is named; other panes keep theirs |
| `StatusTableLaws.ClearTakesTheSubtree` | crates/shux-program-status/src/table.rs:54-56 | After a clear of a path a key is there exactly if it was and its segments do not begin with those of the path; what is kept is unchanged |
| `StatusTableLaws.DoneAndFailedSurvive` | crates/shux-program-status/src/table.rs:60-68 | After a prompt or an exit exactly the done and the failed records are there, unchanged |
| `StatusTableLaws.ClearAllEmpties` | crates/shux-program-status/src/table.rs:50-73 | A clear without a path and a reset leave nothing |
| `StatusTableLaws.SetPutsTheRecord` | crates/shux-program-status/src/table.rs:102-137 | A report puts its record under its key; another record goes exactly if the key is new, the table full and that record the one reported longest ago |
| `StatusTableLaws.MostUrgentLeads` | crates/shux-program-status/src/rank.rs:7-21 | The summary is blocked if any record is, else failed if any is, else done if any is, and idle only if all are; within a state the root leads, and without it the record changed last |
| `Base64.GroupsHoldTheSameBits` | crates/shux-program-status/src/wire.rs:248-268 | Each four letters of an encoding hold the same 24 bits as three bytes of the text, most significant first, filled up with zero bits and padding: section 4 of RFC 4648 |
| `Base64.AlphabetIsStandard` | crates/shux-program-status/src/wire.rs:248-268 | The letters are those of Table 1 of RFC 4648 |
| `StatusWireLaws.RefusedIff` | crates/shux-program-status/src/wire.rs:135-191 | A pair is refused exactly for an overlong key, an overlong or malformed id, an overlong app, or a title or message too long or not proper text |
| `StatusWireLaws.OneBadPairRefusesAll` | crates/shux-program-status/src/wire.rs:107-131 | A payload is read exactly if none of its pairs is to be refused, overridden later or not |
| `StatusWireLaws.PairsAreIndependent` | crates/shux-program-status/src/wire.rs:135-191 | Pairs of different keys commute |
| `StatusWireLaws.LaterPairWins` | crates/shux-program-status/src/wire.rs:135-191 | Of two pairs with one key the later decides alone |
| `StatusWireLaws.UnknownKeysArePassedOver` | crates/shux-program-status/src/wire.rs:135-191 | A key the protocol does not have changes nothing, whatever its value |
| `StatusWireLaws.ForeignValuesArePassedOver` | crates/shux-program-status/src/wire.rs:135-191 | A value with a byte no value has changes nothing, except that an id is never passed over |
| `StatusWireLaws.PaddedPairsReadAlike` | crates/shux-program-status/src/wire.rs:135-233 | Blanks around a key and its value make no difference |
| `StatusWireLaws.TextIsUtf8` | crates/shux-program-status/src/wire.rs:248-268 | Accepted text is exactly the UTF-8 of code points that are no control characters |
| `StatusWireLaws.KeysAreSpelled` | crates/shux-program-status/src/wire.rs:65-217 | The keys of the protocol in letters |
| `StatusWireLaws.StatesAreSpelled` | crates/shux-program-status/src/model.rs:25-37 | The states in letters |
| `StatusWireLaws.KindsAreSpelled` | crates/shux-program-status/src/model.rs:59-69 | The kinds in letters |
| `PluginManagers.RegisterDoes` | crates/shux-plugin/src/lib.rs:672-829 | An install registers exactly when the manager is not stopping, its own flag is not raised and the name is free; refused, it stops the watcher it armed and changes nothing else |
| `PluginManagers.KillDoes` | crates/shux-plugin/src/lib.rs:1029-1047 | A kill leaves nothing under the name, running or pending, and raises just the flags it had |
| `PluginManagers.ReloadDoes` | crates/shux-plugin/src/lib.rs:842-857 | A reload starts exactly on a running plugin, takes its place under its own flag and stops what was there |
| `PluginManagers.SettleDoes` | crates/shux-plugin/src/lib.rs:868-896 | A failed reload still in place hands it to its watcher or gives it up; otherwise it stops the watcher |
| `PluginManagers.ShutdownDoes` | crates/shux-plugin/src/lib.rs:1051-1064 | Shutdown empties the registry and raises exactly the flags of the watchers of what ran |
| `PluginManagers.UndisturbedReloadRegisters` | crates/shux-plugin/src/lib.rs:842-857 | Left alone, a reload brings its plugin back under the same name |

## Left out

- f32 arithmetic: ratios and rounding are exact reals, so a half that f32 would place on the other side is not seen.
- Layout.PanesTileTheViewport: works in unbounded cells; saturation at 65535 is excluded by RectsFitU16's bound, not modelled.
- SessionGraphs.SessionGraph.CreateSession: created_by_plugin, restart policy and timestamps of the records are not modelled, nor is `usize` overflow in the byte count or in the session-N index.
- SessionGraphs.SessionGraph.CreateWindow: the 32-bit width of the event's index is not modelled.
- PluginManagers.KilledStaysDead: makes no claim about a watcher still being armed when kill returns.
- CommandEngines.CommandReportsItsOutput: the captured bytes are raw; ANSI stripping, lossy UTF-8 conversion and run times of the result are not modelled.
- Titles.SanitizeIsClean: characters are Unicode scalar values; no normalization.
- Title derivation from commands, shell wrappers and directories, and JSON escaping: parameters of the model.
- smart_split, depth_of, the query reply of the status protocol, pane output fan-out and live subscriptions: easy members that add little.
- Tokio channels, oneshot replies, the snapshot swap under readers and multi-command transactions: each command is one atomic step.
- PTY spawning, plugin processes, handshakes, grants, file watching and audit files: input and output.
- Configuration, themes, permissions, id references, daemon, capture, terminal emulation and rendering: outside the six parts modelled.
