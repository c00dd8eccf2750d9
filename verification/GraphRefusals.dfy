/**
 Why commands are refused. The reasons that stand against a command are stated of the graph and of what is asked,
 for all commands alike; a command fails exactly when there is one, with the first in a fixed order.
 */
module GraphRefusals {
  import opened Wrappers
  import opened Layout
  import opened WindowLayouts
  import opened Titles
  import opened GraphModel
  import opened GraphRuns
  import opened GraphInvariants
  import opened GraphSteps
  import opened GraphCommands
  import GraphOutcomes
  import Ops = GraphOps

  // ----- What a command is about -----

  predicate NamesSession(c: Command) {
    c.DestroySession? || c.RenameSession? || c.SetSessionTag? || c.SetSessionTheme? || c.CreateWindow?
  }

  predicate NamesWindow(c: Command) {
    || c.DestroyWindow? || c.RenameWindow? || c.FocusWindow? || c.ReorderWindow? || c.CreatePane?
    || c.FocusPaneDirection?
  }

  predicate NamesPane(c: Command) {
    || c.SplitPane? || c.DestroyPane? || c.DestroyPaneAndEmptyParents? || c.SetPaneTag? || c.SetPaneTheme?
    || c.SetPaneTitle? || c.SetPaneOscTitle? || c.SetPaneExit? || c.FocusPane? || c.ResizePane? || c.ZoomPane?
    || c.ZoomPaneIfFocused? || c.SwapPanes?
  }

  predicate GivesName(c: Command) { c.CreateSession? || c.RenameSession? }

  predicate GivesTitle(c: Command) { c.CreateWindow? || c.RenameWindow? }

  predicate AddsPane(c: Command) { c.CreateSession? || c.CreateWindow? || c.CreatePane? || c.SplitPane? }

  /** The version the caller has seen, where one is given. */
  function Expected(c: Command): Option<nat> {
    if c.DestroySession? || c.RenameSession? || c.DestroyWindow? || c.RenameWindow? || c.FocusWindow?
       || c.ReorderWindow? || c.DestroyPane? || c.ResizePane? || c.ZoomPane? || c.SwapPanes?
    then c.expected else None
  }

  /** The version of what the command names first. */
  function Actual(g: Snapshot, c: Command): Option<nat> {
    if NamesSession(c) && c.session in g.sessions then Some(g.sessions[c.session].version)
    else if NamesWindow(c) && c.window in g.windows then Some(g.windows[c.window].version)
    else if NamesPane(c) && c.pane in g.panes then Some(g.panes[c.pane].version)
    else None
  }

  /** The session whose windows a title is to be told from. */
  function Among(g: Snapshot, c: Command): Option<SessionId> {
    if c.CreateWindow? then Some(c.session)
    else if c.RenameWindow? && c.window in g.windows then Some(g.windows[c.window].session)
    else None
  }

  /** The session a new pane would be counted to; a new session is numbered after its pane and window. */
  function Home(g: Snapshot, n: nat, c: Command): Option<SessionId> {
    if c.CreateSession? then Some(n + 2)
    else if c.CreateWindow? && c.session in g.sessions then Some(c.session)
    else if c.CreatePane? && c.window in g.windows then Some(g.windows[c.window].session)
    else if c.SplitPane? && c.pane in g.panes && g.panes[c.pane].window in g.windows
    then Some(g.windows[g.panes[c.pane].window].session)
    else None
  }

  /** The directory a new pane would start in. */
  function StartsIn(g: Snapshot, c: Command): string
    requires AddsPane(c)
  {
    if !c.SplitPane? then c.cwd else if c.pane in g.panes then g.panes[c.pane].cwd else ""
  }

  // ----- Reasons -----

  /** `e` stands against the name or title given. */
  ghost predicate AgainstNames(env: Env, g: Snapshot, c: Command, e: GraphError) {
    match e
    case EmptySessionName => GivesName(c) && c.name == ""
    case SessionNameTooLong(name) => GivesName(c) && name == c.name && |name| > 128
    case InvalidSessionName(name) =>
      GivesName(c) && name == c.name && exists i :: 0 <= i < |name| && !IsNameChar(env, name[i])
    case SessionNameExists(name) =>
      GivesName(c) && name == c.name && exists s :: s in g.sessions && g.sessions[s].name == name
    case EmptyWindowName => GivesTitle(c) && Sanitize(c.title) == ""
    case WindowNameTooLong(title) => GivesTitle(c) && title == Sanitize(c.title) && |title| > 128
    case NumericWindowName(title) => GivesTitle(c) && title == Sanitize(c.title) && IsWindowNumber(title)
    case WindowNameConflict(title) =>
      && GivesTitle(c) && title == Sanitize(c.title)
      && exists w :: w in g.windows && Among(g, c) == Some(g.windows[w].session) && g.windows[w].title == title
           && !(c.RenameWindow? && c.window == w)
    case _ => false
  }

  /** `e` stands against what is named: it is not there, or not as the caller saw it, or not to be taken. */
  ghost predicate AgainstTargets(g: Snapshot, c: Command, e: GraphError) {
    match e
    case SessionNotFound(id) => NamesSession(c) && id == c.session && id !in g.sessions
    case WindowNotFound(id) => NamesWindow(c) && id == c.window && id !in g.windows
    case PaneNotFound(id) =>
      && id !in g.panes
      && (|| (NamesPane(c) && id == c.pane)
          || (c.SwapPanes? && id == c.other)
          || (c.FocusPaneDirection? && c.window in g.windows
              && Neighbor(g.windows[c.window].layout.tree, g.windows[c.window].active, c.toward, c.viewport)
                 == Some(id)))
    case VersionConflict(expected, actual) =>
      Expected(c) == Some(expected) && Actual(g, c) == Some(actual) && expected != actual
    case LastWindow =>
      && c.DestroyWindow? && c.window in g.windows
      && forall w :: w in g.windows && g.windows[w].session == g.windows[c.window].session ==> w == c.window
    case LastPane =>
      c.DestroyPane? && c.pane in g.panes && forall q :: LivesIn(g, q, g.panes[c.pane].window) ==> q == c.pane
    case PaneSwapSelf => c.SwapPanes? && c.pane == c.other
    case PaneCrossWindow =>
      c.SwapPanes? && c.pane in g.panes && c.other in g.panes && g.panes[c.pane].window != g.panes[c.other].window
    case _ => false
  }

  /** `e` says that there is no room: in the session, in the order of its windows, or in the layout. */
  ghost predicate AgainstRoom(env: Env, g: Snapshot, n: nat, c: Command, e: GraphError) {
    match e
    case SessionPaneLimit(max) => Home(g, n, c).Some? && |SessionPanes(g, Home(g, n, c).value)| >= 1024 && max == 1024
    case SessionPaneBytes(used, adding, budget) =>
      && Home(g, n, c).Some? && used == SessionBytes(env, g, Home(g, n, c).value, n)
      && adding == env.jsonBytes(c.command, StartsIn(g, c)) && budget == 4 * 1024 * 1024 && used + adding > budget
    case WindowIndexOutOfRange(index, count) =>
      && c.ReorderWindow? && index == c.index && c.window in g.windows && g.windows[c.window].session in g.sessions
      && count == |g.sessions[g.windows[c.window].session].windows| && index >= count
    case LayoutError =>
      && (c.SplitPane? || c.SwapPanes?) && c.pane in g.panes && g.panes[c.pane].window in g.windows
      && var t := BaseTree(g.windows[g.panes[c.pane].window].layout);
      !Contains(t, c.pane) || (c.SwapPanes? && !Contains(t, c.other))
    case _ => false
  }

  ghost predicate IsReason(env: Env, g: Snapshot, n: nat, c: Command, e: GraphError) {
    AgainstNames(env, g, c, e) || AgainstTargets(g, c, e) || AgainstRoom(env, g, n, c, e)
  }

  /** The order in which reasons are looked for, the same for every command. */
  function Rank(c: Command, e: GraphError): nat {
    match e
    case EmptySessionName => 0
    case EmptyWindowName => 0
    case SessionNameTooLong(_) => 1
    case WindowNameTooLong(_) => 1
    case InvalidSessionName(_) => 2
    case NumericWindowName(_) => 2
    case PaneSwapSelf => 3
    case SessionNotFound(_) => 4
    case WindowNotFound(_) => 4
    case PaneNotFound(id) => if c.SwapPanes? && id == c.other then 5 else 4
    case PaneCrossWindow => 6
    case VersionConflict(_, _) => 7
    case LastWindow => 8
    case LastPane => 8
    case SessionNameExists(_) => 9
    case WindowNameConflict(_) => 9
    case WindowIndexOutOfRange(_, _) => 10
    case SessionPaneLimit(_) => 11
    case SessionPaneBytes(_, _, _) => 12
    case LayoutError => 13
  }

  ghost predicate IsFirstReason(env: Env, g: Snapshot, n: nat, c: Command, e: GraphError) {
    IsReason(env, g, n, c, e) && forall f :: IsReason(env, g, n, c, f) ==> Rank(c, e) <= Rank(c, f)
  }

  /** The outcome fails with a reason, and where there is a reason it fails with one no later. */
  ghost predicate Answers(env: Env, g: Snapshot, n: nat, c: Command, o: Outcome<()>) {
    && (o.Failed? ==> IsReason(env, g, n, c, o.error))
    && (forall f :: IsReason(env, g, n, c, f) ==> o.Failed? && Rank(c, o.error) <= Rank(c, f))
  }

  ghost predicate FailsWith(o: Outcome<()>, e: Option<GraphError>) {
    if e.None? then !o.Failed? else o == Failed(e.value)
  }

  function VersionError(expected: Option<nat>, actual: nat): Option<GraphError> {
    if Conflicts(expected, actual) then Some(VersionConflict(expected.value, actual)) else None
  }

  function NoSession(g: Snapshot, c: Command): Option<GraphError>
    requires c.DestroySession? || c.SetSessionTag? || c.SetSessionTheme?
  {
    if c.session !in g.sessions then Some(SessionNotFound(c.session))
    else VersionError(Expected(c), g.sessions[c.session].version)
  }

  lemma NoSessionIsFirst(env: Env, g: Snapshot, n: nat, c: Command, o: Outcome<()>)
    requires (c.DestroySession? || c.SetSessionTag? || c.SetSessionTheme?) && FailsWith(o, NoSession(g, c))
    ensures Answers(env, g, n, c, o)
  {
    hide Sanitize, IsWindowNumber, IsNameChar, SessionPanes, SessionBytes, BaseTree, Contains, Neighbor, LivesIn;
  }

  lemma SessionsAnswer(env: Env, g: Snapshot, n: nat, c: Command)
    requires c.DestroySession? || c.SetSessionTag? || c.SetSessionTheme?
    ensures Answers(env, g, n, c, OnSessions(env, g, n, c))
  {
    hide Answers, Ops.DropSession, Ops.PutSession, Ops.Exits, Ops.WindowKills;
    NoSessionIsFirst(env, g, n, c, OnSessions(env, g, n, c));
  }

  lemma RenameSessionAnswers(env: Env, g: Snapshot, n: nat, c: Command)
    requires c.RenameSession?
    ensures Answers(env, g, n, c, OnSessions(env, g, n, c))
  {
    hide Ops.PutSession;
  }

  lemma CreateSessionAnswers(env: Env, s: State, c: Command)
    requires Valid(env, s) && c.CreateSession?
    ensures Answers(env, s.snap, s.supply, c, OnSessions(env, s.snap, s.supply, c))
  {
    hide Valid, Ops.AddSession, DefaultTitle, SessionPanes, SessionBytes;
  }

  lemma CreateWindowAnswers(env: Env, s: State, c: Command)
    requires Valid(env, s) && c.CreateWindow?
    ensures Answers(env, s.snap, s.supply, c, OnWindows(env, s.snap, s.supply, c))
  {
    hide Valid, Ops.AddWindow, SessionPanes, SessionBytes, Sanitize, IsWindowNumber, TitleTaken, IsClean, IsWindowTitle;
    SanitizeIsClean(c.title);
    TitleTakenIff(env, s, c.session, Sanitize(c.title));
  }

  lemma RenameWindowAnswers(env: Env, s: State, c: Command)
    requires Valid(env, s) && c.RenameWindow?
    ensures Answers(env, s.snap, s.supply, c, OnWindows(env, s.snap, s.supply, c))
  {
    hide Valid, Ops.PutWindow, Sanitize, IsWindowNumber, Ops.TitleClashes, IsClean, IsWindowTitle;
    SanitizeIsClean(c.title);
    TitleClashesIff(env, s, c.window, Sanitize(c.title));
  }

  function NoWindow(g: Snapshot, c: Command): Option<GraphError>
    requires c.FocusWindow?
  {
    if c.window !in g.windows then Some(WindowNotFound(c.window))
    else VersionError(Expected(c), g.windows[c.window].version)
  }

  lemma NoWindowIsFirst(env: Env, g: Snapshot, n: nat, c: Command, o: Outcome<()>)
    requires c.FocusWindow? && FailsWith(o, NoWindow(g, c))
    ensures Answers(env, g, n, c, o)
  {
    hide Sanitize, IsWindowNumber, IsNameChar, SessionPanes, SessionBytes, BaseTree, Contains, Neighbor, LivesIn;
  }

  lemma FocusWindowAnswers(env: Env, s: State, c: Command)
    requires Valid(env, s) && c.FocusWindow?
    ensures Answers(env, s.snap, s.supply, c, OnWindows(env, s.snap, s.supply, c))
  {
    hide Valid, Answers, Ops.PutSession;
    ListedInState(env, s, c.window);
    NoWindowIsFirst(env, s.snap, s.supply, c, OnWindows(env, s.snap, s.supply, c));
  }

  lemma DestroyWindowAnswers(env: Env, s: State, c: Command)
    requires Valid(env, s) && c.DestroyWindow?
    ensures Answers(env, s.snap, s.supply, c, OnWindows(env, s.snap, s.supply, c))
  {
    hide Valid, Ops.DropWindow, Ops.Exits, Without;
    LastWindowIff(env, s, c.window);
  }

  lemma ReorderWindowAnswers(env: Env, s: State, c: Command)
    requires Valid(env, s) && c.ReorderWindow?
    ensures Answers(env, s.snap, s.supply, c, OnWindows(env, s.snap, s.supply, c))
  {
    hide Valid, Ops.PutSession, Ops.MoveTo;
    ListedInState(env, s, c.window);
  }

  lemma CreatePaneAnswers(env: Env, s: State, c: Command)
    requires Valid(env, s) && c.CreatePane?
    ensures Answers(env, s.snap, s.supply, c, OnPanes(env, s.snap, s.supply, c))
  {
    hide Valid, SessionPanes, SessionBytes;
  }

  lemma SplitPaneAnswers(env: Env, s: State, c: Command)
    requires Valid(env, s) && c.SplitPane?
    ensures Answers(env, s.snap, s.supply, c, OnPanes(env, s.snap, s.supply, c))
  {
    hide Valid, Ops.AddSplit, SessionPanes, SessionBytes, Layout.SplitPane, Contains, BaseTree;
    var g := s.snap;
    if c.pane in g.panes {
      AliveAtHome(env, s, c.pane);
      SplitPaneLeaves(BaseTree(g.windows[g.panes[c.pane].window].layout), c.pane, s.supply, c.dir, c.ratio);
    }
  }

  lemma DestroyPaneAnswers(env: Env, s: State, c: Command)
    requires Valid(env, s) && c.DestroyPane?
    ensures Answers(env, s.snap, s.supply, c, OnPanes(env, s.snap, s.supply, c))
  {
    hide Valid, Ops.DropPane, WindowPanes;
    var g := s.snap;
    if c.pane in g.panes {
      AliveAtHome(env, s, c.pane);
      GraphOutcomes.CountsTellAnother(g, c.pane);
      AnotherIff(g, c.pane);
    }
  }

  lemma CascadeNeverFails(env: Env, s: State, id: PaneId)
    requires Valid(env, s) && id in s.snap.panes
    ensures !Ops.DestroyPaneAndEmptyParents(env, s.snap, s.supply, id).Failed?
  {
    hide Valid, Ops.DropPane, WindowPanes, Ops.DropWindow, Ops.Exits, Ops.DropSession, Ops.WindowKills;
    AliveAtHome(env, s, id);
    LastWindowIff(env, s, s.snap.panes[id].window);
  }

  /** Commands with nothing against them but that their pane is gone or has changed. */
  predicate NeedsOnlyThePane(c: Command) {
    || c.DestroyPaneAndEmptyParents? || c.SetPaneTag? || c.SetPaneTheme? || c.SetPaneTitle? || c.SetPaneOscTitle?
    || c.SetPaneExit? || c.FocusPane? || c.ResizePane? || c.ZoomPane? || c.ZoomPaneIfFocused?
  }

  function NoPane(g: Snapshot, c: Command): Option<GraphError>
    requires NeedsOnlyThePane(c)
  {
    if c.pane !in g.panes then Some(PaneNotFound(c.pane)) else VersionError(Expected(c), g.panes[c.pane].version)
  }

  lemma OnlyThePane(env: Env, g: Snapshot, n: nat, c: Command, e: GraphError)
    requires NeedsOnlyThePane(c)
    ensures !AgainstNames(env, g, c, e) && !AgainstRoom(env, g, n, c, e)
    ensures AgainstTargets(g, c, e) ==> e.PaneNotFound? || e.VersionConflict?
  {
    hide Sanitize, IsWindowNumber, IsNameChar, SessionPanes, SessionBytes, BaseTree, Contains, Neighbor, LivesIn;
  }

  lemma NoPaneIsFirst(env: Env, g: Snapshot, n: nat, c: Command, o: Outcome<()>)
    requires NeedsOnlyThePane(c) && FailsWith(o, NoPane(g, c))
    ensures Answers(env, g, n, c, o)
  {
    hide AgainstNames, AgainstRoom, Neighbor, LivesIn;
    forall e ensures !AgainstNames(env, g, c, e) && !AgainstRoom(env, g, n, c, e) { OnlyThePane(env, g, n, c, e); }
    forall e | AgainstTargets(g, c, e) ensures e.PaneNotFound? || e.VersionConflict? { OnlyThePane(env, g, n, c, e); }
  }

  lemma PanesAnswer(env: Env, s: State, c: Command)
    requires Valid(env, s) && (c.SetPaneTag? || c.SetPaneTheme? || c.SetPaneExit? || c.DestroyPaneAndEmptyParents?)
    ensures Answers(env, s.snap, s.supply, c, OnPanes(env, s.snap, s.supply, c))
  {
    hide Valid, Answers, Ops.PutPane, Ops.DestroyPane, Ops.DestroyWindow, Ops.DestroySession;
    if c.pane in s.snap.panes {
      AliveAtHome(env, s, c.pane);
      CascadeNeverFails(env, s, c.pane);
    }
    NoPaneToDestroy(s.snap, s.supply, c.pane);
    NoPaneIsFirst(env, s.snap, s.supply, c, OnPanes(env, s.snap, s.supply, c));
  }

  lemma NoPaneToDestroy(g: Snapshot, n: nat, id: PaneId)
    ensures id !in g.panes ==> Ops.DestroyPane(g, n, id, None) == Failed(PaneNotFound(id))
  {
  }

  lemma TitlesAnswer(env: Env, s: State, c: Command)
    requires Valid(env, s) && (c.SetPaneTitle? || c.SetPaneOscTitle?)
    ensures Answers(env, s.snap, s.supply, c, OnPanes(env, s.snap, s.supply, c))
  {
    hide Valid, Answers, Ops.PutPane, Ops.Retitled, WithManualTitle, WithAutoTitle, WithOscTitle;
    if c.pane in s.snap.panes {
      AliveAtHome(env, s, c.pane);
    }
    NoPaneIsFirst(env, s.snap, s.supply, c, OnPanes(env, s.snap, s.supply, c));
  }

  lemma LayoutsAnswer(env: Env, s: State, c: Command)
    requires Valid(env, s) && NeedsOnlyThePane(c) && IsOnLayouts(c)
    ensures Answers(env, s.snap, s.supply, c, OnLayouts(s.snap, s.supply, c))
  {
    hide Valid, Answers, Ops.PutWindow, Ops.Zoomed, Ops.Unzoomed, ToggleZoom, Layout.ResizePane, BaseTree, PaneCount;
    if c.pane in s.snap.panes {
      AliveAtHome(env, s, c.pane);
    }
    NoPaneIsFirst(env, s.snap, s.supply, c, OnLayouts(s.snap, s.supply, c));
  }

  lemma DirectionAnswers(env: Env, s: State, c: Command)
    requires Valid(env, s) && c.FocusPaneDirection?
    ensures Answers(env, s.snap, s.supply, c, OnLayouts(s.snap, s.supply, c))
  {
    hide Valid, Ops.PutWindow, Neighbor, ToggleZoom;
    forall p | p in s.snap.panes ensures s.snap.panes[p].window in s.snap.windows { AliveAtHome(env, s, p); }
  }

  lemma SwapAnswers(env: Env, s: State, c: Command)
    requires Valid(env, s) && c.SwapPanes?
    ensures Answers(env, s.snap, s.supply, c, OnLayouts(s.snap, s.supply, c))
  {
    hide Valid, Ops.PutWindow, BaseTree, Contains;
    if c.pane in s.snap.panes {
      AliveAtHome(env, s, c.pane);
    }
  }

  lemma CommandsAnswer(env: Env, s: State, c: Command)
    requires Valid(env, s) && IsPlain(c)
    ensures Answers(env, s.snap, s.supply, c, Plan(env, s.snap, s.supply, c))
  {
    hide Valid, Answers, OnSessions, OnWindows, OnPanes, OnLayouts;
    match c
    case CreateSession(_, _, _) => CreateSessionAnswers(env, s, c);
    case RenameSession(_, _, _) => RenameSessionAnswers(env, s.snap, s.supply, c);
    case CreateWindow(_, _, _, _) => CreateWindowAnswers(env, s, c);
    case RenameWindow(_, _, _) => RenameWindowAnswers(env, s, c);
    case FocusWindow(_, _) => FocusWindowAnswers(env, s, c);
    case DestroyWindow(_, _) => DestroyWindowAnswers(env, s, c);
    case ReorderWindow(_, _, _) => ReorderWindowAnswers(env, s, c);
    case CreatePane(_, _, _) => CreatePaneAnswers(env, s, c);
    case SplitPane(_, _, _, _) => SplitPaneAnswers(env, s, c);
    case DestroyPane(_, _) => DestroyPaneAnswers(env, s, c);
    case FocusPaneDirection(_, _, _) => DirectionAnswers(env, s, c);
    case SwapPanes(_, _, _) => SwapAnswers(env, s, c);
    case _ =>
      if c.SetPaneTitle? || c.SetPaneOscTitle? {
        TitlesAnswer(env, s, c);
      } else if IsOnPanes(c) {
        PanesAnswer(env, s, c);
      } else if IsOnLayouts(c) {
        LayoutsAnswer(env, s, c);
      } else {
        SessionsAnswer(env, s.snap, s.supply, c);
      }
  }

  lemma NamesApart(env: Env, g: Snapshot, c: Command, e: GraphError, f: GraphError)
    requires AgainstNames(env, g, c, e) && AgainstNames(env, g, c, f) && Rank(c, e) == Rank(c, f)
    ensures e == f
  {
    hide Sanitize, IsWindowNumber, Among, IsNameChar;
  }

  lemma TargetsApart(g: Snapshot, c: Command, e: GraphError, f: GraphError)
    requires AgainstTargets(g, c, e) && AgainstTargets(g, c, f) && Rank(c, e) == Rank(c, f)
    ensures e == f
  {
    hide Neighbor, Expected, Actual, LivesIn;
  }

  lemma RoomApart(env: Env, g: Snapshot, n: nat, c: Command, e: GraphError, f: GraphError)
    requires AgainstRoom(env, g, n, c, e) && AgainstRoom(env, g, n, c, f) && Rank(c, e) == Rank(c, f)
    ensures e == f
  {
    hide SessionPanes, SessionBytes, BaseTree, Contains;
  }

  // The ranks of the three sorts of reasons lie apart.

  lemma NamesRank(env: Env, g: Snapshot, c: Command, e: GraphError)
    requires AgainstNames(env, g, c, e)
    ensures Rank(c, e) < 3 || Rank(c, e) == 9
  {
    hide Sanitize, IsWindowNumber, IsNameChar, Among, GivesName, GivesTitle;
  }

  lemma TargetsRank(g: Snapshot, c: Command, e: GraphError)
    requires AgainstTargets(g, c, e)
    ensures 3 <= Rank(c, e) < 9
  {
    hide Expected, Actual, LivesIn, Neighbor, NamesSession, NamesWindow, NamesPane;
  }

  lemma RoomRank(env: Env, g: Snapshot, n: nat, c: Command, e: GraphError)
    requires AgainstRoom(env, g, n, c, e)
    ensures 9 < Rank(c, e)
  {
    hide SessionPanes, SessionBytes, BaseTree, Contains, Home, StartsIn;
  }

  lemma SortsApart(env: Env, g: Snapshot, n: nat, c: Command, e: GraphError)
    ensures AgainstNames(env, g, c, e) ==> Rank(c, e) < 3 || Rank(c, e) == 9
    ensures AgainstTargets(g, c, e) ==> 3 <= Rank(c, e) < 9
    ensures AgainstRoom(env, g, n, c, e) ==> 9 < Rank(c, e)
  {
    hide AgainstNames, AgainstTargets, AgainstRoom, Rank;
    if AgainstNames(env, g, c, e) { NamesRank(env, g, c, e); }
    if AgainstTargets(g, c, e) { TargetsRank(g, c, e); }
    if AgainstRoom(env, g, n, c, e) { RoomRank(env, g, n, c, e); }
  }

  /** No two reasons against one command have the same rank. */
  lemma RanksTellReasonsApart(env: Env, g: Snapshot, n: nat, c: Command, e: GraphError, f: GraphError)
    requires IsReason(env, g, n, c, e) && IsReason(env, g, n, c, f) && Rank(c, e) == Rank(c, f)
    ensures e == f
  {
    hide AgainstNames, AgainstTargets, AgainstRoom, Rank;
    SortsApart(env, g, n, c, e);
    SortsApart(env, g, n, c, f);
    if AgainstNames(env, g, c, e) {
      NamesApart(env, g, c, e, f);
    } else if AgainstTargets(g, c, e) {
      TargetsApart(g, c, e, f);
    } else {
      RoomApart(env, g, n, c, e, f);
    }
  }

  /**
   In every valid graph a command fails exactly where some reason stands against it, and the error it returns is the
   first such reason.
   */
  lemma RefusedForTheFirstReason(env: Env, s: State, c: Command, e: GraphError)
    requires Valid(env, s) && IsPlain(c)
    ensures Plan(env, s.snap, s.supply, c) == Failed(e) <==> IsFirstReason(env, s.snap, s.supply, c, e)
  {
    hide Valid, Plan, IsReason, Rank;
    var (g, n) := (s.snap, s.supply);
    CommandsAnswer(env, s, c);
    if IsFirstReason(env, g, n, c, e) {
      RanksTellReasonsApart(env, g, n, c, e, Plan(env, g, n, c).error);
    }
  }
}
