/**
 The published events tell the whole story of what lives where: a subscriber
 that folds them from the empty graph holds the live sessions, windows and
 panes, their parents, names and titles, and which panes are zoomed.
 */
module GraphReplay {
  import opened Wrappers
  import opened Layout
  import opened WindowLayouts
  import opened Titles
  import opened GraphModel
  import opened GraphSteps
  import opened GraphRuns
  import opened GraphInvariants
  import Ops = GraphOps

  /** What a subscriber knows. */
  datatype Mirror = Mirror(
    names: map<SessionId, string>, windows: map<WindowId, (SessionId, string)>,
    panes: map<PaneId, (WindowId, SessionId)>, zoomed: set<PaneId>)

  const NOTHING := Mirror(map[], map[], map[], {})

  /** A natural exit carries its status and leaves the pane; only a forced one takes it away. */
  function Observe(m: Mirror, e: Event): Mirror {
    match e
    case SessionCreated(s, name) => m.(names := m.names[s := name])
    case SessionRenamed(s, _, name) => m.(names := m.names[s := name])
    case SessionKilled(s, _) => m.(names := m.names - {s})
    case WindowCreated(w, s, title, _) => m.(windows := m.windows[w := (s, title)])
    case WindowRenamed(w, s, _, title) => m.(windows := m.windows[w := (s, title)])
    case WindowKilled(w, _) => m.(windows := m.windows - {w})
    case PaneCreated(p, w, s, _) => m.(panes := m.panes[p := (w, s)])
    case PaneZoomed(p, _, _, zoomed) => m.(zoomed := if zoomed then m.zoomed + {p} else m.zoomed - {p})
    case PaneExited(p, _, _, exit, _) =>
      if exit.Some? then m else m.(panes := m.panes - {p}, zoomed := m.zoomed - {p})
    case _ => m
  }

  function Replay(m: Mirror, es: seq<Event>): Mirror
    decreases |es|
  {
    if es == [] then m else Replay(Observe(m, es[0]), es[1..])
  }

  // ----- What the graph holds -----

  function SessionNames(g: Snapshot): map<SessionId, string> {
    map s | s in g.sessions :: g.sessions[s].name
  }

  function WindowLabels(g: Snapshot): map<WindowId, (SessionId, string)> {
    map w | w in g.windows :: (g.windows[w].session, g.windows[w].title)
  }

  function SessionOf(g: Snapshot, w: WindowId): SessionId {
    if w in g.windows then g.windows[w].session else 0
  }

  function PaneHomes(g: Snapshot): map<PaneId, (WindowId, SessionId)> {
    map p | p in g.panes :: (g.panes[p].window, SessionOf(g, g.panes[p].window))
  }

  predicate IsZoomed(g: Snapshot, p: PaneId) {
    && p in g.panes && g.panes[p].window in g.windows
    && ZoomedPane(g.windows[g.panes[p].window].layout) == Some(p)
  }

  function ZoomedPanes(g: Snapshot): set<PaneId> {
    set p | p in g.panes && IsZoomed(g, p)
  }

  function MirrorOf(g: Snapshot): Mirror {
    Mirror(SessionNames(g), WindowLabels(g), PaneHomes(g), ZoomedPanes(g))
  }

  // ----- Folding -----

  lemma {:induction false} ReplayConcat(m: Mirror, es: seq<Event>, fs: seq<Event>)
    ensures Replay(m, es + fs) == Replay(Replay(m, es), fs)
    decreases |es|
  {
    hide Observe;
    if es == [] {
      assert es + fs == fs;
    } else {
      assert (es + fs)[1..] == es[1..] + fs;
      ReplayConcat(Observe(m, es[0]), es[1..], fs);
    }
  }

  lemma ReplayOne(m: Mirror, e: Event)
    ensures Replay(m, [e]) == Observe(m, e)
  {
    hide Observe;
    assert [e][1..] == [];
    assert Replay(Observe(m, e), []) == Observe(m, e);
  }

  lemma ReplayThen(m: Mirror, es: seq<Event>, e: Event)
    ensures Replay(m, es + [e]) == Observe(Replay(m, es), e)
  {
    hide Observe;
    ReplayConcat(m, es, [e]);
    ReplayOne(Replay(m, es), e);
  }

  /** The panes that an order lists and that die with the windows. */
  ghost function Dying(g: Snapshot, order: seq<PaneId>, windows: seq<WindowId>): set<PaneId> {
    set p | p in order && p in g.panes && g.panes[p].window in windows
  }

  lemma DyingFirst(g: Snapshot, order: seq<PaneId>, windows: seq<WindowId>)
    requires order != []
    ensures var p := order[0];
            Dying(g, order, windows)
            == Dying(g, order[1..], windows) + if p in g.panes && g.panes[p].window in windows then {p} else {}
  {
    assert forall q :: q in order <==> q == order[0] || q in order[1..];
  }

  function Bury(m: Mirror, gone: set<PaneId>): Mirror {
    m.(panes := m.panes - gone, zoomed := m.zoomed - gone)
  }

  lemma BuryOneMore(m: Mirror, p: PaneId, w: WindowId, s: SessionId, command: seq<string>, rest: set<PaneId>)
    ensures Bury(Observe(m, PaneExited(p, w, s, None, command)), rest) == Bury(m, rest + {p})
  {
    assert m.panes - {p} - rest == m.panes - (rest + {p});
    assert m.zoomed - {p} - rest == m.zoomed - (rest + {p});
  }

  lemma {:induction false} ReplayExits(m: Mirror, g: Snapshot, order: seq<PaneId>, windows: seq<WindowId>,
                                       session: SessionId)
    ensures Replay(m, Ops.Exits(g, order, windows, session)) == Bury(m, Dying(g, order, windows))
    decreases |order|
  {
    if order == [] {
      assert Dying(g, order, windows) == {};
      assert Bury(m, {}) == m;
    } else {
      hide Dying, Bury, Observe;
      var p := order[0];
      DyingFirst(g, order, windows);
      var (es, rest) := (Ops.Exits(g, order[1..], windows, session), Dying(g, order[1..], windows));
      if p in g.panes && g.panes[p].window in windows {
        var e := PaneExited(p, g.panes[p].window, session, None, g.panes[p].command);
        assert ([e] + es)[1..] == es;
        ReplayExits(Observe(m, e), g, order[1..], windows, session);
        BuryOneMore(m, p, e.window, session, e.command, rest);
      } else {
        assert [] + es == es;
        assert rest + {} == rest;
        ReplayExits(m, g, order[1..], windows, session);
      }
    }
  }

  lemma {:induction false} ReplayKills(m: Mirror, windows: seq<WindowId>, session: SessionId)
    ensures Replay(m, Ops.WindowKills(windows, session)) == m.(windows := m.windows - set w | w in windows)
    decreases |windows|
  {
    if windows == [] {
      assert (set w | w in windows) == {};
    } else {
      var w := windows[0];
      var m' := Observe(m, WindowKilled(w, session));
      assert Ops.WindowKills(windows, session)[1..] == Ops.WindowKills(windows[1..], session);
      ReplayKills(m', windows[1..], session);
      assert forall v :: v in windows <==> v == w || v in windows[1..];
      assert m'.windows - (set v | v in windows[1..]) == m.windows - set v | v in windows;
    }
  }

  // ----- Edits in place -----

  ghost predicate SameTitles(g: Snapshot, g': Snapshot) {
    forall w :: w in g.windows && w in g'.windows ==> g'.windows[w].title == g.windows[w].title
  }

  ghost predicate SameZoomed(g: Snapshot, g': Snapshot) {
    forall w :: w in g.windows && w in g'.windows ==>
         ZoomedPane(g'.windows[w].layout) == ZoomedPane(g.windows[w].layout)
  }

  lemma SameNames(g: Snapshot, g': Snapshot)
    requires g'.sessions == g.sessions
    ensures SessionNames(g') == SessionNames(g)
  {
  }

  lemma SameLabels(g: Snapshot, g': Snapshot)
    requires SameHomes(g, g') && SameTitles(g, g')
    ensures WindowLabels(g') == WindowLabels(g)
  {
  }

  lemma SamePaneHomes(g: Snapshot, g': Snapshot, n: nat)
    requires SameHomes(g, g') && PanesFrom(g, g', n) && SamePanes(g, g', n, {})
    requires n !in g.panes
    ensures PaneHomes(g') == if n in g'.panes
                             then PaneHomes(g)[n := (g'.panes[n].window,
                                                     SessionOf(g, g'.panes[n].window))] else PaneHomes(g)
  {
  }

  lemma NewestNotZoomed(g: Snapshot, g': Snapshot, n: nat)
    requires SameHomes(g, g') && PanesFrom(g, g', n) && SamePanes(g, g', n, {}) && SameZoomed(g, g')
    requires n !in g.panes && ZoomedPanesLive(g)
    ensures ZoomedPanes(g') == ZoomedPanes(g)
  {
    forall p
      ensures p in ZoomedPanes(g') <==> p in ZoomedPanes(g)
    {
    }
  }

  /** A pane was added, or nothing the mirror shows has changed. */
  lemma QuietMirror(g: Snapshot, g': Snapshot, n: nat, command: seq<string>)
    requires References(g, n) && SameHomes(g, g') && PanesFrom(g, g', n) && SamePanes(g, g', n, {})
    requires SameTitles(g, g') && SameZoomed(g, g')
    ensures MirrorOf(g') == if n in g'.panes
                            then Observe(MirrorOf(g),
                                         PaneCreated(n, g'.panes[n].window, SessionOf(g, g'.panes[n].window), command))
                            else MirrorOf(g)
  {
    hide SameHomes, PanesFrom, SamePanes, SameTitles, SameZoomed, SessionNames, SessionOf, WindowLabels, PaneHomes,
         ZoomedPanes,
         ZoomedPanesLive, IdsBelow, SessionsListWindows, WindowsAreListed, PanesHaveWindows, WindowsHavePanes;
    AbsentWhenFresh(g, n);
    HomesMeanSessions(g, g');
    SameNames(g, g');
    SameLabels(g, g');
    SamePaneHomes(g, g', n);
    NewestNotZoomed(g, g', n);
  }

  lemma HomesMeanSessions(g: Snapshot, g': Snapshot)
    requires SameHomes(g, g')
    ensures g'.sessions == g.sessions
  {
  }

  lemma EditPaneQuiet(g: Snapshot, n: nat, id: PaneId, p: Pane, c: Change)
    requires n !in g.panes && FitsEditPane(g, n, id, p, c)
    ensures n !in c.snap.panes && SameTitles(g, c.snap) && SameZoomed(g, c.snap)
    ensures forall m :: c.events != [] ==> Observe(m, c.events[0]) == m
  {
  }

  lemma EditPaneReplays(env: Env, g: Snapshot, n: nat, id: PaneId, p: Pane, c: Change)
    requires References(g, n) && FitsEditPane(g, n, id, p, c)
    ensures Replay(MirrorOf(g), c.events) == MirrorOf(c.snap)
  {
    hide References, SameHomes, PanesFrom, SamePanes, SameTitles, SameZoomed, MirrorOf, NewestHadRoom, SameZooms,
         Ops.PutPane;
    AbsentWhenFresh(g, n);
    EditPaneFacts(env, g, n, id, p, c);
    EditPaneQuiet(g, n, id, p, c);
    QuietMirror(g, c.snap, n, []);
    if c.events != [] {
      assert c.events == [c.events[0]];
      ReplayOne(MirrorOf(g), c.events[0]);
    }
  }

  lemma TickReplays(g: Snapshot)
    ensures MirrorOf(Ops.Tick(g)) == MirrorOf(g)
  {
    var g' := Ops.Tick(g);
    assert SessionNames(g') == SessionNames(g) && WindowLabels(g') == WindowLabels(g);
    assert PaneHomes(g') == PaneHomes(g);
    assert ZoomedPanes(g') == ZoomedPanes(g);
  }

  lemma NewPaneReplays(env: Env, g: Snapshot, n: nat, window: WindowId, cwd: string, command: seq<string>, c: Change)
    requires References(g, n) && FitsNewPane(env, g, n, window, cwd, command, c)
    ensures Replay(MirrorOf(g), c.events) == MirrorOf(c.snap)
  {
    AbsentWhenFresh(g, n);
    NewPaneFacts(env, g, n, window, cwd, command, c);
    assert n in c.snap.panes && SameTitles(g, c.snap) && SameZoomed(g, c.snap);
    hide References, SameHomes, PanesFrom, SamePanes, SameTitles, SameZoomed, MirrorOf, HasRoom, Observe;
    QuietMirror(g, c.snap, n, command);
    ReplayOne(MirrorOf(g), c.events[0]);
  }

  lemma EditTitleReplays(g: Snapshot, n: nat, id: WindowId, title: string, c: Change)
    requires References(g, n) && FitsEditTitle(g, n, id, title, c)
    ensures Replay(MirrorOf(g), c.events) == MirrorOf(c.snap)
  {
    hide References, IsWindowTitle, Ops.TitleClashes;
    ReplayOne(MirrorOf(g), c.events[0]);
    assert SessionNames(c.snap) == SessionNames(g);
    assert WindowLabels(c.snap) == WindowLabels(g)[id := (g.windows[id].session, title)];
    assert PaneHomes(c.snap) == PaneHomes(g);
    assert ZoomedPanes(c.snap) == ZoomedPanes(g);
  }

  // ----- Zooms -----

  function Zooms(l: LayoutState): set<PaneId> {
    if l.zoom.Some? then {l.zoom.value.pane} else {}
  }

  /** Only this window's zoom may differ. */
  ghost predicate ZoomedElsewhere(g: Snapshot, g': Snapshot, w: WindowId) {
    && w in g.windows && w in g'.windows
    && forall v :: v != w && v in g.windows && v in g'.windows ==>
         ZoomedPane(g'.windows[v].layout) == ZoomedPane(g.windows[v].layout)
  }

  lemma ZoomChanges(g: Snapshot, g': Snapshot, n: nat, w: WindowId, dropped: set<PaneId>)
    requires SameHomes(g, g') && PanesFrom(g, g', n) && SamePanes(g, g', n, dropped) && n !in g.panes
    requires forall p :: p in dropped ==> p !in g'.panes
    requires ZoomedPanesLive(g) && ZoomedPanesLive(g') && ZoomedElsewhere(g, g', w)
    requires ZoomedPane(g'.windows[w].layout) != Some(n)
    ensures ZoomedPanes(g') == ZoomedPanes(g) - Zooms(g.windows[w].layout) - dropped + Zooms(g'.windows[w].layout)
  {
    forall p
      ensures IsZoomed(g', p) <==>
              (IsZoomed(g, p) && p !in Zooms(g.windows[w].layout) && p !in dropped) || p in Zooms(g'.windows[w].layout)
    {
    }
  }

  lemma ReplayUnzoomed(m: Mirror, l: LayoutState, w: WindowId, s: SessionId)
    ensures Replay(m, Ops.Unzoomed(l, w, s)) == m.(zoomed := m.zoomed - Zooms(l))
  {
    if l.zoom.Some? {
      ReplayOne(m, Ops.Unzoomed(l, w, s)[0]);
    }
  }

  lemma ReplayZooms(m: Mirror, was: LayoutState, l: LayoutState, w: WindowId, s: SessionId)
    requires Zooms(was) <= m.zoomed
    ensures Replay(m, ZoomEvents(was, l, w, s)) == m.(zoomed := m.zoomed - Zooms(was) + Zooms(l))
  {
    if ZoomedPane(was) == ZoomedPane(l) {
      assert Zooms(was) == Zooms(l);
    } else {
      ReplayUnzoomed(m, was, w, s);
      var m' := m.(zoomed := m.zoomed - Zooms(was));
      ReplayConcat(m, Ops.Unzoomed(was, w, s), Ops.Zoomed(l, w, s));
      if l.zoom.Some? {
        ReplayOne(m', Ops.Zoomed(l, w, s)[0]);
      }
    }
  }

  lemma ReplayFocus(m: Mirror, focus: seq<Event>)
    requires |focus| <= 1 && forall i :: 0 <= i < |focus| ==> focus[i].PaneFocused?
    ensures Replay(m, focus) == m
  {
    if focus != [] {
      assert focus == [focus[0]];
      ReplayOne(m, focus[0]);
    }
  }

  lemma LiveZoomIsShown(g: Snapshot, w: WindowId)
    requires ZoomedPanesLive(g) && w in g.windows
    ensures Zooms(g.windows[w].layout) <= ZoomedPanes(g)
  {
  }

  lemma EditLayoutParts(g: Snapshot, n: nat, id: WindowId, l: LayoutState, active: PaneId, all: bool, focus: seq<Event>,
                        c: Change)
    requires n !in g.panes && FitsEditLayout(g, n, id, l, active, all, focus, c)
    ensures n !in c.snap.panes && SameTitles(g, c.snap) && ZoomedElsewhere(g, c.snap, id)
    ensures c.snap.windows[id].layout == l && ZoomedPane(l) != Some(n)
    ensures c.events == ZoomEvents(g.windows[id].layout, l, id, g.windows[id].session) + focus
  {
    hide KeepsLeaves, ZoomEvents;
  }

  lemma LiveZooms(g: Snapshot, n: nat)
    requires References(g, n)
    ensures ZoomedPanesLive(g)
  {
  }

  lemma EditLayoutReplays(env: Env, g: Snapshot, n: nat, id: WindowId, l: LayoutState, active: PaneId, all: bool,
                          focus: seq<Event>, c: Change)
    requires References(g, n) && FitsEditLayout(g, n, id, l, active, all, focus, c)
    ensures Replay(MirrorOf(g), c.events) == MirrorOf(c.snap)
  {
    hide KeepsLeaves, ZoomEvents, References, SameHomes, PanesFrom, SamePanes, SameTitles, ZoomedElsewhere, Zooms,
         NewestHadRoom, SameZooms, SessionNames, WindowLabels, PaneHomes, ZoomedPanes, Ops.PutWindow, ZoomedPanesLive;
    AbsentWhenFresh(g, n);
    EditLayoutFacts(env, g, n, id, l, active, all, focus, c);
    EditLayoutParts(g, n, id, l, active, all, focus, c);
    InPlace(env, g, c.snap, n, c.supply);
    LiveZooms(g, n);
    LiveZooms(c.snap, n);
    HomesMeanSessions(g, c.snap);
    SameNames(g, c.snap);
    SameLabels(g, c.snap);
    SamePaneHomes(g, c.snap, n);
    LiveZoomIsShown(g, id);
    ZoomChanges(g, c.snap, n, id, {});
    var was := g.windows[id].layout;
    var m := MirrorOf(g);
    ReplayZooms(m, was, l, id, g.windows[id].session);
    ReplayConcat(m, ZoomEvents(was, l, id, g.windows[id].session), focus);
    ReplayFocus(MirrorOf(c.snap), focus);
  }

  lemma NewSplitParts(env: Env, g: Snapshot, n: nat, target: PaneId, dir: Direction, ratio: real, cwd: string,
                      command: seq<string>, c: Change)
    requires n !in g.panes && FitsNewSplit(env, g, n, target, dir, ratio, cwd, command, c)
    ensures var w := g.panes[target].window;
            && n in c.snap.panes && c.snap.panes[n].window == w
            && SameTitles(g, c.snap) && ZoomedElsewhere(g, c.snap, w)
            && c.snap.windows[w].layout.zoom.None?
            && c.events == Ops.Unzoomed(g.windows[w].layout, w, g.windows[w].session)
                           + [PaneCreated(n, w, g.windows[w].session, command)]
  {
    hide HasRoom, Layout.SplitPane, PaneIds;
  }

  lemma NewSplitReplays(env: Env, g: Snapshot, n: nat, target: PaneId, dir: Direction, ratio: real, cwd: string,
                        command: seq<string>, c: Change)
    requires References(g, n) && FitsNewSplit(env, g, n, target, dir, ratio, cwd, command, c)
    ensures Replay(MirrorOf(g), c.events) == MirrorOf(c.snap)
  {
    hide SplitIn, HasRoom, References, SameHomes, PanesFrom, SamePanes, SameTitles, ZoomedElsewhere, Ops.AddSplit,
         NewestHadRoom, SameZooms, SessionNames, WindowLabels, PaneHomes, ZoomedPanes, ZoomedPanesLive;
    AbsentWhenFresh(g, n);
    NewSplitFacts(env, g, n, target, dir, ratio, cwd, command, c);
    NewSplitParts(env, g, n, target, dir, ratio, cwd, command, c);
    InPlace(env, g, c.snap, n, c.supply);
    LiveZooms(g, n);
    LiveZooms(c.snap, c.supply);
    HomesMeanSessions(g, c.snap);
    SameNames(g, c.snap);
    SameLabels(g, c.snap);
    SamePaneHomes(g, c.snap, n);
    var id := g.panes[target].window;
    ZoomChanges(g, c.snap, n, id, {});
    var (m, w) := (MirrorOf(g), g.windows[id]);
    ReplayUnzoomed(m, w.layout, id, w.session);
    ReplayThen(m, Ops.Unzoomed(w.layout, id, w.session), PaneCreated(n, id, w.session, command));
  }

  lemma DropPaneParts(g: Snapshot, n: nat, id: PaneId, c: Change)
    requires FitsDropPane(g, n, id, c) && PanesHaveWindows(g)
    ensures var w := g.panes[id].window;
            && id !in c.snap.panes && SameTitles(g, c.snap) && ZoomedElsewhere(g, c.snap, w)
            && c.snap.windows[w].layout.zoom.None? && c.snap.panes == g.panes - {id}
            && c.events == Ops.Unzoomed(g.windows[w].layout, w, g.windows[w].session)
                           + [PaneExited(id, w, g.windows[w].session, None, g.panes[id].command)]
  {
    hide Layout.RemovePane, PaneIds, WindowPanes;
  }

  lemma FewerPaneHomes(g: Snapshot, g': Snapshot, dropped: set<PaneId>)
    requires SameHomes(g, g') && g'.panes == g.panes - dropped
    ensures PaneHomes(g') == PaneHomes(g) - dropped
  {
  }

  lemma HaveWindows(g: Snapshot, n: nat)
    requires References(g, n)
    ensures PanesHaveWindows(g)
  {
  }

  lemma DropPaneReplays(env: Env, g: Snapshot, n: nat, id: PaneId, c: Change)
    requires References(g, n) && FitsDropPane(g, n, id, c)
    ensures Replay(MirrorOf(g), c.events) == MirrorOf(c.snap)
  {
    hide WindowPanes, References, SameHomes, PanesFrom, SamePanes, SameTitles, ZoomedElsewhere, Ops.DropPane,
         NewestHadRoom, SessionNames, WindowLabels, PaneHomes, ZoomedPanes, ZoomedPanesLive, PanesHaveWindows;
    AbsentWhenFresh(g, n);
    HaveWindows(g, n);
    DropPaneFacts(env, g, n, id, c);
    DropPaneParts(g, n, id, c);
    DropPaneRefers(env, g, n, id, c);
    LiveZooms(g, n);
    LiveZooms(c.snap, n);
    HomesMeanSessions(g, c.snap);
    SameNames(g, c.snap);
    SameLabels(g, c.snap);
    FewerPaneHomes(g, c.snap, {id});
    var window := g.panes[id].window;
    ZoomChanges(g, c.snap, n, window, {id});
    var (m, w) := (MirrorOf(g), g.windows[window]);
    ReplayUnzoomed(m, w.layout, window, w.session);
    ReplayThen(m, Ops.Unzoomed(w.layout, window, w.session),
               PaneExited(id, window, w.session, None, g.panes[id].command));
  }

  // ----- Edits of sessions -----

  lemma EditSessionParts(env: Env, g: Snapshot, n: nat, id: SessionId, s: Session, c: Change)
    requires FitsEditSession(env, g, n, id, s, c)
    ensures c.snap.windows == g.windows && c.snap.panes == g.panes
    ensures SessionNames(c.snap) == SessionNames(g)[id := s.name]
    ensures c.events == if s.name == g.sessions[id].name then [] else [SessionRenamed(id, g.sessions[id].name, s.name)]
  {
    hide IsSessionName, NameTaken, NoDuplicates;
  }

  lemma SameBelow(g: Snapshot, g': Snapshot)
    requires g'.windows == g.windows && g'.panes == g.panes
    ensures WindowLabels(g') == WindowLabels(g) && PaneHomes(g') == PaneHomes(g) && ZoomedPanes(g') == ZoomedPanes(g)
  {
    assert forall p :: IsZoomed(g', p) == IsZoomed(g, p);
  }

  lemma EditSessionReplays(env: Env, g: Snapshot, n: nat, id: SessionId, s: Session, c: Change)
    requires FitsEditSession(env, g, n, id, s, c)
    ensures Replay(MirrorOf(g), c.events) == MirrorOf(c.snap)
  {
    EditSessionParts(env, g, n, id, s, c);
    hide FitsEditSession, WindowLabels, PaneHomes, ZoomedPanes;
    SameBelow(g, c.snap);
    if s.name == g.sessions[id].name {
      assert SessionNames(g)[id := s.name] == SessionNames(g);
    } else {
      ReplayOne(MirrorOf(g), c.events[0]);
    }
  }

  // ----- Edits of a session's windows -----

  lemma RehomedHome(g: Snapshot, g': Snapshot, n: nat, id: SessionId, added: set<WindowId>, removed: set<WindowId>,
                    p: PaneId)
    requires Rehomed(g, g', n, id, added, removed) && PanesHaveWindows(g) && p in g'.panes
    ensures p in PaneHomes(g') && (p == n ==> PaneHomes(g')[p] == (g'.panes[n].window, id))
    ensures p != n ==> p in g.panes && p in PaneHomes(g) && PaneHomes(g')[p] == PaneHomes(g)[p]
  {
    hide LivesIn;
  }

  lemma RehomedHomes(g: Snapshot, g': Snapshot, n: nat, id: SessionId, added: set<WindowId>, removed: set<WindowId>)
    requires Rehomed(g, g', n, id, added, removed) && PanesHaveWindows(g) && n !in g.panes
    ensures var kept := PaneHomes(g) - PanesOf(g, removed);
            PaneHomes(g') == if n in g'.panes then kept[n := (g'.panes[n].window, id)] else kept
  {
    RehomedKeys(g, g', n, id, added, removed);
    hide Rehomed, PanesHaveWindows, PanesOf, PaneHomes;
    HomesHaveKeys(g);
    HomesHaveKeys(g');
    forall p | p in g'.panes
      ensures p == n ==> PaneHomes(g')[p] == (g'.panes[n].window, id)
      ensures p != n ==> p in g.panes && PaneHomes(g')[p] == PaneHomes(g)[p]
    {
      RehomedHome(g, g', n, id, added, removed, p);
    }
  }

  lemma HomesHaveKeys(g: Snapshot)
    ensures PaneHomes(g).Keys == g.panes.Keys
  {
  }

  lemma RehomedKeys(g: Snapshot, g': Snapshot, n: nat, id: SessionId, added: set<WindowId>, removed: set<WindowId>)
    requires Rehomed(g, g', n, id, added, removed)
    ensures forall p :: p != n ==> (p in g'.panes <==> p in g.panes && p !in PanesOf(g, removed))
  {
    hide LivesIn;
  }

  function PanesOf(g: Snapshot, windows: set<WindowId>): set<PaneId> {
    set p | p in g.panes && g.panes[p].window in windows
  }

  lemma RehomedZooms(g: Snapshot, g': Snapshot, n: nat, id: SessionId, added: set<WindowId>, removed: set<WindowId>)
    requires Rehomed(g, g', n, id, added, removed) && PanesHaveWindows(g) && n !in g.panes
    ensures ZoomedPanes(g') == ZoomedPanes(g) - PanesOf(g, removed)
  {
    forall p
      ensures IsZoomed(g', p) <==> IsZoomed(g, p) && p !in PanesOf(g, removed)
    {
    }
  }

  lemma NewSessionParts(env: Env, g: Snapshot, n: nat, name: string, title: string, cwd: string, command: seq<string>,
                        c: Change)
    requires FitsNewSession(env, g, n, name, title, cwd, command, c)
    ensures SessionNames(c.snap) == SessionNames(g)[n + 2 := name]
    ensures WindowLabels(c.snap) == WindowLabels(g)[n + 1 := (n + 2, title)]
    ensures n in c.snap.panes && c.snap.panes[n].window == n + 1
    ensures c.events == [SessionCreated(n + 2, name)] + [WindowCreated(n + 1, n + 2, title, 1)]
                        + [PaneCreated(n, n + 1, n + 2, command)]
  {
    hide HasRoom, IsSessionName, NameTaken, Sanitize, IsClean, IsWindowNumber;
    SanitizeIsClean(title);
  }

  lemma NewSessionReplays(env: Env, g: Snapshot, n: nat, name: string, title: string, cwd: string, command: seq<string>,
                          c: Change)
    requires References(g, n) && FitsNewSession(env, g, n, name, title, cwd, command, c)
    ensures Replay(MirrorOf(g), c.events) == MirrorOf(c.snap)
  {
    hide FitsNewSession, References, Rehomed, Relisted, PanesTold, SessionNames, WindowLabels, PaneHomes, ZoomedPanes,
         PanesHaveWindows;
    AbsentWhenFresh(g, n);
    HaveWindows(g, n);
    NewSessionFacts(env, g, n, name, title, cwd, command, c);
    NewSessionParts(env, g, n, name, title, cwd, command, c);
    RehomedHomes(g, c.snap, n, n + 2, {n + 1}, {});
    RehomedZooms(g, c.snap, n, n + 2, {n + 1}, {});
    assert PanesOf(g, {}) == {};
    var m := MirrorOf(g);
    var es := [SessionCreated(n + 2, name)] + [WindowCreated(n + 1, n + 2, title, 1)];
    ReplayOne(m, SessionCreated(n + 2, name));
    ReplayThen(m, [SessionCreated(n + 2, name)], WindowCreated(n + 1, n + 2, title, 1));
    ReplayThen(m, es, PaneCreated(n, n + 1, n + 2, command));
  }

  lemma NewWindowParts(env: Env, g: Snapshot, n: nat, session: SessionId, title: string, cwd: string,
                       command: seq<string>, c: Change) returns (index: nat)
    requires FitsNewWindow(env, g, n, session, title, cwd, command, c)
    ensures SessionNames(c.snap) == SessionNames(g)
    ensures WindowLabels(c.snap) == WindowLabels(g)[n + 1 := (session, title)]
    ensures n in c.snap.panes && c.snap.panes[n].window == n + 1
    ensures c.events == [WindowCreated(n + 1, session, title, index)] + [PaneCreated(n, n + 1, session, command)]
  {
    hide HasRoom, TitleTaken, Sanitize, IsClean, IsWindowNumber;
    SanitizeIsClean(title);
    index := |g.sessions[session].windows| + 1;
  }

  lemma NewWindowReplays(env: Env, g: Snapshot, n: nat, session: SessionId, title: string, cwd: string,
                         command: seq<string>, c: Change)
    requires References(g, n) && FitsNewWindow(env, g, n, session, title, cwd, command, c)
    ensures Replay(MirrorOf(g), c.events) == MirrorOf(c.snap)
  {
    hide FitsNewWindow, References, Rehomed, PanesTold, SessionNames, WindowLabels, PaneHomes, ZoomedPanes,
         PanesHaveWindows;
    AbsentWhenFresh(g, n);
    HaveWindows(g, n);
    NewWindowFacts(env, g, n, session, title, cwd, command, c);
    var index := NewWindowParts(env, g, n, session, title, cwd, command, c);
    RehomedHomes(g, c.snap, n, session, {n + 1}, {});
    RehomedZooms(g, c.snap, n, session, {n + 1}, {});
    assert PanesOf(g, {}) == {};
    var m := MirrorOf(g);
    ReplayOne(m, WindowCreated(n + 1, session, title, index));
    ReplayThen(m, [WindowCreated(n + 1, session, title, index)], PaneCreated(n, n + 1, session, command));
  }

  lemma WalkedGone(env: Env, g: Snapshot, windows: seq<WindowId>, removed: set<WindowId>)
    requires WalksAll(env) && removed == set w | w in windows
    ensures Dying(g, env.walk(g), windows) == PanesOf(g, removed)
  {
    assert Lists(env.walk(g), g.panes.Keys);
  }

  lemma DropWindowParts(env: Env, g: Snapshot, n: nat, id: WindowId, c: Change)
    requires FitsDropWindow(env, g, n, id, c)
    ensures SessionNames(c.snap) == SessionNames(g) && WindowLabels(c.snap) == WindowLabels(g) - {id}
    ensures var session := g.windows[id].session;
            c.events == Ops.Exits(g, env.walk(g), [id], session) + [WindowKilled(id, session)]
  {
    hide Ops.Exits, Without;
  }

  lemma DropWindowReplays(env: Env, g: Snapshot, n: nat, id: WindowId, c: Change)
    requires WalksAll(env) && References(g, n) && FitsDropWindow(env, g, n, id, c)
    ensures Replay(MirrorOf(g), c.events) == MirrorOf(c.snap)
  {
    hide References, Rehomed, PanesTold, SessionNames, WindowLabels, PaneHomes, ZoomedPanes, PanesHaveWindows,
         Ops.Exits,
         Ops.DropWindow, WalksAll, PanesOf, Without;
    AbsentWhenFresh(g, n);
    HaveWindows(g, n);
    DropWindowFacts(env, g, n, id, c);
    DropWindowParts(env, g, n, id, c);
    var session := g.windows[id].session;
    RehomedHomes(g, c.snap, n, session, {}, {id});
    RehomedZooms(g, c.snap, n, session, {}, {id});
    RehomedNoNewest(g, c.snap, n, session, {id});
    var m := MirrorOf(g);
    WalkedGone(env, g, [id], {id});
    ReplayExits(m, g, env.walk(g), [id], session);
    ReplayThen(m, Ops.Exits(g, env.walk(g), [id], session), WindowKilled(id, session));
  }

  lemma RehomedNoNewest(g: Snapshot, g': Snapshot, n: nat, id: SessionId, removed: set<WindowId>)
    requires Rehomed(g, g', n, id, {}, removed)
    ensures n !in g'.panes
  {
  }

  lemma DropSessionParts(env: Env, g: Snapshot, n: nat, id: SessionId, c: Change)
    requires FitsDropSession(env, g, n, id, c)
    ensures var s := g.sessions[id];
            && SessionNames(c.snap) == SessionNames(g) - {id}
            && WindowLabels(c.snap) == WindowLabels(g) - (set w | w in s.windows)
            && c.events == Ops.Exits(g, env.walk(g), s.windows, id) + Ops.WindowKills(s.windows, id)
                           + [SessionKilled(id, s.name)]
  {
    hide Ops.Exits, Ops.WindowKills;
  }

  lemma DropSessionReplays(env: Env, g: Snapshot, n: nat, id: SessionId, c: Change)
    requires WalksAll(env) && References(g, n) && FitsDropSession(env, g, n, id, c) && ListsItsWindows(g, id)
    ensures Replay(MirrorOf(g), c.events) == MirrorOf(c.snap)
  {
    hide References, Rehomed, Relisted, PanesTold, SessionNames, WindowLabels, PaneHomes, ZoomedPanes, PanesHaveWindows,
         Ops.Exits, Ops.WindowKills, Ops.DropSession, WalksAll, PanesOf, ListsItsWindows;
    AbsentWhenFresh(g, n);
    HaveWindows(g, n);
    DropSessionFacts(env, g, n, id, c);
    DropSessionParts(env, g, n, id, c);
    var s := g.sessions[id];
    var removed := set w | w in s.windows;
    RehomedHomes(g, c.snap, n, id, {}, removed);
    RehomedZooms(g, c.snap, n, id, {}, removed);
    RehomedNoNewest(g, c.snap, n, id, removed);
    var (m, exits, kills) := (MirrorOf(g), Ops.Exits(g, env.walk(g), s.windows, id), Ops.WindowKills(s.windows, id));
    WalkedGone(env, g, s.windows, removed);
    ReplayExits(m, g, env.walk(g), s.windows, id);
    ReplayKills(Replay(m, exits), s.windows, id);
    ReplayConcat(m, exits, kills);
    ReplayThen(m, exits + kills, SessionKilled(id, s.name));
  }

  // ----- Runs -----

  lemma ListsOwn(g: Snapshot, n: nat, id: SessionId)
    requires References(g, n) && id in g.sessions
    ensures ListsItsWindows(g, id)
  {
  }

  lemma EditReplays(env: Env, g: Snapshot, n: nat, e: Edit, c: Change)
    requires WalksAll(env) && References(g, n) && Fits(env, g, n, e, c)
    ensures Replay(MirrorOf(g), c.events) == MirrorOf(c.snap)
  {
    hide WalksAll, References, MirrorOf, FitsNewSession, FitsNewWindow, FitsNewPane, FitsNewSplit, FitsEditSession,
         FitsEditTitle, FitsEditLayout, FitsEditPane, FitsDropPane, FitsDropWindow, ListsItsWindows, Ops.Exits,
         Ops.WindowKills, Ops.DropSession;
    match e
    case NewSession(name, title, cwd, command) => NewSessionReplays(env, g, n, name, title, cwd, command, c);
    case NewWindow(session, title, cwd, command) => NewWindowReplays(env, g, n, session, title, cwd, command, c);
    case NewPane(window, cwd, command) => NewPaneReplays(env, g, n, window, cwd, command, c);
    case NewSplit(target, dir, ratio, cwd, command) => NewSplitReplays(env, g, n, target, dir, ratio, cwd, command, c);
    case EditSession(id, s) => EditSessionReplays(env, g, n, id, s, c);
    case EditTitle(id, title) => EditTitleReplays(g, n, id, title, c);
    case EditLayout(id, l, active, all, focus) => EditLayoutReplays(env, g, n, id, l, active, all, focus, c);
    case EditPane(id, p) => EditPaneReplays(env, g, n, id, p, c);
    case DropPane(id) => DropPaneReplays(env, g, n, id, c);
    case DropWindow(id) => DropWindowReplays(env, g, n, id, c);
    case DropSession(id) => ListsOwn(g, n, id); DropSessionReplays(env, g, n, id, c);
    case OnlyTick => TickReplays(g);
  }

  /** A subscriber in step with the graph. */
  ghost predicate InStep(s: State) {
    Replay(NOTHING, s.events) == MirrorOf(s.snap)
  }

  lemma MoveReplays(env: Env, s: State, m: Move)
    requires WalksAll(env) && Valid(env, s) && InStep(s) && Enabled(env, s, m)
    ensures InStep(After(s, m))
  {
    hide WalksAll, References, Naming, AllWithinCapacity, MirrorOf, Fits, KeepLive;
    if m.Edited? {
      EditReplays(env, s.snap, s.supply, m.edit, m.change);
      ReplayConcat(NOTHING, s.events, m.change.events);
    }
  }

  lemma {:induction false} MovesReplay(env: Env, s: State, ms: seq<Move>)
    requires WalksAll(env) && Valid(env, s) && InStep(s) && EnabledAll(env, s, ms)
    ensures InStep(AfterAll(s, ms))
    decreases |ms|
  {
    hide WalksAll, Valid, InStep, Enabled, After;
    if ms != [] {
      MoveKeeps(env, s, ms[0]);
      MoveReplays(env, s, ms[0]);
      MovesReplay(env, After(s, ms[0]), ms[1..]);
    }
  }

  /** Folding everything published over any run rebuilds exactly what is live. */
  lemma EventsRebuildTheGraph(env: Env, cs: seq<Command>)
    requires WalksAll(env)
    ensures var s := Run(env, EMPTY, cs); Replay(NOTHING, s.events) == MirrorOf(s.snap)
  {
    EmptyIsValid(env);
    hide WalksAll, Valid;
    var ms := RunMoves(env, EMPTY, cs);
    assert MirrorOf(EMPTY_SNAPSHOT) == NOTHING;
    MovesReplay(env, EMPTY, ms);
  }
}
