/**
 The plugin manager's registry, its per-name stop flags, and the protocol that
 keeps a killed plugin from being brought back by a reload or a file watcher.

 Each critical section of the program is one atomic step. Spawning, handshakes,
 file watching and grant files are left to the steps' nondeterminism.
 */
module PluginManagers {
  import opened Wrappers

  type Name = string
  type Flag = nat
  type TaskId = nat

  // ----- The manager -----

  /** `registry` maps a running plugin to its watcher's stop flag; `raised` are the flags set to true. */
  datatype Manager = Manager(registry: map<Name, Option<Flag>>, pending: map<Name, Flag>, raised: set<Flag>,
                             stopping: bool)

  datatype Refusal = ShuttingDown | NotFound | NameConflict

  function Raise(m: Manager, f: Option<Flag>): Manager {
    if f.None? then m else m.(raised := m.raised + {f.value})
  }

  /** Raise and forget the flag waiting under `name`; the reply tells whether one was. */
  function TakePending(m: Manager, name: Name): (Manager, bool) {
    if name !in m.pending then (m, false)
    else (Raise(m, Some(m.pending[name])).(pending := m.pending - {name}), true)
  }

  /** Mark `name` pending under `flag`, stopping whatever was pending. */
  function SetPending(m: Manager, name: Name, flag: Flag): Manager {
    TakePending(m, name).0.(pending := m.pending[name := flag])
  }

  /** Take a plugin out of the registry and stop its watcher. */
  function Unregister(m: Manager, name: Name): Manager {
    if name !in m.registry then m
    else Raise(m, m.registry[name]).(registry := m.registry - {name})
  }

  /** Taking the entry out and leaving the flag under its name happen under one lock. */
  function BeginReload(m: Manager, name: Name, flag: Flag): Option<Manager> {
    if name !in m.registry then None else Some(SetPending(Unregister(m, name), name, flag))
  }

  /** The registration section of an install: `own` is the flag that may stop it, `watch` the watcher it armed. */
  function Register(m: Manager, name: Name, own: Option<Flag>, watch: Option<Flag>): (Manager, Option<Refusal>) {
    if m.stopping then (Raise(m, watch), Some(ShuttingDown))
    else if own.Some? && own.value in m.raised then (Raise(m, watch), Some(NotFound))
    else if name in m.registry then (Raise(m, watch), Some(NameConflict))
    else (TakePending(m, name).0.(registry := m.registry[name := watch]), None)
  }

  /** The end of a failed reload: leave its re-armed watcher pending, if the name is still its own. */
  function Settle(m: Manager, name: Name, own: Flag, watch: Option<Flag>): Manager {
    var ours := name in m.pending && m.pending[name] == own;
    if watch.Some? then
      if ours then m.(pending := m.pending[name := watch.value]) else Raise(m, watch)
    else if ours then m.(pending := m.pending - {name})
    else m
  }

  /** Take down a plugin and anything about to reinstall it; the reply tells whether there was either. */
  function Kill(m: Manager, name: Name): (Manager, bool) {
    var (m', pending) := TakePending(m, name);
    (Unregister(m', name), pending || name in m.registry)
  }

  function Watchers(registry: map<Name, Option<Flag>>): set<Flag> {
    set n | n in registry && registry[n].Some? :: registry[n].value
  }

  function Shutdown(m: Manager): Manager {
    m.(stopping := true, raised := m.raised + Watchers(m.registry), registry := map[])
  }

  // ----- The protocol -----

  /** Work in flight: an install under way, with the flag that may stop it, or a failed reload still to settle. */
  datatype Task =
    | Installing
    | Reloading(name: Name, flag: Flag)
    | Reinstalling(flag: Flag)
    | Settling(name: Name, flag: Flag)

  /** A watcher is arming until the install or reload that started it hands it over. */
  datatype Watcher = Arming(name: Name) | Armed(name: Name)

  /** `used` holds every flag and task id ever handed out. */
  datatype World = World(m: Manager, tasks: map<TaskId, Task>, watchers: map<Flag, Watcher>, used: set<nat>)

  const EMPTY := World(Manager(map[], map[], {}, false), map[], map[], {})

  datatype Step =
    | DoInstall(task: TaskId)
    | DoReload(name: Name, task: TaskId, flag: Flag)
    | DoReinstall(watcher: Flag, task: TaskId)
    | DoArm(watcher: Flag, name: Name)
    | DoRegister(task: TaskId, name: Name, watch: Option<Flag>)
    | DoFail(task: TaskId)
    | DoSettle(task: TaskId, watch: Option<Flag>)
    | DoKill(name: Name)
    | DoShutdown

  function OwnFlag(t: Task): Option<Flag> {
    if t.Installing? then None else Some(t.flag)
  }

  predicate IsArming(w: World, watch: Option<Flag>, name: Name) {
    watch.Some? ==> watch.value in w.watchers && w.watchers[watch.value] == Arming(name)
  }

  predicate Enabled(w: World, s: Step) {
    match s
    case DoInstall(task) => task !in w.used
    case DoReload(name, task, flag) => task !in w.used && flag !in w.used && task != flag && name in w.m.registry
    case DoReinstall(watcher, task) => watcher in w.watchers && task !in w.used
    case DoArm(watcher, _) => watcher !in w.used
    case DoRegister(task, name, watch) =>
      task in w.tasks && !w.tasks[task].Settling? && IsArming(w, watch, name)
    case DoFail(task) => task in w.tasks && !w.tasks[task].Settling?
    case DoSettle(task, watch) => task in w.tasks && w.tasks[task].Settling? && IsArming(w, watch, w.tasks[task].name)
    case DoKill(_) => true
    case DoShutdown => true
  }

  /** A watcher handed over stays under its name; a refused one is stopped. */
  function HandOver(watchers: map<Flag, Watcher>, watch: Option<Flag>, name: Name): map<Flag, Watcher> {
    if watch.None? then watchers else watchers[watch.value := Armed(name)]
  }

  /** What becomes of a task whose install did not register: a reload still has to settle. */
  function AfterFailure(w: World, task: TaskId): map<TaskId, Task>
    requires task in w.tasks
  {
    var t := w.tasks[task];
    if t.Reloading? then w.tasks[task := Settling(t.name, t.flag)] else w.tasks - {task}
  }

  function Exec(w: World, s: Step): World
    requires Enabled(w, s)
  {
    match s
    case DoInstall(task) => w.(tasks := w.tasks[task := Installing], used := w.used + {task})
    case DoReload(name, task, flag) =>
      w.(m := BeginReload(w.m, name, flag).value,
         tasks := w.tasks[task := Reloading(name, flag)], used := w.used + {task, flag})
    case DoReinstall(watcher, task) => w.(tasks := w.tasks[task := Reinstalling(watcher)], used := w.used + {task})
    case DoArm(watcher, name) => w.(watchers := w.watchers[watcher := Arming(name)], used := w.used + {watcher})
    case DoRegister(task, name, watch) =>
      var (m', refusal) := Register(w.m, name, OwnFlag(w.tasks[task]), watch);
      w.(m := m', watchers := HandOver(w.watchers, watch, name),
         tasks := if refusal.None? then w.tasks - {task} else AfterFailure(w, task))
    case DoFail(task) => w.(tasks := AfterFailure(w, task))
    case DoSettle(task, watch) =>
      var t := w.tasks[task];
      w.(m := Settle(w.m, t.name, t.flag, watch), watchers := HandOver(w.watchers, watch, t.name),
         tasks := w.tasks - {task})
    case DoKill(name) => w.(m := Kill(w.m, name).0)
    case DoShutdown => w.(m := Shutdown(w.m))
  }

  // ----- What every world keeps -----

  /** Raised, or what `name`'s next kill or reload will raise. */
  predicate PendingOrRaised(m: Manager, name: Name, flag: Flag) {
    flag in m.raised || (name in m.pending && m.pending[name] == flag)
  }

  predicate WatcherReachable(m: Manager, name: Name, flag: Flag) {
    PendingOrRaised(m, name, flag) || (name in m.registry && m.registry[name] == Some(flag))
  }

  predicate IsReload(t: Task) {
    t.Reloading? || t.Settling?
  }

  /** Every reload still able to install can be stopped through its name. */
  predicate ReloadsStoppable(w: World) {
    forall t :: t in w.tasks && w.tasks[t].Reloading? ==> PendingOrRaised(w.m, w.tasks[t].name, w.tasks[t].flag)
  }

  /** Every watcher handed over can be stopped through its name. */
  predicate WatchersStoppable(w: World) {
    forall f :: f in w.watchers && w.watchers[f].Armed? ==> WatcherReachable(w.m, w.watchers[f].name, f)
  }

  /** Flags and tasks are told apart: no reload shares its flag with another or with a watcher. */
  predicate FlagsApart(w: World) {
    && w.tasks.Keys <= w.used && w.watchers.Keys <= w.used
    && (forall t :: t in w.tasks && IsReload(w.tasks[t]) ==>
         w.tasks[t].flag in w.used && w.tasks[t].flag !in w.watchers)
    && (forall t, u :: t in w.tasks && u in w.tasks && t != u && IsReload(w.tasks[t]) && IsReload(w.tasks[u]) ==>
          w.tasks[t].flag != w.tasks[u].flag)
    && (forall t :: t in w.tasks && w.tasks[t].Reinstalling? ==> w.tasks[t].flag in w.watchers)
  }

  predicate Valid(w: World) {
    ReloadsStoppable(w) && WatchersStoppable(w) && FlagsApart(w)
  }

  /** What no step undoes. */
  predicate Evolves(w: World, w': World) {
    && w.m.raised <= w'.m.raised && (w.m.stopping ==> w'.m.stopping) && w.used <= w'.used
    && (forall t :: t in w'.tasks ==> t in w.tasks || t !in w.used)
    && (forall t :: t in w.tasks && t in w'.tasks ==> OwnFlag(w'.tasks[t]) == OwnFlag(w.tasks[t]))
  }

  lemma TakePendingKeeps(m: Manager, name: Name, n: Name, f: Flag)
    ensures var m' := TakePending(m, name).0;
            && (PendingOrRaised(m, n, f) ==> PendingOrRaised(m', n, f))
            && (PendingOrRaised(m, name, f) ==> f in m'.raised)
            && m.raised <= m'.raised && m'.registry == m.registry && m'.stopping == m.stopping && name !in m'.pending
  {
  }

  lemma UnregisterKeeps(m: Manager, name: Name, n: Name, f: Flag)
    ensures var m' := Unregister(m, name);
            && (PendingOrRaised(m, n, f) ==> PendingOrRaised(m', n, f))
            && (WatcherReachable(m, n, f) ==> WatcherReachable(m', n, f))
            && (WatcherReachable(m, name, f) ==> PendingOrRaised(m', name, f))
            && m.raised <= m'.raised && m'.pending == m.pending && m'.stopping == m.stopping && name !in m'.registry
  {
  }

  lemma BeginReloadKeeps(m: Manager, name: Name, flag: Flag, n: Name, f: Flag)
    requires name in m.registry
    ensures var m' := BeginReload(m, name, flag).value;
            && (PendingOrRaised(m, n, f) ==> PendingOrRaised(m', n, f))
            && (WatcherReachable(m, n, f) ==> WatcherReachable(m', n, f))
            && PendingOrRaised(m', name, flag) && m.raised <= m'.raised && m'.stopping == m.stopping
  {
    UnregisterKeeps(m, name, n, f);
    TakePendingKeeps(Unregister(m, name), name, n, f);
  }

  lemma RegisterKeeps(m: Manager, name: Name, own: Option<Flag>, watch: Option<Flag>, n: Name, f: Flag)
    ensures var m' := Register(m, name, own, watch).0;
            && (PendingOrRaised(m, n, f) ==> PendingOrRaised(m', n, f))
            && (WatcherReachable(m, n, f) ==> WatcherReachable(m', n, f))
            && (watch.Some? ==> WatcherReachable(m', name, watch.value))
            && m.raised <= m'.raised && m'.stopping == m.stopping
  {
    TakePendingKeeps(m, name, n, f);
  }

  lemma KillKeeps(m: Manager, name: Name, n: Name, f: Flag)
    ensures var m' := Kill(m, name).0;
            && (PendingOrRaised(m, n, f) ==> PendingOrRaised(m', n, f))
            && (WatcherReachable(m, n, f) ==> WatcherReachable(m', n, f))
            && (WatcherReachable(m, name, f) ==> f in m'.raised)
            && m.raised <= m'.raised && m'.stopping == m.stopping
  {
    TakePendingKeeps(m, name, n, f);
    TakePendingKeeps(m, name, name, f);
    var m1 := TakePending(m, name).0;
    UnregisterKeeps(m1, name, n, f);
    UnregisterKeeps(m1, name, name, f);
  }

  /** Settling a reload touches no flag but its own and its watcher's. */
  lemma SettleKeeps(m: Manager, name: Name, own: Flag, watch: Option<Flag>, n: Name, f: Flag)
    requires f != own
    ensures var m' := Settle(m, name, own, watch);
            && (PendingOrRaised(m, n, f) ==> PendingOrRaised(m', n, f))
            && (WatcherReachable(m, n, f) ==> WatcherReachable(m', n, f))
            && (watch.Some? ==> WatcherReachable(m', name, watch.value))
            && m.raised <= m'.raised && m'.stopping == m.stopping
  {
  }

  lemma ShutdownKeeps(m: Manager, n: Name, f: Flag)
    ensures var m' := Shutdown(m);
            && (PendingOrRaised(m, n, f) ==> PendingOrRaised(m', n, f))
            && (WatcherReachable(m, n, f) ==> PendingOrRaised(m', n, f))
            && m.raised <= m'.raised && m'.stopping
  {
  }

  lemma StepKeepsReloads(w: World, s: Step)
    requires Valid(w) && Enabled(w, s)
    ensures ReloadsStoppable(Exec(w, s))
  {
    hide PendingOrRaised, WatcherReachable, BeginReload, Register, Kill, Settle, Shutdown;
    var w' := Exec(w, s);
    forall t | t in w'.tasks && w'.tasks[t].Reloading?
      ensures PendingOrRaised(w'.m, w'.tasks[t].name, w'.tasks[t].flag)
    {
      var n, f := w'.tasks[t].name, w'.tasks[t].flag;
      match s
      case DoReload(name, task, flag) => BeginReloadKeeps(w.m, name, flag, n, f);
      case DoRegister(task, name, watch) => RegisterKeeps(w.m, name, OwnFlag(w.tasks[task]), watch, n, f);
      case DoSettle(task, watch) => SettleKeeps(w.m, w.tasks[task].name, w.tasks[task].flag, watch, n, f);
      case DoKill(name) => KillKeeps(w.m, name, n, f);
      case DoShutdown => ShutdownKeeps(w.m, n, f);
      case _ =>
    }
  }

  lemma StepKeepsWatchers(w: World, s: Step)
    requires Valid(w) && Enabled(w, s)
    ensures WatchersStoppable(Exec(w, s))
  {
    hide BeginReload, Register, Kill, Settle, Shutdown;
    var w' := Exec(w, s);
    forall f | f in w'.watchers && w'.watchers[f].Armed?
      ensures WatcherReachable(w'.m, w'.watchers[f].name, f)
    {
      var n := w'.watchers[f].name;
      match s
      case DoReload(name, task, flag) => BeginReloadKeeps(w.m, name, flag, n, f);
      case DoRegister(task, name, watch) => RegisterKeeps(w.m, name, OwnFlag(w.tasks[task]), watch, n, f);
      case DoSettle(task, watch) => SettleKeeps(w.m, w.tasks[task].name, w.tasks[task].flag, watch, n, f);
      case DoKill(name) => KillKeeps(w.m, name, n, f);
      case DoShutdown => ShutdownKeeps(w.m, n, f);
      case _ =>
    }
  }

  lemma StepKeepsFlags(w: World, s: Step)
    requires FlagsApart(w) && Enabled(w, s)
    ensures FlagsApart(Exec(w, s))
  {
    hide BeginReload, Register, Kill, Settle, Shutdown;
  }

  lemma StepEvolves(w: World, s: Step)
    requires FlagsApart(w) && Enabled(w, s)
    ensures Evolves(w, Exec(w, s))
  {
    hide BeginReload, Register, Kill, Settle, Shutdown;
    match s
    case DoReload(name, task, flag) => BeginReloadKeeps(w.m, name, flag, name, flag);
    case DoRegister(task, name, watch) => RegisterKeeps(w.m, name, OwnFlag(w.tasks[task]), watch, name, 0);
    case DoSettle(task, watch) => SettleKeeps(w.m, w.tasks[task].name, w.tasks[task].flag, watch, "",
                                              w.tasks[task].flag + 1);
    case DoKill(name) => KillKeeps(w.m, name, name, 0);
    case DoShutdown => ShutdownKeeps(w.m, "", 0);
    case _ =>
  }

  // ----- Runs -----

  /** Every interleaving: an empty world, then one enabled step after another. */
  ghost predicate IsRun(worlds: seq<World>, steps: seq<Step>) {
    && |worlds| == |steps| + 1 && worlds[0] == EMPTY
    && forall i :: 0 <= i < |steps| ==> Enabled(worlds[i], steps[i]) && worlds[i + 1] == Exec(worlds[i], steps[i])
  }

  lemma EvolvesTransitive(w: World, v: World, w': World)
    requires FlagsApart(w) && Evolves(w, v) && Evolves(v, w')
    ensures Evolves(w, w')
  {
  }

  /** In every interleaving each reload still able to install is pending under its name or already stopped. */
  lemma {:induction false} RunsKeep(worlds: seq<World>, steps: seq<Step>, i: nat, j: nat)
    requires IsRun(worlds, steps) && i <= j < |worlds|
    ensures Valid(worlds[i]) && Valid(worlds[j]) && Evolves(worlds[i], worlds[j])
    decreases j
  {
    hide Exec, Enabled;
    if j == 0 {
      assert Valid(EMPTY) && Evolves(EMPTY, EMPTY);
    } else {
      RunsKeep(worlds, steps, Min(i, j - 1), j - 1);
      var w, s := worlds[j - 1], steps[j - 1];
      StepKeepsReloads(w, s);
      StepKeepsWatchers(w, s);
      StepKeepsFlags(w, s);
      StepEvolves(w, s);
      hide Valid, Evolves;
      if i < j {
        EvolvesAcross(worlds[i], w, worlds[j]);
      } else {
        EvolvesReflexive(worlds[j]);
      }
    }
  }

  lemma EvolvesAcross(w: World, v: World, w': World)
    requires Valid(w) && Evolves(w, v) && Evolves(v, w')
    ensures Evolves(w, w')
  {
    EvolvesTransitive(w, v, w');
  }

  lemma EvolvesReflexive(w: World)
    ensures Evolves(w, w)
  {
  }

  /** A task would bring `name` back: a reload of it, or a reinstall by a watcher handed over under it. */
  predicate BringsBack(w: World, task: TaskId, name: Name) {
    task in w.tasks &&
    match w.tasks[task]
    case Reloading(n, _) => n == name
    case Reinstalling(f) => f in w.watchers && w.watchers[f] == Armed(name)
    case _ => false
  }

  lemma KillStops(w: World, name: Name, task: TaskId)
    requires Valid(w) && BringsBack(w, task, name)
    ensures OwnFlag(w.tasks[task]).Some? && OwnFlag(w.tasks[task]).value in Exec(w, DoKill(name)).m.raised
  {
    KillKeeps(w.m, name, name, w.tasks[task].flag);
  }

  lemma RaisedIsRefused(m: Manager, name: Name, own: Flag, watch: Option<Flag>)
    requires own in m.raised
    ensures Register(m, name, Some(own), watch).0.registry == m.registry
  {
  }

  /**
   After `kill(name)`, no reload of that name begun earlier, and no reinstall begun by a watcher handed over under
   it, ever registers anything, whatever happens in between.
   */
  lemma KilledStaysDead(worlds: seq<World>, steps: seq<Step>, k: nat, j: nat, name: Name, task: TaskId)
    requires IsRun(worlds, steps) && k < j < |steps|
    requires steps[k] == DoKill(name) && BringsBack(worlds[k], task, name)
    requires steps[j].DoRegister? && steps[j].task == task
    ensures worlds[j + 1].m.registry == worlds[j].m.registry
  {
    RunsKeep(worlds, steps, k, k + 1);
    RunsKeep(worlds, steps, k, j);
    RunsKeep(worlds, steps, k + 1, j);
    KillStops(worlds[k], name, task);
    var own := worlds[k].tasks[task].flag;
    assert task in worlds[j].tasks && OwnFlag(worlds[j].tasks[task]) == Some(own);
    RaisedIsRefused(worlds[j].m, steps[j].name, own, steps[j].watch);
  }

  /** Once shutdown has begun, nothing registers any more. */
  lemma NothingRegistersAfterShutdown(worlds: seq<World>, steps: seq<Step>, k: nat, j: nat)
    requires IsRun(worlds, steps) && k < j < |worlds| && steps[k] == DoShutdown
    ensures worlds[j].m.registry == map[]
    decreases j
  {
    hide Evolves, Valid;
    if j > k + 1 {
      NothingRegistersAfterShutdown(worlds, steps, k, j - 1);
      RunsKeep(worlds, steps, k + 1, j - 1);
      StillStopping(worlds[k + 1], worlds[j - 1]);
      EmptyStaysEmpty(worlds[j - 1], steps[j - 1]);
    }
  }

  lemma StillStopping(w: World, w': World)
    requires Evolves(w, w') && w.m.stopping
    ensures w'.m.stopping
  {
  }

  lemma EmptyStaysEmpty(w: World, s: Step)
    requires Enabled(w, s) && w.m.stopping && w.m.registry == map[]
    ensures Exec(w, s).m.registry == map[]
  {
  }

  // ----- The critical sections -----

  // ----- What each section does -----

  /** The flags that a name can be stopped through: the one pending under it and its running plugin's watcher. */
  function FlagsOf(m: Manager, name: Name): set<Flag> {
    (if name in m.pending then {m.pending[name]} else {})
    + (if name in m.registry && m.registry[name].Some? then {m.registry[name].value} else {})
  }

  /** The registry and the pending flags are the same for every other name. */
  ghost predicate OthersSame(m: Manager, m': Manager, name: Name) {
    && (forall n :: n != name ==> (n in m'.registry <==> n in m.registry) && (n in m'.pending <==> n in m.pending))
    && (forall n :: n != name && n in m.registry ==> m'.registry[n] == m.registry[n])
    && (forall n :: n != name && n in m.pending ==> m'.pending[n] == m.pending[n])
  }

  /**
   An install registers exactly when the manager is not stopping, its flag is not raised and the name is free. It then
   runs under the name, which has nothing pending any more; refused, it stops the watcher it armed and changes nothing
   else.
   */
  lemma RegisterDoes(m: Manager, name: Name, own: Option<Flag>, watch: Option<Flag>)
    ensures var (m', refusal) := Register(m, name, own, watch);
            && (refusal.None? <==> !m.stopping && !(own.Some? && own.value in m.raised) && name !in m.registry)
            && m'.stopping == m.stopping && OthersSame(m, m', name)
            && (refusal.None? ==>
                  && name in m'.registry && m'.registry[name] == watch && name !in m'.pending
                  && m'.raised == m.raised + FlagsOf(m, name))
            && (refusal.Some? ==>
                  && m'.registry == m.registry && m'.pending == m.pending
                  && m'.raised == m.raised + (if watch.Some? then {watch.value} else {}))
  {
  }

  /** A kill leaves nothing under the name, running or pending, and raises just the flags it had. */
  lemma KillDoes(m: Manager, name: Name)
    ensures var (m', found) := Kill(m, name);
            && (found <==> name in m.registry || name in m.pending)
            && name !in m'.registry && name !in m'.pending && OthersSame(m, m', name)
            && m'.raised == m.raised + FlagsOf(m, name) && m'.stopping == m.stopping
  {
  }

  /** A reload starts exactly on a running plugin; it takes its place with its own flag, and stops what was there. */
  lemma ReloadDoes(m: Manager, name: Name, flag: Flag)
    ensures BeginReload(m, name, flag).Some? <==> name in m.registry
    ensures name in m.registry ==>
              var m' := BeginReload(m, name, flag).value;
              && name !in m'.registry && name in m'.pending && m'.pending[name] == flag && OthersSame(m, m', name)
              && m'.raised == m.raised + FlagsOf(m, name) && m'.stopping == m.stopping
  {
  }

  /** A failed reload that still has its place hands it to its new watcher or gives it up; else it stops the watcher. */
  lemma SettleDoes(m: Manager, name: Name, own: Flag, watch: Option<Flag>)
    ensures var m' := Settle(m, name, own, watch);
            var ours := name in m.pending && m.pending[name] == own;
            && m'.registry == m.registry && m'.stopping == m.stopping && OthersSame(m, m', name)
            && (ours && watch.Some? ==> name in m'.pending && m'.pending[name] == watch.value && m'.raised == m.raised)
            && (ours && watch.None? ==> name !in m'.pending && m'.raised == m.raised)
            && (!ours ==> m'.pending == m.pending && m'.raised == m.raised + if watch.Some? then {watch.value} else {})
  {
  }

  /** Shutdown empties the registry and stops the watchers of all that ran. */
  lemma ShutdownDoes(m: Manager, f: Flag)
    ensures var m' := Shutdown(m);
            && m'.stopping && m'.registry == map[] && m'.pending == m.pending
            && (f in m'.raised <==> f in m.raised || exists n :: n in m.registry && m.registry[n] == Some(f))
  {
    if n :| n in m.registry && m.registry[n] == Some(f) {
      assert f in Watchers(m.registry);
    }
  }

  /** Left alone, a reload brings its plugin back: between its two sections only a kill, shutdown or rival stops it. */
  lemma UndisturbedReloadRegisters(m: Manager, name: Name, flag: Flag, watch: Option<Flag>)
    requires name in m.registry && !m.stopping && flag !in m.raised
    requires flag !in FlagsOf(m, name)
    ensures var (m', refusal) := Register(BeginReload(m, name, flag).value, name, Some(flag), watch);
            && refusal.None? && name in m'.registry && m'.registry[name] == watch && name !in m'.pending
            && m'.registry.Keys == m.registry.Keys
  {
  }

  class PluginManager {
    var registry: map<Name, Option<Flag>>
    var pending: map<Name, Flag>
    var raised: set<Flag>
    var stopping: bool

    ghost function Value(): Manager
      reads this
    {
      Manager(registry, pending, raised, stopping)
    }

    constructor ()
      ensures Value() == EMPTY.m
    {
      registry, pending, raised, stopping := map[], map[], {}, false;
    }

    method Take(name: Name) returns (found: bool)
      modifies this
      ensures (Value(), found) == TakePending(old(Value()), name)
    {
      found := name in pending;
      if found {
        raised := raised + {pending[name]};
        pending := pending - {name};
      }
    }

    method StopRunning(name: Name) returns (found: bool)
      modifies this
      ensures Value() == Unregister(old(Value()), name) && found == (name in old(registry))
    {
      found := name in registry;
      if found {
        var watch := registry[name];
        registry := registry - {name};
        if watch.Some? {
          raised := raised + {watch.value};
        }
      }
    }

    /** The first critical section of `reload`. */
    method StartReload(name: Name, killed: Flag) returns (found: bool)
      modifies this
      ensures found == (name in old(registry))
      ensures if found then BeginReload(old(Value()), name, killed) == Some(Value()) else Value() == old(Value())
    {
      found := StopRunning(name);
      if found {
        var previous := pending;
        pending := pending[name := killed];
        if name in previous {
          raised := raised + {previous[name]};
        }
      }
    }

    /** The registration section of `install_unless`. */
    method RegisterPlugin(name: Name, killed: Option<Flag>, watch: Option<Flag>) returns (refusal: Option<Refusal>)
      modifies this
      ensures (Value(), refusal) == Register(old(Value()), name, killed, watch)
    {
      refusal := None;
      if stopping {
        refusal := Some(ShuttingDown);
      } else if killed.Some? && killed.value in raised {
        refusal := Some(NotFound);
      } else if name in registry {
        refusal := Some(NameConflict);
      }
      if refusal.Some? {
        if watch.Some? {
          raised := raised + {watch.value};
        }
        return;
      }
      var _ := Take(name);
      registry := registry[name := watch];
    }

    /** The last section of a failed `reload`. */
    method SettleReload(name: Name, killed: Flag, watcher: Option<Flag>)
      modifies this
      ensures Value() == Settle(old(Value()), name, killed, watcher)
    {
      var stillOurs := name in pending && pending[name] == killed;
      match watcher
      case Some(cancel) =>
        if stillOurs {
          pending := pending[name := cancel];
        } else {
          raised := raised + {cancel};
        }
      case None =>
        if stillOurs {
          pending := pending - {name};
        }
    }

    method KillPlugin(name: Name) returns (found: bool)
      modifies this
      ensures (Value(), found) == Kill(old(Value()), name)
    {
      var wasPending := Take(name);
      var wasRunning := StopRunning(name);
      found := wasPending || wasRunning;
    }

    method ShutDown()
      modifies this
      ensures Value() == Shutdown(old(Value()))
    {
      stopping := true;
      var before, left := registry, registry.Keys;
      while left != {}
        invariant left <= before.Keys
        invariant Value() == old(Value()).(stopping := true, registry := registry, raised := raised)
        invariant raised == old(raised) + (set n | n in before && n !in left && before[n].Some? :: before[n].value)
        invariant registry == map n | n in left :: before[n]
        decreases |left|
      {
        var name :| name in left;
        var _ := StopRunning(name);
        left := left - {name};
      }
    }
  }
}
