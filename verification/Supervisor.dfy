/**
 The takeover supervisor: from stopping the OEM camera service to restoring it. Children may die at any time, every
 query may answer anything, and a shutdown signal may arrive at every checkpoint: in every wait outside the start
 functions, after every query, and before and after every status. `log` records what a run did; SafeLog is what
 every run obeys.
 */
module Supervisor {
  import opened Bytes

  type Pid = nat

  datatype Role = Daemon | Provider | Proxy

  datatype Fault = V4l2 | DaemonDown | ProxyDown

  datatype Status =
    | StopFailed | UnregisterFailed | DaemonStartFailed | ProviderStartFailed | ProxyStartFailed
    | Ready | ProviderLost | Restarting(what: Fault) | SafeMode(what: Fault) | Stopping

  datatype Tick = Good | Lost | Failed(what: Fault)

  /** What a monitor tick asks the system. */
  datatype Probe = Alive(role: Role) | Registered | DeviceThere

  const ALL_PROBES: set<Probe> := {Alive(Provider), Registered, DeviceThere, Alive(Daemon), Alive(Proxy)}

  function FaultProbe(what: Fault): Probe
  {
    match what
    case V4l2 => DeviceThere
    case DaemonDown => Alive(Daemon)
    case ProxyDown => Alive(Proxy)
  }

  datatype Event =
    | CtlStop | StopConfirmed | InterfaceGone | CtlStart
    | Spawned(role: Role, pid: Pid) | Started(role: Role, pid: Pid) | Died(pids: set<Pid>)
    | Checkpoint(recorded: set<Pid>)
    | TickStarted | Probed(what: Probe, child: Option<Pid>, ok: bool) | TickEnded
    | Reported(status: Status)
    // What the system answered, and what was done to a child.
    | AnsweredStop(stopped: bool) | Awaiting | AnsweredInterface(registered: bool)
    | AnsweredRegistration(server: Option<Pid>) | AnsweredRestore(verified: bool)
    | Outlived(pid: Pid, alive: bool) | Terminated(pid: Pid) | Slept | Killed(pid: Pid)

  // ----- Runs, told by their events

  /** What init answered about the OEM service, and at the end about the restored one. */
  datatype OemNotes = OemNotes(stopped: Option<bool>, refusals: nat, sawStopped: bool, verified: Option<bool>)

  /** What was answered about the interface, since the last wait for it or the last start. */
  datatype WaitNotes = WaitNotes(registered: Option<bool>, asks: nat, sawGone: bool)

  /**
   The last child of each role, those that outlived their start, who was said to serve the interface, and the roles
   started again in the current tick.
   */
  datatype LaunchNotes = LaunchNotes(
    spawned: map<Role, Pid>, outlived: set<Pid>, server: Option<Option<Pid>>, respawned: set<Role>)

  /** The children told to end, in order, and the seconds given to the last. */
  datatype ReapNotes = ReapNotes(terms: seq<Pid>, naps: nat)

  datatype Notes = Notes(oem: OemNotes, wait: WaitNotes, launch: LaunchNotes, reap: ReapNotes)

  const BLANK: Notes :=
    Notes(OemNotes(None, 0, false, None), WaitNotes(None, 0, false), LaunchNotes(map[], {}, None, {}),
          ReapNotes([], 0))

  function NotesAfter(n: Notes, e: Event): Notes
  {
    Notes(OemAfter(n.oem, e), WaitAfter(n.wait, e), LaunchAfter(n.launch, e), ReapAfter(n.reap, e))
  }

  function OemAfter(o: OemNotes, e: Event): OemNotes
  {
    match e
    case AnsweredStop(stopped) =>
      OemNotes(Some(stopped), o.refusals + (if stopped then 0 else 1), o.sawStopped || stopped, o.verified)
    case AnsweredRestore(verified) => o.(verified := Some(verified))
    case _ => o
  }

  function WaitAfter(w: WaitNotes, e: Event): WaitNotes
  {
    match e
    case Awaiting => WaitNotes(None, 0, false)
    case Spawned(_, _) => WaitNotes(None, 0, false)
    case AnsweredInterface(registered) => WaitNotes(Some(registered), w.asks + 1, w.sawGone || !registered)
    case _ => w
  }

  function LaunchAfter(l: LaunchNotes, e: Event): LaunchNotes
  {
    match e
    case Spawned(role, pid) => LaunchNotes(l.spawned[role := pid], l.outlived, None, l.respawned + {role})
    case TickStarted => l.(respawned := {})
    case Outlived(pid, alive) => if alive then l.(outlived := l.outlived + {pid}) else l
    case AnsweredRegistration(server) => l.(server := Some(server))
    case _ => l
  }

  function ReapAfter(n: ReapNotes, e: Event): ReapNotes
  {
    match e
    case Terminated(pid) => ReapNotes(n.terms + [pid], 0)
    case Slept => n.(naps := n.naps + 1)
    case _ => n
  }

  function Present(pid: Option<Pid>): seq<Pid>
  {
    if pid.Some? then [pid.value] else []
  }

  /** The last start in this role was not successful, and why. */
  predicate StartRefused(l: LaunchNotes, role: Role)
  {
    && role in l.spawned
    && (l.spawned[role] !in l.outlived
        || (role == Provider && l.server.Some? && l.server.value != Some(l.spawned[role])))
  }

  /** What the events so far have established; `passed` and `refused` are the answers in the current tick. */
  datatype Summary = Summary(
    live: set<Pid>, stopping: bool, confirmed: bool, gone: bool, started: map<Role, Pid>, restored: bool,
    watching: bool, inTick: bool, passed: set<Probe>, refused: set<Probe>, notes: Notes)

  const FRESH: Summary := Summary({}, false, false, false, map[], false, false, false, {}, {}, BLANK)

  function After(s: Summary, e: Event): Summary
  {
    Summary(
      LiveAfter(s.live, e), s.stopping || e.CtlStop?, s.confirmed || e.StopConfirmed?, s.gone || e.InterfaceGone?,
      if e.Started? then s.started[e.role := e.pid] else s.started,
      s.restored || e.CtlStart?, s.watching || e.TickStarted?, e.TickStarted? || (s.inTick && !e.TickEnded?),
      AnswersAfter(s.passed, e, true), AnswersAfter(s.refused, e, false), NotesAfter(s.notes, e))
  }

  function AnswersAfter(answers: set<Probe>, e: Event, ok: bool): set<Probe>
  {
    if e.TickStarted? then {} else if e.Probed? && e.ok == ok then answers + {e.what} else answers
  }

  function LiveAfter(live: set<Pid>, e: Event): set<Pid>
  {
    if e.Spawned? then live + {e.pid} else if e.Died? then live - e.pids else live
  }

  predicate Starts(e: Event, role: Role)
  {
    e.Started? && e.role == role
  }

  /** When an event may happen. */
  predicate Allowed(s: Summary, e: Event)
  {
    match e
    case StopConfirmed => s.stopping && !s.restored && s.notes.oem.stopped == Some(true)
    case InterfaceGone => s.confirmed && s.notes.wait.registered == Some(false)
    case Spawned(role, pid) =>
      s.confirmed && s.gone && !s.restored && pid !in s.live && (role != Daemon ==> Daemon in s.started)
      && (role == Proxy ==> Provider in s.started)
    case Outlived(pid, alive) => alive == (pid in s.live)
    case AnsweredRegistration(_) => s.notes.wait.registered == Some(true) || s.notes.wait.asks > 10
    case Started(role, pid) =>
      && (role != Provider ==> pid in s.live) && pid in s.notes.launch.outlived
      && (role == Provider ==> s.notes.launch.server == Some(Some(pid)))
    case Killed(pid) =>
      && pid in s.live && s.notes.reap.terms != [] && s.notes.reap.terms[|s.notes.reap.terms| - 1] == pid
      && s.notes.reap.naps >= 5
    case CtlStart =>
      s.confirmed && !s.restored && s.live == {} && (s.notes.wait.registered == Some(false) || s.notes.wait.asks > 10)
    case AnsweredRestore(_) => s.restored
    case Checkpoint(recorded) =>
      s.live <= recorded && forall p :: p in recorded ==> exists role :: LastStarted(s, role, p)
    case TickStarted => !s.inTick
    case Probed(what, child, ok) => s.inTick && Truthful(s, what, child, ok)
    case TickEnded => s.inTick && Found(s, Classify(s))
    case Reported(status) => Earned(s, status)
    case _ => true
  }

  predicate LastStarted(s: Summary, role: Role, pid: Pid)
  {
    role in s.started && s.started[role] == pid
  }

  predicate RoleLive(s: Summary, role: Role)
  {
    role in s.started && s.started[role] in s.live
  }

  /** A probe of a role answers whether the child last started in it is live. */
  predicate Truthful(s: Summary, what: Probe, pid: Option<Pid>, ok: bool)
  {
    match what
    case Alive(role) => (pid.Some? ==> LastStarted(s, role, pid.value)) && ok == RoleLive(s, role)
    case Registered => ok == (pid.Some? && LastStarted(s, Provider, pid.value))
    case DeviceThere => true
  }

  /** What a tick was, told by its answers. */
  function Classify(s: Summary): Tick
  {
    if Alive(Provider) in s.refused || Registered in s.refused then Lost
    else if DeviceThere in s.refused then Failed(V4l2)
    else if Alive(Daemon) in s.refused then Failed(DaemonDown)
    else if Alive(Proxy) in s.refused then Failed(ProxyDown)
    else Good
  }

  /** The answers a tick of each kind must have. */
  predicate Found(s: Summary, tick: Tick)
  {
    && s.notes.launch.respawned == Respawns(tick)
    && match tick
       case Good => s.passed == ALL_PROBES && s.refused == {}
       case Lost => s.refused == {Alive(Provider)} || (s.passed == {Alive(Provider)} && s.refused == {Registered})
       case Failed(what) => Alive(Provider) in s.passed && Registered in s.passed && s.refused == {FaultProbe(what)}
  }

  /** A tick starts again exactly the child it found dead. */
  function Respawns(tick: Tick): set<Role>
  {
    match tick
    case Failed(DaemonDown) => {Daemon}
    case Failed(ProxyDown) => {Proxy}
    case _ => {}
  }

  lemma FoundDecides(s: Summary, tick: Tick)
    requires Found(s, tick)
    ensures Classify(s) == tick
  {
    match tick
    case Failed(what) => match what { case V4l2 => case DaemonDown => case ProxyDown => }
    case _ =>
  }

  /** When a status may be written. */
  predicate Earned(s: Summary, status: Status)
  {
    match status
    case Ready =>
      && Daemon in s.started && Provider in s.started && Proxy in s.started && !s.restored
      && (s.watching ==> s.passed == ALL_PROBES)
    case ProviderLost => s.watching && (Alive(Provider) in s.refused || Registered in s.refused)
    case Restarting(what) => s.watching && FaultProbe(what) in s.refused
    case SafeMode(what) => s.watching && FaultProbe(what) in s.refused
    case StopFailed =>
      && s.stopping && !s.confirmed && s.notes.oem.stopped == Some(false)
      && (s.notes.oem.sawStopped || s.notes.oem.refusals > 20)
    case UnregisterFailed =>
      && s.confirmed && !s.gone && s.notes.wait.registered == Some(true)
      && (s.notes.wait.sawGone || s.notes.wait.asks > 20)
    case DaemonStartFailed => s.gone && Daemon !in s.started && StartRefused(s.notes.launch, Daemon)
    case ProviderStartFailed => Daemon in s.started && Provider !in s.started && StartRefused(s.notes.launch, Provider)
    case ProxyStartFailed => Provider in s.started && Proxy !in s.started && StartRefused(s.notes.launch, Proxy)
    case Stopping => true
  }

  function Summarize(log: seq<Event>): Summary
  {
    if log == [] then FRESH else After(Summarize(log[..|log| - 1]), log[|log| - 1])
  }

  predicate SafeLog(log: seq<Event>)
  {
    log == [] || (SafeLog(log[..|log| - 1]) && Allowed(Summarize(log[..|log| - 1]), log[|log| - 1]))
  }

  /** The statuses a log writes. */
  function StatusesOf(log: seq<Event>): seq<Status>
  {
    if log == [] then []
    else
      var before, e := StatusesOf(log[..|log| - 1]), log[|log| - 1];
      if e.Reported? then before + [e.status] else before
  }

  /** The ticks a log completes, each classified by its own answers. */
  function TicksOf(log: seq<Event>): seq<Tick>
  {
    if log == [] then []
    else
      var front, e := log[..|log| - 1], log[|log| - 1];
      if e.TickEnded? then TicksOf(front) + [Classify(Summarize(front))] else TicksOf(front)
  }

  lemma Appended(log: seq<Event>, e: Event)
    ensures Summarize(log + [e]) == After(Summarize(log), e)
    ensures SafeLog(log + [e]) == (SafeLog(log) && Allowed(Summarize(log), e))
  {
    assert (log + [e])[..|log|] == log;
  }

  lemma AppendedTold(log: seq<Event>, e: Event)
    ensures StatusesOf(log + [e]) == if e.Reported? then StatusesOf(log) + [e.status] else StatusesOf(log)
    ensures TicksOf(log + [e]) == if e.TickEnded? then TicksOf(log) + [Classify(Summarize(log))] else TicksOf(log)
  {
    assert (log + [e])[..|log|] == log;
  }

  lemma EmptySummary()
    ensures Summarize([]) == FRESH && SafeLog([]) && StatusesOf([]) == [] && TicksOf([]) == []
  {
  }

  // ----- The events, one at a time

  lemma DiedMeans(s: Summary, pids: set<Pid>)
    ensures After(s, Died(pids)) == s.(live := s.live - pids)
    ensures Allowed(s, Died(pids))
  {
  }

  lemma SpawnedMeans(s: Summary, role: Role, pid: Pid)
    ensures After(s, Spawned(role, pid))
            == s.(live := s.live + {pid}, notes := s.notes.(
                    wait := WaitNotes(None, 0, false),
                    launch := LaunchAfter(s.notes.launch, Spawned(role, pid))))
  {
  }

  lemma StartedMeans(s: Summary, role: Role, pid: Pid)
    ensures After(s, Started(role, pid)) == s.(started := s.started[role := pid])
  {
  }

  lemma CheckpointMeans(s: Summary, recorded: set<Pid>)
    ensures After(s, Checkpoint(recorded)) == s
  {
  }

  lemma TickStartedMeans(s: Summary)
    ensures After(s, TickStarted)
            == s.(watching := true, inTick := true, passed := {}, refused := {}, notes := s.notes.(
                    launch := s.notes.launch.(respawned := {})))
  {
  }

  lemma ProbedMeans(s: Summary, what: Probe, child: Option<Pid>, ok: bool)
    ensures After(s, Probed(what, child, ok))
            == s.(passed := s.passed + (if ok then {what} else {}), refused := s.refused + (if ok then {} else {what}))
  {
  }

  lemma AnsweredStopMeans(s: Summary, stopped: bool)
    ensures After(s, AnsweredStop(stopped))
            == s.(notes := s.notes.(oem := OemAfter(s.notes.oem, AnsweredStop(stopped))))
    ensures Allowed(s, AnsweredStop(stopped))
  {
  }

  lemma AwaitingMeans(s: Summary)
    ensures After(s, Awaiting) == s.(notes := s.notes.(wait := WaitNotes(None, 0, false)))
    ensures Allowed(s, Awaiting)
  {
  }

  lemma AnsweredInterfaceMeans(s: Summary, registered: bool)
    ensures After(s, AnsweredInterface(registered))
            == s.(notes := s.notes.(wait := WaitAfter(s.notes.wait, AnsweredInterface(registered))))
    ensures Allowed(s, AnsweredInterface(registered))
  {
  }

  lemma AnsweredRegistrationMeans(s: Summary, server: Option<Pid>)
    ensures After(s, AnsweredRegistration(server))
            == s.(notes := s.notes.(launch := s.notes.launch.(server := Some(server))))
  {
  }

  lemma AnsweredRestoreMeans(s: Summary, verified: bool)
    ensures After(s, AnsweredRestore(verified))
            == s.(notes := s.notes.(oem := s.notes.oem.(verified := Some(verified))))
  {
  }

  lemma OutlivedMeans(s: Summary, pid: Pid, alive: bool)
    ensures After(s, Outlived(pid, alive))
            == s.(notes := s.notes.(launch := LaunchAfter(s.notes.launch, Outlived(pid, alive))))
  {
  }

  lemma TerminatedMeans(s: Summary, pid: Pid)
    ensures After(s, Terminated(pid)) == s.(notes := s.notes.(reap := ReapNotes(s.notes.reap.terms + [pid], 0)))
    ensures Allowed(s, Terminated(pid))
  {
  }

  lemma SleptMeans(s: Summary)
    ensures After(s, Slept) == s.(notes := s.notes.(reap := s.notes.reap.(naps := s.notes.reap.naps + 1)))
    ensures Allowed(s, Slept)
  {
  }

  lemma KilledMeans(s: Summary, pid: Pid)
    ensures After(s, Killed(pid)) == s
  {
  }

  lemma CtlStopMeans(s: Summary)
    ensures After(s, CtlStop) == s.(stopping := true)
    ensures Allowed(s, CtlStop)
  {
  }

  lemma StopConfirmedMeans(s: Summary)
    ensures After(s, StopConfirmed) == s.(confirmed := true)
  {
  }

  lemma InterfaceGoneMeans(s: Summary)
    ensures After(s, InterfaceGone) == s.(gone := true)
  {
  }

  lemma CtlStartMeans(s: Summary)
    ensures After(s, CtlStart) == s.(restored := true)
  {
  }

  // ----- What a safe log means, event by event

  lemma {:induction false} EveryEventAllowed(log: seq<Event>, i: nat)
    requires SafeLog(log) && i < |log|
    ensures SafeLog(log[..i]) && Allowed(Summarize(log[..i]), log[i])
    decreases |log|
  {
    hide Allowed, Summarize;
    if i == |log| - 1 {
    } else {
      var front := log[..|log| - 1];
      EveryEventAllowed(front, i);
      assert front[..i] == log[..i];
    }
  }

  /** A child is live after some events iff it was spawned by one of them and no later one reports its death. */
  ghost predicate LiveAt(log: seq<Event>, pid: Pid)
  {
    exists i :: 0 <= i < |log| && SpawnsAt(log, i, pid) && !DiesAfter(log, i, pid)
  }

  predicate SpawnsAt(log: seq<Event>, i: nat, pid: Pid)
    requires i < |log|
  {
    log[i].Spawned? && log[i].pid == pid
  }

  predicate DiesAt(log: seq<Event>, j: nat, pid: Pid)
    requires j < |log|
  {
    log[j].Died? && pid in log[j].pids
  }

  predicate DiesAfter(log: seq<Event>, i: nat, pid: Pid)
  {
    exists j :: i < j < |log| && DiesAt(log, j, pid)
  }

  lemma DeathsAppend(front: seq<Event>, e: Event, i: nat, pid: Pid)
    requires i < |front|
    ensures DiesAfter(front + [e], i, pid) == (DiesAfter(front, i, pid) || DiesAt([e], 0, pid))
  {
    var log := front + [e];
    if DiesAfter(front, i, pid) {
      var j :| i < j < |front| && DiesAt(front, j, pid);
      assert DiesAt(log, j, pid);
    }
    if DiesAt([e], 0, pid) {
      assert DiesAt(log, |front|, pid);
    }
    if DiesAfter(log, i, pid) {
      var j :| i < j < |log| && DiesAt(log, j, pid);
      if j < |front| {
        assert DiesAt(front, j, pid);
      }
    }
  }

  lemma LiveAppend(front: seq<Event>, e: Event, pid: Pid)
    ensures LiveAt(front + [e], pid) <==> SpawnsAt([e], 0, pid) || (LiveAt(front, pid) && !DiesAt([e], 0, pid))
  {
    hide DiesAfter;
    var log := front + [e];
    if LiveAt(front, pid) && !DiesAt([e], 0, pid) {
      var i :| 0 <= i < |front| && SpawnsAt(front, i, pid) && !DiesAfter(front, i, pid);
      DeathsAppend(front, e, i, pid);
      assert SpawnsAt(log, i, pid);
    }
    if SpawnsAt([e], 0, pid) {
      assert SpawnsAt(log, |front|, pid);
      NoLaterDeath(log, pid);
    }
    if LiveAt(log, pid) {
      var i :| 0 <= i < |log| && SpawnsAt(log, i, pid) && !DiesAfter(log, i, pid);
      if i < |front| {
        DeathsAppend(front, e, i, pid);
        assert SpawnsAt(front, i, pid);
      }
    }
  }

  lemma NoLaterDeath(log: seq<Event>, pid: Pid)
    requires log != []
    ensures !DiesAfter(log, |log| - 1, pid)
  {
  }

  lemma {:induction false} LiveMeansSpawnedAndNotDead(log: seq<Event>, pid: Pid)
    ensures pid in Summarize(log).live <==> LiveAt(log, pid)
    decreases |log|
  {
    hide LiveAt, Summarize;
    EmptySummary();
    if log == [] {
      NothingLive(pid);
    } else {
      var front, e := log[..|log| - 1], log[|log| - 1];
      assert log == front + [e];
      Appended(front, e);
      LiveMeansSpawnedAndNotDead(front, pid);
      LiveAppend(front, e, pid);
    }
  }

  lemma NothingLive(pid: Pid)
    ensures !LiveAt([], pid)
  {
  }

  ghost predicate StartedIn(log: seq<Event>, role: Role)
  {
    exists p :: Started(role, p) in log
  }

  lemma StartedAppend(front: seq<Event>, e: Event, role: Role)
    ensures StartedIn(front + [e], role) <==> StartedIn(front, role) || Starts(e, role)
  {
    var log := front + [e];
    if StartedIn(front, role) {
      var p :| Started(role, p) in front;
      assert Started(role, p) in log;
    }
    if Starts(e, role) {
      assert log[|front|] == Started(role, e.pid);
      assert Started(role, e.pid) in log;
    }
    if StartedIn(log, role) {
      var p :| Started(role, p) in log;
      assert Started(role, p) in front || Started(role, p) == e;
    }
  }

  lemma {:induction false} StartsComeFromEvents(log: seq<Event>)
    ensures Daemon in Summarize(log).started <==> StartedIn(log, Daemon)
    ensures Provider in Summarize(log).started <==> StartedIn(log, Provider)
    ensures Proxy in Summarize(log).started <==> StartedIn(log, Proxy)
    decreases |log|
  {
    hide StartedIn, Summarize, LiveAfter, AnswersAfter;
    EmptySummary();
    if log == [] {
      NothingStarted();
    } else {
      var front, e := log[..|log| - 1], log[|log| - 1];
      assert log == front + [e];
      Appended(front, e);
      StartsComeFromEvents(front);
      StartedAppend(front, e, Daemon);
      StartedAppend(front, e, Provider);
      StartedAppend(front, e, Proxy);
    }
  }

  lemma NothingStarted()
    ensures forall role :: !StartedIn([], role)
  {
  }

  lemma {:induction false} FlagsComeFromEvents(log: seq<Event>)
    ensures Summarize(log).confirmed <==> StopConfirmed in log
    ensures Summarize(log).restored <==> CtlStart in log
    ensures Summarize(log).gone <==> InterfaceGone in log
    ensures Summarize(log).stopping <==> CtlStop in log
    ensures Summarize(log).watching <==> TickStarted in log
    decreases |log|
  {
    hide Summarize, LiveAfter, AnswersAfter;
    EmptySummary();
    if log == [] {
    } else {
      var front, e := log[..|log| - 1], log[|log| - 1];
      assert log == front + [e];
      assert forall x :: x in log <==> x in front || x == e;
      Appended(front, e);
      FlagsComeFromEvents(front);
    }
  }

  /** A takeover that fails says at which stage it failed, and only then. */
  lemma FailuresAreNamed(log: seq<Event>, i: nat)
    requires SafeLog(log) && i < |log| && log[i].Reported?
    ensures log[i].status == StopFailed ==> CtlStop in log[..i] && StopConfirmed !in log[..i]
    ensures log[i].status == UnregisterFailed ==> StopConfirmed in log[..i] && InterfaceGone !in log[..i]
    ensures log[i].status == DaemonStartFailed ==> InterfaceGone in log[..i] && !StartedIn(log[..i], Daemon)
    ensures log[i].status == ProviderStartFailed ==> StartedIn(log[..i], Daemon) && !StartedIn(log[..i], Provider)
    ensures log[i].status == ProxyStartFailed ==> StartedIn(log[..i], Provider) && !StartedIn(log[..i], Proxy)
  {
    hide StartedIn, Summarize;
    EveryEventAllowed(log, i);
    FlagsComeFromEvents(log[..i]);
    StartsComeFromEvents(log[..i]);
  }

  /** The restore happens once, only after the stop was confirmed, and with every child dead. */
  lemma RestoreIsSafe(log: seq<Event>, i: nat)
    requires SafeLog(log) && i < |log| && log[i] == CtlStart
    ensures StopConfirmed in log[..i] && CtlStart !in log[..i]
    ensures forall pid :: !LiveAt(log[..i], pid)
  {
    EveryEventAllowed(log, i);
    FlagsComeFromEvents(log[..i]);
    forall pid: Pid ensures !LiveAt(log[..i], pid) {
      LiveMeansSpawnedAndNotDead(log[..i], pid);
    }
  }

  /** Nothing is started before the OEM interface is gone or after the restore; the daemon comes first. */
  lemma StartsAreOrdered(log: seq<Event>, i: nat)
    requires SafeLog(log) && i < |log| && log[i].Spawned?
    ensures StopConfirmed in log[..i] && InterfaceGone in log[..i] && CtlStart !in log[..i]
    ensures log[i].role != Daemon ==> StartedIn(log[..i], Daemon)
    ensures log[i].role == Proxy ==> StartedIn(log[..i], Provider)
  {
    hide StartedIn;
    EveryEventAllowed(log, i);
    FlagsComeFromEvents(log[..i]);
    StartsComeFromEvents(log[..i]);
  }

  /** A daemon or proxy counts as started only when it outlived its start-up wait. */
  lemma StartedOutlivedItsWait(log: seq<Event>, i: nat)
    requires SafeLog(log) && i < |log| && log[i].Started? && log[i].role != Provider
    ensures LiveAt(log[..i], log[i].pid)
  {
    hide LiveAt, Summarize;
    EveryEventAllowed(log, i);
    LiveMeansSpawnedAndNotDead(log[..i], log[i].pid);
  }

  /** The number of events before the current tick. */
  function TickStart(log: seq<Event>): (n: nat)
    ensures n <= |log|
  {
    if log == [] then 0
    else if log[|log| - 1].TickStarted? then |log|
    else TickStart(log[..|log| - 1])
  }

  predicate AnswersAt(log: seq<Event>, k: nat, what: Probe, ok: bool)
    requires k < |log|
  {
    log[k].Probed? && log[k].what == what && log[k].ok == ok
  }

  /** The current tick has asked this and been answered so. */
  ghost predicate Answered(log: seq<Event>, what: Probe, ok: bool)
  {
    exists k :: TickStart(log) <= k < |log| && AnswersAt(log, k, what, ok)
  }

  lemma AnsweredAppend(front: seq<Event>, e: Event, what: Probe, ok: bool)
    ensures Answered(front + [e], what, ok)
       <==> !e.TickStarted? && (Answered(front, what, ok) || (e.Probed? && e.what == what && e.ok == ok))
  {
    var log := front + [e];
    assert log[..|front|] == front;
    if !e.TickStarted? {
      assert TickStart(log) == TickStart(front);
      if Answered(front, what, ok) {
        var k :| TickStart(front) <= k < |front| && AnswersAt(front, k, what, ok);
        assert AnswersAt(log, k, what, ok);
      }
      if e.Probed? && e.what == what && e.ok == ok {
        assert AnswersAt(log, |front|, what, ok);
      }
      if Answered(log, what, ok) {
        var k :| TickStart(log) <= k < |log| && AnswersAt(log, k, what, ok);
        if k < |front| {
          assert AnswersAt(front, k, what, ok);
        }
      }
    }
  }

  /** The answers a summary holds are those of the current tick. */
  lemma {:induction false} AnswersComeFromEvents(log: seq<Event>, what: Probe)
    ensures what in Summarize(log).passed <==> Answered(log, what, true)
    ensures what in Summarize(log).refused <==> Answered(log, what, false)
    decreases |log|
  {
    hide Answered, Summarize, LiveAfter;
    EmptySummary();
    if log == [] {
      NothingAnswered(what);
    } else {
      var front, e := log[..|log| - 1], log[|log| - 1];
      assert log == front + [e];
      Appended(front, e);
      AnswersComeFromEvents(front, what);
      AnsweredAppend(front, e, what, true);
      AnsweredAppend(front, e, what, false);
    }
  }

  lemma NothingAnswered(what: Probe)
    ensures !Answered([], what, true) && !Answered([], what, false)
  {
  }

  /**
   READY is only ever written with all three children started and the OEM service not yet restored, and by a tick
   only after that tick has found all of them live, the registration ours and the device there.
   */
  lemma ReadyIsEarned(log: seq<Event>, i: nat)
    requires SafeLog(log) && i < |log| && log[i] == Reported(Ready)
    ensures CtlStart !in log[..i]
    ensures StartedIn(log[..i], Daemon) && StartedIn(log[..i], Provider) && StartedIn(log[..i], Proxy)
    ensures TickStarted in log[..i] ==> forall what :: Answered(log[..i], what, true)
  {
    hide StartedIn, Answered;
    EveryEventAllowed(log, i);
    FlagsComeFromEvents(log[..i]);
    StartsComeFromEvents(log[..i]);
    if TickStarted in log[..i] {
      forall what: Probe ensures Answered(log[..i], what, true) {
        AnswersComeFromEvents(log[..i], what);
        EveryProbe(what);
      }
    }
  }

  lemma EveryProbe(what: Probe)
    ensures what in ALL_PROBES
  {
    match what
    case Alive(role) => assert role == Daemon || role == Provider || role == Proxy;
    case _ =>
  }

  /** No later event starts another child in that role. */
  ghost predicate LatestStart(log: seq<Event>, role: Role, pid: Pid)
  {
    exists k :: 0 <= k < |log| && StartsAt(log, k, role, pid)
                && forall j :: k < j < |log| ==> !Starts(log[j], role)
  }

  predicate StartsAt(log: seq<Event>, k: nat, role: Role, pid: Pid)
    requires k < |log|
  {
    log[k] == Started(role, pid)
  }

  lemma LatestAppend(front: seq<Event>, e: Event, role: Role, pid: Pid)
    ensures LatestStart(front + [e], role, pid)
       <==> e == Started(role, pid) || (LatestStart(front, role, pid) && !Starts(e, role))
  {
    var log := front + [e];
    if e == Started(role, pid) {
      assert StartsAt(log, |front|, role, pid);
    } else if LatestStart(front, role, pid) && !Starts(e, role) {
      var k :| 0 <= k < |front| && StartsAt(front, k, role, pid)
               && forall j :: k < j < |front| ==> !Starts(front[j], role);
      assert StartsAt(log, k, role, pid);
    }
    if LatestStart(log, role, pid) {
      var k :| 0 <= k < |log| && StartsAt(log, k, role, pid) && forall j :: k < j < |log| ==> !Starts(log[j], role);
      if k < |front| {
        assert !Starts(log[|front|], role);
        assert StartsAt(front, k, role, pid);
        assert forall j :: k < j < |front| ==> front[j] == log[j];
      }
    }
  }

  /** The child held for a role is that of the role's latest successful start. */
  lemma {:induction false} StartedIsLatest(log: seq<Event>, role: Role, pid: Pid)
    ensures LastStarted(Summarize(log), role, pid) <==> LatestStart(log, role, pid)
    decreases |log|
  {
    hide Summarize, LatestStart, LiveAfter, AnswersAfter;
    EmptySummary();
    if log == [] {
      NothingLatest(role, pid);
    } else {
      var front, e := log[..|log| - 1], log[|log| - 1];
      assert log == front + [e];
      Appended(front, e);
      LatestAppend(front, e, role, pid);
      StartedIsLatest(front, role, pid);
    }
  }

  lemma NothingLatest(role: Role, pid: Pid)
    ensures !LatestStart([], role, pid)
  {
  }

  /** The child last started in a role was spawned and has not died. */
  ghost predicate RoleUp(log: seq<Event>, role: Role)
  {
    exists pid :: LatestStart(log, role, pid) && LiveAt(log, pid)
  }

  lemma RoleLiveIsUp(log: seq<Event>, role: Role)
    ensures RoleLive(Summarize(log), role) <==> RoleUp(log, role)
  {
    hide LiveAt, LatestStart, Summarize;
    var s := Summarize(log);
    if RoleLive(s, role) {
      StartedIsLatest(log, role, s.started[role]);
      LiveMeansSpawnedAndNotDead(log, s.started[role]);
    }
    if RoleUp(log, role) {
      var pid :| LatestStart(log, role, pid) && LiveAt(log, pid);
      StartedIsLatest(log, role, pid);
      LiveMeansSpawnedAndNotDead(log, pid);
    }
  }

  /**
   At every checkpoint each live child is the one last started in some role, and so one of at most three; nothing
   else is recorded.
   */
  lemma NoOrphanAtCheckpoints(log: seq<Event>, i: nat, pid: Pid)
    requires SafeLog(log) && i < |log| && log[i].Checkpoint?
    ensures LiveAt(log[..i], pid) ==> pid in log[i].recorded
    ensures pid in log[i].recorded ==> exists role :: LatestStart(log[..i], role, pid)
  {
    hide LiveAt, LatestStart, Summarize;
    EveryEventAllowed(log, i);
    LiveMeansSpawnedAndNotDead(log[..i], pid);
    if pid in log[i].recorded {
      var role :| LastStarted(Summarize(log[..i]), role, pid);
      StartedIsLatest(log[..i], role, pid);
    }
  }

  /** A probe finds a role alive iff it is: the child last started in it was spawned and has not died. */
  lemma ProbesAreTruthful(log: seq<Event>, i: nat)
    requires SafeLog(log) && i < |log| && log[i].Probed? && log[i].what.Alive?
    ensures log[i].ok <==> RoleUp(log[..i], log[i].what.role)
    ensures log[i].child.Some? ==> LatestStart(log[..i], log[i].what.role, log[i].child.value)
  {
    hide RoleUp, LatestStart, Summarize, RoleLive;
    EveryEventAllowed(log, i);
    RoleLiveIsUp(log[..i], log[i].what.role);
    if log[i].child.Some? {
      StartedIsLatest(log[..i], log[i].what.role, log[i].child.value);
    }
  }

  /** At event k of the current tick this was asked and found wrong: a role is found wrong only when it is down. */
  ghost predicate WrongAt(log: seq<Event>, k: nat, what: Probe)
    requires k < |log|
  {
    AnswersAt(log, k, what, false) && (what.Alive? ==> !RoleUp(log[..k], what.role))
  }

  ghost predicate FoundWrong(log: seq<Event>, what: Probe)
  {
    exists k :: TickStart(log) <= k < |log| && WrongAt(log, k, what)
  }

  lemma RefusalsAreTrue(log: seq<Event>, what: Probe)
    requires SafeLog(log) && Answered(log, what, false)
    ensures FoundWrong(log, what)
  {
    hide RoleUp;
    var k :| TickStart(log) <= k < |log| && AnswersAt(log, k, what, false);
    if what.Alive? {
      ProbesAreTruthful(log, k);
    }
    assert WrongAt(log, k, what);
  }

  /** Every loss or fault written was found by a probe of that tick, and a role found down was down. */
  lemma FaultsAreFound(log: seq<Event>, i: nat)
    requires SafeLog(log) && i < |log| && log[i].Reported?
    ensures log[i].status == ProviderLost ==>
              FoundWrong(log[..i], Alive(Provider)) || FoundWrong(log[..i], Registered)
    ensures log[i].status.Restarting? || log[i].status.SafeMode? ==>
              FoundWrong(log[..i], FaultProbe(log[i].status.what))
  {
    hide Answered, Summarize, FoundWrong;
    EveryEventAllowed(log, i);
    var front := log[..i];
    if log[i].status == ProviderLost {
      AnswersComeFromEvents(front, Alive(Provider));
      AnswersComeFromEvents(front, Registered);
      RefusalsAreTrue(front, if Answered(front, Registered, false) then Registered else Alive(Provider));
    } else if log[i].status.Restarting? || log[i].status.SafeMode? {
      var what := FaultProbe(log[i].status.what);
      AnswersComeFromEvents(front, what);
      RefusalsAreTrue(front, what);
    }
  }

  // ----- The answers behind each decision

  /** e happened, and no later event was about the same thing. */
  ghost predicate LatestOf(log: seq<Event>, about: Event -> bool, e: Event)
  {
    exists k :: 0 <= k < |log| && EventAt(log, k, e) && forall j :: k < j < |log| ==> !about(log[j])
  }

  predicate EventAt(log: seq<Event>, k: nat, e: Event)
    requires k < |log|
  {
    log[k] == e
  }

  lemma LatestOfAppend(front: seq<Event>, e: Event, about: Event -> bool, x: Event)
    requires about(x)
    ensures LatestOf(front + [e], about, x) <==> e == x || (!about(e) && LatestOf(front, about, x))
  {
    var log := front + [e];
    if e == x {
      assert EventAt(log, |front|, x);
    } else if !about(e) && LatestOf(front, about, x) {
      var k :| 0 <= k < |front| && EventAt(front, k, x) && forall j :: k < j < |front| ==> !about(front[j]);
      assert EventAt(log, k, x);
    }
    if LatestOf(log, about, x) {
      var k :| 0 <= k < |log| && EventAt(log, k, x) && forall j :: k < j < |log| ==> !about(log[j]);
      if k < |front| {
        assert !about(log[|front|]);
        assert EventAt(front, k, x);
        assert forall j :: k < j < |front| ==> front[j] == log[j];
      }
    }
  }

  lemma NothingIsLatest(about: Event -> bool, x: Event)
    ensures !LatestOf([], about, x)
  {
  }

  ghost function AboutStop(): Event -> bool { (e: Event) => e.AnsweredStop? }

  ghost function AboutInterface(): Event -> bool
  {
    (e: Event) => e.AnsweredInterface? || e.Awaiting? || e.Spawned?
  }

  ghost function AboutServer(): Event -> bool { (e: Event) => e.AnsweredRegistration? || e.Spawned? }

  lemma {:induction false} StopAnswersAreLatest(log: seq<Event>, stopped: bool)
    ensures Summarize(log).notes.oem.stopped == Some(stopped) <==> LatestOf(log, AboutStop(), AnsweredStop(stopped))
    ensures Summarize(log).notes.oem.sawStopped <==> AnsweredStop(true) in log
    ensures Summarize(log).notes.oem.refusals == multiset(log)[AnsweredStop(false)]
    decreases |log|
  {
    hide Summarize, LatestOf;
    EmptySummary();
    if log == [] {
      NothingIsLatest(AboutStop(), AnsweredStop(stopped));
    } else {
      var front, e := log[..|log| - 1], log[|log| - 1];
      assert log == front + [e];
      assert forall x :: x in log <==> x in front || x == e;
      Appended(front, e);
      LatestOfAppend(front, e, AboutStop(), AnsweredStop(stopped));
      StopAnswersAreLatest(front, stopped);
    }
  }

  lemma {:induction false} InterfaceAnswersAreLatest(log: seq<Event>, registered: bool)
    ensures Summarize(log).notes.wait.registered == Some(registered)
       <==> LatestOf(log, AboutInterface(), AnsweredInterface(registered))
    decreases |log|
  {
    hide Summarize, LatestOf;
    EmptySummary();
    if log == [] {
      NothingIsLatest(AboutInterface(), AnsweredInterface(registered));
    } else {
      var front, e := log[..|log| - 1], log[|log| - 1];
      assert log == front + [e];
      Appended(front, e);
      LatestOfAppend(front, e, AboutInterface(), AnsweredInterface(registered));
      InterfaceAnswersAreLatest(front, registered);
    }
  }

  lemma {:induction false} ServersAreLatest(log: seq<Event>, server: Option<Pid>)
    ensures Summarize(log).notes.launch.server == Some(server)
       <==> LatestOf(log, AboutServer(), AnsweredRegistration(server))
    decreases |log|
  {
    hide Summarize, LatestOf;
    EmptySummary();
    if log == [] {
      NothingIsLatest(AboutServer(), AnsweredRegistration(server));
    } else {
      var front, e := log[..|log| - 1], log[|log| - 1];
      assert log == front + [e];
      Appended(front, e);
      LatestOfAppend(front, e, AboutServer(), AnsweredRegistration(server));
      ServersAreLatest(front, server);
    }
  }

  lemma {:induction false} OutlivedComesFromEvents(log: seq<Event>, pid: Pid)
    ensures pid in Summarize(log).notes.launch.outlived <==> Outlived(pid, true) in log
    decreases |log|
  {
    hide Summarize;
    EmptySummary();
    if log == [] {
    } else {
      var front, e := log[..|log| - 1], log[|log| - 1];
      assert log == front + [e];
      assert forall x :: x in log <==> x in front || x == e;
      Appended(front, e);
      OutlivedComesFromEvents(front, pid);
    }
  }

  /**
   The stop is taken as confirmed only on init's last word that the service has stopped; it is given up only on its last
   word that it has not, and only after more than twenty such words or after it had been seen stopped.
   */
  lemma StopAnswersDecide(log: seq<Event>, i: nat)
    requires SafeLog(log) && i < |log|
    ensures log[i] == StopConfirmed ==> LatestOf(log[..i], AboutStop(), AnsweredStop(true))
    ensures log[i] == Reported(StopFailed) ==>
              && LatestOf(log[..i], AboutStop(), AnsweredStop(false))
              && (AnsweredStop(true) in log[..i] || multiset(log[..i])[AnsweredStop(false)] > 20)
  {
    hide LatestOf, Summarize;
    EveryEventAllowed(log, i);
    StopAnswersAreLatest(log[..i], true);
    StopAnswersAreLatest(log[..i], false);
  }

  /** The interface counts as gone, or as still there, by the last answer; so does the wait before the restore. */
  lemma InterfaceAnswersDecide(log: seq<Event>, i: nat)
    requires SafeLog(log) && i < |log|
    ensures log[i] == InterfaceGone ==> LatestOf(log[..i], AboutInterface(), AnsweredInterface(false))
    ensures log[i] == Reported(UnregisterFailed) ==> LatestOf(log[..i], AboutInterface(), AnsweredInterface(true))
    ensures log[i] == CtlStart ==>
              LatestOf(log[..i], AboutInterface(), AnsweredInterface(false)) || Summarize(log[..i]).notes.wait.asks > 10
  {
    hide LatestOf, Summarize;
    EveryEventAllowed(log, i);
    InterfaceAnswersAreLatest(log[..i], true);
    InterfaceAnswersAreLatest(log[..i], false);
  }

  /** A start counts only for a child alive after its wait, and for the provider only when it serves the interface. */
  lemma StartsAreAnswered(log: seq<Event>, i: nat)
    requires SafeLog(log) && i < |log| && log[i].Started?
    ensures Outlived(log[i].pid, true) in log[..i]
    ensures log[i].role == Provider ==>
              LatestOf(log[..i], AboutServer(), AnsweredRegistration(Some(log[i].pid)))
  {
    hide LatestOf, Summarize;
    EveryEventAllowed(log, i);
    OutlivedComesFromEvents(log[..i], log[i].pid);
    ServersAreLatest(log[..i], Some(log[i].pid));
  }

  ghost function AboutSpawn(role: Role): Event -> bool { (e: Event) => e.Spawned? && e.role == role }

  lemma {:induction false} SpawnsAreLatest(log: seq<Event>, role: Role, pid: Pid)
    ensures var l := Summarize(log).notes.launch;
            role in l.spawned && l.spawned[role] == pid <==> LatestOf(log, AboutSpawn(role), Spawned(role, pid))
    decreases |log|
  {
    hide Summarize, LatestOf;
    EmptySummary();
    if log == [] {
      NothingIsLatest(AboutSpawn(role), Spawned(role, pid));
    } else {
      var front, e := log[..|log| - 1], log[|log| - 1];
      assert log == front + [e];
      Appended(front, e);
      LatestOfAppend(front, e, AboutSpawn(role), Spawned(role, pid));
      SpawnsAreLatest(front, role, pid);
    }
  }

  /** The last child of the role did not outlive its start, or, for the provider, does not serve the interface. */
  ghost predicate LastStartFailed(log: seq<Event>, role: Role)
  {
    exists pid :: LatestOf(log, AboutSpawn(role), Spawned(role, pid))
                  && (Outlived(pid, true) !in log
                      || (role == Provider && !LatestOf(log, AboutServer(), AnsweredRegistration(Some(pid)))))
  }

  lemma RefusalMeansFailed(log: seq<Event>, role: Role)
    requires StartRefused(Summarize(log).notes.launch, role)
    ensures LastStartFailed(log, role)
  {
    hide LatestOf, Summarize;
    var pid := Summarize(log).notes.launch.spawned[role];
    SpawnsAreLatest(log, role, pid);
    OutlivedComesFromEvents(log, pid);
    ServersAreLatest(log, Some(pid));
  }

  /** A start is given up only after its last attempt has failed. */
  lemma GivenUpStartsFailed(log: seq<Event>, i: nat)
    requires SafeLog(log) && i < |log| && log[i].Reported?
    ensures log[i].status == DaemonStartFailed ==> LastStartFailed(log[..i], Daemon)
    ensures log[i].status == ProviderStartFailed ==> LastStartFailed(log[..i], Provider)
    ensures log[i].status == ProxyStartFailed ==> LastStartFailed(log[..i], Proxy)
  {
    hide LastStartFailed, StartRefused, Summarize;
    EveryEventAllowed(log, i);
    if log[i].status == DaemonStartFailed {
      RefusalMeansFailed(log[..i], Daemon);
    } else if log[i].status == ProviderStartFailed {
      RefusalMeansFailed(log[..i], Provider);
    } else if log[i].status == ProxyStartFailed {
      RefusalMeansFailed(log[..i], Proxy);
    }
  }

  /** Whether a child outlived its start is answered truthfully. */
  lemma OutlivedIsTrue(log: seq<Event>, i: nat)
    requires SafeLog(log) && i < |log| && log[i].Outlived?
    ensures log[i].alive <==> LiveAt(log[..i], log[i].pid)
  {
    hide LiveAt, Summarize;
    EveryEventAllowed(log, i);
    LiveMeansSpawnedAndNotDead(log[..i], log[i].pid);
  }

  /** The children told to end, in order. */
  function TermsOf(log: seq<Event>): seq<Pid>
  {
    if log == [] then []
    else
      var before, e := TermsOf(log[..|log| - 1]), log[|log| - 1];
      if e.Terminated? then before + [e.pid] else before
  }

  /** Seconds waited since a child was last told to end. */
  function Naps(log: seq<Event>): nat
  {
    if log == [] then 0
    else
      var before, e := Naps(log[..|log| - 1]), log[|log| - 1];
      if e.Terminated? then 0 else if e.Slept? then before + 1 else before
  }

  lemma {:induction false} ReapingComesFromEvents(log: seq<Event>)
    ensures Summarize(log).notes.reap == ReapNotes(TermsOf(log), Naps(log))
    decreases |log|
  {
    hide Summarize;
    EmptySummary();
    if log == [] {
    } else {
      var front, e := log[..|log| - 1], log[|log| - 1];
      assert log == front + [e];
      Appended(front, e);
      ReapingComesFromEvents(front);
    }
  }

  /** A child is killed only when it was the last told to end, was given five seconds, and is still alive. */
  lemma KillsAreLast(log: seq<Event>, i: nat)
    requires SafeLog(log) && i < |log| && log[i].Killed?
    ensures LiveAt(log[..i], log[i].pid)
    ensures TermsOf(log[..i]) != [] && TermsOf(log[..i])[|TermsOf(log[..i])| - 1] == log[i].pid
    ensures Naps(log[..i]) >= 5
  {
    hide LiveAt, Summarize;
    EveryEventAllowed(log, i);
    ReapingComesFromEvents(log[..i]);
    LiveMeansSpawnedAndNotDead(log[..i], log[i].pid);
  }

  // ----- The statuses and the ticks of a log

  lemma {:induction false} StatusesAreReported(log: seq<Event>, status: Status)
    ensures status in StatusesOf(log) <==> Reported(status) in log
    decreases |log|
  {
    EmptySummary();
    if log == [] {
    } else {
      var front, e := log[..|log| - 1], log[|log| - 1];
      assert log == front + [e];
      assert forall x :: x in log <==> x in front || x == e;
      AppendedTold(front, e);
      StatusesAreReported(front, status);
    }
  }

  /** What the events of a tick that has just ended say about it. */
  ghost predicate TickFits(log: seq<Event>, tick: Tick)
  {
    match tick
    case Good => forall what :: Answered(log, what, true)
    case Lost => FoundWrong(log, Alive(Provider)) || FoundWrong(log, Registered)
    case Failed(what) =>
      FoundWrong(log, FaultProbe(what)) && Answered(log, Alive(Provider), true) && Answered(log, Registered, true)
  }

  ghost predicate EndsTick(log: seq<Event>, i: nat, n: nat)
    requires i < |log|
  {
    log[i] == TickEnded && |TicksOf(log[..i])| == n
  }

  /** The current tick has begun and not ended. */
  ghost predicate WithinTick(log: seq<Event>)
  {
    && 0 < TickStart(log) && log[TickStart(log) - 1] == TickStarted
    && forall k :: TickStart(log) <= k < |log| ==> log[k] != TickEnded
  }

  lemma {:induction false} InTickComesFromEvents(log: seq<Event>)
    ensures Summarize(log).inTick <==> WithinTick(log)
    decreases |log|
  {
    hide Summarize, LiveAfter, AnswersAfter;
    EmptySummary();
    if log == [] {
    } else {
      var front, e := log[..|log| - 1], log[|log| - 1];
      assert log == front + [e];
      Appended(front, e);
      InTickComesFromEvents(front);
      if !e.TickStarted? && 0 < TickStart(front) {
        assert TickStart(log) == TickStart(front) && log[TickStart(front) - 1] == front[TickStart(front) - 1];
        assert forall k :: TickStart(front) <= k < |front| ==> log[k] == front[k];
      }
    }
  }

  lemma EndedTickFits(log: seq<Event>)
    requires SafeLog(log) && Allowed(Summarize(log), TickEnded)
    ensures WithinTick(log) && TickFits(log, Classify(Summarize(log)))
  {
    hide Answered, FoundWrong, Summarize, Classify, WithinTick;
    InTickComesFromEvents(log);
    var s, tick := Summarize(log), Classify(Summarize(log));
    forall what: Probe
      ensures what in s.passed <==> Answered(log, what, true)
      ensures what in s.refused ==> FoundWrong(log, what) {
      AnswersComeFromEvents(log, what);
      if what in s.refused {
        RefusalsAreTrue(log, what);
      }
    }
    if tick.Good? {
      forall what: Probe ensures Answered(log, what, true) {
        EveryProbe(what);
      }
    }
  }

  /** Each completed tick ends at some event, and is what the answers since its start make it. */
  lemma {:induction false} TicksFitTheirAnswers(log: seq<Event>, n: nat)
    requires SafeLog(log) && n < |TicksOf(log)|
    ensures exists i :: 0 <= i < |log| && EndsTick(log, i, n)
                        && WithinTick(log[..i]) && TickFits(log[..i], TicksOf(log)[n])
    decreases |log|
  {
    hide SafeLog, TickFits, WithinTick, Summarize, Classify, Allowed, TicksOf;
    EmptySummary();
    var front, e := log[..|log| - 1], log[|log| - 1];
    assert log == front + [e];
    Appended(front, e);
    AppendedTold(front, e);
    if n == |TicksOf(front)| {
      EndedTickFits(front);
      assert EndsTick(log, |front|, n);
    } else {
      TicksFitTheirAnswers(front, n);
      var i :| 0 <= i < |front| && EndsTick(front, i, n)
               && WithinTick(front[..i]) && TickFits(front[..i], TicksOf(front)[n]);
      assert front[..i] == log[..i];
      assert EndsTick(log, i, n);
    }
  }

  // ----- The monitor's verdict

  /** The failure counter after some ticks. */
  function Failures(ticks: seq<Tick>): nat
  {
    if ticks == [] || !ticks[|ticks| - 1].Failed? then 0 else Failures(ticks[..|ticks| - 1]) + 1
  }

  /** Tick n gives up: the provider is lost, or this tick and the two before it all failed. */
  predicate GivesUp(ticks: seq<Tick>, n: nat)
    requires n < |ticks|
  {
    ticks[n].Lost? || (n >= 2 && ticks[n].Failed? && ticks[n - 1].Failed? && ticks[n - 2].Failed?)
  }

  lemma CounterMeansThreeInARow(ticks: seq<Tick>)
    requires ticks != []
    ensures ticks[|ticks| - 1].Lost? || Failures(ticks) >= 3 <==> GivesUp(ticks, |ticks| - 1)
  {
    var n := |ticks|;
    assert Failures(ticks) >= 1 <==> ticks[n - 1].Failed?;
    if n >= 2 && ticks[n - 1].Failed? {
      var one := ticks[..n - 1];
      assert Failures(ticks) == Failures(one) + 1;
      assert one[n - 2] == ticks[n - 2];
      if n >= 3 && ticks[n - 2].Failed? {
        var two := one[..n - 2];
        assert Failures(one) == Failures(two) + 1;
        assert two[n - 3] == ticks[n - 3];
      }
    }
  }

  /** What one tick writes to the status file. */
  function TickReports(before: seq<Tick>, tick: Tick): seq<Status>
  {
    match tick
    case Good => [Ready]
    case Lost => [ProviderLost]
    case Failed(what) =>
      if Failures(before) + 1 >= 3 then [Restarting(what), SafeMode(what)] else [Restarting(what)]
  }

  function Reports(ticks: seq<Tick>): seq<Status>
  {
    if ticks == [] then []
    else
      var before := ticks[..|ticks| - 1];
      Reports(before) + TickReports(before, ticks[|ticks| - 1])
  }

  function GoodTicks(ticks: seq<Tick>): nat
  {
    if ticks == [] then 0
    else GoodTicks(ticks[..|ticks| - 1]) + if ticks[|ticks| - 1].Good? then 1 else 0
  }

  /** READY is written exactly on the good ticks. */
  lemma {:induction false} ReadyCountsGoodTicks(ticks: seq<Tick>)
    ensures multiset(Reports(ticks))[Ready] == GoodTicks(ticks)
    decreases |ticks|
  {
    if ticks == [] {
    } else {
      ReadyCountsGoodTicks(ticks[..|ticks| - 1]);
    }
  }

  /** The statuses that fit what a tick found. */
  predicate Verdict(tick: Tick, status: Status)
  {
    match tick
    case Good => status == Ready
    case Lost => status == ProviderLost
    case Failed(what) => status == Restarting(what) || status == SafeMode(what)
  }

  ghost predicate NeverGivesUp(ticks: seq<Tick>)
  {
    forall n :: 0 <= n < |ticks| ==> !GivesUp(ticks, n)
  }

  /** The last tick is the first one to give up. */
  ghost predicate GivesUpLast(ticks: seq<Tick>)
  {
    ticks != [] && GivesUp(ticks, |ticks| - 1) && forall n :: 0 <= n < |ticks| - 1 ==> !GivesUp(ticks, n)
  }

  /** What a signal adds after the last completed tick: what the cut tick had written, and the stop. */
  predicate CutShort(cut: seq<Status>)
  {
    match |cut|
    case 1 => cut[0] == Stopping
    case 2 => (cut[0].Restarting? || cut[0] == ProviderLost) && cut[1] == Stopping
    case 3 => cut[0].Restarting? && cut[1] == SafeMode(cut[0].what) && cut[2] == Stopping
    case _ => false
  }

  lemma OnlyStopping()
    ensures CutShort([Stopping])
  {
  }

  predicate IsStartupFailure(status: Status)
  {
    || status == StopFailed || status == UnregisterFailed
    || status == DaemonStartFailed || status == ProviderStartFailed || status == ProxyStartFailed
  }

  /** All that a takeover writes which never gets READY: one failure, or a stop, or a failure and then a stop. */
  predicate EndsEarly(statuses: seq<Status>)
  {
    match |statuses|
    case 1 => IsStartupFailure(statuses[0]) || statuses[0] == Stopping
    case 2 => IsStartupFailure(statuses[0]) && statuses[1] == Stopping
    case _ => false
  }

  lemma ProviderMayStart(s: Summary, pid: Pid)
    requires pid in s.notes.launch.outlived && s.notes.launch.server == Some(Some(pid))
    ensures Allowed(s, Started(Provider, pid))
  {
  }

  lemma FaultIsFound(s: Summary, what: Fault)
    requires Alive(Provider) in s.passed && Registered in s.passed
    requires s.refused == {FaultProbe(what)} && s.notes.launch.respawned == Respawns(Failed(what))
    ensures Found(s, Failed(what))
  {
  }

  lemma GoodIsFound(s: Summary)
    requires s.passed == {Alive(Provider), Registered} + {DeviceThere} + {Alive(Daemon)} + {Alive(Proxy)}
    requires s.refused == {} && s.notes.launch.respawned == {}
    ensures Found(s, Good)
  {
  }

  lemma StoppingEndsEarly()
    ensures [] + [Stopping] == [Stopping] && EndsEarly([Stopping])
  {
  }

  lemma FailureIsEarned(s: Summary, role: Role)
    requires StartRefused(s.notes.launch, role) && role !in s.started
    ensures role == Daemon && s.gone ==> Earned(s, DaemonStartFailed)
    ensures role == Provider && Daemon in s.started ==> Earned(s, ProviderStartFailed)
    ensures role == Proxy && Provider in s.started ==> Earned(s, ProxyStartFailed)
  {
  }

  lemma NoTicks()
    ensures Reports([]) == [] && Failures([]) == 0 && NeverGivesUp([])
  {
  }

  /** The ticks' reports end in a loss or a safe mode iff the monitor gives up, and name what it gave up on. */
  lemma {:induction false} VerdictIsWritten(ticks: seq<Tick>)
    requires NeverGivesUp(ticks) || GivesUpLast(ticks)
    ensures NeverGivesUp(ticks) ==> forall s :: s in Reports(ticks) ==> s == Ready || s.Restarting?
    ensures GivesUpLast(ticks) ==>
              var last, reports := ticks[|ticks| - 1], Reports(ticks);
              && reports != []
              && !last.Good? && reports[|reports| - 1] == (if last.Lost? then ProviderLost else SafeMode(last.what))
              && forall k :: 0 <= k < |reports| - 1 ==> reports[k] == Ready || reports[k].Restarting?
    decreases |ticks|
  {
    if ticks == [] {
    } else {
      var before, last := ticks[..|ticks| - 1], ticks[|ticks| - 1];
      forall n | 0 <= n < |before| ensures !GivesUp(before, n) {
        assert GivesUp(before, n) == GivesUp(ticks, n);
      }
      VerdictIsWritten(before);
      TickAdded(before, last);
      assert ticks == before + [last];
      assert NeverGivesUp(ticks) || GivesUpLast(ticks);
      CounterMeansThreeInARow(ticks);
    }
  }

  lemma TickAdded(ticks: seq<Tick>, tick: Tick)
    requires NeverGivesUp(ticks)
    ensures var more := ticks + [tick];
            && Reports(more) == Reports(ticks) + TickReports(ticks, tick)
            && Failures(more) == (if tick.Failed? then Failures(ticks) + 1 else 0)
            && (tick.Lost? || Failures(more) >= 3 ==> GivesUpLast(more))
            && (!tick.Lost? && Failures(more) < 3 ==> NeverGivesUp(more))
  {
    var more := ticks + [tick];
    assert more[..|ticks|] == ticks;
    CounterMeansThreeInARow(more);
    forall n | 0 <= n < |ticks| ensures !GivesUp(more, n) {
      assert !GivesUp(ticks, n);
    }
  }

  // ----- The supervisor

  datatype Outcome = Up | GaveUp | Interrupted

  class Takeover {
    var providerPid: Option<Pid>
    var daemonPid: Option<Pid>
    var proxyPid: Option<Pid>
    var oemProviderStopped: bool
    /** The children the kernel still runs, and the next process number. */
    var live: set<Pid>
    var nextPid: Pid
    /** Every write of the status file, and every completed monitor tick, in order. */
    var statuses: seq<Status>
    var ticks: seq<Tick>
    ghost var log: seq<Event>
    ghost var now: Summary

    constructor ()
      ensures Steady() && now == FRESH && statuses == [] && ticks == [] && !oemProviderStopped
      ensures providerPid == daemonPid == proxyPid == None
    {
      providerPid, daemonPid, proxyPid := None, None, None;
      oemProviderStopped := false;
      live, nextPid, statuses, ticks := {}, 0, [], [];
      log, now := [], FRESH;
      new;
      EmptySummary();
    }

    function Recorded(): set<Pid>
      reads this
    {
      (if providerPid.Some? then {providerPid.value} else {})
      + (if daemonPid.Some? then {daemonPid.value} else {})
      + (if proxyPid.Some? then {proxyPid.value} else {})
    }

    function PidOf(role: Role): Option<Pid>
      reads this`daemonPid, this`providerPid, this`proxyPid
    {
      match role
      case Daemon => daemonPid
      case Provider => providerPid
      case Proxy => proxyPid
    }

    ghost predicate Logged()
      reads this`log, this`now, this`statuses, this`ticks
    {
      now == Summarize(log) && SafeLog(log) && statuses == StatusesOf(log) && ticks == TicksOf(log)
    }

    /** The pid recorded for a role is that of its last start; a role without one has no live child. */
    ghost predicate Tracked(role: Role)
      reads this`now, this`daemonPid, this`providerPid, this`proxyPid
    {
      if PidOf(role).Some? then LastStarted(now, role, PidOf(role).value) else !RoleLive(now, role)
    }

    ghost predicate Valid()
      reads this`log, this`now, this`statuses, this`ticks, this`live, this`nextPid
      reads this`daemonPid, this`providerPid, this`proxyPid
    {
      && Logged() && live == now.live && (forall p :: p in live ==> p < nextPid)
      && (forall role :: role in now.started ==> now.started[role] < nextPid)
      && (forall p :: p in now.notes.launch.outlived ==> p < nextPid)
      && Tracked(Provider) && Tracked(Daemon) && Tracked(Proxy)
    }

    /** What holds outside the start functions: no orphan, and the flag says whether a restore is owed. */
    ghost predicate Steady()
      reads this
    {
      Valid() && live <= Recorded() && oemProviderStopped == now.confirmed && !now.restored
      && now.notes.oem.verified == None
    }

    lemma LiveIsKnown()
      requires Valid()
      ensures live == now.live
    {
    }

    lemma SteadyIsValid()
      requires Steady()
      ensures Valid() && live == now.live
    {
    }

    // ----- The outside world

    ghost method Emit(e: Event)
      requires Logged() && Allowed(now, e) && !e.Reported? && !e.TickEnded?
      modifies this`log, this`now
      ensures Logged() && now == After(old(now), e)
    {
      hide SafeLog, Summarize, Allowed, After, StatusesOf, TicksOf;
      Appended(log, e);
      AppendedTold(log, e);
      log, now := log + [e], After(now, e);
    }

    /** Time passes; any children may die. */
    method Elapse()
      requires Valid()
      modifies this`live, this`log, this`now
      ensures Valid() && live <= old(live) && now == old(now).(live := live)
    {
      hide Logged, After;
      var gone: set<Pid> := *;
      DiedMeans(now, gone);
      Emit(Died(gone));
      live := live - gone;
    }

    method PidAlive(pid: Option<Pid>) returns (alive: bool)
      ensures alive == (pid.Some? && pid.value in live)
    {
      alive := pid.Some? && pid.value in live;
    }

    method Launch(role: Role) returns (pid: Pid)
      requires Valid() && now.confirmed && now.gone && !now.restored
      requires (role != Daemon ==> Daemon in now.started) && (role == Proxy ==> Provider in now.started)
      modifies this`live, this`nextPid, this`log, this`now
      ensures Valid() && live == old(live) + {pid} && pid !in old(live)
      ensures now == old(now).(live := live, notes := old(now).notes.(
                wait := WaitNotes(None, 0, false), launch := now.notes.launch))
      ensures now.notes.launch == LaunchAfter(old(now).notes.launch, Spawned(role, pid))
      ensures pid !in now.notes.launch.outlived && pid < nextPid
      ensures nextPid == old(nextPid) + 1
    {
      hide Logged, After;
      pid := nextPid;
      SpawnedMeans(now, role, pid);
      Emit(Spawned(role, pid));
      live, nextPid := live + {pid}, nextPid + 1;
    }

    /** kill -9 and wait. */
    method KillAndWait(pid: Pid)
      requires Valid() && Allowed(now, Killed(pid))
      modifies this`live, this`log, this`now
      ensures Valid() && live == old(live) - {pid} && now == old(now).(live := live)
    {
      hide Logged, After;
      KilledMeans(now, pid);
      Emit(Killed(pid));
      DiedMeans(now, {pid});
      Emit(Died({pid}));
      live := live - {pid};
    }

    /** init's word on the OEM service. */
    method AskStopped() returns (stopped: bool)
      requires Valid()
      modifies this`log, this`now
      ensures Valid()
      ensures now == old(now).(notes := old(now).notes.(oem := OemAfter(old(now).notes.oem, AnsweredStop(stopped))))
    {
      hide Logged, After;
      stopped := *;
      AnsweredStopMeans(now, stopped);
      Emit(AnsweredStop(stopped));
    }

    /** Whether anyone serves the camera interface. */
    method AskInterface() returns (registered: bool)
      requires Valid()
      modifies this`log, this`now
      ensures Valid()
      ensures now == old(now).(notes := old(now).notes.(
                wait := WaitAfter(old(now).notes.wait, AnsweredInterface(registered))))
    {
      hide Logged, After;
      registered := *;
      AnsweredInterfaceMeans(now, registered);
      Emit(AnsweredInterface(registered));
    }

    /** Which process serves it. */
    method AskServer() returns (server: Option<Pid>)
      requires Valid() && (now.notes.wait.registered == Some(true) || now.notes.wait.asks > 10)
      modifies this`log, this`now
      ensures Valid()
      ensures now == old(now).(notes := old(now).notes.(launch := old(now).notes.launch.(server := Some(server))))
    {
      hide Logged, After;
      server := *;
      AnsweredRegistrationMeans(now, server);
      Emit(AnsweredRegistration(server));
    }

    /** Whether the restored service runs and is the one taken down. */
    method AskRestored() returns (verified: bool)
      requires Valid() && now.restored
      modifies this`log, this`now
      ensures Valid()
      ensures now == old(now).(notes := old(now).notes.(oem := old(now).notes.oem.(verified := Some(verified))))
    {
      hide Logged, After;
      var running: bool, identified: bool := *, *;
      verified := running && identified;
      AnsweredRestoreMeans(now, verified);
      Emit(AnsweredRestore(verified));
    }

    /** A wait for the interface begins. */
    method BeginWaiting()
      requires Valid()
      modifies this`log, this`now
      ensures Valid() && now == old(now).(notes := old(now).notes.(wait := WaitNotes(None, 0, false)))
    {
      hide Logged, After;
      AwaitingMeans(now);
      Emit(Awaiting);
    }

    method Nap()
      requires Valid()
      modifies this`live, this`log, this`now
      ensures Valid() && live <= old(live)
      ensures now == old(now).(live := live, notes := old(now).notes.(
                reap := old(now).notes.reap.(naps := old(now).notes.reap.naps + 1)))
    {
      hide Logged, After;
      SleptMeans(now);
      Emit(Slept);
      Elapse();
    }

    /** TERM, which the child may already be past. */
    method Terminate(pid: Pid)
      requires Valid()
      modifies this`live, this`log, this`now
      ensures Valid() && live <= old(live)
      ensures now == old(now).(live := live, notes := old(now).notes.(
                reap := ReapNotes(old(now).notes.reap.terms + [pid], 0)))
    {
      hide Logged, After;
      TerminatedMeans(now, pid);
      Emit(Terminated(pid));
      Elapse();
    }

    /** What a wait for the interface has changed after so many questions. */
    ghost predicate Waited(first: Summary, asks: nat, registered: bool)
      reads this`log, this`now, this`statuses, this`ticks, this`live, this`nextPid
      reads this`daemonPid, this`providerPid, this`proxyPid
    {
      && Valid() && live <= first.live
      && now == first.(live := live, notes := first.notes.(wait := now.notes.wait))
      && now.notes.wait.registered == Some(registered) && now.notes.wait.asks == asks
    }

    method AskAgain(ghost first: Summary, ghost asks: nat, ghost before: bool) returns (registered: bool)
      requires Waited(first, asks, before)
      modifies this`live, this`log, this`now
      ensures Waited(first, asks + 1, registered)
    {
      hide Valid;
      Elapse();
      registered := AskInterface();
    }

    method AskFirst() returns (registered: bool)
      requires Valid()
      modifies this`log, this`now
      ensures Waited(old(now), 1, registered)
    {
      hide Valid;
      LiveIsKnown();
      BeginWaiting();
      registered := AskInterface();
    }

    /** Up to `limit` seconds for the interface to appear or to go. */
    method AwaitInterface(wanted: bool, limit: nat)
      requires Valid()
      modifies this`live, this`log, this`now
      ensures Valid() && live <= old(now).live
      ensures now == old(now).(live := live, notes := old(now).notes.(wait := now.notes.wait))
      ensures now.notes.wait.registered == Some(wanted) || now.notes.wait.asks > limit
    {
      hide Valid, Waited;
      var count := 0;
      var registered := AskFirst();
      while registered != wanted && count < limit
        invariant Waited(old(now), count + 1, registered)
        decreases limit - count
      {
        registered := AskAgain(old(now), count + 1, registered);
        count := count + 1;
      }
      WaitedMeans(old(now), count + 1, registered);
    }

    lemma WaitedMeans(first: Summary, asks: nat, registered: bool)
      requires Waited(first, asks, registered)
      ensures Valid() && live <= first.live
      ensures now == first.(live := live, notes := first.notes.(wait := now.notes.wait))
      ensures now.notes.wait.registered == Some(registered) && now.notes.wait.asks == asks
    {
    }

    method Report(status: Status)
      requires Valid() && Earned(now, status)
      modifies this`statuses, this`log, this`now
      ensures Valid() && now == old(now) && statuses == old(statuses) + [status]
    {
      hide SafeLog, Summarize, Earned, StatusesOf, TicksOf;
      Appended(log, Reported(status));
      AppendedTold(log, Reported(status));
      log := log + [Reported(status)];
      statuses := statuses + [status];
    }

    /** Between two commands a shutdown signal may arrive; its trap writes the status and exits. */
    method Boundary() returns (signal: bool)
      requires Steady()
      modifies this`live, this`log, this`now, this`statuses
      ensures Steady() && live <= old(live) && now == old(now).(live := live)
      ensures statuses == old(statuses) + if signal then [Stopping] else []
    {
      hide Logged, After;
      Elapse();
      RecordCheckpoint();
      signal := *;
      if signal {
        Report(Stopping);
      }
    }

    ghost method RecordCheckpoint()
      requires Steady()
      modifies this`log, this`now
      ensures Steady() && now == old(now)
    {
      hide Logged, Allowed, After;
      RecordedAreLast();
      CheckpointMeans(now, Recorded());
      Emit(Checkpoint(Recorded()));
    }

    lemma RecordedAreLast()
      requires Steady()
      ensures Allowed(now, Checkpoint(Recorded()))
    {
      hide Logged, After;
      forall p | p in Recorded() ensures exists role :: LastStarted(now, role, p) {
        var role := if providerPid == Some(p) then Provider else if daemonPid == Some(p) then Daemon else Proxy;
        assert LastStarted(now, role, p);
      }
    }

    // ----- Stopping children and restoring the OEM service

    /** At most five seconds for a child told to end. */
    method WaitForPidExit(pid: Pid) returns (exited: bool)
      requires Valid() && now.notes.reap.naps == 0
      modifies this`live, this`log, this`now
      ensures Valid() && live <= old(live)
      ensures now == old(now).(live := live, notes := old(now).notes.(reap := now.notes.reap))
      ensures now.notes.reap.terms == old(now).notes.reap.terms
      ensures exited == (pid !in live) && (!exited ==> now.notes.reap.naps == 5)
    {
      hide Valid;
      LiveIsKnown();
      var count := 0;
      while pid in live && count < 5
        invariant Valid() && live <= old(live)
        invariant now == old(now).(live := live, notes := old(now).notes.(reap := now.notes.reap))
        invariant now.notes.reap == ReapNotes(old(now).notes.reap.terms, count) && count <= 5
        decreases 5 - count
      {
        count := count + 1;
        Nap();
      }
      exited := pid !in live;
    }

    /** A child is told to end, given five seconds, and only then killed. */
    method StopAndReap(candidate: Option<Pid>)
      requires Valid()
      modifies this`live, this`log, this`now
      ensures Valid() && live <= old(live)
      ensures now == old(now).(live := live, notes := old(now).notes.(reap := now.notes.reap))
      ensures now.notes.reap.terms == old(now).notes.reap.terms + Present(candidate)
      ensures candidate.Some? ==> candidate.value !in live
    {
      hide Logged, After;
      if candidate.None? {
        return;
      }
      Terminate(candidate.value);
      var exited := WaitForPidExit(candidate.value);
      if !exited {
        KillAndWait(candidate.value);
      }
    }

    /** Issues ctl.start exactly when the flag is set; the flag is cleared only when the service is back. */
    method RestoreOemProvider()
      requires Valid() && live == {} && !now.restored && (oemProviderStopped ==> now.confirmed)
      requires now.notes.oem.verified == None
      modifies this`oemProviderStopped, this`live, this`log, this`now
      ensures Valid() && live == {}
      ensures now.restored == old(oemProviderStopped)
      ensures now == old(now).(restored := now.restored, notes := now.notes)
      ensures oemProviderStopped == (old(oemProviderStopped) && now.notes.oem.verified == Some(false))
      ensures now.notes.reap == old(now).notes.reap
    {
      hide Logged, Valid;
      LiveIsKnown();
      if !oemProviderStopped {
        return;
      }
      AwaitInterface(false, 10);
      StartOem();
      var verified := AskRestored();
      if verified {
        oemProviderStopped := false;
      }
    }

    method StartOem()
      requires Valid() && Allowed(now, CtlStart)
      modifies this`log, this`now
      ensures Valid() && now == old(now).(restored := true)
    {
      hide Logged, After;
      CtlStartMeans(now);
      Emit(CtlStart);
    }

    /** The proxy ends first, then the daemon, then the provider; and only then is the service restored. */
    method Cleanup()
      requires Steady()
      modifies this`oemProviderStopped, this`live, this`log, this`now
      ensures Valid() && live == {}
      ensures now.restored == old(oemProviderStopped)
      ensures now == old(now).(live := {}, restored := now.restored, notes := now.notes)
      ensures now.notes.reap.terms
              == old(now).notes.reap.terms + Present(proxyPid) + Present(daemonPid) + Present(providerPid)
      ensures oemProviderStopped == (old(oemProviderStopped) && now.notes.oem.verified == Some(false))
    {
      hide Valid, Steady;
      SteadyMeans();
      StopAndReap(proxyPid);
      StopAndReap(daemonPid);
      StopAndReap(providerPid);
      assert live == {};
      LiveIsKnown();
      RestoreOemProvider();
    }

    lemma SteadyMeans()
      requires Steady()
      ensures Valid() && live == now.live && !now.restored && oemProviderStopped == now.confirmed
      ensures now.notes.oem.verified == None
      ensures forall p :: p in live ==> Some(p) == providerPid || Some(p) == daemonPid || Some(p) == proxyPid
    {
    }

    // ----- Starting children

    /** A child in the background, and whether it outlives the wait after its start. */
    method LaunchAndWait(role: Role) returns (candidate: Pid, alive: bool)
      requires Valid() && now.confirmed && now.gone && !now.restored
      requires (role != Daemon ==> Daemon in now.started) && (role == Proxy ==> Provider in now.started)
      modifies this`live, this`nextPid, this`log, this`now
      ensures Valid() && live <= old(live) + {candidate}
      ensures now == old(now).(live := live, notes := now.notes) && now.notes.oem == old(now).notes.oem
      ensures nextPid == old(nextPid) + 1 && candidate < nextPid && alive == (candidate in live)
      ensures role in now.notes.launch.spawned && now.notes.launch.spawned[role] == candidate
      ensures if alive then candidate in now.notes.launch.outlived else StartRefused(now.notes.launch, role)
      ensures now.notes.launch.respawned == old(now).notes.launch.respawned + {role}
    {
      hide Valid;
      LiveIsKnown();
      candidate := Launch(role);
      Elapse();
      alive := PidAlive(Some(candidate));
      NoteOutlived(candidate, alive);
    }

    method NoteOutlived(pid: Pid, alive: bool)
      requires Valid() && alive == (pid in live) && pid < nextPid
      modifies this`log, this`now
      ensures Valid()
      ensures now == old(now).(notes := old(now).notes.(
                launch := LaunchAfter(old(now).notes.launch, Outlived(pid, alive))))
    {
      hide Logged, After;
      OutlivedMeans(now, pid, alive);
      Emit(Outlived(pid, alive));
    }

    method StartProvider() returns (ok: bool)
      requires Steady() && now.confirmed && now.gone && Daemon in now.started && providerPid == None
      modifies this`providerPid, this`live, this`nextPid, this`log, this`now
      ensures Steady() && (ok <==> providerPid.Some?)
      ensures now == old(now).(live := live, notes := now.notes,
                               started := if ok then old(now).started[Provider := providerPid.value]
                                          else old(now).started)
      ensures !ok ==> StartRefused(now.notes.launch, Provider)
    {
      hide Logged, After, LaunchAfter, Allowed;
      var candidate, alive := LaunchAndWait(Provider);
      if !alive {
        return false;
      }
      AwaitInterface(true, 10);
      var registrationPid := AskServer();
      if registrationPid != Some(candidate) {
        StopAndReap(Some(candidate));
        return false;
      }
      ProviderMayStart(now, candidate);
      AdoptProvider(candidate);
      return true;
    }

    method AdoptProvider(candidate: Pid)
      requires Valid() && providerPid == None && candidate < nextPid && Allowed(now, Started(Provider, candidate))
      modifies this`providerPid, this`log, this`now
      ensures Valid() && providerPid == Some(candidate)
      ensures now == old(now).(started := old(now).started[Provider := candidate])
    {
      hide Logged, After;
      StartedMeans(now, Provider, candidate);
      Emit(Started(Provider, candidate));
      providerPid := Some(candidate);
    }

    method StartDaemon() returns (ok: bool)
      requires Steady() && now.confirmed && now.gone && daemonPid == None
      modifies this`daemonPid, this`live, this`nextPid, this`log, this`now
      ensures Steady() && (ok <==> daemonPid.Some?) && nextPid == old(nextPid) + 1
      ensures now == old(now).(live := live, notes := now.notes,
                               started := if ok then old(now).started[Daemon := daemonPid.value]
                                          else old(now).started)
      ensures !ok ==> StartRefused(now.notes.launch, Daemon)
      ensures now.notes.launch.respawned == old(now).notes.launch.respawned + {Daemon}
    {
      hide Logged, After;
      var candidate, alive := LaunchAndWait(Daemon);
      if !alive {
        return false;
      }
      StartedMeans(now, Daemon, candidate);
      Emit(Started(Daemon, candidate));
      daemonPid := Some(candidate);
      return true;
    }

    method StartProxy() returns (ok: bool)
      requires Steady() && now.confirmed && now.gone && proxyPid == None
      requires Daemon in now.started && Provider in now.started
      modifies this`proxyPid, this`live, this`nextPid, this`log, this`now
      ensures Steady() && (ok <==> proxyPid.Some?) && nextPid == old(nextPid) + 1
      ensures now == old(now).(live := live, notes := now.notes,
                               started := if ok then old(now).started[Proxy := proxyPid.value]
                                          else old(now).started)
      ensures !ok ==> StartRefused(now.notes.launch, Proxy)
      ensures now.notes.launch.respawned == old(now).notes.launch.respawned + {Proxy}
    {
      hide Logged, After;
      var candidate, alive := LaunchAndWait(Proxy);
      if !alive {
        return false;
      }
      StartedMeans(now, Proxy, candidate);
      Emit(Started(Proxy, candidate));
      proxyPid := Some(candidate);
      return true;
    }

    /** start_with_retry start_daemon: at most three attempts. */
    method StartDaemonWithRetry() returns (outcome: Outcome)
      requires Steady() && now.confirmed && now.gone && daemonPid == None
      modifies this`daemonPid, this`live, this`nextPid, this`log, this`now, this`statuses
      ensures Steady()
      ensures outcome.Up? <==> daemonPid.Some?
      ensures now == old(now).(live := live, notes := now.notes,
                               started := if outcome.Up? then old(now).started[Daemon := daemonPid.value]
                                          else old(now).started)
      ensures outcome.GaveUp? ==> StartRefused(now.notes.launch, Daemon)
      ensures now.notes.launch.respawned == old(now).notes.launch.respawned + {Daemon}
      ensures nextPid <= old(nextPid) + 3 && (outcome.GaveUp? ==> nextPid == old(nextPid) + 3)
      ensures statuses == old(statuses) + if outcome.Interrupted? then [Stopping] else []
    {
      hide Logged, After;
      var count := 0;
      while count < 3
        invariant Steady() && daemonPid == None && statuses == old(statuses)
        invariant now == old(now).(live := live, notes := now.notes)
        invariant count > 0 ==> StartRefused(now.notes.launch, Daemon)
        invariant now.notes.launch.respawned
                  == old(now).notes.launch.respawned + if count > 0 then {Daemon} else {}
        invariant count <= 3 && nextPid == old(nextPid) + count
      {
        count := count + 1;
        var ok := StartDaemon();
        if ok {
          return Up;
        }
        var signal := Boundary();
        if signal {
          return Interrupted;
        }
      }
      return GaveUp;
    }

    /** start_with_retry start_proxy. */
    method StartProxyWithRetry() returns (outcome: Outcome)
      requires Steady() && now.confirmed && now.gone && proxyPid == None
      requires Daemon in now.started && Provider in now.started
      modifies this`proxyPid, this`live, this`nextPid, this`log, this`now, this`statuses
      ensures Steady()
      ensures outcome.Up? <==> proxyPid.Some?
      ensures now == old(now).(live := live, notes := now.notes,
                               started := if outcome.Up? then old(now).started[Proxy := proxyPid.value]
                                          else old(now).started)
      ensures outcome.GaveUp? ==> StartRefused(now.notes.launch, Proxy)
      ensures now.notes.launch.respawned == old(now).notes.launch.respawned + {Proxy}
      ensures nextPid <= old(nextPid) + 3 && (outcome.GaveUp? ==> nextPid == old(nextPid) + 3)
      ensures statuses == old(statuses) + if outcome.Interrupted? then [Stopping] else []
    {
      hide Logged, After;
      var count := 0;
      while count < 3
        invariant Steady() && proxyPid == None && statuses == old(statuses)
        invariant now == old(now).(live := live, notes := now.notes)
        invariant count > 0 ==> StartRefused(now.notes.launch, Proxy)
        invariant now.notes.launch.respawned
                  == old(now).notes.launch.respawned + if count > 0 then {Proxy} else {}
        invariant count <= 3 && nextPid == old(nextPid) + count
      {
        count := count + 1;
        var ok := StartProxy();
        if ok {
          return Up;
        }
        var signal := Boundary();
        if signal {
          return Interrupted;
        }
      }
      return GaveUp;
    }

    // ----- The monitor

    ghost predicate Monitored()
      reads this
    {
      Steady() && now.confirmed && now.gone && Daemon in now.started && Provider in now.started && Proxy in now.started
    }

    /** A wait inside a tick; what it has found stays found. */
    method TickBoundary(ghost tick: Tick) returns (signal: bool)
      requires Monitored() && Finds(tick)
      modifies this`live, this`log, this`now, this`statuses
      ensures Monitored() && Finds(tick)
      ensures statuses == old(statuses) + if signal then [Stopping] else []
    {
      signal := Boundary();
    }

    method MonitoredBoundary() returns (signal: bool)
      requires Monitored()
      modifies this`live, this`log, this`now, this`statuses
      ensures Monitored() && now == old(now).(live := live) && live <= old(live)
      ensures statuses == old(statuses) + if signal then [Stopping] else []
    {
      signal := Boundary();
    }

    /** A status a tick may write, given what it found. */
    method TickReport(ghost tick: Tick, status: Status)
      requires Monitored() && Finds(tick) && Verdict(tick, status)
      modifies this`statuses, this`log, this`now
      ensures Monitored() && Finds(tick) && statuses == old(statuses) + [status]
    {
      Report(status);
    }

    method ReportFirstReady()
      requires Monitored() && !now.watching && !now.inTick
      modifies this`statuses, this`log, this`now
      ensures Monitored() && !now.inTick && statuses == old(statuses) + [Ready]
    {
      Report(Ready);
    }

    method ReportStopping()
      requires Monitored()
      modifies this`statuses, this`log, this`now
      ensures Monitored() && statuses == old(statuses) + [Stopping]
    {
      Report(Stopping);
    }

    /** A question asked in a tick, its answer, and a chance for a signal. */
    method Ask(what: Probe, pid: Option<Pid>, ok: bool) returns (signal: bool)
      requires Monitored() && now.inTick && Truthful(now, what, pid, ok)
      modifies this`live, this`log, this`now, this`statuses
      ensures Monitored() && live <= old(live)
      ensures now == old(now).(live := live, passed := old(now).passed + (if ok then {what} else {}),
                               refused := old(now).refused + (if ok then {} else {what}))
      ensures statuses == old(statuses) + if signal then [Stopping] else []
    {
      hide Logged, After;
      ProbedMeans(now, what, pid, ok);
      Emit(Probed(what, pid, ok));
      signal := MonitoredBoundary();
    }

    method AskAlive(role: Role) returns (alive: bool, signal: bool)
      requires Monitored() && now.inTick
      modifies this`live, this`log, this`now, this`statuses
      ensures Monitored() && (!alive && PidOf(role).Some? ==> PidOf(role).value !in live)
      ensures alive == RoleLive(old(now), role) && (alive ==> PidOf(role).Some?)
      ensures now == old(now).(live := live, passed := old(now).passed + (if alive then {Alive(role)} else {}),
                               refused := old(now).refused + (if alive then {} else {Alive(role)}))
      ensures statuses == old(statuses) + if signal then [Stopping] else []
    {
      hide Logged, After;
      assert Tracked(role);
      alive := PidAlive(PidOf(role));
      signal := Ask(Alive(role), PidOf(role), alive);
    }

    method AskRegistered() returns (registered: bool, signal: bool)
      requires Monitored() && now.inTick && providerPid.Some?
      modifies this`live, this`log, this`now, this`statuses
      ensures Monitored()
      ensures now == old(now).(live := live, passed := old(now).passed + (if registered then {Registered} else {}),
                               refused := old(now).refused + (if registered then {} else {Registered}))
      ensures statuses == old(statuses) + if signal then [Stopping] else []
    {
      hide Logged, After;
      assert Tracked(Provider);
      var registrationPid: Option<Pid> := *;
      registered := registrationPid == providerPid;
      signal := Ask(Registered, registrationPid, registered);
    }

    method AskDevice() returns (there: bool, signal: bool)
      requires Monitored() && now.inTick
      modifies this`live, this`log, this`now, this`statuses
      ensures Monitored()
      ensures now == old(now).(live := live, passed := old(now).passed + (if there then {DeviceThere} else {}),
                               refused := old(now).refused + (if there then {} else {DeviceThere}))
      ensures statuses == old(statuses) + if signal then [Stopping] else []
    {
      there := *;
      signal := Ask(DeviceThere, None, there);
    }

    /** What the current tick has found so far makes it one of this kind. */
    ghost predicate Finds(tick: Tick)
      reads this
    {
      now.watching && now.inTick && Found(now, tick)
    }

    /** The two questions about the provider. */
    method CheckProvider() returns (lost: bool, signal: bool)
      requires Monitored() && now.watching && now.inTick && now.passed == {} == now.refused
      requires now.notes.launch.respawned == {}
      modifies this`live, this`log, this`now, this`statuses
      ensures Monitored() && now.watching && now.inTick
      ensures statuses == old(statuses) + if signal then [Stopping] else []
      ensures !signal && lost ==> Finds(Lost)
      ensures !signal && !lost ==> now.passed == {Alive(Provider), Registered} && now.refused == {}
                                   && now.notes.launch.respawned == {}
    {
      hide Monitored, FaultProbe;
      var alive;
      alive, signal := AskAlive(Provider);
      if signal || !alive {
        return true, signal;
      }
      var registered;
      registered, signal := AskRegistered();
      lost := !registered;
    }

    /** A daemon or proxy found dead is forgotten and restarted; the first thing found wrong names the fault. */
    method CheckChildren() returns (found: Tick, signal: bool)
      requires Monitored() && now.watching && now.inTick
      requires now.passed == {Alive(Provider), Registered} && now.refused == {}
      requires now.notes.launch.respawned == {}
      modifies this`daemonPid, this`proxyPid, this`live, this`nextPid, this`log, this`now, this`statuses
      ensures Monitored() && (!signal ==> Finds(found) && !found.Lost?)
      ensures statuses == old(statuses) + if signal then [Stopping] else []
    {
      hide Monitored, Found;
      var there, daemonAlive, proxyAlive;
      there, signal := AskDevice();
      if signal || !there {
        if !signal {
          FaultIsFound(now, V4l2);
        }
        return Failed(V4l2), signal;
      }
      daemonAlive, signal := AskAlive(Daemon);
      if signal {
        return Failed(DaemonDown), true;
      }
      if !daemonAlive {
        signal := RestartDaemon();
        if !signal {
          FaultIsFound(now, DaemonDown);
        }
        return Failed(DaemonDown), signal;
      }
      proxyAlive, signal := AskAlive(Proxy);
      if signal {
        return Failed(ProxyDown), true;
      }
      if !proxyAlive {
        signal := RestartProxy();
        if !signal {
          FaultIsFound(now, ProxyDown);
        }
        return Failed(ProxyDown), signal;
      }
      GoodIsFound(now);
      return Good, false;
    }

    method RestartDaemon() returns (signal: bool)
      requires Monitored() && (daemonPid.Some? ==> daemonPid.value !in live)
      modifies this`daemonPid, this`live, this`nextPid, this`log, this`now, this`statuses
      ensures Monitored() && now == old(now).(live := now.live, started := now.started, notes := now.notes)
      ensures !signal ==> now.notes.launch.respawned == old(now).notes.launch.respawned + {Daemon}
      ensures statuses == old(statuses) + if signal then [Stopping] else []
    {
      hide Logged, After;
      daemonPid := None;
      signal := Boundary();
      if signal {
        return;
      }
      var outcome := StartDaemonWithRetry();
      signal := outcome.Interrupted?;
    }

    method RestartProxy() returns (signal: bool)
      requires Monitored() && (proxyPid.Some? ==> proxyPid.value !in live)
      modifies this`proxyPid, this`live, this`nextPid, this`log, this`now, this`statuses
      ensures Monitored() && now == old(now).(live := now.live, started := now.started, notes := now.notes)
      ensures !signal ==> now.notes.launch.respawned == old(now).notes.launch.respawned + {Proxy}
      ensures statuses == old(statuses) + if signal then [Stopping] else []
    {
      hide Logged, After;
      proxyPid := None;
      signal := Boundary();
      if signal {
        return;
      }
      var outcome := StartProxyWithRetry();
      signal := outcome.Interrupted?;
    }

    /** All questions of one tick. */
    method Examine() returns (found: Tick, signal: bool)
      requires Monitored() && !now.inTick
      modifies this`daemonPid, this`proxyPid, this`live, this`nextPid, this`log, this`now, this`statuses
      ensures Monitored() && (!signal ==> Finds(found))
      ensures statuses == old(statuses) + if signal then [Stopping] else []
    {
      hide Monitored, Finds;
      BeginTick();
      var lost;
      lost, signal := CheckProvider();
      if signal || lost {
        return Lost, signal;
      }
      found, signal := CheckChildren();
    }

    method BeginTick()
      requires Monitored() && !now.inTick
      modifies this`log, this`now
      ensures Monitored()
      ensures now == old(now).(watching := true, inTick := true, passed := {}, refused := {}, notes := now.notes)
      ensures now.notes.launch.respawned == {}
    {
      hide Logged, After;
      TickStartedMeans(now);
      Emit(TickStarted);
    }

    /**
     One tick. It either completes, adding what it found to `ticks` and its writes to `statuses`, or a signal cuts
     it short; `gaveUp` says that the loop is left.
     */
    method MonitorTick(failures: nat) returns (gaveUp: bool, signal: bool, next: nat, ghost cut: seq<Status>)
      requires Monitored() && !now.inTick
      requires failures == Failures(ticks) && NeverGivesUp(ticks)
      modifies this`daemonPid, this`proxyPid, this`live, this`nextPid, this`log, this`now, this`statuses, this`ticks
      ensures Monitored() && (!signal ==> !now.inTick)
      ensures signal ==> !gaveUp && ticks == old(ticks) && statuses == old(statuses) + cut && CutShort(cut)
      ensures !signal ==> |ticks| == |old(ticks)| + 1 && old(ticks) <= ticks && Reports(old(ticks)) <= Reports(ticks)
      ensures !signal ==> statuses == old(statuses) + Reports(ticks)[|Reports(old(ticks))|..]
      ensures !signal ==> Found(now, ticks[|ticks| - 1])
      ensures !signal && gaveUp ==> GivesUpLast(ticks)
      ensures !signal && !gaveUp ==> NeverGivesUp(ticks) && next == Failures(ticks)
    {
      hide Monitored, Finds, Found, Failures, Reports, NeverGivesUp, GivesUpLast;
      gaveUp, next, cut := false, failures, [Stopping];
      signal := MonitoredBoundary();
      if signal {
        return;
      }
      var found;
      found, signal := Examine();
      if signal {
        return;
      }
      if found.Lost? {
        TickReport(found, ProviderLost);
        signal := TickBoundary(found);
        if signal {
          cut := [ProviderLost, Stopping];
          assert statuses == old(statuses) + cut;
          return;
        }
        FinishTick(found);
        return true, false, next, [];
      }
      signal := TickBoundary(found);
      if signal {
        return;
      }
      if found.Good? {
        TickReport(found, Ready);
        FinishTick(found);
        return false, false, 0, [];
      }
      next := failures + 1;
      gaveUp := next >= 3;
      signal, cut := ReportFault(found, gaveUp);
      if signal {
        gaveUp := false;
        return;
      }
      FinishTick(found);
    }

    /** A failed tick's statuses; the last of three in a row adds the second. */
    method ReportFault(found: Tick, last: bool) returns (signal: bool, ghost cut: seq<Status>)
      requires Monitored() && Finds(found) && found.Failed?
      modifies this`live, this`log, this`now, this`statuses
      ensures Monitored() && Finds(found)
      ensures signal ==> CutShort(cut) && statuses == old(statuses) + cut
      ensures !signal ==> cut == []
      ensures !signal ==>
                statuses == old(statuses) + if last then [Restarting(found.what), SafeMode(found.what)]
                                            else [Restarting(found.what)]
    {
      hide Monitored, Finds;
      cut := [];
      TickReport(found, Restarting(found.what));
      signal := TickBoundary(found);
      if signal {
        cut := [Restarting(found.what), Stopping];
        assert statuses == old(statuses) + cut;
      } else if last {
        TickReport(found, SafeMode(found.what));
        signal := TickBoundary(found);
        cut := if signal then [Restarting(found.what), SafeMode(found.what), Stopping] else [];
        assert signal ==> statuses == old(statuses) + cut;
      }
    }

    /** The end of a completed tick. */
    method FinishTick(tick: Tick)
      requires NeverGivesUp(ticks) && Monitored() && Finds(tick)
      modifies this`ticks, this`log, this`now
      ensures Monitored() && !now.inTick && Found(now, tick)
      ensures ticks == old(ticks) + [tick] && old(ticks) <= ticks
      ensures Reports(ticks) == Reports(old(ticks)) + TickReports(old(ticks), tick)
      ensures Failures(ticks) == if tick.Failed? then Failures(old(ticks)) + 1 else 0
      ensures tick.Lost? || Failures(ticks) >= 3 ==> GivesUpLast(ticks)
      ensures !tick.Lost? && Failures(ticks) < 3 ==> NeverGivesUp(ticks)
    {
      hide SafeLog, Summarize, StatusesOf, TicksOf, Failures, GivesUpLast, NeverGivesUp, Reports;
      TickAdded(ticks, tick);
      EndTick(tick);
    }

    method EndTick(tick: Tick)
      requires Monitored() && Finds(tick)
      modifies this`ticks, this`log, this`now
      ensures Monitored() && now == old(now).(inTick := false) && ticks == old(ticks) + [tick]
    {
      hide SafeLog, Summarize, StatusesOf, TicksOf, Found, Classify;
      FoundDecides(now, tick);
      Appended(log, TickEnded);
      AppendedTold(log, TickEnded);
      log, now := log + [TickEnded], now.(inTick := false);
      ticks := ticks + [tick];
    }

    /** The loop, for at most `limit` ticks before a signal ends it. */
    method Monitor(limit: nat) returns (gaveUp: bool, ghost cut: seq<Status>)
      requires Monitored() && !now.inTick && ticks == [] && statuses == [Ready]
      modifies this`daemonPid, this`proxyPid, this`live, this`nextPid, this`log, this`now, this`statuses, this`ticks
      ensures Monitored()
      ensures SafeLog(log) && statuses == StatusesOf(log) && ticks == TicksOf(log)
      ensures if gaveUp then GivesUpLast(ticks) && cut == [] else NeverGivesUp(ticks) && CutShort(cut)
      ensures statuses == [Ready] + Reports(ticks) + cut
    {
      hide Monitored, NeverGivesUp, GivesUpLast, Reports, Failures, CutShort, SafeLog, StatusesOf, TicksOf;
      var failures, signal := 0, false;
      gaveUp, cut := false, [];
      NoTicks();
      assert [Ready] + [] + [] == [Ready];
      while !gaveUp && !signal && |ticks| < limit
        invariant Monitored() && (!signal ==> !now.inTick)
        invariant !gaveUp ==> NeverGivesUp(ticks)
        invariant !gaveUp && !signal ==> failures == Failures(ticks)
        invariant gaveUp ==> GivesUpLast(ticks)
        invariant if signal then CutShort(cut) && !gaveUp else cut == []
        invariant statuses == [Ready] + Reports(ticks) + cut
        decreases limit - |ticks|, !signal
      {
        ghost var more, done, first := [], Reports(ticks), statuses;
        assert first == [Ready] + done;
        gaveUp, signal, failures, more := MonitorTick(failures);
        if signal {
          cut := more;
        } else {
          ghost var added := Reports(ticks)[|done|..];
          assert Reports(ticks) == done + added;
          assert first + added == [Ready] + (done + added) + [];
        }
      }
      if !gaveUp && !signal {
        ReportStopping();
        cut := [Stopping];
        OnlyStopping();
      }
      MonitoredLog();
    }

    /** The records of a run are those of its log. */
    lemma MonitoredLog()
      requires Monitored()
      ensures SafeLog(log) && statuses == StatusesOf(log) && ticks == TicksOf(log)
    {
    }

    // ----- The whole takeover

    /** From ctl.stop until the interface is seen unregistered; false when the run ends before. */
    method StopOem() returns (ok: bool)
      requires Steady() && now == FRESH && statuses == []
      modifies this`oemProviderStopped, this`live, this`log, this`now, this`statuses
      ensures Steady() && (!ok ==> EndsEarly(statuses))
      ensures ok ==> statuses == [] && now == FRESH.(
                live := live, stopping := true, confirmed := true, gone := true, notes := now.notes)
    {
      hide Logged, After;
      ok := ConfirmStop();
      if !ok {
        return;
      }
      var signal := PollInterface();
      if signal {
        return false;
      }
      var registered := AskInterface();
      if registered {
        GiveUp(UnregisterFailed);
        return false;
      }
      InterfaceGoneMeans(now);
      Emit(InterfaceGone);
    }

    /** ctl.stop, and the flag that makes a restore due once the service is seen stopped. */
    method ConfirmStop() returns (ok: bool)
      requires Steady() && now == FRESH && statuses == []
      modifies this`oemProviderStopped, this`live, this`log, this`now, this`statuses
      ensures Steady() && (!ok ==> EndsEarly(statuses))
      ensures ok ==> statuses == []
                     && now == FRESH.(live := live, stopping := true, confirmed := true, notes := now.notes)
    {
      hide Steady;
      IssueStop();
      var signal := PollStop();
      if signal {
        return false;
      }
      var stopped := SteadyAskStopped();
      if !stopped {
        GiveUp(StopFailed);
        return false;
      }
      signal := Boundary();
      if signal {
        return false;
      }
      MarkStopped();
      return true;
    }

    method IssueStop()
      requires Steady()
      modifies this`log, this`now
      ensures Steady() && now == old(now).(stopping := true)
    {
      hide Logged, After;
      CtlStopMeans(now);
      Emit(CtlStop);
    }

    method SteadyAskStopped() returns (stopped: bool)
      requires Steady()
      modifies this`log, this`now
      ensures Steady()
      ensures now == old(now).(notes := old(now).notes.(oem := OemAfter(old(now).notes.oem, AnsweredStop(stopped))))
    {
      hide Valid;
      LiveIsKnown();
      stopped := AskStopped();
    }

    method MarkStopped()
      requires Steady() && now.stopping && now.notes.oem.stopped == Some(true)
      modifies this`oemProviderStopped, this`log, this`now
      ensures Steady() && now == old(now).(confirmed := true)
    {
      hide Logged, After;
      StopConfirmedMeans(now);
      Emit(StopConfirmed);
      oemProviderStopped := true;
    }

    /** What polling the OEM service has changed after so many questions. */
    ghost predicate StopPolled(first: Summary, asked: nat, stopped: bool)
      reads this
    {
      && Steady() && now == first.(live := live, notes := first.notes.(oem := now.notes.oem))
      && (if stopped then now.notes.oem.sawStopped else now.notes.oem.refusals == asked)
    }

    method PollStopOnce(ghost first: Summary, ghost asked: nat) returns (signal: bool, stopped: bool)
      requires StopPolled(first, asked, false)
      modifies this`live, this`log, this`now, this`statuses
      ensures statuses == old(statuses) + if signal then [Stopping] else []
      ensures if signal then StopPolled(first, asked, false) else StopPolled(first, asked + 1, stopped)
    {
      hide Valid;
      stopped := false;
      signal := Boundary();
      if !signal {
        stopped := AskStopped();
      }
    }

    method PolledBoundary(ghost first: Summary, ghost asked: nat, ghost stopped: bool) returns (signal: bool)
      requires StopPolled(first, asked, stopped)
      modifies this`live, this`log, this`now, this`statuses
      ensures statuses == old(statuses) + if signal then [Stopping] else []
      ensures StopPolled(first, asked, stopped)
    {
      hide Valid;
      signal := Boundary();
    }

    /** Up to twenty seconds for the OEM service to stop. */
    method PollStop() returns (signal: bool)
      requires Steady() && now.notes.oem == BLANK.oem
      modifies this`live, this`log, this`now, this`statuses
      ensures Steady() && now == old(now).(live := live, notes := old(now).notes.(oem := now.notes.oem))
      ensures statuses == old(statuses) + if signal then [Stopping] else []
      ensures !signal ==> now.notes.oem.sawStopped || now.notes.oem.refusals > 20
    {
      hide Steady, StopPolled;
      var attempt, stopped := 0, false;
      StopPollStarts();
      while !stopped && attempt <= 20
        invariant StopPolled(old(now), attempt, stopped) && statuses == old(statuses) && attempt <= 21
        decreases 21 - attempt, !stopped
      {
        signal, stopped := PollStopOnce(old(now), attempt);
        if signal {
          StopPollMeans(old(now), attempt, false);
          return;
        }
        attempt := attempt + 1;
      }
      signal := PolledBoundary(old(now), attempt, stopped);
      StopPollMeans(old(now), attempt, stopped);
    }

    lemma StopPollStarts()
      requires Steady() && now.notes.oem == BLANK.oem
      ensures StopPolled(now, 0, false)
    {
      SteadyIsValid();
    }

    lemma StopPollMeans(first: Summary, asked: nat, stopped: bool)
      requires StopPolled(first, asked, stopped)
      ensures Steady() && now == first.(live := live, notes := first.notes.(oem := now.notes.oem))
      ensures if stopped then now.notes.oem.sawStopped else now.notes.oem.refusals == asked
    {
    }

    /** The same for the interface. */
    ghost predicate GonePolled(first: Summary, asked: nat, registered: bool)
      reads this
    {
      && Steady() && now == first.(live := live, notes := first.notes.(wait := now.notes.wait))
      && now.notes.wait.asks == asked && (!registered ==> now.notes.wait.sawGone)
    }

    method PollInterfaceOnce(ghost first: Summary, ghost asked: nat) returns (signal: bool, registered: bool)
      requires GonePolled(first, asked, true)
      modifies this`live, this`log, this`now, this`statuses
      ensures statuses == old(statuses) + if signal then [Stopping] else []
      ensures if signal then GonePolled(first, asked, true) else GonePolled(first, asked + 1, registered)
    {
      hide Valid;
      registered := true;
      signal := Boundary();
      if !signal {
        registered := AskInterface();
      }
    }

    method GoneBoundary(ghost first: Summary, ghost asked: nat, ghost registered: bool) returns (signal: bool)
      requires GonePolled(first, asked, registered)
      modifies this`live, this`log, this`now, this`statuses
      ensures statuses == old(statuses) + if signal then [Stopping] else []
      ensures GonePolled(first, asked, registered)
    {
      hide Valid;
      signal := Boundary();
    }

    method BeginPolling()
      requires Steady()
      modifies this`log, this`now
      ensures GonePolled(old(now), 0, true)
    {
      hide Valid;
      LiveIsKnown();
      BeginWaiting();
    }

    /** Up to twenty seconds for the interface to go. */
    method PollInterface() returns (signal: bool)
      requires Steady()
      modifies this`live, this`log, this`now, this`statuses
      ensures Steady() && now == old(now).(live := live, notes := old(now).notes.(wait := now.notes.wait))
      ensures statuses == old(statuses) + if signal then [Stopping] else []
      ensures !signal ==> now.notes.wait.sawGone || now.notes.wait.asks > 20
    {
      hide Steady, GonePolled;
      BeginPolling();
      var attempt, registered := 0, true;
      while registered && attempt <= 20
        invariant GonePolled(old(now), attempt, registered) && statuses == old(statuses) && attempt <= 21
        decreases 21 - attempt, registered
      {
        signal, registered := PollInterfaceOnce(old(now), attempt);
        if signal {
          GonePollMeans(old(now), attempt, true);
          return;
        }
        attempt := attempt + 1;
      }
      signal := GoneBoundary(old(now), attempt, registered);
      GonePollMeans(old(now), attempt, registered);
    }

    lemma GonePollMeans(first: Summary, asked: nat, registered: bool)
      requires GonePolled(first, asked, registered)
      ensures Steady() && now == first.(live := live, notes := first.notes.(wait := now.notes.wait))
      ensures now.notes.wait.asks == asked && (!registered ==> now.notes.wait.sawGone)
    {
    }

    /** A failure of the takeover is written, unless a signal comes first; one may also come after it. */
    method GiveUp(status: Status)
      requires Steady() && IsStartupFailure(status) && Earned(now, status) && statuses == []
      modifies this`live, this`log, this`now, this`statuses
      ensures Steady() && EndsEarly(statuses)
    {
      hide Logged, After;
      var signal := Boundary();
      if !signal {
        Report(status);
        signal := Boundary();
      }
    }

    /** The daemon with its primed device, then the provider, then the proxy. */
    method StartAll() returns (ready: bool)
      requires Steady() && now.confirmed && now.gone && now.started == map[] && !now.watching && !now.inTick
      requires statuses == [] && providerPid == daemonPid == proxyPid == None
      modifies this`providerPid, this`daemonPid, this`proxyPid
      modifies this`live, this`nextPid, this`log, this`now, this`statuses
      ensures Steady() && (!ready ==> EndsEarly(statuses))
      ensures ready ==> Monitored() && !now.watching && !now.inTick && statuses == []
    {
      hide Steady, Monitored, Earned, EndsEarly;
      StoppingEndsEarly();
      var signal := Boundary();
      if signal {
        return false;
      }
      var daemon := StartDaemonWithRetry();
      if !daemon.Up? {
        if daemon.GaveUp? {
          FailureIsEarned(now, Daemon);
          GiveUp(DaemonStartFailed);
        }
        return false;
      }
      signal := Boundary();
      if signal {
        return false;
      }
      var provider := StartProvider();
      if !provider {
        FailureIsEarned(now, Provider);
        GiveUp(ProviderStartFailed);
        return false;
      }
      signal := Boundary();
      if signal {
        return false;
      }
      var proxy := StartProxyWithRetry();
      if !proxy.Up? {
        if proxy.GaveUp? {
          FailureIsEarned(now, Proxy);
          GiveUp(ProxyStartFailed);
        }
        return false;
      }
      signal := Boundary();
      AllAreStarted();
      return !signal;
    }

    lemma AllAreStarted()
      requires Steady() && now.confirmed && now.gone
      requires Daemon in now.started && Provider in now.started && Proxy in now.started
      ensures Monitored()
    {
    }

    /** Up to the first report of READY; false when the run ends before. */
    method BringUp() returns (ready: bool)
      requires Steady() && now == FRESH && statuses == [] && ticks == []
      requires providerPid == daemonPid == proxyPid == None
      modifies this`providerPid, this`daemonPid, this`proxyPid, this`oemProviderStopped
      modifies this`live, this`nextPid, this`log, this`now, this`statuses
      ensures Steady()
      ensures ready ==> Monitored() && !now.inTick && statuses == [Ready]
      ensures !ready ==> EndsEarly(statuses)
    {
      hide Steady;
      ready := StopOem();
      if ready {
        ready := StartAll();
      }
      if ready {
        ReportFirstReady();
      }
    }

    /**
     Every run: whatever ends it, all children are dead, ctl.start has been issued iff the stop had been
     confirmed, the log is safe, statuses and ticks are those of the log, and the monitor left its loop at the
     first tick that had to.
     */
    method Run(limit: nat) returns (monitored: bool, gaveUp: bool, ghost cut: seq<Status>)
      requires Steady() && now == FRESH && statuses == [] && ticks == []
      requires providerPid == daemonPid == proxyPid == None
      modifies this
      ensures SafeLog(log) && live == {}
      ensures forall pid :: !LiveAt(log, pid)
      ensures CtlStart in log <==> StopConfirmed in log
      ensures statuses == StatusesOf(log) && ticks == TicksOf(log)
      ensures oemProviderStopped <==> CtlStart in log && now.notes.oem.verified == Some(false)
      ensures monitored ==> statuses == [Ready] + Reports(ticks) + cut
      ensures monitored ==>
                if gaveUp then GivesUpLast(ticks) && cut == [] else NeverGivesUp(ticks) && CutShort(cut)
      ensures !monitored ==> EndsEarly(statuses) && ticks == []
    {
      hide NeverGivesUp, GivesUpLast, Reports, CutShort, EndsEarly, StatusesOf, TicksOf;
      gaveUp, cut := false, [];
      monitored := BringUp();
      if monitored {
        gaveUp, cut := Monitor(limit);
      }
      Cleanup();
      FlagsComeFromEvents(log);
      forall pid: Pid ensures !LiveAt(log, pid) {
        LiveMeansSpawnedAndNotDead(log, pid);
      }
    }
  }
}
