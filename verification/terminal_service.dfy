/**
  `TerminalService` as a state machine. The registry maps a terminal id to
  the pty process serving it. Besides the four operations the renderer
  drives (create, write, resize, kill) and `killAll`, three environment
  steps are explicit: a process producing output, a process exiting on its
  own, and the 500 ms startup timer firing. Everything observable (process
  spawns, writes, resizes and kills, and the events sent to the window) is
  appended to a trace.

  A process handle is the number of processes spawned before it, so a new
  handle is always fresh. Each process's callbacks and timer keep the id it
  was created under, recorded in `owner`.
 */
module TerminalService {
  import opened Optional

  type Handle = nat

  datatype Effect =
    | Spawned(handle: Handle, cwd: string, cols: int, rows: int)  // pty.spawn
    | Wrote(handle: Handle, data: string)                          // ptyProcess.write
    | Resized(handle: Handle, cols: int, rows: int)                // ptyProcess.resize
    | Killed(handle: Handle)                                       // ptyProcess.kill
    | OutputEvent(terminalId: string, data: string)                // 'terminal:data'
    | ExitEvent(terminalId: string, exitCode: int)                 // 'terminal:exit'

  /** A pending startup injection, with the id and handle it captured. */
  datatype Timer = Timer(terminalId: string, handle: Handle)

  datatype Service = Service(
    terminals: map<string, Handle>,
    owner: map<Handle, string>,
    exited: set<Handle>,
    timers: set<Timer>,
    nextHandle: Handle,
    trace: seq<Effect>)

  const Initial := Service(map[], map[], {}, {}, 0, [])

  /** Written to the shell when the startup timer fires (the same text for
      `cmd` and PowerShell). */
  const StartupCommand := "claude\r\n"
  const InitialCols := 80
  const InitialRows := 30

  /** What `pty.spawn` does: start a process, or throw with a message. */
  datatype SpawnOutcome = Spawns | SpawnThrows(message: string)

  /** The bookkeeping every reachable state keeps: a registered handle was
      created under the id it is registered with and has not exited;
      handles below the counter are the spawned ones; a timer keeps the id
      its process was created under. */
  predicate Valid(s: Service) {
    && (forall id :: id in s.terminals ==>
          s.terminals[id] in s.owner && s.owner[s.terminals[id]] == id && s.terminals[id] !in s.exited)
    && (forall h :: h in s.owner ==> h < s.nextHandle)
    && (forall h :: h in s.exited ==> h in s.owner)
    && (forall t :: t in s.timers ==> t.handle in s.owner && s.owner[t.handle] == t.terminalId)
  }

  lemma InitialValid()
    ensures Valid(Initial)
  {
  }

  /** In a valid state no handle is registered under two ids. */
  lemma RegistryInjective(s: Service, a: string, b: string)
    requires Valid(s) && a in s.terminals && b in s.terminals
    requires s.terminals[a] == s.terminals[b]
    ensures a == b
  {
  }

  datatype CreateStep = CreateStep(service: Service, thrown: Option<string>)

  /** `createTerminal`. The entry is set only after the spawn, so a spawn
      that throws leaves the service as it was; an id already present is
      overwritten without its process being killed. */
  function Create(s: Service, id: string, cwd: string, spawn: SpawnOutcome): (r: CreateStep)
    ensures spawn.SpawnThrows? ==> r.service == s && r.thrown == Some(spawn.message)
    ensures spawn.Spawns? ==>
      var h := s.nextHandle;
      && r.thrown == None
      && (Valid(s) ==> h !in s.owner.Keys)
      && r.service.terminals == s.terminals[id := h]
      && r.service.owner == s.owner[h := id]
      && r.service.timers == s.timers + {Timer(id, h)}
      && r.service.exited == s.exited
      && r.service.trace == s.trace + [Spawned(h, cwd, InitialCols, InitialRows)]
    ensures Valid(s) ==> Valid(r.service)
  {
    match spawn
    case SpawnThrows(message) => CreateStep(s, Some(message))
    case Spawns =>
      var h := s.nextHandle;
      var s' := Service(
        s.terminals[id := h],
        s.owner[h := id],
        s.exited,
        s.timers + {Timer(id, h)},
        h + 1,
        s.trace + [Spawned(h, cwd, InitialCols, InitialRows)]);
      CreateStep(s', None)
  }

  /** `write`: forwarded to the registered process; an unknown id is
      ignored. */
  function Write(s: Service, id: string, data: string): (r: Service)
    ensures id in s.terminals ==> r == s.(trace := s.trace + [Wrote(s.terminals[id], data)])
    ensures id !in s.terminals ==> r == s
    ensures Valid(s) ==> Valid(r)
  {
    if id in s.terminals then s.(trace := s.trace + [Wrote(s.terminals[id], data)]) else s
  }

  /** `resize`: forwarded to the registered process; an unknown id is
      ignored. */
  function Resize(s: Service, id: string, cols: int, rows: int): (r: Service)
    ensures id in s.terminals ==> r == s.(trace := s.trace + [Resized(s.terminals[id], cols, rows)])
    ensures id !in s.terminals ==> r == s
    ensures Valid(s) ==> Valid(r)
  {
    if id in s.terminals then s.(trace := s.trace + [Resized(s.terminals[id], cols, rows)]) else s
  }

  /** `kill`: the process is killed and its id removed at once; its exit
      notification arrives later as a `SelfExit` step. */
  function Kill(s: Service, id: string): (r: Service)
    ensures id !in r.terminals
    ensures forall other :: other != id ==>
      (other in r.terminals <==> other in s.terminals) &&
      (other in r.terminals ==> r.terminals[other] == s.terminals[other])
    ensures id in s.terminals ==> r.trace == s.trace + [Killed(s.terminals[id])]
    ensures id !in s.terminals ==> r == s
    ensures r.owner == s.owner && r.exited == s.exited && r.timers == s.timers
    ensures Valid(s) ==> Valid(r)
  {
    if id in s.terminals then
      s.(terminals := s.terminals - {id}, trace := s.trace + [Killed(s.terminals[id])])
    else s
  }

  /** A second kill of the same id does nothing. */
  lemma KillIdempotent(s: Service, id: string)
    ensures Kill(Kill(s, id), id) == Kill(s, id)
  {
  }

  /** `killAll`: every registered process is killed once, in some order
      (the source follows the map's insertion order), and the registry is
      left empty. */
  method KillAll(s: Service) returns (r: Service)
    ensures r.terminals == map[]
    ensures r.owner == s.owner && r.exited == s.exited && r.timers == s.timers
    ensures r.nextHandle == s.nextHandle
    ensures |r.trace| == |s.trace| + |s.terminals|
    ensures r.trace[..|s.trace|] == s.trace
    ensures forall id :: id in s.terminals ==> Killed(s.terminals[id]) in r.trace[|s.trace|..]
    ensures forall k :: |s.trace| <= k < |r.trace| ==>
      r.trace[k].Killed? && r.trace[k].handle in s.terminals.Values
    ensures Valid(s) ==> Valid(r)
  {
    var remaining := s.terminals.Keys;
    var kills: seq<Effect> := [];
    while remaining != {}
      invariant remaining <= s.terminals.Keys
      invariant |kills| + |remaining| == |s.terminals.Keys|
      invariant forall id :: id in s.terminals && id !in remaining ==> Killed(s.terminals[id]) in kills
      invariant forall k :: 0 <= k < |kills| ==> kills[k].Killed? && kills[k].handle in s.terminals.Values
      decreases remaining
    {
      var id :| id in remaining;
      kills := kills + [Killed(s.terminals[id])];
      remaining := remaining - {id};
    }
    r := s.(terminals := map[], trace := s.trace + kills);
    assert r.trace[|s.trace|..] == kills;
    assert r.trace[..|s.trace|] == s.trace;
  }

  /** A process produced output: an output event carrying the id the
      process was created under, sent only while the window is open. The
      handler does not look at the registry, so neither a kill nor a newer
      process under the same id changes where the data goes. */
  function Output(s: Service, h: Handle, data: string, windowOpen: bool): (r: Service)
    ensures h in s.owner && windowOpen ==>
      r == s.(trace := s.trace + [OutputEvent(s.owner[h], data)])
    ensures !(h in s.owner && windowOpen) ==> r == s
    ensures Valid(s) ==> Valid(r)
  {
    if h in s.owner && windowOpen then
      s.(trace := s.trace + [OutputEvent(s.owner[h], data)])
    else s
  }

  /** A process exited on its own (also after a kill): the id it was created
      under is deleted, whatever process is registered there now; then an
      exit event is sent if the window is open. */
  function SelfExit(s: Service, h: Handle, exitCode: int, windowOpen: bool): (r: Service)
    ensures h in s.owner && h !in s.exited ==>
      && r.terminals == s.terminals - {s.owner[h]}
      && r.exited == s.exited + {h}
      && r.trace == s.trace + (if windowOpen then [ExitEvent(s.owner[h], exitCode)] else [])
      && r.owner == s.owner && r.timers == s.timers
    ensures !(h in s.owner && h !in s.exited) ==> r == s
    ensures Valid(s) ==> Valid(r)
  {
    if h in s.owner && h !in s.exited then
      var id := s.owner[h];
      s.(terminals := s.terminals - {id},
         exited := s.exited + {h},
         trace := s.trace + (if windowOpen then [ExitEvent(id, exitCode)] else []))
    else s
  }

  /** The startup timer fires: the startup command is written to the
      process captured at creation exactly when its id is still registered
      at that moment, whichever process that id now names. */
  function TimerFire(s: Service, t: Timer): (r: Service)
    ensures t in s.timers ==> r.timers == s.timers - {t}
    ensures t in s.timers && t.terminalId in s.terminals ==>
      r.trace == s.trace + [Wrote(t.handle, StartupCommand)]
    ensures t in s.timers && t.terminalId !in s.terminals ==> r.trace == s.trace
    ensures t !in s.timers ==> r == s
    ensures r.terminals == s.terminals && r.owner == s.owner && r.exited == s.exited
    ensures Valid(s) ==> Valid(r)
  {
    if t !in s.timers then s
    else
      var s' := s.(timers := s.timers - {t});
      if t.terminalId in s.terminals then s'.(trace := s.trace + [Wrote(t.handle, StartupCommand)])
      else s'
  }

  // ---------------------------------------------------------------------
  // Scenarios the registry's design allows

  /** Killing a terminal before its timer fires suppresses the startup
      command. */
  lemma KillBeforeTimerSuppressesStartup(s: Service, id: string, cwd: string)
    requires Valid(s)
    ensures var s1 := Create(s, id, cwd, Spawns).service;
      var t := Timer(id, s.nextHandle);
      var s2 := Kill(s1, id);
      t in s2.timers && TimerFire(s2, t).trace == s2.trace
  {
  }

  /** Kill followed by re-creation of the same id inside the timer window:
      the first timer sees the id registered again and writes the startup
      command to the first, killed, process rather than the new one. */
  lemma RecreatedIdReceivesStaleStartupWrite(s: Service, id: string, cwd: string)
    requires Valid(s)
    ensures var h1 := s.nextHandle;
      var s1 := Create(s, id, cwd, Spawns).service;
      var s2 := Kill(s1, id);
      var s3 := Create(s2, id, cwd, Spawns).service;
      var s4 := TimerFire(s3, Timer(id, h1));
      && s3.terminals[id] != h1
      && Killed(h1) in s3.trace
      && s4.trace == s3.trace + [Wrote(h1, StartupCommand)]
  {
    var h1 := s.nextHandle;
    var s1 := Create(s, id, cwd, Spawns).service;
    var s2 := Kill(s1, id);
    assert s2.trace[|s2.trace| - 1] == Killed(h1);
    var s3 := Create(s2, id, cwd, Spawns).service;
    assert s3.trace[|s2.trace| - 1] == Killed(h1);
  }

  /** Re-creating an id that is still registered, then the first process
      exiting: its exit deletes the id, and the second process, still
      running, is no longer reachable through the registry. */
  lemma OverwrittenProcessExitUnregistersSuccessor(s: Service, id: string, cwd: string, code: int, windowOpen: bool)
    requires Valid(s)
    ensures var h1 := s.nextHandle;
      var s1 := Create(s, id, cwd, Spawns).service;
      var s2 := Create(s1, id, cwd, Spawns).service;
      var h2 := s2.terminals[id];
      var s3 := SelfExit(s2, h1, code, windowOpen);
      && h2 != h1
      && id !in s3.terminals
      && h2 !in s3.exited
      && Write(s3, id, "x") == s3
  {
  }

  /** Kill followed by re-creation of the same id, as the terminal view's
      effect clean-up and re-run do: the killed process's exit, arriving
      after the re-creation, deletes the id, so the new, running process is
      no longer reachable and later writes to the id are dropped. */
  lemma KilledProcessExitUnregistersSuccessor(s: Service, id: string, cwd: string, code: int, windowOpen: bool)
    requires Valid(s)
    ensures var h1 := s.nextHandle;
      var s1 := Create(s, id, cwd, Spawns).service;
      var s2 := Kill(s1, id);
      var s3 := Create(s2, id, cwd, Spawns).service;
      var h2 := s3.terminals[id];
      var s4 := SelfExit(s3, h1, code, windowOpen);
      && h2 != h1
      && id !in s4.terminals
      && h2 !in s4.exited
      && Write(s4, id, "x") == s4
  {
  }

  // ---------------------------------------------------------------------
  // The callbacks guarded by the process they belong to

  /** The exit callback as evidently intended: the id is unregistered only
      while it still names the exiting process. */
  function OwnExit(s: Service, h: Handle, exitCode: int, windowOpen: bool): (r: Service)
    ensures forall id :: id in s.terminals && s.terminals[id] != h ==>
      id in r.terminals && r.terminals[id] == s.terminals[id]
    ensures forall id :: id in r.terminals ==> id in s.terminals && r.terminals[id] == s.terminals[id]
    ensures Valid(s) && h in s.owner && h !in s.exited ==>
      && h !in r.terminals.Values
      && r.exited == s.exited + {h}
      && r.trace == s.trace + (if windowOpen then [ExitEvent(s.owner[h], exitCode)] else [])
    ensures !(h in s.owner && h !in s.exited) ==> r == s
    ensures Valid(s) ==> Valid(r)
  {
    if h in s.owner && h !in s.exited then
      var id := s.owner[h];
      var mine := id in s.terminals && s.terminals[id] == h;
      s.(terminals := if mine then s.terminals - {id} else s.terminals,
         exited := s.exited + {h},
         trace := s.trace + (if windowOpen then [ExitEvent(id, exitCode)] else []))
    else s
  }

  /** With the guarded callback the same kill, re-create and late exit
      leave the new process registered. */
  lemma KilledProcessExitKeepsSuccessor(s: Service, id: string, cwd: string, code: int, windowOpen: bool)
    requires Valid(s)
    ensures var s1 := Create(s, id, cwd, Spawns).service;
      var s2 := Kill(s1, id);
      var s3 := Create(s2, id, cwd, Spawns).service;
      var s4 := OwnExit(s3, s.nextHandle, code, windowOpen);
      && id in s4.terminals && s4.terminals[id] == s3.terminals[id]
      && s4.terminals[id] !in s4.exited
  {
    var s1 := Create(s, id, cwd, Spawns).service;
    var s2 := Kill(s1, id);
    var s3 := Create(s2, id, cwd, Spawns).service;
    assert s3.terminals[id] != s.nextHandle;
    assert Valid(OwnExit(s3, s.nextHandle, code, windowOpen));
  }

  /** The startup timer as evidently intended: the command goes to the
      captured process only while it is still the one registered. */
  function OwnTimerFire(s: Service, t: Timer): (r: Service)
    ensures t in s.timers ==> r.timers == s.timers - {t}
    ensures |r.trace| > |s.trace| ==>
      && t.terminalId in s.terminals && s.terminals[t.terminalId] == t.handle
      && r.trace == s.trace + [Wrote(t.handle, StartupCommand)]
    ensures t in s.timers && t.terminalId in s.terminals && s.terminals[t.terminalId] == t.handle ==>
      r.trace == s.trace + [Wrote(t.handle, StartupCommand)]
    ensures r.trace == s.trace || |r.trace| == |s.trace| + 1
    ensures t !in s.timers ==> r == s
    ensures r.terminals == s.terminals && r.owner == s.owner && r.exited == s.exited
    ensures Valid(s) ==> Valid(r)
  {
    if t !in s.timers then s
    else
      var s' := s.(timers := s.timers - {t});
      if t.terminalId in s.terminals && s.terminals[t.terminalId] == t.handle then
        s'.(trace := s.trace + [Wrote(t.handle, StartupCommand)])
      else s'
  }

  /** Under the guard a registered, running process receives every startup
      write, and a killed one none. */
  lemma OwnStartupWriteReachesLiveProcess(s: Service, t: Timer)
    requires Valid(s)
    requires |OwnTimerFire(s, t).trace| > |s.trace|
    ensures t.handle in s.terminals.Values && t.handle !in s.exited
  {
    assert s.terminals[t.terminalId] == t.handle;
  }

  /** The guarded timer does not write to the killed first process when the
      id is re-created inside the timer window. */
  lemma RecreatedIdGetsNoStaleWrite(s: Service, id: string, cwd: string)
    requires Valid(s)
    ensures var h1 := s.nextHandle;
      var s1 := Create(s, id, cwd, Spawns).service;
      var s2 := Kill(s1, id);
      var s3 := Create(s2, id, cwd, Spawns).service;
      OwnTimerFire(s3, Timer(id, h1)).trace == s3.trace
  {
  }
}
