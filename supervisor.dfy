/**
 * The supervisor's poll loop.
 *
 * Each tick reads the keep-running flag; while it is set, the tick scans for
 * the server process, classifies the situation as `Absent`, `PresentHealthy`
 * or `PresentLow`, dispatches the commands that situation calls for, and
 * sleeps one second. Once the flag is cleared the loop ends and the watchdog
 * exits with status 0.
 *
 * What the world reports in one tick is an `Observation`; the effects of a run
 * are its trace of `Action`s.
 */
module Supervisor {
  import opened Wrappers
  import opened Actions
  import PS = ProcessScanner
  import MM = MemoryMonitor
  import CD = CommandDispatcher

  /** The watchdog's configuration, read once at startup. */
  datatype Config = Config(serverPath: string, serverCliProcessName: string, memoryThresholds: MM.u64)

  /**
   * What one tick observes: the keep-running flag, what process enumeration
   * and probing report, and the available physical memory in bytes (`None`
   * when the memory status query fails). The scan and the memory are only
   * consulted when the flag is set, the memory only when the server is present.
   */
  datatype Observation = Observation(keepRunning: bool, scan: PS.Snapshot, availableBytes: Option<MM.u64>)

  predicate AllWellFormed(observations: seq<Observation>)
  {
    forall k | 0 <= k < |observations| :: observations[k].scan.WellFormed()
  }

  /** The situation a tick finds the server in. */
  datatype State = Absent | PresentHealthy | PresentLow

  /**
   * Absent when the scan finds no server; low when memory is known and below
   * the threshold; healthy otherwise, including when memory is unknown.
   */
  function Classify(present: bool, availableMb: Option<MM.u64>, threshold: MM.u64): (s: State)
    ensures s == Absent <==> !present
    ensures s == PresentLow <==> present && availableMb.Some? && availableMb.value < threshold
    ensures s == PresentHealthy <==> present && (availableMb.None? || availableMb.value >= threshold)
  {
    if present then
      match availableMb
      case Some(mb) => if mb < threshold then PresentLow else PresentHealthy
      case None => PresentHealthy
    else
      Absent
  }

  /** The situation of one tick, from what it observes. */
  function StateOf(o: Observation, cfg: Config): State
    requires o.scan.WellFormed()
  {
    Classify(PS.ProcessRunning(cfg.serverCliProcessName, o.scan),
             MM.AvailableMemoryMb(o.availableBytes),
             cfg.memoryThresholds)
  }

  /** What the loop dispatches in each situation, before its one-second sleep. */
  function Respond(s: State, cfg: Config): seq<Action>
  {
    match s
    case Absent => [Sleep(3), CD.StartProcess(cfg.serverPath)]
    case PresentLow => CD.RestartBroadcasts() + CD.ShutdownActions()
    case PresentHealthy => []
  }

  /** The actions of one tick: the exit when the flag is cleared, else the response and a sleep. */
  function Tick(o: Observation, cfg: Config): (t: seq<Action>)
    requires o.scan.WellFormed()
    ensures !o.keepRunning ==> t == [Exit(0)]
    ensures o.keepRunning ==> |t| > 0 && t[|t| - 1] == Sleep(1)
    ensures o.keepRunning ==> forall i | 0 <= i < |t| :: !t[i].Exit?
  {
    if o.keepRunning then Respond(StateOf(o, cfg), cfg) + [Sleep(1)] else [Exit(0)]
  }

  /**
   * The trace of a run that observes `observations` tick by tick, up to the
   * exit. Every exit in it has status 0 and is its last action.
   */
  function Trace(observations: seq<Observation>, cfg: Config): (t: seq<Action>)
    requires AllWellFormed(observations)
    ensures ExitOnlyLast(t)
    decreases |observations|
  {
    if observations == [] then []
    else if observations[0].keepRunning then
      var first := Tick(observations[0], cfg);
      var rest := Trace(observations[1..], cfg);
      ExitOnlyLastAfter(first, rest);
      first + rest
    else Tick(observations[0], cfg)
  }

  /** Every exit in `t` has status 0 and is the last action. */
  predicate ExitOnlyLast(t: seq<Action>)
  {
    forall i | 0 <= i < |t| && t[i].Exit? :: t[i] == Exit(0) && i == |t| - 1
  }

  /** Actions without an exit, put in front of a trace, keep its exit last. */
  lemma ExitOnlyLastAfter(first: seq<Action>, rest: seq<Action>)
    requires forall i | 0 <= i < |first| :: !first[i].Exit?
    requires ExitOnlyLast(rest)
    ensures ExitOnlyLast(first + rest)
  {
    forall i | 0 <= i < |first + rest| && (first + rest)[i].Exit?
      ensures (first + rest)[i] == Exit(0) && i == |first + rest| - 1
    {
      if i >= |first| {
        assert (first + rest)[i] == rest[i - |first|];
      }
    }
  }

  /**
   * The poll loop, over the observations its ticks make. It stops at the first
   * tick whose flag is cleared, and otherwise when the observations run out.
   */
  method Supervise(cfg: Config, observations: seq<Observation>) returns (trace: seq<Action>)
    requires AllWellFormed(observations)
    ensures trace == Trace(observations, cfg)
  {
    trace := [];
    var i := 0;
    while i < |observations| && observations[i].keepRunning
      invariant i <= |observations|
      invariant trace + Trace(observations[i..], cfg) == Trace(observations, cfg)
    {
      var o := observations[i];
      TraceStep(observations, i, cfg);
      var step := RunTick(cfg, o);
      trace := trace + step;
      i := i + 1;
    }
    if i < |observations| {
      assert observations[i..][0] == observations[i];
      trace := trace + [Exit(0)];
    } else {
      assert observations[i..] == [];
    }
  }

  /**
   * The body of the loop for a tick whose flag is set: scan, then relaunch,
   * restart or do nothing, then sleep one second.
   */
  method RunTick(cfg: Config, o: Observation) returns (step: seq<Action>)
    requires o.scan.WellFormed() && o.keepRunning
    ensures step == Tick(o, cfg)
  {
    TickCases(o, cfg);
    var present := PS.IsProcessRunning(cfg.serverCliProcessName, o.scan);
    if present {
      var availableMb := MM.AvailableMemoryMb(o.availableBytes);
      if availableMb.Some? && availableMb.value < cfg.memoryThresholds {
        var warnings := CD.BroadcastServerRestart();
        var commands := CD.ExecuteCommandsConcurrently();
        step := warnings + commands;
        assert StateOf(o, cfg) == PresentLow;
        assert warnings == [Bcast(CD.RestartWarning), Bcast(CD.RestartWarning), Bcast(CD.RestartWarning)];
      } else {
        step := [];
        assert StateOf(o, cfg) == PresentHealthy;
      }
    } else {
      step := [Sleep(3), CD.StartProcess(cfg.serverPath)];
      assert StateOf(o, cfg) == Absent;
    }
    step := step + [Sleep(1)];
  }

  /** One more tick of a run whose flag is still set. */
  lemma TraceStep(observations: seq<Observation>, i: nat, cfg: Config)
    requires AllWellFormed(observations)
    requires i < |observations| && observations[i].keepRunning
    ensures AllWellFormed(observations[i..]) && AllWellFormed(observations[i + 1..])
    ensures Trace(observations[i..], cfg) == Tick(observations[i], cfg) + Trace(observations[i + 1..], cfg)
  {
  }

  // ---------------------------------------------------------------------------
  // One tick

  /** The actions of a tick, spelled out for each situation. */
  lemma TickCases(o: Observation, cfg: Config)
    requires o.scan.WellFormed()
    ensures !o.keepRunning ==> Tick(o, cfg) == [Exit(0)]
    ensures o.keepRunning && StateOf(o, cfg) == Absent ==>
      Tick(o, cfg) == [Sleep(3), Launch(cfg.serverPath, CD.LaunchFlags), Sleep(1)]
    ensures o.keepRunning && StateOf(o, cfg) == PresentLow ==>
      Tick(o, cfg) == [Bcast(CD.RestartWarning), Bcast(CD.RestartWarning), Bcast(CD.RestartWarning),
                       Rcon("save"), Rcon("q"), Sleep(1)]
    ensures o.keepRunning && StateOf(o, cfg) == PresentHealthy ==> Tick(o, cfg) == [Sleep(1)]
  {
  }

  lemma TickStopped(o: Observation, cfg: Config)
    requires o.scan.WellFormed() && !o.keepRunning
    ensures Tick(o, cfg) == [Exit(0)]
  {
  }

  /** An absent server is relaunched with the three fixed flags after a three-second wait. */
  lemma TickAbsent(o: Observation, cfg: Config)
    requires o.scan.WellFormed() && o.keepRunning
    requires !PS.ProcessRunning(cfg.serverCliProcessName, o.scan)
    ensures Tick(o, cfg) ==
      [Sleep(3),
       Launch(cfg.serverPath, ["-useperfthreads", "-NoAsyncLoadingThread", "-UseMultithreadForDS"]),
       Sleep(1)]
  {
  }

  /**
   * Low memory triggers three warning broadcasts, one `save` and one `q`, the
   * `save` before the `q`, and nothing else but the closing sleep. Where the
   * broadcasts fall relative to `save` and `q` is not stated.
   */
  lemma TickPresentLow(o: Observation, cfg: Config)
    requires o.scan.WellFormed() && o.keepRunning
    requires PS.ProcessRunning(cfg.serverCliProcessName, o.scan)
    requires o.availableBytes.Some?
    requires MM.AvailableMemoryMb(o.availableBytes).value < cfg.memoryThresholds
    ensures var t := Tick(o, cfg);
      && |t| == 6
      && multiset(t)[Bcast("server_will_restart_in_60_seconds.")] == 3
      && multiset(t)[Rcon("save")] == 1
      && multiset(t)[Rcon("q")] == 1
      && multiset(t)[Sleep(1)] == 1
      && (forall i, j :: 0 <= i < |t| && 0 <= j < |t| && t[i] == Rcon("save") && t[j] == Rcon("q") ==> i < j)
      && t[|t| - 1] == Sleep(1)
  {
    TickCases(o, cfg);
  }

  /** A present server with enough or unknown memory causes no dispatch at all. */
  lemma TickPresentHealthy(o: Observation, cfg: Config)
    requires o.scan.WellFormed() && o.keepRunning
    requires PS.ProcessRunning(cfg.serverCliProcessName, o.scan)
    requires o.availableBytes.None? ||
             MM.AvailableMemoryMb(o.availableBytes).value >= cfg.memoryThresholds
    ensures Tick(o, cfg) == [Sleep(1)]
  {
  }

  // ---------------------------------------------------------------------------
  // Whole runs

  /** Ticks run before the flag is cleared simply concatenate their actions. */
  lemma {:induction false} TraceSplit(a: seq<Observation>, b: seq<Observation>, cfg: Config)
    requires AllWellFormed(a) && AllWellFormed(b)
    requires forall k | 0 <= k < |a| :: a[k].keepRunning
    ensures AllWellFormed(a + b)
    ensures Trace(a + b, cfg) == Trace(a, cfg) + Trace(b, cfg)
    decreases |a|
  {
    if a == [] {
      assert a + b == b;
    } else {
      assert (a + b)[0] == a[0];
      assert (a + b)[1..] == a[1..] + b;
      TraceSplit(a[1..], b, cfg);
      calc {
        Trace(a + b, cfg);
        Tick(a[0], cfg) + Trace(a[1..] + b, cfg);
        Tick(a[0], cfg) + (Trace(a[1..], cfg) + Trace(b, cfg));
        (Tick(a[0], cfg) + Trace(a[1..], cfg)) + Trace(b, cfg);
      }
    }
  }

  /** The run exits exactly when some tick reads a cleared flag. */
  lemma {:induction false} ExitIffFlagCleared(observations: seq<Observation>, cfg: Config)
    requires AllWellFormed(observations)
    ensures Exit(0) in Trace(observations, cfg) <==>
            exists k | 0 <= k < |observations| :: !observations[k].keepRunning
    decreases |observations|
  {
    if observations != [] && observations[0].keepRunning {
      ExitIffFlagCleared(observations[1..], cfg);
      var t0 := Tick(observations[0], cfg);
      TickCases(observations[0], cfg);
      assert Exit(0) !in t0;
      if exists k | 0 <= k < |observations| :: !observations[k].keepRunning {
        var k :| 0 <= k < |observations| && !observations[k].keepRunning;
        assert !observations[1..][k - 1].keepRunning;
      }
      if exists k | 0 <= k < |observations[1..]| :: !observations[1..][k].keepRunning {
        var k :| 0 <= k < |observations[1..]| && !observations[1..][k].keepRunning;
        assert !observations[k + 1].keepRunning;
      }
    }
  }

  /**
   * The first tick that reads a cleared flag ends the run: the ticks after it
   * are never observed.
   */
  lemma {:induction false} TraceStopsAtFlag(observations: seq<Observation>, k: nat, cfg: Config)
    requires AllWellFormed(observations)
    requires k < |observations| && !observations[k].keepRunning
    requires forall j | 0 <= j < k :: observations[j].keepRunning
    ensures AllWellFormed(observations[..k])
    ensures Trace(observations, cfg) == Trace(observations[..k], cfg) + [Exit(0)]
  {
    assert observations == observations[..k] + observations[k..];
    TraceSplit(observations[..k], observations[k..], cfg);
  }

  /**
   * Idempotence: while the server is present and healthy, every tick only
   * sleeps one second.
   */
  lemma {:induction false} HealthyRunOnlySleeps(observations: seq<Observation>, cfg: Config)
    requires AllWellFormed(observations)
    requires forall k | 0 <= k < |observations| ::
      observations[k].keepRunning && StateOf(observations[k], cfg) == PresentHealthy
    ensures Trace(observations, cfg) == seq(|observations|, _ => Sleep(1))
    decreases |observations|
  {
    if observations != [] {
      HealthyRunOnlySleeps(observations[1..], cfg);
    }
  }

  /** How often one tick dispatches each restart command and the launch. */
  lemma TickCounts(o: Observation, cfg: Config)
    requires o.scan.WellFormed() && o.keepRunning
    ensures var m := multiset(Tick(o, cfg));
      var low := if StateOf(o, cfg) == PresentLow then 1 else 0;
      var absent := if StateOf(o, cfg) == Absent then 1 else 0;
      && m[Bcast(CD.RestartWarning)] == 3 * low
      && m[Rcon("save")] == low
      && m[Rcon("q")] == low
      && m[Launch(cfg.serverPath, CD.LaunchFlags)] == absent
  {
    TickCases(o, cfg);
    var st := StateOf(o, cfg);
    if st == PresentLow {
      RestartTickCounts(cfg.serverPath);
    } else if st == Absent {
      LaunchTickCounts(cfg.serverPath);
    }
  }

  /**
   * Counts in the actions of a low-memory tick. This and `LaunchTickCounts`
   * are steps of `TickCounts`, kept apart from `Tick` so that its proof stays
   * within the verifier's resource limit.
   */
  lemma RestartTickCounts(path: string)
    ensures var m := multiset([Bcast(CD.RestartWarning), Bcast(CD.RestartWarning), Bcast(CD.RestartWarning),
                               Rcon("save"), Rcon("q"), Sleep(1)]);
      && m[Bcast(CD.RestartWarning)] == 3 && m[Rcon("save")] == 1 && m[Rcon("q")] == 1
      && m[Launch(path, CD.LaunchFlags)] == 0
  {
  }

  /** Counts in the actions of a tick that relaunches the server (a step of `TickCounts`). */
  lemma LaunchTickCounts(path: string)
    ensures var m := multiset([Sleep(3), Launch(path, CD.LaunchFlags), Sleep(1)]);
      && m[Bcast(CD.RestartWarning)] == 0 && m[Rcon("save")] == 0 && m[Rcon("q")] == 0
      && m[Launch(path, CD.LaunchFlags)] == 1
  {
  }

  /** Number of ticks before the flag is cleared whose situation is `s`. */
  function TicksIn(observations: seq<Observation>, cfg: Config, s: State): nat
    requires AllWellFormed(observations)
    decreases |observations|
  {
    if observations == [] || !observations[0].keepRunning then 0
    else (if StateOf(observations[0], cfg) == s then 1 else 0) + TicksIn(observations[1..], cfg, s)
  }

  /**
   * Nothing suppresses repeated restarts or relaunches: every low-memory tick
   * dispatches three warnings, one `save` and one `q`, and every tick that
   * finds the server absent launches it once.
   */
  lemma {:induction false} DispatchCounts(observations: seq<Observation>, cfg: Config)
    requires AllWellFormed(observations)
    ensures var m := multiset(Trace(observations, cfg));
      && m[Bcast("server_will_restart_in_60_seconds.")] == 3 * TicksIn(observations, cfg, PresentLow)
      && m[Rcon("save")] == TicksIn(observations, cfg, PresentLow)
      && m[Rcon("q")] == TicksIn(observations, cfg, PresentLow)
      && m[Launch(cfg.serverPath, CD.LaunchFlags)] == TicksIn(observations, cfg, Absent)
    decreases |observations|
  {
    if observations != [] && observations[0].keepRunning {
      DispatchCounts(observations[1..], cfg);
      TickCounts(observations[0], cfg);
      assert multiset(Trace(observations, cfg)) ==
             multiset(Tick(observations[0], cfg)) + multiset(Trace(observations[1..], cfg));
    }
  }
}
