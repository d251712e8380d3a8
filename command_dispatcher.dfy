/**
 * The commands the watchdog dispatches: the restart warning broadcasts, the
 * save-and-quit pair sent to the remote console helper, and the launch of the
 * server executable. Each dispatch is recorded as an `Action`; whether the
 * spawned command succeeds is not awaited by the watchdog and is not modelled.
 */
module CommandDispatcher {
  import opened Actions

  /** The warning every restart broadcast carries. */
  const RestartWarning: string := "server_will_restart_in_60_seconds."

  /** Number of warning broadcasts per restart. */
  const WarningCount: nat := 3

  /** The console subcommands sent after the warnings, in this order. */
  const ShutdownCommands: seq<string> := ["save", "q"]

  /** The flags the server executable is always started with, in this order. */
  const LaunchFlags: seq<string> := ["-useperfthreads", "-NoAsyncLoadingThread", "-UseMultithreadForDS"]

  /** The warning broadcasts of one restart. */
  function RestartBroadcasts(): seq<Action>
  {
    seq(WarningCount, _ => Bcast(RestartWarning))
  }

  /** The save-then-quit console commands of one restart. */
  function ShutdownActions(): seq<Action>
  {
    seq(|ShutdownCommands|, k requires 0 <= k < |ShutdownCommands| => Rcon(ShutdownCommands[k]))
  }

  /** Starting the server at `path`. */
  function StartProcess(path: string): (a: Action)
    ensures a == Launch(path, ["-useperfthreads", "-NoAsyncLoadingThread", "-UseMultithreadForDS"])
  {
    Launch(path, LaunchFlags)
  }

  /**
   * Starts one broadcast worker per entry of a list holding the warning three
   * times; the workers are not joined, so each `Bcast` records the start of a
   * worker, not the moment its helper runs.
   */
  method BroadcastServerRestart() returns (dispatched: seq<Action>)
    ensures |dispatched| == 3
    ensures forall j :: 0 <= j < 3 ==> dispatched[j] == Bcast("server_will_restart_in_60_seconds.")
    ensures dispatched == RestartBroadcasts()
  {
    var commands := seq(WarningCount, _ => RestartWarning);
    dispatched := [];
    for k := 0 to |commands|
      invariant |dispatched| == k
      invariant forall j :: 0 <= j < k ==> dispatched[j] == Bcast(RestartWarning)
    {
      dispatched := dispatched + [Bcast(commands[k])];
    }
  }

  /** Spawns `save` and then `q`; a spawn failure is only reported. */
  method ExecuteCommandsConcurrently() returns (dispatched: seq<Action>)
    ensures dispatched == [Rcon("save"), Rcon("q")]
    ensures dispatched == ShutdownActions()
  {
    var commands := ShutdownCommands;
    dispatched := [];
    for k := 0 to |commands|
      invariant dispatched == seq(k, j requires 0 <= j < k => Rcon(commands[j]))
    {
      dispatched := dispatched + [Rcon(commands[k])];
    }
  }
}
