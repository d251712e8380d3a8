# Palworld server watchdog: a verified model of its supervision logic

The watchdog keeps one dedicated-server process alive on a machine with little
memory. It runs a poll loop until its keep-running flag is cleared by Ctrl+C.
Each tick it scans the running processes for an image path that contains a
configured name fragment:

- If no such process is running, it waits 3 seconds and launches the server
  with the flags `-useperfthreads`, `-NoAsyncLoadingThread` and
  `-UseMultithreadForDS`.
- If the process is running and the available physical memory (in MB) is known
  and below the configured threshold, it starts three unjoined worker threads.
  Each worker runs `bin/palworld_rcon bcast server_will_restart_in_60_seconds.`
  at a time of its own. The main thread then spawns `bin/palworld_rcon save` and
  `bin/palworld_rcon q`, in that order.
- Otherwise it does nothing.

Every tick ends with a 1-second sleep. Once the flag reads false, the watchdog
exits with status 0.

The model replaces the operating system by inputs and records effects as a trace:

- `ProcessScanner` models the process scan. A `Snapshot` gives the enumeration
  success flag and the byte count enumeration reports. It also gives, for each
  of the 1024 slots of the id buffer, what probing that id yields: the open
  failed, the image-name query failed, or the image path. `IsProcessRunning` is
  the scan loop with its early exit. `ProcessRunning` is the answer it must give.
- `MemoryMonitor` models the conversion of available bytes (or a failed query)
  to megabytes.
- `CommandDispatcher` models the restart broadcasts, the `save`/`q` pair and the
  server launch (`StartProcess`), each recorded as an `Actions.Action`.
  A trace lists events in the order the main thread performs them. So a `Bcast`
  event records the main thread starting a broadcast worker, not the moment the
  worker's helper runs.
- `Supervisor` models the loop. `Classify` derives the tick's situation
  (`Absent`, `PresentHealthy`, `PresentLow`). `Tick` gives one tick's actions and
  `Trace` a whole run's. `Supervise` is the loop itself and `RunTick` its body, run over one
  `Observation` per tick: the flag, the scan snapshot and the memory reading.

The source tests the opened handle against `INVALID_HANDLE_VALUE`, but opening
a process signals failure with a null handle. The null handle passes that test,
and the image-name query on it then returns 0. So a failed open is skipped at
the next test, just like a failed name query. The model therefore treats both
failures as "skip this slot" (`Probe.OpenFailed`, `Probe.NameFailed`).

## Model

| member | source | states |
|---|---|---|
| `ProcessScanner.NumProcesses` | src/main.rs:93-95 | the process count is the byte count divided by 4 (floor); since enumeration reports at most the 4096-byte buffer, it is at most 1024, so every slot read is inside the buffer |
| `ProcessScanner.ContainsIsSubstring` | src/main.rs:109 | the path test holds exactly when the name occurs as a contiguous, character-exact (case-sensitive) substring of the path; an empty name always matches |
| `ProcessScanner.IsProcessRunning` | src/main.rs:79-117 | the result is true iff enumeration succeeded and some slot below the process count has a retrieved image path containing the name; a failed enumeration gives false without looking at any slot |
| `ProcessScanner.SlotsBeyondCountIgnored` | src/main.rs:93-95 | two snapshots that agree on the success flag, the byte count and the first process-count slots give the same answer: slots past the count are never examined |
| `ProcessScanner.FailedProbeIsSkipped` | src/main.rs:96-104 | a slot whose open or name query failed does not affect the answer: replacing it by the other kind of failure changes nothing, and the answer is decided by the remaining slots |
| `MemoryMonitor.DivideTwice` | src/main.rs:125 | dividing by 1024 twice with floor division equals one floor division by 1048576 |
| `MemoryMonitor.AvailableMemoryMb` | src/main.rs:119-131 | a successful query gives the floor of bytes / 1048576 (bracketed by the byte count), which is at most the byte count; a failed query gives no value |
| `MemoryMonitor.AvailableMemoryMbMonotonic` | src/main.rs:125 | more available bytes never give fewer megabytes |
| `CommandDispatcher.BroadcastServerRestart` | src/main.rs:133-148 | exactly three broadcast workers are started, each carrying `server_will_restart_in_60_seconds.` |
| `CommandDispatcher.ExecuteCommandsConcurrently` | src/main.rs:150-161 | exactly one `save` is dispatched and then exactly one `q` |
| `CommandDispatcher.StartProcess` | src/main.rs:163-170 | the server is launched from the given path with exactly the flags `-useperfthreads`, `-NoAsyncLoadingThread`, `-UseMultithreadForDS`, in that order |
| `Supervisor.Tick` | src/main.rs:47-63 | a tick that reads the flag false yields only `Exit(0)`; a tick with the flag set never exits and ends with the 1-second sleep |
| `Supervisor.Trace` | src/main.rs:47-66 | in a whole run, every exit has status 0 and is the last action: nothing follows the exit |
| `Supervisor.Classify` | src/main.rs:48-55 | absent iff the scan finds nothing; low iff present and memory is known and strictly below the threshold; healthy iff present and memory is unknown or at least the threshold |
| `Supervisor.Supervise` | src/main.rs:47-66 | the loop's trace equals `Trace` of its observations; it stops at the first tick whose flag is false, and only then emits the exit |
| `Supervisor.RunTick` | src/main.rs:48-62 | the loop body for a tick with the flag set produces exactly `Tick`'s action list for that tick's observation |
| `Supervisor.TraceStep` | src/main.rs:47-63 | a tick with the flag set contributes its own actions and the run continues with the next observation |
| `Supervisor.TickCases` | src/main.rs:47-63 | one tick's actions in each situation, in main-thread order: exit(0); sleep 3, launch, sleep 1; three broadcast-worker starts, save, q, sleep 1; or sleep 1 alone |
| `Supervisor.TickStopped` | src/main.rs:47-66 | a tick that reads the flag false does nothing but exit with status 0 |
| `Supervisor.TickAbsent` | src/main.rs:55-62 | an absent server causes a 3-second sleep, one launch of the configured path with `-useperfthreads`, `-NoAsyncLoadingThread`, `-UseMultithreadForDS` in that order, and the 1-second sleep |
| `Supervisor.TickPresentLow` | src/main.rs:48-53 | low memory causes exactly three warning broadcasts, one `save` and one `q` (the `save` first), no launch, and ends with the single 1-second sleep |
| `Supervisor.TickPresentHealthy` | src/main.rs:48-54 | a present server with unknown memory or memory at least the threshold causes no broadcast, no console command and no launch, only the 1-second sleep |
| `Supervisor.TraceSplit` | src/main.rs:47-63 | ticks run with the flag set concatenate: a run's trace is the trace of those ticks followed by the trace of the rest |
| `Supervisor.ExitIffFlagCleared` | src/main.rs:47-66 | a run exits iff some tick reads the flag false; within the model nothing else, a failed launch included, ends the loop |
| `Supervisor.TraceStopsAtFlag` | src/main.rs:47-66 | the first tick reading the flag false ends the run: the trace is that of the ticks before it plus the exit, whatever later observations say |
| `Supervisor.HealthyRunOnlySleeps` | src/main.rs:47-63 | while the server stays present and healthy, every tick only sleeps one second (repeated ticks dispatch nothing) |
| `Supervisor.TickCounts` | src/main.rs:48-60 | one tick dispatches three warnings, one `save` and one `q` exactly when memory is low, and one launch exactly when the server is absent |
| `Supervisor.DispatchCounts` | src/main.rs:47-63 | over a run, warnings number three per low-memory tick, `save` and `q` one each per low-memory tick, and launches one per absent tick: no restart or relaunch is ever suppressed |

## Left out

- The Win32 calls (process enumeration, opening a process, the image-name query, the memory status query) are foreign calls. Their results are inputs: `ProcessScanner.Snapshot` and `Supervisor.Observation.availableBytes`.
- `ProcessScanner.IsProcessRunning` requires `Snapshot.WellFormed()`: enumeration never reports more bytes than the 4096-byte buffer, and there is one probe per buffer slot. Both are guarantees of the enumeration API and of the fixed buffer, not demands on the caller.
- The 260-byte image-name buffer, its truncation and the lossy text decoding are not modelled. An image path is taken to arrive whole, as a string.
- The process handles opened by the scan are never closed by the source. Handles are not modelled.
- Reading `config.toml` and its TOML deserialisation are file I/O through a library. `Supervisor.Config` is taken as given, and a failure to read it (which aborts startup) is not modelled.
- The Ctrl+C handler and the shared atomic flag are signal handling and cross-thread state. The flag is modelled as one boolean read per tick (`Observation.keepRunning`).
- The broadcast workers run on unjoined threads, and a helper that fails to spawn panics only inside its worker. What a worker does after it starts is concurrency and is not modelled. A `Bcast` event records only the start of a worker on the main thread.
- Starting a thread (`thread::spawn`, src/main.rs:138) panics on the main thread if the OS cannot create a thread. That panic would end the loop with a nonzero status. It is not modelled: the model assumes thread creation succeeds, so `Supervisor.ExitIffFlagCleared` does not cover this case.
- `Supervisor.TickPresentLow`: states only the counts and that `save` comes before `q`, because the helpers started by the broadcast workers run at times that are not fixed relative to `save` and `q`. `Supervisor.TickCases` gives the main thread's own order, with the worker starts first.
- Child-process spawning and real sleeping are recorded as trace events (`Launch`, `Bcast`, `Rcon`, `Sleep`). Whether a spawn succeeds is not an input: the source only prints a diagnostic for a failed launch or a failed `save`/`q`, and the loop goes on either way.
- Diagnostic and log output ("Available memory: … MB", the launch error, "Exiting...") is not modelled.
- `Supervisor.Supervise` runs over a finite sequence of observations. A run whose observations end before the flag is cleared yields the trace so far, with no exit.
