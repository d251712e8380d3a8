/**
 * The observable effects of the watchdog, recorded as trace events instead of
 * being performed, in the order the main thread performs them:
 *  - `Sleep`: the main thread sleeps;
 *  - `Launch`: the main thread spawns the server executable, without waiting for it;
 *  - `Bcast`: the main thread starts an unjoined worker thread, which will later
 *    spawn the remote console helper `bin/palworld_rcon bcast <message>`; when
 *    that helper actually runs is not fixed, so the event marks the start of
 *    the worker, not the helper's own run;
 *  - `Rcon`: the main thread spawns `bin/palworld_rcon <command>`, without
 *    waiting for it;
 *  - `Exit`: the process exits with the given status.
 */
module Actions {

  datatype Action =
    | Sleep(seconds: nat)
    | Launch(program: string, args: seq<string>)
    | Bcast(message: string)
    | Rcon(command: string)
    | Exit(code: int)
}
