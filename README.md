# tcp-h264-reverse-proxy, modelled in Dafny

The relay takes one live H.264 Annex-B byte stream from an upstream source
and re-sends it, unchanged, to any number of TCP viewers. A new viewer first
gets a cached snapshot so it can start decoding at once, then the live
units. The snapshot holds the SPS and PPS that were known when the last IDR
keyframe arrived, then that IDR, then every later unit except SPS and PPS
units. An SPS or PPS that arrives after the IDR only reaches the buffer at
the next IDR.

This project models the stream-state logic of that relay. NAL units are
abstract `(code, bytes)` pairs. Channels, sockets and the clock are replaced
by explicit sequences of results that the model takes as input:

- `model.dfy` (module `Model`): units, the bus `Message` (`NalUnit(unit)` or
  `Abort`), broadcast receive results (`Received`, `Lagged`, `Closed`), I/O
  results, and the leading run of successful receives that a
  `while let Ok(x) = rx.recv()` loop handles.
- `downstream.dfy` (module `Downstream`): the GOP byte cache.
  - `CacheAfter` gives the cache as a fold over the units received.
  - `GopBytes` gives the same buffer independently: the parameter sets known
    at the last IDR, the IDR, and every later non-parameter unit.
  - The class `GopCache` holds `seqParam`, `picParam` and `cachedBytes`, and
    its method `Feed` updates them in place.
  - `RunCacher` is the receive loop. `ServeConnection` is the per-connection
    writer. `AcceptLoop` is the server loop.
- `upstream.dfy` (module `Upstream`): the watchdog.
  - `Tick` is one loop iteration. `Run` folds `Tick` over a run.
  - `Supervise` is the imperative loop, proved equal to `Run`.
  - `Handle` is the connection handler.
- `utils.dfy` (module `Utils`): the abort detector (`AwaitAbort`).
- `listener.rs` is modelled in `listener.dfy` (module `Listener`):
  - `TaskSpawner` is the per-host enumeration of a subnet.
  - `Collect` is the loop that moves queued viewers into the list of
    downstreams.

Time is an abstract integer clock in milliseconds. A receive-result
sequence that runs out means the loop is still waiting when observation
ends.

Choices the code makes, which the model keeps:

- Units that arrive before the first IDR are appended to the buffer. A cache
  that waited for a keyframe would drop them.
- The buffer is a flat byte vector, not a list of units.
- The downstream bus carries bare units (`Receiver<H264NalUnit>`,
  src/downstream.rs:13). The cacher, the accept loop and the writers never
  see an `Abort`; only the upstream bus carries one.
- The watchdog restarts a handler only on staleness. After a failed connect,
  the next attempt comes when the watchdog next finds the stream stale, at
  least six seconds after the restart that spawned the failed handler. There
  is no separate back-off.
- `src/main.rs` wires in only the per-host `task_spawner` design. The
  single-upstream supervisor, cacher and writer are not wired in, but they
  are modelled here as the core.

## Model

| member | source | states |
|---|---|---|
| `Model.ReceivedRun` | src/downstream.rs:23 | the loop handles exactly the receives before the first receive error; a lag stops it as much as a closed channel |
| `Downstream.Apply` | src/downstream.rs:24-43 | one turn of the cacher: code 7 replaces only the SPS and code 8 only the PPS, leaving the buffer alone; code 5 discards the buffer and rebuilds it as SPS, PPS, IDR; any other code is appended |
| `Downstream.CacheAfter` | src/downstream.rs:20-44 | the cacher's state as a fold over the units received; each remembered parameter set is a unit of the history with the right code |
| `Downstream.ParamSetsAreLatest` | src/downstream.rs:20-30 | the remembered SPS and PPS are the most recent unit of code 7 and of code 8 ever received, whatever the keyframes |
| `Downstream.GopAfterIdr` | src/downstream.rs:31-41 | after an IDR the buffer is exactly the latest SPS bytes, then the latest PPS bytes, then the IDR bytes (an absent parameter set adds nothing), and older contents are gone |
| `Downstream.GopAfterNonIdr` | src/downstream.rs:25-42 | a unit that is not an IDR appends its bytes at the end of the buffer, even before any IDR, unless it is an SPS or PPS, which leaves the buffer unchanged |
| `Downstream.SnapshotIsLastGop` | src/downstream.rs:23-44 | for every history, the folded buffer equals the SPS and PPS known at the last IDR, that IDR, and the bytes of every later non-parameter unit in order; without an IDR, all non-parameter units in order |
| `Downstream.BufferGrowsUntilIdr` | src/downstream.rs:33-42 | while no IDR arrives the old buffer stays a prefix of the new one, so its length only decreases on an IDR |
| `Downstream.TwoGroupsOfPictures` | src/downstream.rs:23-44 | SPS, PPS, IDR A, slice B gives SPS+PPS+A+B; a further IDR C gives SPS+PPS+C |
| `Downstream.GopCache.constructor` | src/downstream.rs:15-21 | the cache starts with no SPS, no PPS and an empty buffer |
| `Downstream.GopCache.Feed` | src/downstream.rs:24-43 | code 7 replaces only the SPS, code 8 only the PPS, code 5 rebuilds the buffer from the SPS, PPS and IDR, anything else is appended; the state stays the fold of the history |
| `Downstream.GopCache.Snapshot` | src/downstream.rs:60 | the copy a connection takes is the last group of pictures as `GopBytes` describes it |
| `Downstream.RunCacher` | src/downstream.rs:23-44 | the cacher feeds exactly the units received before the first receive error, in order, and none after it |
| `Downstream.ServeConnection` | src/downstream.rs:59-72 | the buffers written are the snapshot then each received unit's bytes in order; writing stops at the first failed write or receive error; a failed snapshot write is the only write |
| `Downstream.DeliveredIsSnapshotThenUnits` | src/downstream.rs:60-71 | a viewer receives the snapshot and then the bytes of every unit received before the first receive error when no write fails; of the units before the failed one when a unit write fails; nothing when the snapshot write fails |
| `Downstream.AcceptLoop` | src/downstream.rs:55-75 | the steps taken are subscribe, accept, subscribe, accept, ... with the accepts in input order, so every accept is preceded by its own subscription; every accepted peer gets a writer; the first failed accept ends the loop with its error, after one subscription more than the peers served |
| `Utils.FirstStop` | src/utils.rs:5-11 | locates the first receive result that is not a unit (Abort, lag or close); none exists exactly when every result is a unit |
| `Utils.AwaitAbort` | src/utils.rs:5-11 | the detector completes exactly when a non-unit result arrives, after consuming that result and every unit before it; on units alone it keeps waiting |
| `Utils.StopsOnAbortLagOrClose` | src/utils.rs:6 | after any run of units, an Abort, a lag or a close each stop the detector at that position |
| `Upstream.Tick` | src/upstream.rs:26-52 | an Abort first in the queue exits with no new handler; a unit drains the whole queue and resets `last`; a restart (abort old, spawn new, reset `last`) happens iff the elapsed time measured before the receive is at least six whole seconds |
| `Upstream.Elapsed` | src/upstream.rs:27 | the saturating `duration_since`: the time since `last`, or zero when the reading is not later |
| `Upstream.Run` | src/upstream.rs:26-55 | the watchdog loop as a fold of `Tick` over clock readings and arrivals: the handler events only grow, it exits only after an iteration, and the queue is empty after every completed iteration |
| `Upstream.Supervise` | src/upstream.rs:21-56 | the watchdog loop, with its inner drain loop, ends in the state and with the exit flag of the `Tick` fold over the run |
| `Upstream.RunAlternatesSpawnAndAbort` | src/upstream.rs:47-52 | a run only appends handler events, and they keep alternating spawn, abort, spawn, so the watchdog calls abort on the old handler before it spawns the new one |
| `Upstream.SupervisorAlternatesSpawnAndAbort` | src/upstream.rs:22-52 | from the first spawn on, the handler events of any run alternate and start with a spawn |
| `Upstream.RestartEvenWhenUnitArrives` | src/upstream.rs:27-51 | a unit seen after 6000 ms of silence still triggers a restart; after 5999 ms it does not |
| `Upstream.AbortBehindUnitIsLost` | src/upstream.rs:28-33 | an Abort queued behind a unit is drained with it and the watchdog keeps running |
| `Upstream.Published` | src/upstream.rs:88-111 | the handler publishes the leading units that are read and sent successfully, and stops at the first read that is not such a unit |
| `Upstream.Handle` | src/upstream.rs:62-113 | a failed connect returns its error having published nothing; an abort returns Ok; otherwise units are published in read order, the first read error is returned, and a send with no receiver returns Ok |
| `Listener.TaskSpawner` | src/listener.rs:8-20 | indices 1 to 2^(32-prefix)-1 in increasing order; index i connects to the base address saturating-plus i on the configured port and binds local port i, a non-zero u16; a prefix of 16 bits or less overflows the u16 shift |
| `Listener.SaturatingAdd` | src/listener.rs:16 | `saturating_add` on a u32 address: the sum when it fits, the top address 255.255.255.255 otherwise, never below the base |
| `Listener.Pow2FitsU16` | src/listener.rs:15-20 | below a 16-bit suffix the highest index fits a u16 port |
| `Listener.Slash24HasAtMost255Hosts` | src/listener.rs:10-15 | a subnet of /24 or smaller, the documented range, has at most 255 hosts |
| `Listener.UpstreamsIncrease` | src/listener.rs:16 | upstream addresses never wrap past 255.255.255.255 and increase with the index while below it |
| `Listener.FirstEmpty` | src/listener.rs:43-49 | locates the first `Empty` result of the queue |
| `Listener.Collect` | src/listener.rs:43-52 | appends every queued viewer in queue order after the existing ones, skips `Disconnected`, and stops after the first `Empty` |
| `Listener.GatheredAtMostOnePerPoll` | src/listener.rs:40-52 | each poll adds at most one viewer and every viewer polled is kept |
| `Listener.GatheredKeepsPollOrder` | src/listener.rs:43-49 | gathering two runs of polls gives the viewers of the first run followed by those of the second, so viewers keep the order they were polled in |

## Left out

- Channel internals: the capacity of 64, lag eviction and subscriber registration. Receive results are given as sequences instead.
- TCP connect, accept and write. Each is a success or failure oracle. A failed write delivers nothing; partial writes are not modelled.
- Binding and listening are not modelled: the failed bind that ends the server task (src/downstream.rs:49-53), the ignored `sock.bind` result (src/listener.rs:22) and `listen(4)?` (src/listener.rs:24).
- The `h264_nal_paging` parser. Units are opaque (code, bytes) pairs.
- Real time and the 1 ms sleep. The clock is an abstract integer in milliseconds, and each watchdog iteration has a single reading. So `last` is reset to the same reading the iteration measured from, not to a slightly later instant.
- Lag on the watchdog's private subscription. Its queue is a sequence of messages, so `try_recv` never reports a gap.
- Task spawning, `select!` races, `JoinHandle::abort` and the RwLock. A race won by the abort detector is an oracle variant (`ConnectAborted`, `ReadAborted`). Handler spawn and abort are events in a log. Each lock-guarded update is one atomic step.
- The ordering between a connection's subscription and its snapshot read across tasks. `AcceptLoop` states that each subscription precedes its accept. Its consequence for the bytes (no gap, possible overlap) is not stated.
- The subscription is taken before a blocking accept and keeps filling while the accept waits. On the bounded bus the writer's first receive can therefore be a lag, and `while let Ok(unit)` (src/downstream.rs:66) then ends right after the snapshot: `ServeConnection` with receives `[Lagged(3), Received(u)]` and writes `[true]` makes the single attempt `[snapshot]`. The model keeps this behaviour but does not model when a lag happens.
- Logging (`error!`, `warn!`, `info!`, `trace!`). It has no effect on the state that is modelled.
- The outer loop of the per-host upstream task (src/listener.rs:41-42). It reconnects before every collector pass; only the collector is modelled.
- The listener tasks of src/listener.rs:19-35. They only accept and forward sockets.
- Listener.TaskSpawner: a u16 shift of 16 or more bits is modelled as the debug-build panic. A release build would mask the shift amount instead.
- src/still.rs: an HTTP server and an ffmpeg subprocess.
- src/model/cli.rs: argument parsing and defaults.
- src/main.rs: wiring only.
