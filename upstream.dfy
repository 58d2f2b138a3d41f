/**
 * The upstream side of the relay: the watchdog loop that restarts the
 * connection handler when the stream goes quiet, and the handler that
 * connects, reads units and publishes them on the bus.
 */
module Upstream {
  import opened Model

  // ---------------------------------------------------------------------
  // The watchdog
  // ---------------------------------------------------------------------

  /** What the watchdog does to handler tasks: spawn a new one, or abort the current one. */
  datatype Event = Spawn | AbortHandler

  /**
   * The watchdog's state between iterations: when it last saw a unit or
   * restarted (in milliseconds of an abstract monotonic clock), the messages
   * still queued on its private subscription, and the handler events so far.
   */
  datatype Watch = Watch(last: int, pending: seq<Message>, log: seq<Event>)

  /** The result of one iteration: keep looping, or return after an Abort. */
  datatype Outcome = Running(w: Watch) | Exited(w: Watch)

  const MillisPerSecond: nat := 1000
  /** A stream is stale once more than this many whole seconds have passed. */
  const StaleSeconds: nat := 5

  /** The time since `last`, zero if the clock reading is earlier (a saturating `duration_since`). */
  function Elapsed(now: int, last: int): (r: nat)
    ensures now >= last ==> last + r == now
    ensures now <= last ==> r == 0
  {
    if now >= last then now - last else 0
  }

  /** The state right after the first handler is spawned at time `start`. */
  function Start(start: int): Watch
  {
    Watch(start, [], [Spawn])
  }

  /**
   * One iteration of the watchdog loop at clock reading `now`. The elapsed
   * time is taken before the receive. A queued unit drains the whole queue
   * and resets `last`; a queued Abort ends the loop; a stale stream aborts
   * the handler, spawns a new one and resets `last`.
   */
  function Tick(w: Watch, now: int): (r: Outcome)
    ensures r.Exited? <==> w.pending != [] && w.pending[0] == Abort
    ensures r.Exited? ==> r.w.log == w.log
    ensures r.Running? ==> r.w.pending == []
    ensures r.Running? ==>
      (Elapsed(now, w.last) >= (StaleSeconds + 1) * MillisPerSecond <==> r.w.log == w.log + [AbortHandler, Spawn])
    ensures r.Running? && Elapsed(now, w.last) < (StaleSeconds + 1) * MillisPerSecond ==> r.w.log == w.log
    ensures r.Running? ==>
      r.w.last == if w.pending != [] || Elapsed(now, w.last) >= (StaleSeconds + 1) * MillisPerSecond
                  then now else w.last
  {
    var elapsed := Elapsed(now, w.last);
    if w.pending != [] && w.pending[0] == Abort then
      Exited(w.(pending := w.pending[1..]))
    else
      var seen := if w.pending != [] then w.(pending := [], last := now) else w;
      if elapsed / MillisPerSecond > StaleSeconds then
        Running(seen.(log := seen.log + [AbortHandler, Spawn], last := now))
      else
        Running(seen)
  }

  /**
   * The watchdog over a whole run: before iteration k the messages
   * `arrivals[k]` join the queue, then the iteration runs at `clock[k]`.
   */
  function Run(w: Watch, clock: seq<int>, arrivals: seq<seq<Message>>): (r: Outcome)
    requires |clock| == |arrivals|
    ensures w.log <= r.w.log
    ensures r.Exited? ==> clock != []
    ensures r.Running? && clock != [] ==> r.w.pending == []
    decreases |clock|
  {
    if clock == [] then Running(w)
    else match Tick(w.(pending := w.pending + arrivals[0]), clock[0])
      case Exited(w') => Exited(w')
      case Running(w') => Run(w', clock[1..], arrivals[1..])
  }

  /**
   * The watchdog task: the loop of the supervisor, started right after the
   * first handler is spawned at time `start`. Returns whether it returned
   * on an Abort and its final state.
   */
  method Supervise(start: int, clock: seq<int>, arrivals: seq<seq<Message>>)
    returns (exited: bool, last: int, pending: seq<Message>, log: seq<Event>)
    requires |clock| == |arrivals|
    ensures exited == Run(Start(start), clock, arrivals).Exited?
    ensures Watch(last, pending, log) == Run(Start(start), clock, arrivals).w
  {
    last, pending, log := start, [], [Spawn];
    var i := 0;
    while i < |clock|
      invariant i <= |clock|
      invariant Run(Watch(last, pending, log), clock[i..], arrivals[i..]) == Run(Start(start), clock, arrivals)
    {
      ghost var before := Watch(last, pending, log);
      assert clock[i..][1..] == clock[i + 1..] && arrivals[i..][1..] == arrivals[i + 1..];
      pending := pending + arrivals[i];
      var now := clock[i];
      var elapsed := if now >= last then now - last else 0;
      if pending != [] {
        match pending[0] {
          case NalUnit(_) =>
            pending := pending[1..];
            while pending != []
              decreases |pending|
            {
              pending := pending[1..];
            }
            last := now;
          case Abort =>
            pending := pending[1..];
            return true, last, pending, log;
        }
      }
      if elapsed / MillisPerSecond > StaleSeconds {
        log := log + [AbortHandler, Spawn];
        last := now;
      }
      assert Tick(before.(pending := before.pending + arrivals[i]), clock[i]) == Running(Watch(last, pending, log));
      i := i + 1;
    }
    exited := false;
  }

  /**
   * The handler events alternate, starting with a spawn: the watchdog calls
   * abort on the current handler before it spawns the next one. This is
   * the order of the watchdog's calls only; a handler may already have
   * returned, and an aborted one may still be winding down.
   */
  ghost predicate Alternating(log: seq<Event>)
  {
    |log| % 2 == 1 &&
    forall j :: 0 <= j < |log| ==> log[j] == if j % 2 == 0 then Spawn else AbortHandler
  }

  /** A run only appends to the handler events, and keeps them alternating between spawn and abort. */
  lemma {:induction false} RunAlternatesSpawnAndAbort(w: Watch, clock: seq<int>, arrivals: seq<seq<Message>>)
    requires |clock| == |arrivals|
    requires Alternating(w.log)
    ensures w.log <= Run(w, clock, arrivals).w.log
    ensures Alternating(Run(w, clock, arrivals).w.log)
    decreases |clock|
  {
    if clock != [] {
      var w0 := w.(pending := w.pending + arrivals[0]);
      match Tick(w0, clock[0])
      case Exited(w') =>
      case Running(w') =>
        var l := w'.log;
        if l != w.log {
          assert l == w.log + [AbortHandler, Spawn];
          assert |w.log| % 2 == 1;
          assert forall j :: 0 <= j < |l| ==> l[j] == if j % 2 == 0 then Spawn else AbortHandler;
        }
        RunAlternatesSpawnAndAbort(w', clock[1..], arrivals[1..]);
    }
  }

  /** The first spawn alone alternates, so the events of every run from the start do too. */
  lemma SupervisorAlternatesSpawnAndAbort(start: int, clock: seq<int>, arrivals: seq<seq<Message>>)
    requires |clock| == |arrivals|
    ensures Alternating(Run(Start(start), clock, arrivals).w.log)
    ensures Run(Start(start), clock, arrivals).w.log[0] == Spawn
  {
    RunAlternatesSpawnAndAbort(Start(start), clock, arrivals);
  }

  /**
   * The elapsed time is measured before the receive, so an iteration that
   * sees a unit after six quiet seconds still restarts the handler.
   */
  lemma RestartEvenWhenUnitArrives(u: Unit)
    ensures Tick(Watch(0, [NalUnit(u)], [Spawn]), 6000) == Running(Watch(6000, [], [Spawn, AbortHandler, Spawn]))
    ensures Tick(Watch(0, [NalUnit(u)], [Spawn]), 5999) == Running(Watch(5999, [], [Spawn]))
  {
  }

  /** An Abort queued behind a unit is drained with it and does not stop the watchdog. */
  lemma AbortBehindUnitIsLost(w: Watch, u: Unit, now: int)
    requires w.pending == [NalUnit(u), Abort]
    ensures Tick(w, now).Running?
    ensures Tick(w, now).w.pending == []
  {
  }

  // ---------------------------------------------------------------------
  // The handler
  // ---------------------------------------------------------------------

  /** How the connect step ended: connected, failed, or cancelled by the abort detector. */
  datatype Connect = Connected | ConnectFailed(error: IoError) | ConnectAborted

  /** How one read step ended: a unit, a read error, or cancelled by the abort detector. */
  datatype Read = ReadUnit(unit: Unit) | ReadFailed(error: IoError) | ReadAborted

  /** How a handler ended: it returned a result, or it is still reading when the input runs out. */
  datatype HandlerEnd = Returned(result: IoResult) | StillReading

  /**
   * The number of units the handler publishes before it stops: it stops at
   * the first read that is not a unit and at the first unit whose send
   * fails (`sendOk[j]` is the result of publishing the j-th read).
   */
  function Published(results: seq<Read>, sendOk: seq<bool>): (k: nat)
    requires |sendOk| >= |results|
    ensures k <= |results|
    ensures forall j :: 0 <= j < k ==> results[j].ReadUnit? && sendOk[j]
    ensures k < |results| ==> !results[k].ReadUnit? || !sendOk[k]
  {
    if results == [] || !results[0].ReadUnit? || !sendOk[0] then 0
    else 1 + Published(results[1..], sendOk[1..])
  }

  /**
   * The handler task: connects, then reads and publishes units until a
   * read fails, an abort wins the race, or a send finds no receiver.
   * Returns the units published, in order, and how the task ended.
   */
  method Handle(connect: Connect, results: seq<Read>, sendOk: seq<bool>)
    returns (published: seq<Unit>, end: HandlerEnd)
    requires |sendOk| >= |results|
    ensures connect.ConnectFailed? ==> published == [] && end == Returned(Err(connect.error))
    ensures connect.ConnectAborted? ==> published == [] && end == Returned(Ok)
    ensures connect.Connected? ==>
      var k := Published(results, sendOk);
      |published| == k &&
      (forall j :: 0 <= j < k ==> published[j] == results[j].unit) &&
      end == if k == |results| then StillReading
             else if results[k].ReadFailed? then Returned(Err(results[k].error))
             else Returned(Ok)
  {
    published := [];
    match connect {
      case ConnectAborted => return published, Returned(Ok);
      case ConnectFailed(e) => return published, Returned(Err(e));
      case Connected =>
    }
    var i := 0;
    while i < |results|
      invariant i <= |results| && |published| == i
      invariant forall j :: 0 <= j < i ==> results[j].ReadUnit? && sendOk[j] && published[j] == results[j].unit
    {
      match results[i] {
        case ReadAborted =>
          return published, Returned(Ok);
        case ReadFailed(e) =>
          return published, Returned(Err(e));
        case ReadUnit(u) =>
          if !sendOk[i] {
            return published, Returned(Ok);
          }
          published := published + [u];
      }
      i := i + 1;
    }
    end := StillReading;
  }

}
