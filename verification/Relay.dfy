/** The two-way relay and its idle watchdog (`src/relay.rs`).

    The two pumps and the watchdog live in one task. A poll of the pumps and a poll of the watchdog
    never overlap, but within a poll of the pumps their reads and writes interleave freely. The state
    machine below makes one move per read, write, clock tick or watchdog decision. */
module Relay {
  import opened Wire

  const PUMP_BUFFER: nat := 65536

  datatype Phase = Reading | Writing(size: nat) | ShuttingDown | Finished | Failed

  /** One direction: what the source still delivers, what was read but not yet written, what has been
      delivered, and the count of completely written pieces. */
  datatype Pump = Pump(unread: Bytes, pending: Bytes, delivered: Bytes, transferred: nat, phase: Phase)

  /** The pump has returned, so its end of the activity channel is gone. */
  predicate Returned(p: Pump) { p.phase.Finished? || p.phase.Failed? }

  datatype Watchdog =
    | Disarmed                               // about to look at the latest activity and set a deadline
    | Armed(deadline: nat, seen: nat)        // waiting for the deadline or for newer activity than `seen`

  datatype Turn = Between | PollingPumps | PollingWatchdog

  datatype Outcome = Done(sent: nat, received: nat) | IoFailure | TimedOut

  /** `activity` is the instant in the watch channel and `version` how often it was replaced. */
  datatype State = State(
    up: Pump,
    down: Pump,
    now: nat,
    activity: nat,
    version: nat,
    watchdog: Watchdog,
    turn: Turn,
    outcome: Option<Outcome>)

  datatype Side = Up | Down

  datatype PumpMove = Read(n: nat) | ReadEnd | ReadFail | Write(n: nat) | WriteFail | ShutdownOk | ShutdownFail

  datatype Move =
    | Tick(elapsed: nat)
    | BeginPumps
    | PumpMoves(side: Side, move: PumpMove)
    | EndPumps
    | BeginWatchdog
    | Arm
    | TimerWake
    | ActivityChanged
    | SendersGone
    | EndWatchdog

  // ---------------------------------------------------------------------------------------------
  // The moves

  /** One move of a pump; the flag tells whether it completed the writing of a piece. */
  function PumpStep(p: Pump, m: PumpMove): Option<(Pump, bool)> {
    match (p.phase, m)
    case (Reading, Read(n)) =>
      if 1 <= n <= |p.unread| && n <= PUMP_BUFFER then
        Some((p.(unread := p.unread[n..], pending := p.unread[..n], phase := Writing(n)), false))
      else None
    case (Reading, ReadEnd) => if p.unread == [] then Some((p.(phase := ShuttingDown), false)) else None
    case (Reading, ReadFail) => Some((p.(phase := Failed), false))
    case (Writing(size), Write(n)) =>
      if 1 <= n < |p.pending| then
        Some((p.(delivered := p.delivered + p.pending[..n], pending := p.pending[n..]), false))
      else if n == |p.pending| then
        Some((p.(delivered := p.delivered + p.pending, pending := [],
                 transferred := p.transferred + size, phase := Reading), true))
      else None
    case (Writing(_), WriteFail) => Some((p.(phase := Failed), false))
    case (ShuttingDown, ShutdownOk) => Some((p.(phase := Finished), false))
    case (ShuttingDown, ShutdownFail) => Some((p.(phase := Failed), false))
    case _ => None
  }

  /** A completed piece is recorded as activity at the current instant. */
  function Record(s: State): State {
    s.(activity := s.now, version := s.version + 1)
  }

  function PumpsMove(s: State, side: Side, m: PumpMove): Option<State> {
    if s.turn != PollingPumps || s.up.phase.Failed? || s.down.phase.Failed? then None
    else
      match PumpStep(if side.Up? then s.up else s.down, m)
      case None => None
      case Some((p, completed)) =>
        var s' := if side.Up? then s.(up := p) else s.(down := p);
        Some(if completed then Record(s') else s')
  }

  /** The end of a poll of both pumps: `try_join!` is ready with the first error or with both counts. */
  function PumpsEnd(s: State): Option<State> {
    if s.turn != PollingPumps then None
    else if s.up.phase.Failed? || s.down.phase.Failed? then Some(s.(outcome := Some(IoFailure)))
    else if s.up.phase.Finished? && s.down.phase.Finished? then
      Some(s.(outcome := Some(Done(s.up.transferred, s.down.transferred))))
    else Some(s.(turn := Between))
  }

  /** The moves of `idle_watchdog`. */
  function WatchdogMove(s: State, m: Move, timeout: nat): Option<State> {
    if s.turn != PollingWatchdog then None
    else
      match (s.watchdog, m)
      case (Disarmed, Arm) =>
        Some(s.(watchdog := Armed(s.activity + timeout, s.version)))
      case (Armed(deadline, _), TimerWake) =>
        if s.now < deadline then None
        else if s.now >= s.activity + timeout then Some(s.(outcome := Some(TimedOut)))
        else Some(s.(watchdog := Disarmed))
      case (Armed(_, seen), ActivityChanged) =>
        if s.version != seen then Some(s.(watchdog := Disarmed)) else None
      case (Armed(_, seen), SendersGone) =>
        if s.version == seen && Returned(s.up) && Returned(s.down) then Some(s.(outcome := Some(TimedOut))) else None
      case (Armed(_, _), EndWatchdog) => Some(s.(turn := Between))
      case _ => None
  }

  /** One move of the relay; `None` if it cannot happen in this state. */
  function Step(s: State, m: Move, timeout: Option<nat>): Option<State> {
    if s.outcome.Some? then None
    else
      match m
      case Tick(elapsed) => Some(s.(now := s.now + elapsed))
      case BeginPumps => if s.turn == Between then Some(s.(turn := PollingPumps)) else None
      case PumpMoves(side, move) => PumpsMove(s, side, move)
      case EndPumps => PumpsEnd(s)
      case BeginWatchdog =>
        if timeout.Some? && s.turn == Between then Some(s.(turn := PollingWatchdog)) else None
      case _ => if timeout.Some? then WatchdogMove(s, m, timeout.value) else None
  }

  function Init(client: Bytes, upstream: Bytes, start: nat): State {
    State(Pump(client, [], [], 0, Reading), Pump(upstream, [], [], 0, Reading),
          start, start, 0, Disarmed, Between, None)
  }

  /** The state after a sequence of moves; `None` if one of them cannot happen. */
  function Run(s: State, moves: seq<Move>, timeout: Option<nat>): Option<State> {
    if moves == [] then Some(s)
    else
      var n := |moves| - 1;
      match Run(s, moves[..n], timeout)
      case None => None
      case Some(s') => Step(s', moves[n], timeout)
  }

  /** The moves in which an operation on one of the two sockets fails. */
  predicate ClientFault(m: Move) {
    m.PumpMoves? && (if m.side.Up? then m.move.ReadFail? else m.move.WriteFail? || m.move.ShutdownFail?)
  }

  predicate UpstreamFault(m: Move) {
    m.PumpMoves? && (if m.side.Down? then m.move.ReadFail? else m.move.WriteFail? || m.move.ShutdownFail?)
  }

  predicate AnyFailed(s: State) { s.up.phase.Failed? || s.down.phase.Failed? }

  // ---------------------------------------------------------------------------------------------
  // What every move keeps

  /** Nothing is lost or reordered between the source and the destination of a pump. */
  ghost predicate PumpKeeps(p: Pump, source: Bytes) {
    && source == p.delivered + p.pending + p.unread
    && |p.pending| <= PUMP_BUFFER
    && match p.phase
       case Writing(size) => 0 < |p.pending| <= size && p.transferred + size == |p.delivered| + |p.pending|
       case Reading => p.pending == [] && p.transferred == |p.delivered|
       case ShuttingDown => p.pending == [] && p.unread == [] && p.transferred == |p.delivered|
       case Finished => p.pending == [] && p.unread == [] && p.transferred == |p.delivered|
       case Failed => p.transferred <= |p.delivered|
  }

  lemma PumpStepKeeps(p: Pump, m: PumpMove, source: Bytes)
    requires PumpKeeps(p, source) && PumpStep(p, m).Some?
    ensures PumpKeeps(PumpStep(p, m).value.0, source)
  {
    match m
    case Read(n) =>
      assert p.delivered + p.pending + p.unread == p.delivered + p.unread[..n] + p.unread[n..];
    case Write(n) =>
      assert p.pending == p.pending[..n] + p.pending[n..];
      assert p.delivered + p.pending + p.unread == p.delivered + p.pending[..n] + p.pending[n..] + p.unread;
    case _ =>
  }

  ghost predicate PumpsKeep(s: State, client: Bytes, upstream: Bytes) {
    && PumpKeeps(s.up, client) && PumpKeeps(s.down, upstream)
    && (s.outcome.Some? && s.outcome.value.Done? ==>
          && s.up.phase.Finished? && s.down.phase.Finished?
          && s.outcome.value == Done(s.up.transferred, s.down.transferred))
  }

  lemma StepKeepsPumps(s: State, m: Move, timeout: Option<nat>, client: Bytes, upstream: Bytes)
    requires PumpsKeep(s, client, upstream) && Step(s, m, timeout).Some?
    ensures PumpsKeep(Step(s, m, timeout).value, client, upstream)
  {
    if m.PumpMoves? {
      if m.side.Up? { PumpStepKeeps(s.up, m.move, client); } else { PumpStepKeeps(s.down, m.move, upstream); }
    }
  }

  /** Nothing is recorded ahead of time. */
  ghost predicate ClockKeeps(s: State, start: nat) { start <= s.activity <= s.now }

  /** A deadline is never later than the latest activity plus the timeout, and is that as long as no newer activity
      has been recorded. */
  ghost predicate WatchdogKeeps(s: State, timeout: nat) {
    s.watchdog.Armed? ==>
      && s.watchdog.seen <= s.version && s.watchdog.deadline <= s.activity + timeout
      && (s.watchdog.seen == s.version ==> s.watchdog.deadline == s.activity + timeout)
  }

  lemma StepKeepsClock(s: State, m: Move, timeout: Option<nat>, start: nat)
    requires ClockKeeps(s, start) && Step(s, m, timeout).Some?
    ensures ClockKeeps(Step(s, m, timeout).value, start)
  {
  }

  lemma StepKeepsWatchdog(s: State, m: Move, timeout: nat, start: nat)
    requires WatchdogKeeps(s, timeout) && ClockKeeps(s, start) && Step(s, m, Some(timeout)).Some?
    ensures WatchdogKeeps(Step(s, m, Some(timeout)).value, timeout)
  {
  }

  /** While the relay runs, between polls of the pumps no pump has failed and not both have finished. */
  ghost predicate TurnsKeep(s: State, timeout: Option<nat>) {
    && (s.outcome.None? && s.turn != PollingPumps ==>
          !s.up.phase.Failed? && !s.down.phase.Failed? && !(s.up.phase.Finished? && s.down.phase.Finished?))
    && (s.outcome == Some(TimedOut) ==> timeout.Some? && s.now >= s.activity + timeout.value)
    && (s.turn == PollingWatchdog ==> timeout.Some?)
    && (s.outcome.Some? ==> (s.outcome == Some(IoFailure) <==> AnyFailed(s)))
  }

  /** A pump fails exactly when an operation on one of the sockets does. */
  lemma FailsOnFault(s: State, m: Move, timeout: Option<nat>)
    requires Step(s, m, timeout).Some?
    ensures AnyFailed(Step(s, m, timeout).value) <==> AnyFailed(s) || ClientFault(m) || UpstreamFault(m)
  {
  }

  lemma StepKeepsTurns(s: State, m: Move, timeout: Option<nat>)
    requires TurnsKeep(s, timeout) && Step(s, m, timeout).Some?
    ensures TurnsKeep(Step(s, m, timeout).value, timeout)
  {
  }

  ghost predicate Keeps(s: State, client: Bytes, upstream: Bytes, start: nat, timeout: Option<nat>) {
    && PumpsKeep(s, client, upstream)
    && ClockKeeps(s, start)
    && (timeout.Some? ==> WatchdogKeeps(s, timeout.value))
    && TurnsKeep(s, timeout)
  }

  /** Every state that any interleaving can reach. */
  ghost predicate Reached(client: Bytes, upstream: Bytes, start: nat, timeout: Option<nat>, moves: seq<Move>,
                          s: State) {
    Run(Init(client, upstream, start), moves, timeout) == Some(s)
  }

  lemma {:induction false} ReachedKeeps(client: Bytes, upstream: Bytes, start: nat, timeout: Option<nat>,
                                        moves: seq<Move>, s: State)
    requires Reached(client, upstream, start, timeout, moves, s)
    ensures Keeps(s, client, upstream, start, timeout)
    decreases |moves|
  {
    if moves == [] {
      assert client == [] + [] + client && upstream == [] + [] + upstream;
    } else {
      var n := |moves| - 1;
      var before := Run(Init(client, upstream, start), moves[..n], timeout).value;
      ReachedKeeps(client, upstream, start, timeout, moves[..n], before);
      StepKeepsPumps(before, moves[n], timeout, client, upstream);
      StepKeepsClock(before, moves[n], timeout, start);
      StepKeepsTurns(before, moves[n], timeout);
      if timeout.Some? {
        StepKeepsWatchdog(before, moves[n], timeout.value, start);
      }
    }
  }

  // ---------------------------------------------------------------------------------------------
  // Theorems about every interleaving

  /** Transparency: at every moment what has been delivered in a direction is a prefix of what its source
      sends, with at most one buffer in flight; when the relay ends well everything has been delivered
      and the counts are the lengths. */
  lemma DeliversPrefix(client: Bytes, upstream: Bytes, start: nat, timeout: Option<nat>, moves: seq<Move>, s: State)
    requires Reached(client, upstream, start, timeout, moves, s)
    ensures s.up.delivered <= client && s.down.delivered <= upstream
    ensures |s.up.pending| <= 64 * 1024 && |s.down.pending| <= 64 * 1024
    ensures s.outcome.Some? && s.outcome.value.Done? ==>
              && s.up.delivered == client && s.down.delivered == upstream
              && s.outcome.value == Done(|client|, |upstream|)
  {
    ReachedKeeps(client, upstream, start, timeout, moves, s);
    assert client[..|s.up.delivered|] == s.up.delivered;
    assert upstream[..|s.down.delivered|] == s.down.delivered;
  }

  /** The state after the first `i` moves of a run. */
  ghost function At(client: Bytes, upstream: Bytes, start: nat, timeout: Option<nat>, moves: seq<Move>, i: nat): State
    requires i <= |moves| && Run(Init(client, upstream, start), moves, timeout).Some?
  {
    RunPrefix(Init(client, upstream, start), moves, timeout, i);
    Run(Init(client, upstream, start), moves[..i], timeout).value
  }

  /** Every beginning of a run is a run, and each move leads from one state to the next. */
  lemma {:induction false} RunPrefix(s: State, moves: seq<Move>, timeout: Option<nat>, i: nat)
    requires i <= |moves| && Run(s, moves, timeout).Some?
    ensures Run(s, moves[..i], timeout).Some?
    ensures i < |moves| ==>
              && Run(s, moves[..i + 1], timeout).Some?
              && Step(Run(s, moves[..i], timeout).value, moves[i], timeout) == Run(s, moves[..i + 1], timeout)
    decreases |moves|
  {
    var n := |moves| - 1;
    if i == |moves| {
      assert moves[..i] == moves;
    } else if i == n {
      assert moves[..i + 1] == moves;
    } else {
      RunPrefix(s, moves[..n], timeout, i);
      assert moves[..n][..i] == moves[..i] && moves[..n][..i + 1] == moves[..i + 1] && moves[..n][i] == moves[i];
    }
  }

  /** A run of the relay, for the theorems about all of its moments. */
  datatype History = History(client: Bytes, upstream: Bytes, start: nat, timeout: Option<nat>, moves: seq<Move>) {
    ghost predicate Happens() { Run(Init(client, upstream, start), moves, timeout).Some? }

    ghost function State(i: nat): State
      requires Happens() && i <= |moves|
    {
      At(client, upstream, start, timeout, moves, i)
    }
  }

  lemma NextState(h: History, i: nat)
    requires h.Happens() && i < |h.moves|
    ensures Step(h.State(i), h.moves[i], h.timeout) == Some(h.State(i + 1))
    ensures Keeps(h.State(i), h.client, h.upstream, h.start, h.timeout)
    ensures Keeps(h.State(i + 1), h.client, h.upstream, h.start, h.timeout)
  {
    RunPrefix(Init(h.client, h.upstream, h.start), h.moves, h.timeout, i);
    StateKeeps(h, i);
    StateKeeps(h, i + 1);
  }

  lemma StateKeeps(h: History, i: nat)
    requires h.Happens() && i <= |h.moves|
    ensures Keeps(h.State(i), h.client, h.upstream, h.start, h.timeout)
  {
    RunPrefix(Init(h.client, h.upstream, h.start), h.moves, h.timeout, i);
    ReachedKeeps(h.client, h.upstream, h.start, h.timeout, h.moves[..i], h.State(i));
  }

  /** Move `i` delivers the last byte of a piece in one of the directions. */
  ghost predicate Delivers(h: History, i: nat)
    requires h.Happens() && i < |h.moves|
  {
    var before, after := h.State(i), h.State(i + 1);
    || (before.up.pending != [] && after.up.pending == [])
    || (before.down.pending != [] && after.down.pending == [])
  }

  /** A pump completes a piece exactly when nothing of it is left to be written. */
  lemma PumpCompletes(p: Pump, m: PumpMove, source: Bytes)
    requires PumpKeeps(p, source) && PumpStep(p, m).Some?
    ensures PumpStep(p, m).value.1 <==> p.pending != [] && PumpStep(p, m).value.0.pending == []
  {
  }

  lemma StepRecords(s: State, m: Move, timeout: Option<nat>, client: Bytes, upstream: Bytes)
    requires PumpsKeep(s, client, upstream) && Step(s, m, timeout).Some?
    ensures var after := Step(s, m, timeout).value;
            var delivered := (s.up.pending != [] && after.up.pending == [])
                             || (s.down.pending != [] && after.down.pending == []);
            && s.now <= after.now && (if delivered then s.version < after.version else s.version == after.version)
            && after.activity == if delivered then s.now else s.activity
  {
    if m.PumpMoves? {
      if m.side.Up? { PumpCompletes(s.up, m.move, client); } else { PumpCompletes(s.down, m.move, upstream); }
    }
  }

  /** Time and recorded activity never go back, and a delivered piece is recorded when it is delivered. */
  lemma ActivityAt(h: History, i: nat)
    requires h.Happens() && i < |h.moves|
    ensures h.State(i).now <= h.State(i + 1).now && h.State(i).activity <= h.State(i + 1).activity
    ensures h.State(i).version <= h.State(i + 1).version
    ensures h.State(i + 1).activity == if Delivers(h, i) then h.State(i).now else h.State(i).activity
  {
    NextState(h, i);
    StepRecords(h.State(i), h.moves[i], h.timeout, h.client, h.upstream);
  }

  lemma {:induction false} ActivityStays(h: History, i: nat, j: nat)
    requires h.Happens() && i <= j <= |h.moves|
    ensures h.State(i).now <= h.State(j).now && h.State(i).activity <= h.State(j).activity
    ensures h.State(i).version <= h.State(j).version
    decreases j
  {
    if i < j {
      ActivityStays(h, i, j - 1);
      ActivityAt(h, j - 1);
    }
  }

  /** Safety of the watchdog: a timeout is reported only when a timeout is configured and, for that long, no piece
      has been delivered in either direction. */
  lemma TimesOutOnlyWhenIdle(h: History, i: nat)
    requires h.Happens() && h.State(|h.moves|).outcome == Some(TimedOut)
    ensures h.timeout.Some? && h.start + h.timeout.value <= h.State(|h.moves|).now
    ensures i < |h.moves| && Delivers(h, i) ==> h.State(i).now + h.timeout.value <= h.State(|h.moves|).now
  {
    var n := |h.moves|;
    StateKeeps(h, n);
    if i < n && Delivers(h, i) {
      ActivityAt(h, i);
      ActivityStays(h, i + 1, n);
    }
  }

  /** The recorded activity is the start of the relay or the moment of a delivery. */
  lemma {:induction false} ActivityIsDelivery(h: History, j: nat)
    requires h.Happens() && j <= |h.moves|
    ensures h.State(j).activity == h.start
            || exists i | 0 <= i < j :: Delivers(h, i) && h.State(i).now == h.State(j).activity
    decreases j
  {
    if j > 0 {
      ActivityIsDelivery(h, j - 1);
      ActivityAt(h, j - 1);
      if Delivers(h, j - 1) {
        assert h.State(j - 1).now == h.State(j).activity;
      }
    }
  }

  /** Progress of the watchdog: when it is polled after a whole timeout without a delivery, its timer has fired, and
      the wake ends the relay. */
  lemma IdleRelayEnds(h: History, timeout: nat)
    requires h.Happens() && h.timeout == Some(timeout)
    requires var s := h.State(|h.moves|); s.outcome.None? && s.turn == PollingWatchdog && s.watchdog.Armed?
    requires h.start + timeout <= h.State(|h.moves|).now
    requires forall i | 0 <= i < |h.moves| :: Delivers(h, i) ==> h.State(i).now + timeout <= h.State(|h.moves|).now
    ensures var s := h.State(|h.moves|); Step(s, TimerWake, Some(timeout)) == Some(s.(outcome := Some(TimedOut)))
  {
    StateKeeps(h, |h.moves|);
    ActivityIsDelivery(h, |h.moves|);
  }

  /** No deadline before `bound` is set now or will be. */
  ghost predicate NotBefore(s: State, timeout: nat, bound: nat) {
    bound <= s.activity + timeout && (s.watchdog.Armed? ==> bound <= s.watchdog.deadline)
  }

  lemma StepNotBefore(s: State, m: Move, timeout: nat, bound: nat, start: nat)
    requires NotBefore(s, timeout, bound) && ClockKeeps(s, start) && Step(s, m, Some(timeout)).Some?
    ensures NotBefore(Step(s, m, Some(timeout)).value, timeout, bound)
  {
  }

  lemma NextNotBefore(h: History, timeout: nat, i: nat, bound: nat)
    requires h.Happens() && h.timeout == Some(timeout) && i < |h.moves| && NotBefore(h.State(i), timeout, bound)
    ensures NotBefore(h.State(i + 1), timeout, bound)
  {
    NextState(h, i);
    StepNotBefore(h.State(i), h.moves[i], timeout, bound, h.start);
  }

  lemma {:induction false} StaysNotBefore(h: History, timeout: nat, i: nat, j: nat, bound: nat)
    requires h.Happens() && h.timeout == Some(timeout) && i <= j <= |h.moves| && NotBefore(h.State(i), timeout, bound)
    ensures NotBefore(h.State(j), timeout, bound)
    decreases j
  {
    if i < j {
      StaysNotBefore(h, timeout, i, j - 1, bound);
      NextNotBefore(h, timeout, j - 1, bound);
    }
  }

  /** Deadlines never decrease; and one that is set after a timer wake that did not end the relay is later than the
      one that woke it. */
  lemma DeadlinesAdvance(h: History, timeout: nat, i: nat, j: nat)
    requires h.Happens() && h.timeout == Some(timeout) && i <= j <= |h.moves|
    requires h.State(i).watchdog.Armed? && h.State(j).watchdog.Armed?
    ensures h.State(i).watchdog.deadline <= h.State(j).watchdog.deadline
    ensures i < j && h.moves[i] == TimerWake && h.State(i + 1).outcome.None? ==>
              h.State(i).watchdog.deadline < h.State(j).watchdog.deadline
  {
    var d := h.State(i).watchdog.deadline;
    StateKeeps(h, i);
    StaysNotBefore(h, timeout, i, j, d);
    if i < j && h.moves[i] == TimerWake && h.State(i + 1).outcome.None? {
      NextState(h, i);
      StaysNotBefore(h, timeout, i + 1, j, d + 1);
    }
  }

  /** A relay that is over failed exactly if a pump did. */
  lemma FailsOnlyByFault(client: Bytes, upstream: Bytes, start: nat, timeout: Option<nat>, moves: seq<Move>, s: State)
    requires Reached(client, upstream, start, timeout, moves, s) && s.outcome.Some?
    ensures s.outcome == Some(IoFailure) <==> AnyFailed(s)
  {
    ReachedKeeps(client, upstream, start, timeout, moves, s);
  }

  /** The watchdog never takes the exit for a channel without senders: by the time both pumps have
      returned the relay has its result. */
  lemma SendersOutliveRelay(client: Bytes, upstream: Bytes, start: nat, timeout: Option<nat>, moves: seq<Move>,
                            s: State)
    requires Reached(client, upstream, start, timeout, moves, s)
    ensures Step(s, SendersGone, timeout).None?
    ensures s.outcome.None? && s.turn == PollingWatchdog ==>
              !((s.up.phase.Finished? || s.up.phase.Failed?) && (s.down.phase.Finished? || s.down.phase.Failed?))
  {
    ReachedKeeps(client, upstream, start, timeout, moves, s);
  }

  /** That exit stands open exactly while both pumps have returned and no newer activity is to be seen. */
  lemma SendersGoneMeaning(s: State, timeout: nat)
    requires s.outcome.None? && s.turn == PollingWatchdog && s.watchdog.Armed? && s.watchdog.seen == s.version
    ensures Step(s, SendersGone, Some(timeout)).Some? <==>
            (s.up.phase.Finished? || s.up.phase.Failed?) && (s.down.phase.Finished? || s.down.phase.Failed?)
  {
  }

  /** Nothing is assumed of the sizes of reads and writes, nor that they succeed: a pump can read any number of the
      bytes that are there, up to 64 KiB, and write any number of those it holds, and each operation can fail. */
  lemma AnySizes(p: Pump, source: Bytes, n: nat)
    requires PumpKeeps(p, source)
    ensures PumpStep(p, Read(n)).Some? <==> p.phase.Reading? && 1 <= n <= |p.unread| && n <= 64 * 1024
    ensures PumpStep(p, Write(n)).Some? <==> p.phase.Writing? && 1 <= n <= |p.pending|
    ensures PumpStep(p, ReadEnd).Some? <==> p.phase.Reading? && p.unread == []
    ensures PumpStep(p, ReadFail).Some? <==> p.phase.Reading?
    ensures PumpStep(p, WriteFail).Some? <==> p.phase.Writing?
    ensures PumpStep(p, ShutdownOk).Some? <==> p.phase.ShuttingDown?
    ensures PumpStep(p, ShutdownFail).Some? <==> p.phase.ShuttingDown?
  {
  }

  /** Nor is anything assumed of the schedule: time can pass at any moment before the end, between polls either side
      can be polled, and an armed watchdog can be left again. */
  lemma AnySchedule(s: State, timeout: nat, elapsed: nat)
    requires s.outcome.None?
    ensures Step(s, Tick(elapsed), Some(timeout)) == Some(s.(now := s.now + elapsed))
    ensures Step(s, BeginPumps, Some(timeout)).Some? <==> s.turn == Between
    ensures Step(s, BeginWatchdog, Some(timeout)).Some? <==> s.turn == Between
    ensures Step(s, BeginWatchdog, None).None?
    ensures Step(s, EndPumps, Some(timeout)).Some? <==> s.turn == PollingPumps
    ensures Step(s, Arm, Some(timeout)).Some? <==> s.turn == PollingWatchdog && s.watchdog.Disarmed?
    ensures Step(s, EndWatchdog, Some(timeout)).Some? <==> s.turn == PollingWatchdog && s.watchdog.Armed?
    ensures Step(s, TimerWake, Some(timeout)).Some? <==>
            s.turn == PollingWatchdog && s.watchdog.Armed? && s.watchdog.deadline <= s.now
  {
  }

  /** A delivery makes the activity newer, and nothing else does. */
  lemma VersionAt(h: History, i: nat)
    requires h.Happens() && i < |h.moves|
    ensures if Delivers(h, i) then h.State(i).version < h.State(i + 1).version
            else h.State(i).version == h.State(i + 1).version
  {
    NextState(h, i);
    StepRecords(h.State(i), h.moves[i], h.timeout, h.client, h.upstream);
  }

  /** What an armed watchdog has seen is the activity of the moment it was armed. */
  lemma {:induction false} SeenWhenArmed(h: History, k: nat, j: nat)
    requires h.Happens() && k < j <= |h.moves| && h.moves[k] == Arm && Arm !in h.moves[k + 1..j]
    ensures h.State(j).watchdog.Armed? ==> h.State(j).watchdog.seen == h.State(k).version
    decreases j
  {
    NextSeen(h, j - 1);
    if k + 1 < j {
      assert h.moves[k + 1..j] == h.moves[k + 1..j - 1] + [h.moves[j - 1]];
      SeenWhenArmed(h, k, j - 1);
    }
  }

  lemma NextSeen(h: History, i: nat)
    requires h.Happens() && i < |h.moves|
    ensures var s, s' := h.State(i), h.State(i + 1);
            s'.watchdog.Armed? ==> if h.moves[i].Arm? then s'.watchdog.seen == s.version else s'.watchdog == s.watchdog
  {
    NextState(h, i);
    SeenStays(h.State(i), h.moves[i], h.timeout);
  }

  /** What is seen changes only when the watchdog is armed. */
  lemma SeenStays(s: State, m: Move, timeout: Option<nat>)
    requires Step(s, m, timeout).Some?
    ensures var s' := Step(s, m, timeout).value;
            s'.watchdog.Armed? ==> if m.Arm? then s'.watchdog.seen == s.version else s'.watchdog == s.watchdog
  {
  }

  lemma {:induction false} VersionCounts(h: History, k: nat, j: nat)
    requires h.Happens() && k <= j <= |h.moves|
    ensures h.State(k).version <= h.State(j).version
    ensures h.State(k).version < h.State(j).version <==> exists i | k <= i < j :: Delivers(h, i)
    decreases j
  {
    if k < j {
      VersionCounts(h, k, j - 1);
      VersionAt(h, j - 1);
    }
  }

  /** A watchdog that is polled wakes for activity exactly if a piece has been delivered since it was armed. */
  lemma WakesOnActivity(h: History, timeout: nat, k: nat)
    requires h.Happens() && h.timeout == Some(timeout)
    requires k < |h.moves| && h.moves[k] == Arm && Arm !in h.moves[k + 1..]
    requires var s := h.State(|h.moves|); s.outcome.None? && s.turn == PollingWatchdog && s.watchdog.Armed?
    ensures Step(h.State(|h.moves|), ActivityChanged, Some(timeout)).Some? <==>
            exists i | k <= i < |h.moves| :: Delivers(h, i)
  {
    assert h.moves[k + 1..] == h.moves[k + 1..|h.moves|];
    SeenWhenArmed(h, k, |h.moves|);
    VersionCounts(h, k, |h.moves|);
  }

  // ---------------------------------------------------------------------------------------------
  // Nothing stands in the way of a good end

  /** A run goes on by exactly the moves that can happen in the state it has led to. */
  lemma RunGoesOn(s: State, timeout: Option<nat>, moves: seq<Move>, s': State, m: Move)
    requires Run(s, moves, timeout) == Some(s')
    ensures Run(s, moves + [m], timeout) == Step(s', m, timeout)
  {
    assert (moves + [m])[..|moves|] == moves;
  }

  /** A run that goes on. */
  ghost predicate Leads(s: State, timeout: Option<nat>, moves: seq<Move>, s': State) {
    Run(s, moves, timeout) == Some(s')
  }

  lemma LeadsOn(s: State, timeout: Option<nat>, moves: seq<Move>, s': State, m: Move)
    requires Leads(s, timeout, moves, s') && Step(s', m, timeout).Some?
    ensures Leads(s, timeout, moves + [m], Step(s', m, timeout).value)
  {
    RunGoesOn(s, timeout, moves, s', m);
  }

  lemma {:induction false} LeadsThen(s: State, timeout: Option<nat>, a: seq<Move>, s': State, b: seq<Move>, s'': State)
    requires Leads(s, timeout, a, s') && Leads(s', timeout, b, s'')
    ensures Leads(s, timeout, a + b, s'')
    decreases |b|
  {
    if b == [] {
      assert a + b == a;
    } else {
      var n := |b| - 1;
      var before := LastStep(s', timeout, b, s'');
      LeadsThen(s, timeout, a, s', b[..n], before);
      OneStepMore(s, timeout, a + b[..n], before, b[n], s'');
      assert a + b[..n] + [b[n]] == a + b;
    }
  }

  lemma LastStep(s: State, timeout: Option<nat>, moves: seq<Move>, s': State) returns (before: State)
    requires Leads(s, timeout, moves, s') && moves != []
    ensures Leads(s, timeout, moves[..|moves| - 1], before) && Follows(before, timeout, moves[|moves| - 1], s')
  {
    before := Run(s, moves[..|moves| - 1], timeout).value;
  }

  ghost predicate Follows(s: State, timeout: Option<nat>, m: Move, s': State) { Step(s, m, timeout) == Some(s') }

  lemma OneStepMore(s: State, timeout: Option<nat>, moves: seq<Move>, s': State, m: Move, s'': State)
    requires Leads(s, timeout, moves, s') && Follows(s', timeout, m, s'')
    ensures Leads(s, timeout, moves + [m], s'')
  {
    LeadsOn(s, timeout, moves, s', m);
  }

  /** How much is left for a pump to do. */
  ghost function Left(p: Pump): nat {
    match p.phase
    case Reading => 2 * |p.unread| + 2
    case Writing(_) => 2 * |p.unread| + 3
    case ShuttingDown => 1
    case _ => 0
  }

  /** The next move of a pump when nothing fails. */
  ghost function Onward(p: Pump): PumpMove {
    match p.phase
    case Reading => if p.unread == [] then ReadEnd else Read(Min(|p.unread|, PUMP_BUFFER))
    case Writing(_) => Write(|p.pending|)
    case _ => ShutdownOk
  }

  lemma OnwardWorks(p: Pump, source: Bytes)
    requires PumpKeeps(p, source) && !p.phase.Finished? && !p.phase.Failed?
    ensures PumpStep(p, Onward(p)).Some?
    ensures var p' := PumpStep(p, Onward(p)).value.0; Left(p') < Left(p) && !p'.phase.Failed?
  {
  }

  /** In a poll of the pumps one of them can finish. */
  lemma {:induction false} PumpFinishes(s: State, timeout: Option<nat>, side: Side, client: Bytes, upstream: Bytes)
      returns (moves: seq<Move>, s': State)
    requires PumpsKeep(s, client, upstream) && s.outcome.None? && s.turn == PollingPumps
    requires !s.up.phase.Failed? && !s.down.phase.Failed?
    ensures Leads(s, timeout, moves, s')
    ensures PumpsKeep(s', client, upstream) && s'.outcome.None? && s'.turn == PollingPumps
    ensures if side.Up? then s'.up.phase.Finished? && s'.down == s.down else s'.down.phase.Finished? && s'.up == s.up
    decreases Left(if side.Up? then s.up else s.down)
  {
    if (if side.Up? then s.up else s.down).phase.Finished? {
      moves, s' := [], s;
    } else {
      var m, next := PumpGoesOn(s, timeout, side, client, upstream);
      var more;
      more, s' := PumpFinishes(next, timeout, side, client, upstream);
      LeadsThen(s, timeout, [m], next, more, s');
      moves := [m] + more;
    }
  }

  /** One move of it. */
  lemma PumpGoesOn(s: State, timeout: Option<nat>, side: Side, client: Bytes, upstream: Bytes)
      returns (m: Move, s': State)
    requires PumpsKeep(s, client, upstream) && s.outcome.None? && s.turn == PollingPumps
    requires !s.up.phase.Failed? && !s.down.phase.Failed?
    requires !(if side.Up? then s.up else s.down).phase.Finished?
    ensures Leads(s, timeout, [m], s')
    ensures PumpsKeep(s', client, upstream) && s'.outcome.None? && s'.turn == PollingPumps
    ensures !s'.up.phase.Failed? && !s'.down.phase.Failed?
    ensures if side.Up? then Left(s'.up) < Left(s.up) && s'.down == s.down
            else Left(s'.down) < Left(s.down) && s'.up == s.up
  {
    var p, source := if side.Up? then s.up else s.down, if side.Up? then client else upstream;
    OnwardWorks(p, source);
    m := PumpMoves(side, Onward(p));
    s' := Step(s, m, timeout).value;
    StepKeepsPumps(s, m, timeout, client, upstream);
    LeadsOn(s, timeout, [], s, m);
    assert [] + [m] == [m];
  }

  /** The pumps can always be polled. */
  lemma ToPumps(s: State, timeout: Option<nat>) returns (moves: seq<Move>, s': State)
    requires s.outcome.None? && TurnsKeep(s, timeout)
    ensures Leads(s, timeout, moves, s')
    ensures s'.turn == PollingPumps && s'.outcome.None? && s'.up == s.up && s'.down == s.down
  {
    moves, s' := [], s;
    if s'.turn == PollingWatchdog && s'.watchdog.Disarmed? {
      LeadsOn(s, timeout, moves, s', Arm);
      moves, s' := moves + [Arm], Step(s', Arm, timeout).value;
    }
    if s'.turn == PollingWatchdog {
      LeadsOn(s, timeout, moves, s', EndWatchdog);
      moves, s' := moves + [EndWatchdog], Step(s', EndWatchdog, timeout).value;
    }
    if s'.turn == Between {
      LeadsOn(s, timeout, moves, s', BeginPumps);
      moves, s' := moves + [BeginPumps], Step(s', BeginPumps, timeout).value;
    }
  }

  /** However far a relay has come, as long as it is not over and no pump has failed it can still deliver everything
      and end well. */
  lemma CanEndWell(client: Bytes, upstream: Bytes, start: nat, timeout: Option<nat>, moves: seq<Move>, s: State)
      returns (more: seq<Move>, s': State)
    requires Reached(client, upstream, start, timeout, moves, s) && s.outcome.None? && !AnyFailed(s)
    ensures Reached(client, upstream, start, timeout, moves + more, s')
    ensures s'.outcome == Some(Done(|client|, |upstream|)) && s'.up.delivered == client && s'.down.delivered == upstream
  {
    ReachedKeeps(client, upstream, start, timeout, moves, s);
    var a, x := ToPumps(s, timeout);
    var b, y := PumpFinishes(x, timeout, Up, client, upstream);
    var c, z := PumpFinishes(y, timeout, Down, client, upstream);
    LeadsThen(s, timeout, a, x, b, y);
    LeadsThen(s, timeout, a + b, y, c, z);
    LeadsOn(s, timeout, a + b + c, z, EndPumps);
    more, s' := a + b + c + [EndPumps], Step(z, EndPumps, timeout).value;
    LeadsThen(Init(client, upstream, start), timeout, moves, s, more, s');
    DeliversPrefix(client, upstream, start, timeout, moves + more, s');
  }
}
