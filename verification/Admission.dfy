/** Admission of client connections (`serve_until` of `src/server.rs`): any number of accept loops share
    one semaphore, each takes a permit before it accepts and hands it to the handler it spawns. */
module Admission {
  import opened Wire

  datatype LoopState =
    | Acquiring          // waiting for a permit
    | Accepting          // holding a permit, waiting for a client
    | Stopped            // returned: shutdown or accept error

  /** `loops` are the running and stopped accept loops, `handlers` the spawned handlers still alive. */
  datatype State = State(free: nat, loops: map<nat, LoopState>, handlers: set<nat>, spawned: nat)

  datatype Move =
    | StartLoop(id: nat)         // another clone of the proxy starts serving
    | Acquire(id: nat)
    | Shutdown(id: nat)          // the shutdown future completes
    | AcceptFails(id: nat)
    | Accept(id: nat)            // a client is accepted and its handler spawned
    | HandlerEnds(handler: nat)  // a handler returns, fails or panics, and drops its permit

  function Init(maxConnections: nat): State { State(maxConnections, map[], {}, 0) }

  /** One move; `None` if it cannot happen in this state. */
  function Step(s: State, m: Move): Option<State> {
    match m
    case StartLoop(id) => if id in s.loops then None else Some(s.(loops := s.loops[id := Acquiring]))
    case Acquire(id) =>
      if id in s.loops && s.loops[id] == Acquiring && s.free > 0 then
        Some(s.(free := s.free - 1, loops := s.loops[id := Accepting]))
      else None
    case Shutdown(id) =>
      if id !in s.loops || s.loops[id] == Stopped then None
      else if s.loops[id] == Accepting then Some(s.(free := s.free + 1, loops := s.loops[id := Stopped]))
      else Some(s.(loops := s.loops[id := Stopped]))
    case AcceptFails(id) =>
      if id in s.loops && s.loops[id] == Accepting then
        Some(s.(free := s.free + 1, loops := s.loops[id := Stopped]))
      else None
    case Accept(id) =>
      if id in s.loops && s.loops[id] == Accepting then
        Some(s.(loops := s.loops[id := Acquiring], handlers := s.handlers + {s.spawned}, spawned := s.spawned + 1))
      else None
    case HandlerEnds(h) =>
      if h in s.handlers then Some(s.(free := s.free + 1, handlers := s.handlers - {h})) else None
  }

  function Run(s: State, moves: seq<Move>): Option<State> {
    if moves == [] then Some(s)
    else
      var n := |moves| - 1;
      match Run(s, moves[..n])
      case None => None
      case Some(s') => Step(s', moves[n])
  }

  /** The accept loops that hold a permit. */
  ghost function Holders(s: State): set<nat> {
    set id | id in s.loops && s.loops[id] == Accepting
  }

  ghost predicate Conserved(s: State, maxConnections: nat) {
    && s.free + |Holders(s)| + |s.handlers| == maxConnections
    && forall h | h in s.handlers :: h < s.spawned
  }

  /** What each move does to the set of loops that hold a permit. */
  lemma HoldersAfter(s: State, m: Move)
    requires Step(s, m).Some?
    ensures var s' := Step(s, m).value;
            match m
            case StartLoop(_) => Holders(s') == Holders(s)
            case Acquire(id) => id !in Holders(s) && Holders(s') == Holders(s) + {id}
            case Shutdown(id) => Holders(s') == Holders(s) - {id} && (s.loops[id] == Accepting <==> id in Holders(s))
            case AcceptFails(id) => id in Holders(s) && Holders(s') == Holders(s) - {id}
            case Accept(id) => id in Holders(s) && Holders(s') == Holders(s) - {id}
            case HandlerEnds(_) => Holders(s') == Holders(s)
  {
  }

  lemma StepConserves(s: State, m: Move, maxConnections: nat)
    requires Conserved(s, maxConnections) && Step(s, m).Some?
    ensures Conserved(Step(s, m).value, maxConnections)
  {
    HoldersAfter(s, m);
  }

  /** Conservation over every run of any number of accept loops: free permits, permits held by loops and
      live handlers always add up to the configured maximum. So there are never more handlers than that,
      and once every loop has stopped and every handler has ended all permits are free again. */
  lemma {:induction false} PermitsConserved(maxConnections: nat, moves: seq<Move>, s: State)
    requires Run(Init(maxConnections), moves) == Some(s)
    ensures s.free + |Holders(s)| + |s.handlers| == maxConnections
    ensures |s.handlers| <= maxConnections
    ensures Holders(s) == {} && s.handlers == {} ==> s.free == maxConnections
  {
    RunConserves(maxConnections, moves, s);
  }

  lemma {:induction false} RunConserves(maxConnections: nat, moves: seq<Move>, s: State)
    requires Run(Init(maxConnections), moves) == Some(s)
    ensures Conserved(s, maxConnections)
    decreases |moves|
  {
    if moves == [] {
      assert Holders(s) == {};
    } else {
      var n := |moves| - 1;
      var before := Run(Init(maxConnections), moves[..n]).value;
      RunConserves(maxConnections, moves[..n], before);
      StepConserves(before, moves[n], maxConnections);
    }
  }

  /** The handlers alive are the clients accepted less the handlers that have ended. */
  ghost function Accepted(moves: seq<Move>): nat {
    if moves == [] then 0 else Accepted(moves[..|moves| - 1]) + (if moves[|moves| - 1].Accept? then 1 else 0)
  }

  ghost function Ended(moves: seq<Move>): nat {
    if moves == [] then 0 else Ended(moves[..|moves| - 1]) + (if moves[|moves| - 1].HandlerEnds? then 1 else 0)
  }

  lemma {:induction false} HandlersAreAccepted(maxConnections: nat, moves: seq<Move>, s: State)
    requires Run(Init(maxConnections), moves) == Some(s)
    ensures |s.handlers| == Accepted(moves) - Ended(moves)
    decreases |moves|
  {
    if moves != [] {
      var n := |moves| - 1;
      var before := Run(Init(maxConnections), moves[..n]).value;
      HandlersAreAccepted(maxConnections, moves[..n], before);
      RunConserves(maxConnections, moves[..n], before);
    }
  }

  /** The last move of an accept loop in a run, if it has made any. */
  ghost function LastMove(moves: seq<Move>, id: nat): Option<Move> {
    if moves == [] then None
    else
      var m := moves[|moves| - 1];
      if !m.HandlerEnds? && m.id == id then Some(m) else LastMove(moves[..|moves| - 1], id)
  }

  /** What each loop is doing follows from its last move: it waits for a permit when it has started or has handed one
      over, holds one when it has acquired it, and is stopped after a shutdown or an accept error. */
  lemma {:induction false} LoopFollowsMoves(maxConnections: nat, moves: seq<Move>, s: State, id: nat)
    requires Run(Init(maxConnections), moves) == Some(s)
    ensures match LastMove(moves, id)
            case None => id !in s.loops
            case Some(m) =>
              id in s.loops && s.loops[id] == match m
                                              case StartLoop(_) => Acquiring
                                              case Accept(_) => Acquiring
                                              case Acquire(_) => Accepting
                                              case _ => Stopped
    decreases |moves|
  {
    if moves != [] {
      LoopFollowsMoves(maxConnections, moves[..|moves| - 1], Run(Init(maxConnections), moves[..|moves| - 1]).value, id);
    }
  }

  /** Admission is prompt as well as bounded: a loop that waits can acquire a permit exactly if the permits held and
      the handlers alive are fewer than the maximum; a loop that holds one can accept a client, and that spawns one
      handler more; and shutdowns, accept errors and ends of handlers can come at any time. */
  lemma RoomMeansAdmission(maxConnections: nat, moves: seq<Move>, s: State, id: nat)
    requires Run(Init(maxConnections), moves) == Some(s) && id in s.loops
    ensures Step(s, Acquire(id)).Some? <==>
            s.loops[id] == Acquiring && |Holders(s)| + Accepted(moves) - Ended(moves) < maxConnections
    ensures Step(s, Accept(id)).Some? <==> s.loops[id] == Accepting
    ensures Step(s, AcceptFails(id)).Some? <==> s.loops[id] == Accepting
    ensures Step(s, Shutdown(id)).Some? <==> s.loops[id] != Stopped
    ensures Step(s, Accept(id)).Some? ==> |Step(s, Accept(id)).value.handlers| == |s.handlers| + 1
    ensures Accepted(moves) > Ended(moves) <==> exists h :: Step(s, HandlerEnds(h)).Some?
  {
    RunConserves(maxConnections, moves, s);
    HandlersAreAccepted(maxConnections, moves, s);
    if s.handlers != {} {
      var h :| h in s.handlers;
      assert Step(s, HandlerEnds(h)).Some?;
    }
  }

  /** When the maximum is reached no further client is accepted until a handler ends: no loop can acquire
      a permit, and a loop that holds one keeps the handlers below the maximum. */
  lemma FullMeansNoAdmission(maxConnections: nat, moves: seq<Move>, s: State, id: nat)
    requires Run(Init(maxConnections), moves) == Some(s) && |s.handlers| == maxConnections
    ensures Step(s, Acquire(id)).None? && Step(s, Accept(id)).None? && Step(s, AcceptFails(id)).None?
  {
    RunConserves(maxConnections, moves, s);
    assert Holders(s) == {};
    assert id !in Holders(s);
  }

  // ---------------------------------------------------------------------------------------------
  // Every number of handlers up to the maximum is reached

  /** A run goes on by exactly the moves that can happen in the state it has led to. */
  lemma RunGoesOn(start: State, moves: seq<Move>, s: State, m: Move)
    requires Run(start, moves) == Some(s)
    ensures Run(start, moves + [m]) == Step(s, m)
  {
    assert (moves + [m])[..|moves|] == moves;
  }

  /** With a loop that waits, as many handlers as wanted can be spawned, up to the maximum. */
  lemma {:induction false} CanFill(maxConnections: nat, wanted: nat) returns (moves: seq<Move>, s: State)
    requires wanted <= maxConnections
    ensures Run(Init(maxConnections), moves) == Some(s)
    ensures |s.handlers| == wanted && 0 in s.loops && s.loops[0] == Acquiring && Holders(s) == {}
    decreases wanted
  {
    if wanted == 0 {
      var start := Init(maxConnections);
      assert Run(start, []) == Some(start);
      RunGoesOn(start, [], start, StartLoop(0));
      moves, s := [] + [StartLoop(0)], Step(start, StartLoop(0)).value;
    } else {
      var before, x := CanFill(maxConnections, wanted - 1);
      RunConserves(maxConnections, before, x);
      var y := Step(x, Acquire(0)).value;
      var z := Step(y, Accept(0)).value;
      RunGoesOn(Init(maxConnections), before, x, Acquire(0));
      RunGoesOn(Init(maxConnections), before + [Acquire(0)], y, Accept(0));
      moves, s := before + [Acquire(0)] + [Accept(0)], z;
      HoldersAfter(x, Acquire(0));
      HoldersAfter(y, Accept(0));
      RunConserves(maxConnections, moves, s);
    }
  }
}
