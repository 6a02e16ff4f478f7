/**
 * Completion notification against an environment that adds completions at any moment. An armed
 * queue raises one event for the next completion it is armed for and is then disarmed; arming
 * raises nothing for completions that are already queued.
 */
module Notify {

  /**
   * The host arms for solicited completions and then drains its queue. The worker drains first,
   * stops early when its state has moved on, and then arms for every completion.
   */
  datatype Side = HostSide | WorkerSide

  datatype Phase = Waiting | Woken | Draining | Drained | Failed

  datatype Arming = Off | ForSolicited | ForAll

  /** `cq` holds for each queued completion whether it is solicited; `events` are unread. */
  datatype Channel = Channel(phase: Phase, armed: Arming, events: nat, cq: seq<bool>)

  /** `moved`: handling the completion has moved the state on, which ends the worker's drain. */
  datatype Move =
    | Arrive(solicited: bool)
    | TakeEvent
    | Arm
    | HandleOne(ok: bool, moved: bool)
    | FindEmpty

  predicate Raises(armed: Arming, solicited: bool) {
    armed == ForAll || (armed == ForSolicited && solicited)
  }

  predicate Enabled(side: Side, q: Channel, move: Move) {
    match move
    case Arrive(_) => true
    case TakeEvent => q.phase == Waiting && q.events > 0
    case Arm => q.phase == (if side.HostSide? then Woken else Drained)
    case HandleOne(_, _) => q.phase == Draining && q.cq != []
    case FindEmpty => q.phase == Draining && q.cq == []
  }

  function Next(side: Side, q: Channel, move: Move): Channel
    requires Enabled(side, q, move)
  {
    match move
    case Arrive(solicited) =>
      if Raises(q.armed, solicited) then q.(armed := Off, events := q.events + 1, cq := q.cq + [solicited])
      else q.(cq := q.cq + [solicited])
    case TakeEvent => q.(phase := if side.HostSide? then Woken else Draining, events := q.events - 1)
    case Arm =>
      if side.HostSide? then q.(phase := Draining, armed := ForSolicited) else q.(phase := Waiting, armed := ForAll)
    case HandleOne(ok, moved) =>
      q.(phase := if !ok then Failed else if side.WorkerSide? && moved then Drained else Draining, cq := q.cq[1..])
    case FindEmpty => q.(phase := if side.HostSide? then Waiting else Drained)
  }

  predicate Legal(side: Side, q: Channel, moves: seq<Move>)
    decreases |moves|
  {
    moves == [] || (Enabled(side, q, moves[0]) && Legal(side, Next(side, q, moves[0]), moves[1..]))
  }

  function Run(side: Side, q: Channel, moves: seq<Move>): Channel
    requires Legal(side, q, moves)
    decreases |moves|
  {
    if moves == [] then q else Run(side, Next(side, q, moves[0]), moves[1..])
  }

  /** The queue was just created: both sides arm it for solicited completions first. */
  const START := Channel(Waiting, ForSolicited, 0, [])

  /** The completions a side wants to be woken for: the host for solicited ones, the worker for all. */
  predicate Wanted(side: Side, cq: seq<bool>) {
    if side.HostSide? then true in cq else cq != []
  }

  /** Someone who waits is woken by what is queued, and will be by what comes. */
  predicate NotStranded(side: Side, q: Channel) {
    && (q.armed != Off || q.events > 0)
    && (Wanted(side, q.cq) ==> q.events > 0)
  }

  predicate HostInv(q: Channel) {
    q.armed != ForAll &&
    match q.phase
    case Waiting => NotStranded(HostSide, q)
    case Woken => true
    case Draining => q.armed != Off || q.events > 0
    case Drained => false
    case Failed => true
  }

  /** While the worker waits it is armed or has its one event; while it handles it has neither. */
  predicate WorkerInv(q: Channel) {
    match q.phase
    case Waiting => q.events == if q.armed == Off then 1 else 0
    case Woken => false
    case Draining => q.armed == Off && q.events == 0
    case Drained => q.armed == Off && q.events == 0
    case Failed => true
  }

  predicate SideInv(side: Side, q: Channel) {
    if side.HostSide? then HostInv(q) else WorkerInv(q)
  }

  lemma NextKeeps(side: Side, q: Channel, move: Move)
    requires SideInv(side, q) && Enabled(side, q, move)
    ensures SideInv(side, Next(side, q, move))
  {
  }

  lemma {:induction false} RunKeeps(side: Side, q: Channel, moves: seq<Move>)
    requires SideInv(side, q) && Legal(side, q, moves)
    ensures SideInv(side, Run(side, q, moves))
    decreases |moves|
  {
    hide SideInv, Enabled, Next;
    if moves != [] {
      NextKeeps(side, q, moves[0]);
      RunKeeps(side, Next(side, q, moves[0]), moves[1..]);
    }
  }

  /**
   * With the host's order no solicited completion is ever stranded: whenever a poll has returned
   * and until the next one takes an event, the queue is armed or an event is unread, and a queued
   * solicited completion implies an unread event, whatever arrived in between.
   */
  lemma {:induction false} HostNeverStranded(moves: seq<Move>)
    requires Legal(HostSide, START, moves) && Run(HostSide, START, moves).phase == Waiting
    ensures NotStranded(HostSide, Run(HostSide, START, moves))
  {
    hide Legal, Run;
    RunKeeps(HostSide, START, moves);
  }

  /**
   * With the worker's order a poll strands completions exactly if the queue is not empty at the
   * moment of arming: a drain that found it empty may have been overtaken by an arrival, and a
   * drain that stopped early may have left some behind.
   */
  lemma {:induction false} WorkerArmsWell(moves: seq<Move>)
    requires Legal(WorkerSide, START, moves) && Run(WorkerSide, START, moves).phase == Drained
    ensures var q := Run(WorkerSide, START, moves);
      NotStranded(WorkerSide, Next(WorkerSide, q, Arm)) <==> q.cq == []
  {
    hide Legal, Run;
    RunKeeps(WorkerSide, START, moves);
  }

  /** Between two polls a worker is stranded exactly if its queue is armed and holds a completion. */
  lemma {:induction false} WorkerStrandedIff(moves: seq<Move>)
    requires Legal(WorkerSide, START, moves) && Run(WorkerSide, START, moves).phase == Waiting
    ensures var q := Run(WorkerSide, START, moves);
      NotStranded(WorkerSide, q) <==> (q.armed != Off ==> q.cq == [])
  {
    hide Legal, Run;
    RunKeeps(WorkerSide, START, moves);
  }

  /** A stranded worker that has armed is woken by the next completion, solicited or not. */
  lemma {:induction false} NextArrivalWakes(moves: seq<Move>, solicited: bool)
    requires Legal(WorkerSide, START, moves) && Run(WorkerSide, START, moves).phase == Waiting
    requires Run(WorkerSide, START, moves).armed == ForAll
    ensures NotStranded(WorkerSide, Next(WorkerSide, Run(WorkerSide, START, moves), Arrive(solicited)))
  {
    hide Legal, Run;
  }

  // ---------------------------------------------------------------- both ways of stranding happen

  lemma RunStep(side: Side, q: Channel, moves: seq<Move>)
    requires moves != [] && Enabled(side, q, moves[0])
    requires Legal(side, Next(side, q, moves[0]), moves[1..])
    ensures Legal(side, q, moves)
    ensures Run(side, q, moves) == Run(side, Next(side, q, moves[0]), moves[1..])
  {
  }

  lemma NoMoves(side: Side, q: Channel)
    ensures Legal(side, q, []) && Run(side, q, []) == q
  {
  }

  // ---------------------------------------------------------------- a poll empties the queue

  function Handles(n: nat): (moves: seq<Move>)
    ensures |moves| == n
  {
    seq(n, _ => HandleOne(true, false))
  }

  /** One undisturbed poll over `n` completions that do not move the state on. */
  function Poll(side: Side, n: nat): seq<Move> {
    if side.HostSide? then [TakeEvent, Arm] + (Handles(n) + [FindEmpty])
    else [TakeEvent] + (Handles(n) + [FindEmpty, Arm])
  }

  lemma {:induction false} HandlesDrain(side: Side, q: Channel, rest: seq<Move>)
    requires q.phase == Draining && Legal(side, q.(cq := []), rest)
    ensures Legal(side, q, Handles(|q.cq|) + rest)
    ensures Run(side, q, Handles(|q.cq|) + rest) == Run(side, q.(cq := []), rest)
    decreases |q.cq|
  {
    hide Legal, Run;
    var moves := Handles(|q.cq|) + rest;
    if q.cq == [] {
      assert moves == rest;
    } else {
      var next := Next(side, q, moves[0]);
      HandlesDrain(side, next, rest);
      assert moves[1..] == Handles(|next.cq|) + rest;
      RunStep(side, q, moves);
    }
  }

  /** Woken by an event, a side that is left alone handles all that is queued, and ends armed and waiting. */
  lemma {:induction false} PollDrains(side: Side, q: Channel)
    requires q.phase == Waiting && q.events > 0
    ensures Legal(side, q, Poll(side, |q.cq|))
    ensures Run(side, q, Poll(side, |q.cq|))
         == Channel(Waiting, if side.HostSide? then ForSolicited else ForAll, q.events - 1, [])
  {
    var moves, handles := Poll(side, |q.cq|), Handles(|q.cq|);
    var woken := Next(side, q, TakeEvent);
    hide Legal, Run;
    if side.HostSide? {
      var draining := Next(side, woken, Arm);
      var last := draining.(cq := []);
      NoMoves(side, Next(side, last, FindEmpty));
      RunStep(side, last, [FindEmpty]);
      HandlesDrain(side, draining, [FindEmpty]);
      assert moves[1..][1..] == handles + [FindEmpty];
      RunStep(side, woken, moves[1..]);
      RunStep(side, q, moves);
    } else {
      var last := woken.(cq := []);
      var drained := Next(side, last, FindEmpty);
      NoMoves(side, Next(side, drained, Arm));
      RunStep(side, drained, [Arm]);
      assert [FindEmpty, Arm][1..] == [Arm];
      RunStep(side, last, [FindEmpty, Arm]);
      HandlesDrain(side, woken, [FindEmpty, Arm]);
      assert moves[1..] == handles + [FindEmpty, Arm];
      RunStep(side, q, moves);
    }
  }

  /** A run given by the channels it passes through. */
  lemma {:induction false} Passes(side: Side, moves: seq<Move>, qs: seq<Channel>)
    requires |qs| == |moves| + 1
    requires forall i :: 0 <= i < |moves| ==> Enabled(side, qs[i], moves[i]) && qs[i + 1] == Next(side, qs[i], moves[i])
    ensures Legal(side, qs[0], moves) && Run(side, qs[0], moves) == qs[|moves|]
    decreases |moves|
  {
    hide Enabled, Next;
    if moves == [] {
      NoMoves(side, qs[0]);
    } else {
      Passes(side, moves[1..], qs[1..]);
      RunStep(side, qs[0], moves);
    }
  }

  /** A completion that arrives between the drain and the arming raises no event. */
  lemma LateArrivalStrands()
    ensures var moves := [Arrive(true), TakeEvent, HandleOne(true, false), FindEmpty, Arrive(true), Arm];
      && Legal(WorkerSide, START, moves)
      && !NotStranded(WorkerSide, Run(WorkerSide, START, moves))
  {
    Passes(WorkerSide, [Arrive(true), TakeEvent, HandleOne(true, false), FindEmpty, Arrive(true), Arm],
           [START, Channel(Waiting, Off, 1, [true]), Channel(Draining, Off, 0, [true]), Channel(Draining, Off, 0, []),
            Channel(Drained, Off, 0, []), Channel(Drained, Off, 0, [true]), Channel(Waiting, ForAll, 0, [true])]);
  }

  /** A drain that stops at a state change leaves what is queued behind it without an event. */
  lemma EarlyStopStrands()
    ensures var moves := [Arrive(true), Arrive(false), TakeEvent, HandleOne(true, true), Arm];
      && Legal(WorkerSide, START, moves)
      && !NotStranded(WorkerSide, Run(WorkerSide, START, moves))
  {
    Passes(WorkerSide, [Arrive(true), Arrive(false), TakeEvent, HandleOne(true, true), Arm],
           [START, Channel(Waiting, Off, 1, [true]), Channel(Waiting, Off, 1, [true, false]),
            Channel(Draining, Off, 0, [true, false]), Channel(Drained, Off, 0, [false]),
            Channel(Waiting, ForAll, 0, [false])]);
  }
}
