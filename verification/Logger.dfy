/**
 The asynchronous logger as a state machine over the ring: a thread that enqueues trades, the worker thread
 that drains them to the file, and the thread that starts and stops the logger, interleaved in any way.
 */
module Loggers {
  import opened Types
  import opened Ring

  datatype Caller = Free | Placing | Refusing

  datatype Worker = Off | Check | Drain | Write(item: Trade) | Done

  datatype Control = Ready | Joining | LastDrain | LastWrite(last: Trade)

  /** `rows` is the file since the last start, `earlier` what had been written before that; `calls` counts enqueues. */
  datatype Logger = Logger(ring: State<Trade>, running: bool, caller: Caller, worker: Worker, control: Control,
                           rows: seq<Trade>, earlier: seq<Trade>, calls: nat, dropped: nat)

  datatype Move = Enqueue(t: Trade) | CallerMove | Start | Stop | WorkerMove | ControlMove

  function Fresh(buffer: seq<Trade>): Logger {
    Logger(Init(buffer), false, Free, Off, Ready, [], [], 0, 0)
  }

  /** Every row written so far, in order. */
  function Written(s: Logger): seq<Trade> {
    s.earlier + s.rows
  }

  predicate Possible(s: Logger, m: Move) {
    match m
    case Enqueue(_) => s.caller.Free?
    case CallerMove => s.caller.Refusing? || (s.caller.Placing? && !s.ring.producer.Idle?)
    case Start => s.control.Ready?
    case Stop => s.control.Ready?
    case WorkerMove =>
      s.worker.Check? || s.worker.Write? || (s.worker.Drain? && !s.ring.consumer.Waiting?)
    case ControlMove =>
      (s.control.Joining? && s.worker.Done?) || s.control.LastWrite?
          || (s.control.LastDrain? && !s.ring.consumer.Waiting?)
  }

  // ---- enqueue_trade ----

  function EnqueueMove(s: Logger, t: Trade): Logger {
    s.(ring := BeginEmplace(Unbounded, s.ring, t), caller := Placing, calls := s.calls + 1)
  }

  /** A step of emplace, or the counting of a refused trade. */
  function CallerStep(s: Logger): Logger
    requires Cap(s.ring) > 0 && Possible(s, CallerMove)
  {
    if s.caller.Refusing? then s.(dropped := s.dropped + 1, caller := Free)
    else
      var r := ProducerStep(Unbounded, s.ring);
      s.(ring := r, caller := if !r.producer.Idle? then Placing
                              else if r.refused > s.ring.refused then Refusing else Free)
  }

  // ---- start and stop ----

  function StartMove(s: Logger): Logger {
    if s.running then s else s.(running := true, earlier := s.earlier + s.rows, rows := [], worker := Check)
  }

  function StopMove(s: Logger): Logger {
    if !s.running then s else s.(running := false, control := Joining)
  }

  // ---- drain ----

  /** The item a pop in its last step hands over. */
  function Handed(r: State<Trade>): Trade
    requires r.popped != []
  {
    r.popped[|r.popped| - 1]
  }

  /** Joining, then the final drain of the stopping thread. */
  function ControlStep(s: Logger): Logger
    requires Cap(s.ring) > 0 && Possible(s, ControlMove) && (s.ring.consumer.SaveHead? ==> s.ring.popped != [])
  {
    match s.control
    case Joining => s.(ring := BeginPop(s.ring), worker := Off, control := LastDrain)
    case LastWrite(t) => s.(ring := BeginPop(s.ring), rows := s.rows + [t], control := LastDrain)
    case LastDrain =>
      var r := ConsumerStep(Unbounded, s.ring);
      s.(ring := r, control := if !r.consumer.Waiting? then LastDrain
                               else if s.ring.consumer.SaveHead? then LastWrite(Handed(s.ring)) else Ready)
  }

  /** The worker's loop: look at `running_`, drain, write. */
  function WorkerStep(s: Logger): Logger
    requires Cap(s.ring) > 0 && Possible(s, WorkerMove) && (s.ring.consumer.SaveHead? ==> s.ring.popped != [])
  {
    match s.worker
    case Check => if s.running then s.(ring := BeginPop(s.ring), worker := Drain) else s.(worker := Done)
    case Write(t) => s.(ring := BeginPop(s.ring), rows := s.rows + [t], worker := Drain)
    case Drain =>
      var r := ConsumerStep(Unbounded, s.ring);
      s.(ring := r, worker := if !r.consumer.Waiting? then Drain
                              else if s.ring.consumer.SaveHead? then Write(Handed(s.ring)) else Check)
  }

  // ---- the invariant ----

  /** Popped but not yet written. */
  function InHand(s: Logger): seq<Trade> {
    if s.ring.consumer.SaveHead? && s.ring.popped != [] then [Handed(s.ring)]
    else if s.worker.Write? then [s.worker.item]
    else if s.control.LastWrite? then [s.control.last]
    else []
  }

  /** An enqueue that has neither been accepted nor counted as dropped yet. */
  function InFlight(s: Logger): nat {
    if s.caller.Refusing? || s.ring.producer.LoadHead? || s.ring.producer.WriteSlot?
        || s.ring.producer.StoreTail? then 1 else 0
  }

  /** Who may be popping: the worker while it lives, the stopping thread once the worker has been joined. */
  ghost predicate Turns(s: Logger) {
    && (!s.ring.consumer.Waiting? <==> s.worker.Drain? || s.control.LastDrain?)
    && (s.control.Ready? ==> (s.running <==> !s.worker.Off?) && !s.worker.Done?)
    && (s.control.Joining? ==> !s.running && !s.worker.Off?)
    && (s.control.LastDrain? || s.control.LastWrite? ==> !s.running && s.worker.Off?)
    && (s.caller.Placing? <==> !s.ring.producer.Idle?)
  }

  ghost predicate Books(s: Logger) {
    && s.ring.popped == Written(s) + InHand(s)
    && (s.ring.consumer.SaveHead? ==> s.ring.popped != [])
    && s.calls == |s.ring.accepted| + s.dropped + InFlight(s)
    && s.ring.refused == s.dropped + (if s.caller.Refusing? then 1 else 0)
  }

  ghost predicate LogInv(s: Logger) {
    Inv(s.ring) && Turns(s) && Books(s)
  }

  function Next(s: Logger, m: Move): Logger
    requires Cap(s.ring) > 0 && Possible(s, m) && (s.ring.consumer.SaveHead? ==> s.ring.popped != [])
  {
    match m
    case Enqueue(t) => EnqueueMove(s, t)
    case CallerMove => CallerStep(s)
    case Start => StartMove(s)
    case Stop => StopMove(s)
    case WorkerMove => WorkerStep(s)
    case ControlMove => ControlStep(s)
  }

  // ---- every move keeps it ----

  lemma EnqueueInv(s: Logger, t: Trade)
    requires LogInv(s) && s.caller.Free?
    ensures LogInv(EnqueueMove(s, t))
  {
    hide Indices, Contents;
    StepInv(s.ring, Emplace(t));
  }

  lemma CallerInv(s: Logger)
    requires LogInv(s) && Possible(s, CallerMove)
    ensures LogInv(CallerStep(s))
  {
    hide Indices, Contents;
    if s.caller.Placing? {
      ProducerInv(s.ring);
    }
  }

  lemma StartInv(s: Logger)
    requires LogInv(s) && s.control.Ready?
    ensures LogInv(StartMove(s))
  {
    hide Inv;
    assert (s.earlier + s.rows) + [] == s.earlier + s.rows;
  }

  lemma StopInv(s: Logger)
    requires LogInv(s) && s.control.Ready?
    ensures LogInv(StopMove(s))
  {
    hide Inv;
  }

  /** Writing the row in hand. */
  lemma RowWritten(s: Logger, t: Trade)
    ensures s.earlier + (s.rows + [t]) == Written(s) + [t]
    ensures Written(s) + [] == Written(s)
  {
  }

  /** A pop records the item it will hand over. */
  lemma PopRecords(r: State<Trade>)
    requires Inv(r) && !r.consumer.Waiting?
    ensures var r' := ConsumerStep(Unbounded, r);
            && Inv(r') && r'.producer == r.producer && r'.accepted == r.accepted && r'.refused == r.refused
            && (r.consumer.StoreHead? ==> r'.consumer.SaveHead? && r'.popped == r.popped + [r.consumer.item])
            && (!r.consumer.StoreHead? ==> !r'.consumer.SaveHead? && r'.popped == r.popped)
            && (r'.consumer.Waiting? ==> r.consumer.SaveHead? || r.consumer.LoadTail?)
            && (r.consumer.SaveHead? ==> r'.consumer.Waiting?)
  {
    hide Indices, Contents;
    ConsumerInv(r);
  }

  lemma BeginPopRecords(r: State<Trade>)
    requires Inv(r) && r.consumer.Waiting?
    ensures var r' := BeginPop(r);
            && Inv(r') && !r'.consumer.Waiting? && !r'.consumer.SaveHead? && r'.popped == r.popped
            && r'.producer == r.producer && r'.accepted == r.accepted && r'.refused == r.refused
  {
    hide Indices, Contents;
    StepInv(r, Pop);
  }

  lemma WorkerInv(s: Logger)
    requires LogInv(s) && Possible(s, WorkerMove)
    ensures LogInv(WorkerStep(s))
  {
    hide Inv, ConsumerStep, BeginPop;
    assert Cap(s.ring) > 0 by { CapPositive(s.ring); }
    if s.worker.Drain? {
      PopRecords(s.ring);
    } else {
      BeginPopRecords(s.ring);
      if s.worker.Write? {
        RowWritten(s, s.worker.item);
      }
    }
  }

  lemma ControlInv(s: Logger)
    requires LogInv(s) && Possible(s, ControlMove)
    ensures LogInv(ControlStep(s))
  {
    hide Inv, ConsumerStep, BeginPop;
    CapPositive(s.ring);
    if s.control.LastDrain? {
      PopRecords(s.ring);
    } else {
      BeginPopRecords(s.ring);
      if s.control.LastWrite? {
        RowWritten(s, s.control.last);
      }
    }
  }

  lemma CapPositive(r: State<Trade>)
    requires Inv(r)
    ensures Cap(r) > 0
  {
  }

  lemma NextInv(s: Logger, m: Move)
    requires LogInv(s) && Possible(s, m)
    ensures Cap(s.ring) > 0 && LogInv(Next(s, m))
  {
    hide Inv, Turns, WorkerStep, ControlStep, CallerStep, EnqueueMove, StartMove, StopMove;
    CapPositive(s.ring);
    match m
    case Enqueue(t) => EnqueueInv(s, t);
    case CallerMove => CallerInv(s);
    case Start => StartInv(s);
    case Stop => StopInv(s);
    case WorkerMove => WorkerInv(s);
    case ControlMove => ControlInv(s);
  }

  /** A start opens the file anew and sets the worker going; what was written before is kept apart. */
  lemma StartsAnew(s: Logger)
    requires LogInv(s) && Possible(s, Start)
    ensures Cap(s.ring) > 0
    ensures var s' := Next(s, Start);
            && Written(s') == Written(s) && s'.ring == s.ring && s'.dropped == s.dropped && s'.calls == s.calls
            && if s.running then s' == s else s'.running && s'.rows == [] && s'.worker == Check
  {
    CapPositive(s.ring);
    if !s.running {
      assert Written(Next(s, Start)) == Written(s);
    }
  }

  /** s' comes after some moves from s; a move that is not possible does not happen. */
  ghost predicate Reaches(s: Logger, moves: seq<Move>, s': Logger)
    requires LogInv(s)
    decreases |moves|
  {
    if moves == [] then s' == s
    else if Possible(s, moves[0]) then NextInv(s, moves[0]); Reaches(Next(s, moves[0]), moves[1..], s')
    else Reaches(s, moves[1..], s')
  }

  lemma {:induction false} ReachesInv(s: Logger, moves: seq<Move>, s': Logger)
    requires LogInv(s) && Reaches(s, moves, s')
    ensures LogInv(s')
    decreases |moves|
  {
    hide Next, Inv, Turns, Written, InHand, InFlight, Possible;
    if moves != [] {
      if Possible(s, moves[0]) {
        NextInv(s, moves[0]);
        ReachesInv(Next(s, moves[0]), moves[1..], s');
      } else {
        ReachesInv(s, moves[1..], s');
      }
    }
  }

  lemma FreshInv(buffer: seq<Trade>)
    requires Sized(Init(buffer))
    ensures LogInv(Fresh(buffer))
  {
    InitInv(buffer);
  }

  // ---- what the invariant says ----

  /**
   In every interleaving: each enqueue is a written row, or waits in the ring, or has been popped and is about to
   be written, or was dropped, or is still being placed; and rows are written in the order of acceptance.
   */
  lemma TradesAreConserved(buffer: seq<Trade>, moves: seq<Move>, s: Logger)
    requires Sized(Init(buffer)) && LogInv(Fresh(buffer)) && Reaches(Fresh(buffer), moves, s)
    ensures var queued := |s.ring.accepted| - |s.ring.popped|;
            s.calls == |Written(s)| + queued + |InHand(s)| + s.dropped + InFlight(s)
    ensures Written(s) <= s.ring.accepted
  {
    ReachesInv(Fresh(buffer), moves, s);
    WrittenIsPrefix(s);
  }

  lemma WrittenIsPrefix(s: Logger)
    requires LogInv(s)
    ensures Written(s) <= s.ring.accepted && |s.ring.popped| == |Written(s)| + |InHand(s)|
  {
    var w := Written(s);
    assert w <= s.ring.popped;
    assert s.ring.popped <= s.ring.accepted;
  }

  /** The worker and the stopping thread never pop at the same time. */
  lemma OneConsumer(s: Logger)
    requires LogInv(s)
    ensures !((s.worker.Drain? || s.worker.Write? || s.worker.Check?) && (s.control.LastDrain? || s.control.LastWrite?))
    ensures s.control.Ready? && !s.running ==> s.worker.Off? && s.ring.consumer.Waiting?
  {
  }

  /**
   Whichever move lets stop return (the caller is back, the logger no longer runs, and before the move one of the
   two was not so): the rows written are exactly the trades accepted until then, in order.
   */
  lemma StopDrainsAll(s: Logger, m: Move)
    requires LogInv(s) && Possible(s, m)
    ensures Cap(s.ring) > 0
    ensures var s' := Next(s, m);
            s'.control.Ready? && !s'.running && (s.running || !s.control.Ready?) ==>
              && Written(s') == s'.ring.accepted
              && s'.calls == |Written(s')| + s'.dropped + InFlight(s')
  {
    hide Indices, Contents;
    NextInv(s, m);
    var s' := Next(s, m);
    if s'.control.Ready? && !s'.running && (s.running || !s.control.Ready?) {
      assert m.ControlMove? && s.control.LastDrain?;
      PopRecords(s.ring);
      EmptyWhenDrained(s.ring);
      assert InHand(s') == [] && Written(s') + [] == Written(s');
    }
  }

  /** A stop of a running logger clears the flag and joins; the join ends only when the worker has seen the flag. */
  lemma StopJoins(s: Logger)
    requires LogInv(s) && Possible(s, Stop)
    ensures Cap(s.ring) > 0
    ensures var s' := Next(s, Stop);
            if !s.running then s' == s
            else !s'.running && s'.control.Joining? && !Possible(s', ControlMove) && s'.worker == s.worker
                 && s'.ring == s.ring && s'.rows == s.rows && s'.dropped == s.dropped && s'.calls == s.calls
  {
    CapPositive(s.ring);
  }
}
