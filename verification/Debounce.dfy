/**
  The debouncer. Its timer is modelled in both channel modes of the Go runtime:
  buffered (`async`), where a stopped timer may leave a stale tick behind, and
  synchronous, where stopping discards it.
*/
module Debounce {
  import opened Text

  /** A one-shot timer: when it is due, if armed, and the tick waiting in its channel, if any. */
  datatype Timer = Timer(deadline: Option<int>, tick: Option<int>)

  const IDLE := Timer(None, None)

  function Max0(d: int): int { if d > 0 then d else 0 }

  /** The runtime runs a due timer; a tick already in the channel is not replaced. */
  function Elapse(t: Timer, now: int): Timer {
    if t.deadline.Some? && t.deadline.value <= now
    then Timer(None, if t.tick.Some? then t.tick else Some(now))
    else t
  }

  /** Stopping disarms; in synchronous mode it also takes back a tick nobody received. */
  function StopTimer(t: Timer, now: int, async: bool): (Timer, bool) {
    var e := Elapse(t, now);
    if async then (Timer(None, e.tick), e.deadline.Some?)
    else (IDLE, e.deadline.Some? || e.tick.Some?)
  }

  function ResetTimer(t: Timer, now: int, d: int, async: bool): Timer {
    Timer(Some(now + Max0(d)), if async then t.tick else None)
  }

  /** Stop, drain if that came too late, and start again. */
  function BumpTimer(t: Timer, now: int, d: int, async: bool): Timer {
    var (s, stopped) := StopTimer(t, now, async);
    ResetTimer(if stopped then s else s.(tick := None), now, d, async)
  }

  /** A bump leaves a fresh timer with no tick, except for a buffered timer that is armed and still holds a tick. */
  lemma BumpIsCleanIff(t: Timer, now: int, d: int, async: bool)
    ensures BumpTimer(t, now, d, async) == Timer(Some(now + Max0(d)), None) <==>
            !(async && t.tick.Some? && t.deadline.Some? && now < t.deadline.value)
  {
  }

  /** Never both armed and holding a tick. */
  predicate OneShot(t: Timer) { t.deadline.None? || t.tick.None? }

  /******* The timer and the debouncer as objects *******/

  class GoTimer {
    const async: bool
    var deadline: Option<int>
    var tick: Option<int>

    constructor (async: bool, now: int, d: int)
      ensures this.async == async && State() == Timer(Some(now + Max0(d)), None)
    {
      this.async := async;
      deadline, tick := Some(now + Max0(d)), None;
    }

    function State(): Timer
      reads this
    {
      Timer(deadline, tick)
    }

    method Run(now: int)
      modifies this
      ensures State() == Elapse(old(State()), now)
    {
      if deadline.Some? && deadline.value <= now {
        deadline := None;
        if tick.None? { tick := Some(now); }
      }
    }

    method Stop(now: int) returns (stopped: bool)
      modifies this
      ensures (State(), stopped) == StopTimer(old(State()), now, async)
    {
      Run(now);
      stopped := deadline.Some? || (!async && tick.Some?);
      deadline := None;
      if !async { tick := None; }
    }

    method Reset(now: int, d: int)
      modifies this
      ensures State() == ResetTimer(old(State()), now, d, async)
    {
      deadline := Some(now + Max0(d));
      if !async { tick := None; }
    }

    /** A receive that does not wait. */
    method Poll(now: int) returns (received: Option<int>)
      modifies this
      ensures received == Elapse(old(State()), now).tick
      ensures State() == Elapse(old(State()), now).(tick := None)
    {
      Run(now);
      received := tick;
      tick := None;
    }
  }

  class Debouncer {
    const d: int
    const timer: GoTimer

    /** Created stopped, however much time passes between creation and stop. */
    constructor (async: bool, d: int, created: int, stopped: int)
      requires created <= stopped
      ensures this.d == d && fresh(timer) && timer.async == async
      ensures timer.State() == IDLE
    {
      this.d := d;
      var t := new GoTimer(async, created, 3_600_000_000_000);
      timer := t;
      new;
      var ok := t.Stop(stopped);
      if !ok {
        assert t.tick.Some?;
        var _ := t.Poll(stopped);
      }
    }

    method Bump(now: int)
      modifies timer
      ensures timer.State() == BumpTimer(old(timer.State()), now, d, timer.async)
      ensures OneShot(old(timer.State())) ==> timer.State() == Timer(Some(now + Max0(d)), None)
    {
      var stopped := timer.Stop(now);
      if !stopped {
        var _ := timer.Poll(now);
      }
      timer.Reset(now, d);
    }

    method Stop(now: int)
      modifies timer
      ensures timer.State() == StopTimer(old(timer.State()), now, timer.async).0
    {
      var _ := timer.Stop(now);
    }

    /** A receive from the debouncer's channel. */
    method Fire(now: int) returns (received: Option<int>)
      modifies timer
      ensures received == Elapse(old(timer.State()), now).tick
      ensures timer.State() == Elapse(old(timer.State()), now).(tick := None)
    {
      received := timer.Poll(now);
    }
  }

  /******* Traces *******/

  datatype Op = Bump | Wait(dt: nat) | Receive

  datatype Machine = Machine(now: int, timer: Timer)

  /** One operation, as the contracts above have it. */
  function Apply(m: Machine, op: Op, d: int, async: bool): Machine {
    match op
    case Bump => m.(timer := BumpTimer(m.timer, m.now, d, async))
    case Wait(dt) => Machine(m.now + dt, Elapse(m.timer, m.now + dt))
    case Receive => m.(timer := Elapse(m.timer, m.now).(tick := None))
  }

  function Exec(start: int, d: int, async: bool, trace: seq<Op>): Machine {
    if trace == [] then Machine(start, IDLE)
    else Apply(Exec(start, d, async, trace[..|trace| - 1]), trace[|trace| - 1], d, async)
  }

  /** A receive at the end of the trace would get a tick. */
  predicate CanReceive(start: int, d: int, async: bool, trace: seq<Op>) {
    var m := Exec(start, d, async, trace);
    Elapse(m.timer, m.now).tick.Some?
  }

  /******* What a debouncer should do, without timers *******/

  function Clock(start: int, trace: seq<Op>): int {
    if trace == [] then start
    else Clock(start, trace[..|trace| - 1]) + match trace[|trace| - 1] case Wait(dt) => dt case _ => 0
  }

  /** The time of the latest bump that no receive has answered yet. */
  function Unanswered(start: int, d: int, trace: seq<Op>): Option<int>
    decreases |trace|, 0
  {
    if trace == [] then None else
      var before := trace[..|trace| - 1];
      match trace[|trace| - 1]
      case Bump => Some(Clock(start, before))
      case Wait(_) => Unanswered(start, d, before)
      case Receive => if Quiet(start, d, before) then None else Unanswered(start, d, before)
  }

  /** There is an unanswered bump, and d has passed since. */
  predicate Quiet(start: int, d: int, trace: seq<Op>)
    decreases |trace|, 1
  {
    Unanswered(start, d, trace).Some? && Clock(start, trace) >= Unanswered(start, d, trace).value + Max0(d)
  }

  /** The state of the timer, in those terms. */
  predicate Explained(start: int, d: int, async: bool, trace: seq<Op>) {
    var m := Exec(start, d, async, trace);
    && m.now == Clock(start, trace)
    && match Unanswered(start, d, trace)
       case None => m.timer == IDLE
       case Some(b) =>
         && b <= m.now
         && (m.now < b + Max0(d) ==> m.timer == Timer(Some(b + Max0(d)), None))
         && (m.now >= b + Max0(d) ==>
               m.timer == Timer(Some(b + Max0(d)), None) || (m.timer.deadline == None && m.timer.tick.Some?))
  }

  lemma {:induction false} TimerExplained(start: int, d: int, async: bool, trace: seq<Op>)
    ensures Explained(start, d, async, trace)
  {
    if trace == [] {
    } else {
      var before := trace[..|trace| - 1];
      TimerExplained(start, d, async, before);
      match trace[|trace| - 1] {
        case Bump =>
        case Wait(_) => assert Unanswered(start, d, trace) == Unanswered(start, d, before);
        case Receive =>
          assert Quiet(start, d, before) ==> Unanswered(start, d, trace) == None;
          assert !Quiet(start, d, before) ==> Unanswered(start, d, trace) == Unanswered(start, d, before);
      }
    }
  }

  /** The timer refines the simple debouncer: a receive succeeds exactly when d has passed since a bump nobody answered. */
  lemma FiresIffQuiet(start: int, d: int, async: bool, trace: seq<Op>)
    ensures CanReceive(start, d, async, trace) <==> Quiet(start, d, trace)
  {
    TimerExplained(start, d, async, trace);
  }

  /******* Consequences *******/

  /** The time of the latest bump. */
  function LastBump(start: int, trace: seq<Op>): Option<int> {
    if trace == [] then None
    else if trace[|trace| - 1].Bump? then Some(Clock(start, trace[..|trace| - 1]))
    else LastBump(start, trace[..|trace| - 1])
  }

  lemma {:induction false} UnansweredIsLast(start: int, d: int, trace: seq<Op>)
    ensures Unanswered(start, d, trace).Some? ==> LastBump(start, trace) == Unanswered(start, d, trace)
  {
    if trace == [] {
    } else {
      UnansweredIsLast(start, d, trace[..|trace| - 1]);
    }
  }

  /** A receive happens at least d after the latest bump. */
  lemma ReceiveAfterQuiet(start: int, d: int, async: bool, trace: seq<Op>)
    requires CanReceive(start, d, async, trace)
    ensures LastBump(start, trace).Some? && Clock(start, trace) >= LastBump(start, trace).value + d
  {
    FiresIffQuiet(start, d, async, trace);
    UnansweredIsLast(start, d, trace);
  }

  lemma {:induction false} NoBumpNothing(start: int, d: int, trace: seq<Op>, rest: seq<Op>)
    requires Unanswered(start, d, trace).None? && Bump !in rest
    ensures Unanswered(start, d, trace + rest).None?
  {
    if rest == [] {
      assert trace + rest == trace;
    } else {
      assert (trace + rest)[..|trace + rest| - 1] == trace + rest[..|rest| - 1];
      assert rest[|rest| - 1] in rest;
      NoBumpNothing(start, d, trace, rest[..|rest| - 1]);
    }
  }

  /** Between two receives there is at least one bump. */
  lemma BumpBetweenReceives(start: int, d: int, async: bool, trace: seq<Op>, between: seq<Op>)
    requires CanReceive(start, d, async, trace)
    requires CanReceive(start, d, async, trace + [Receive] + between)
    ensures Bump in between
  {
    FiresIffQuiet(start, d, async, trace);
    FiresIffQuiet(start, d, async, trace + [Receive] + between);
    assert (trace + [Receive])[..|trace|] == trace;
    if Bump !in between { NoBumpNothing(start, d, trace + [Receive], between); }
  }

  predicate OnlyWaits(ops: seq<Op>) { forall op :: op in ops ==> op.Wait? }

  lemma {:induction false} WaitsKeepBump(start: int, d: int, trace: seq<Op>, waits: seq<Op>)
    requires OnlyWaits(waits)
    ensures Unanswered(start, d, trace + [Bump] + waits) == Some(Clock(start, trace))
  {
    if waits == [] {
      assert trace + [Bump] + waits == trace + [Bump];
      assert (trace + [Bump])[..|trace|] == trace;
    } else {
      var all := trace + [Bump] + waits;
      assert all[..|all| - 1] == trace + [Bump] + waits[..|waits| - 1];
      assert waits[|waits| - 1] in waits;
      WaitsKeepBump(start, d, trace, waits[..|waits| - 1]);
    }
  }

  lemma {:induction false} WaitsTakeTime(start: int, trace: seq<Op>, waits: seq<Op>)
    requires OnlyWaits(waits)
    ensures Clock(start, trace + [Bump] + waits) >= Clock(start, trace)
  {
    var all := trace + [Bump] + waits;
    if waits == [] {
      assert all == trace + [Bump] && all[..|all| - 1] == trace;
    } else {
      assert all[..|all| - 1] == trace + [Bump] + waits[..|waits| - 1];
      assert waits[|waits| - 1] in waits;
      WaitsTakeTime(start, trace, waits[..|waits| - 1]);
    }
  }

  /** After a bump, d of quiet leaves exactly one tick to receive: one receive succeeds and no further one does before the next bump. */
  lemma QuietLeavesOneTick(start: int, d: int, async: bool, trace: seq<Op>, waits: seq<Op>, later: seq<Op>)
    requires OnlyWaits(waits)
    requires Clock(start, trace + [Bump] + waits) >= Clock(start, trace) + d
    requires Bump !in later
    ensures CanReceive(start, d, async, trace + [Bump] + waits)
    ensures !CanReceive(start, d, async, trace + [Bump] + waits + [Receive] + later)
  {
    var quiet := trace + [Bump] + waits;
    WaitsKeepBump(start, d, trace, waits);
    WaitsTakeTime(start, trace, waits);
    FiresIffQuiet(start, d, async, quiet);
    if CanReceive(start, d, async, quiet + [Receive] + later) {
      BumpBetweenReceives(start, d, async, quiet, later);
    }
  }

  /******* Starvation *******/

  /** At no moment of the trace has d passed since the latest bump. */
  predicate NeverQuiet(start: int, d: int, trace: seq<Op>) {
    && (trace != [] ==> NeverQuiet(start, d, trace[..|trace| - 1]))
    && (LastBump(start, trace).Some? ==> Clock(start, trace) < LastBump(start, trace).value + Max0(d))
  }

  /** At no moment of the trace would a receive get a tick. */
  predicate NeverReady(start: int, d: int, async: bool, trace: seq<Op>) {
    && (trace != [] ==> NeverReady(start, d, async, trace[..|trace| - 1]))
    && !CanReceive(start, d, async, trace)
  }

  /** Until a tick is ready no bump is answered. */
  lemma {:induction false} NothingAnswered(start: int, d: int, async: bool, trace: seq<Op>)
    requires trace != [] ==> NeverReady(start, d, async, trace[..|trace| - 1])
    ensures Unanswered(start, d, trace) == LastBump(start, trace)
  {
    if trace == [] {
    } else {
      var before := trace[..|trace| - 1];
      NothingAnswered(start, d, async, before);
      FiresIffQuiet(start, d, async, before);
    }
  }

  /** Bumps starve the debouncer exactly as long as each comes before d has passed since the one before. */
  lemma {:induction false} StarvedIff(start: int, d: int, async: bool, trace: seq<Op>)
    ensures NeverReady(start, d, async, trace) <==> NeverQuiet(start, d, trace)
  {
    FiresIffQuiet(start, d, async, trace);
    if trace == [] {
    } else {
      StarvedIff(start, d, async, trace[..|trace| - 1]);
      if NeverReady(start, d, async, trace[..|trace| - 1]) { NothingAnswered(start, d, async, trace); }
    }
  }
}
