/** The event loop from subscription on: Docker, the debouncer and the reconciles, one step at a time. */
module EventLoop {
  import opened Text
  import opened Sans
  import opened Reissue
  import opened Reconcile
  import D = Debounce
  import I = Inspect
  import R = Render

  /** What the loop is doing; `complete` says that the listing inspected every container. */
  datatype Phase = Selecting | Listing | Reconciling(snapshot: seq<I.Container>, complete: bool) | Ended

  /**
    `containers` is what Docker runs now and `queue` counts the events it has
    sent that the loop has not received. `changed` says that since the latest
    listing began something has changed that the subscriptions announce,
    `slipped` that something has changed that they do not. `good` says that the
    latest reconcile listed everything and wrote its file.
  */
  datatype Loop = Loop(
    containers: seq<I.Container>,
    queue: nat,
    clock: int,
    timer: D.Timer,
    phase: Phase,
    world: World,
    changed: bool,
    slipped: bool,
    good: bool)

  /**
    A start, a stop and a network change are announced. A rename is not: its
    event is of a kind the loop has not subscribed to. `End` is cancellation or
    a broken event stream.
  */
  datatype Step =
    | Change(containers: seq<I.Container>, announced: bool)
    | Pass(dt: nat)
    | ReceiveEvent
    | ReceiveTick
    | ListFails
    | ListDone(snapshot: seq<I.Container>, complete: bool)
    | ReconcileEnds(env: Env, out: seq<R.Router>)
    | End

  /** The debounce interval and the timer mode. */
  datatype Setup = Setup(d: int, async: bool)

  ghost predicate Enabled(l: Loop, step: Step) {
    match step
    case Change(_, _) => true
    case Pass(_) => true
    case ReceiveEvent => l.phase.Selecting? && l.queue > 0
    case ReceiveTick => l.phase.Selecting? && D.Elapse(l.timer, l.clock).tick.Some?
    case ListFails => l.phase.Listing?
    case ListDone(snapshot, complete) =>
      l.phase.Listing? && (complete && !l.changed && !l.slipped ==> snapshot == l.containers)
    case ReconcileEnds(env, out) =>
      && l.phase.Reconciling?
      && Honest(env.faults, SanList(l.world.settings, I.Projects(l.phase.snapshot)))
      && (Reconciled(l.world, l.phase.snapshot, env, out).1 == Done ==>
            R.Renders(RenderInput(l.world, l.phase.snapshot), out))
    case End => l.phase.Selecting?
  }

  ghost function Next(l: Loop, step: Step, s: Setup): Loop {
    match step
    case Change(cs, announced) =>
      if announced then l.(containers := cs, queue := l.queue + 1, changed := true)
      else l.(containers := cs, slipped := true)
    case Pass(dt) => l.(clock := l.clock + dt, timer := D.Elapse(l.timer, l.clock + dt))
    case ReceiveEvent =>
      l.(queue := if l.queue > 0 then l.queue - 1 else 0, timer := D.BumpTimer(l.timer, l.clock, s.d, s.async))
    case ReceiveTick =>
      l.(timer := D.Elapse(l.timer, l.clock).(tick := None), phase := Listing, changed := false, slipped := false)
    case ListFails => l.(phase := Selecting, good := false)
    case ListDone(snapshot, complete) => l.(phase := Reconciling(snapshot, complete))
    case ReconcileEnds(env, out) =>
      if !l.phase.Reconciling? then l else
        var (w, r) := Reconciled(l.world, l.phase.snapshot, env, out);
        l.(world := w, phase := Selecting, good := l.phase.complete && r == Done)
    case End => l.(phase := Ended, timer := D.StopTimer(l.timer, l.clock, s.async).0)
  }

  /** Just after subscribing: nothing queued, timer stopped; the file may be anything the boot reconcile left. */
  function Subscribed(containers: seq<I.Container>, clock: int, w: World): Loop {
    Loop(containers, 0, clock, D.IDLE, Selecting, w, false, false, false)
  }

  ghost function After(l: Loop, steps: seq<Step>, s: Setup): Loop {
    if steps == [] then l else Next(After(l, steps[..|steps| - 1], s), steps[|steps| - 1], s)
  }

  ghost predicate Possible(l: Loop, steps: seq<Step>, s: Setup) {
    steps == [] ||
    (Possible(l, steps[..|steps| - 1], s) && Enabled(After(l, steps[..|steps| - 1], s), steps[|steps| - 1]))
  }

  /******* One round of the select, on the objects themselves *******/

  /** The case the select takes; with a tick comes what the listing will return and how the reconcile will go. */
  datatype Ready =
    | Cancelled
    | StreamFailed
    | EventReady
    | TickReady(listing: Option<seq<I.Container>>, env: Env)

  class Discoverer {
    const debounce: D.Debouncer
    const reconciler: Reconciler

    constructor (debounce: D.Debouncer, reconciler: Reconciler)
      ensures this.debounce == debounce && this.reconciler == reconciler
    {
      this.debounce, this.reconciler := debounce, reconciler;
    }

    /**
      Cancellation and a broken stream end the loop and stop the timer. An event
      bumps the timer and nothing else; a tick is consumed before the listing,
      and a failed reconcile is not retried.
    */
    method Select(ready: Ready, now: int) returns (alive: bool)
      requires ready.TickReady? ==> D.Elapse(debounce.timer.State(), now).tick.Some?
      modifies debounce.timer, reconciler, reconciler.store
      ensures alive == !(ready.Cancelled? || ready.StreamFailed?)
      ensures debounce.timer.State() ==
              var t := old(debounce.timer.State());
              match ready
              case EventReady => D.BumpTimer(t, now, debounce.d, debounce.timer.async)
              case TickReady(_, _) => D.Elapse(t, now).(tick := None)
              case _ => D.StopTimer(t, now, debounce.timer.async).0
      ensures reconciler.State() ==
              if ready.TickReady? && ready.listing.Some?
              then Reconciled(old(reconciler.State()), ready.listing.value, ready.env, reconciler.Routers()).0
              else old(reconciler.State())
    {
      match ready
      case EventReady =>
        debounce.Bump(now);
        return true;
      case TickReady(listing, env) =>
        var _ := debounce.Fire(now);
        if listing.Some? {
          var _ := reconciler.ReconcileWith(listing.value, env);
        }
        return true;
      case _ =>
        debounce.Stop(now);
        return false;
    }
  }

  /******* No announced change goes unnoticed *******/

  /** The file was rendered from exactly these containers. */
  ghost predicate FileIsCurrent(w: World, cs: seq<I.Container>) {
    && w.published.Some?
    && w.published.value.containers == cs
    && R.Renders(RenderInput(w, cs), w.published.value.routers)
  }

  /** The file is what was rendered from the containers it was made for. */
  ghost predicate FileIsRendered(w: World) {
    && w.published.Some?
    && R.Renders(RenderInput(w, w.published.value.containers), w.published.value.routers)
  }

  /** While the loop lives, an announced change since the latest listing began still has its event queued, or the timer is running or has fired. */
  ghost predicate NothingLost(l: Loop) {
    && (l.changed ==> l.queue > 0 || l.timer != D.IDLE || l.phase.Ended?)
    && (l.phase.Reconciling? && l.phase.complete && !l.changed && !l.slipped ==> l.phase.snapshot == l.containers)
    && (l.phase.Selecting? && l.good ==> FileIsRendered(l.world))
    && (l.phase.Selecting? && l.good && !l.changed && !l.slipped ==> FileIsCurrent(l.world, l.containers))
  }

  lemma BumpArms(t: D.Timer, now: int, s: Setup)
    ensures D.BumpTimer(t, now, s.d, s.async) != D.IDLE
  {
  }

  lemma {:induction false} WrittenFileIsCurrent(w: World, cs: seq<I.Container>, env: Env, out: seq<R.Router>)
    requires Reconciled(w, cs, env, out).1 == Done && R.Renders(RenderInput(w, cs), out)
    ensures FileIsCurrent(Reconciled(w, cs, env, out).0, cs)
  {
  }

  lemma StepLosesNothing(l: Loop, step: Step, s: Setup)
    requires NothingLost(l) && Enabled(l, step)
    ensures NothingLost(Next(l, step, s))
  {
    if step.ReceiveEvent? { BumpArms(l.timer, l.clock, s); }
    if step.ReconcileEnds? && Next(l, step, s).good {
      WrittenFileIsCurrent(l.world, l.phase.snapshot, step.env, step.out);
    }
  }

  lemma {:induction false} RunLosesNothing(cs: seq<I.Container>, clock: int, w: World, steps: seq<Step>, s: Setup)
    requires Possible(Subscribed(cs, clock, w), steps, s)
    ensures NothingLost(After(Subscribed(cs, clock, w), steps, s))
  {
    if steps == [] {
    } else {
      var init := steps[..|steps| - 1];
      RunLosesNothing(cs, clock, w, init, s);
      StepLosesNothing(After(Subscribed(cs, clock, w), init, s), steps[|steps| - 1], s);
    }
  }

  /** Nothing queued, no timer running, no tick waiting. */
  predicate AtRest(l: Loop) {
    l.phase.Selecting? && l.queue == 0 && l.timer == D.IDLE
  }

  /**
    Whenever the loop has come to rest after a good reconcile, whatever arrived
    when: without an unannounced change since its listing began the file is a
    render of the containers as they are now. In any case it was rendered for
    exactly them if and only if its snapshot is still right, and shows their
    routes if and only if the routers of both agree up to order.
  */
  lemma {:induction false} QuiescentFileIsCurrentIff(cs: seq<I.Container>, clock: int, w: World, steps: seq<Step>, s: Setup)
    requires Possible(Subscribed(cs, clock, w), steps, s)
    requires var l := After(Subscribed(cs, clock, w), steps, s); AtRest(l) && l.good
    ensures var l := After(Subscribed(cs, clock, w), steps, s);
            && (!l.slipped ==> FileIsCurrent(l.world, l.containers))
            && l.world.published.Some?
            && var pub := l.world.published.value;
            && (FileIsCurrent(l.world, l.containers) <==> pub.containers == l.containers)
            && (R.Renders(RenderInput(l.world, l.containers), pub.routers) <==>
                multiset(R.Routers(RenderInput(l.world, pub.containers))) == multiset(R.Routers(RenderInput(l.world, l.containers))))
  {
    RunLosesNothing(cs, clock, w, steps, s);
  }

  /** A loop at rest stays as it is until an announced change, however much time passes and whatever else changes. */
  lemma {:induction false} RestPersists(l: Loop, steps: seq<Step>, s: Setup)
    requires AtRest(l) && Possible(l, steps, s)
    requires forall step :: step in steps && step.Change? ==> !step.announced
    ensures var l' := After(l, steps, s); (AtRest(l') || l'.phase.Ended?) && l'.world == l.world && l'.good == l.good
  {
    if steps == [] {
    } else {
      var init, step := steps[..|steps| - 1], steps[|steps| - 1];
      assert step in steps && forall x :: x in init ==> x in steps;
      RestPersists(l, init, s);
    }
  }

  /** Once the loop has ended nothing more is listed, the file stays, and the timer is stopped. */
  lemma {:induction false} EndIsFinal(l: Loop, steps: seq<Step>, s: Setup)
    requires Enabled(l, End) && Possible(Next(l, End, s), steps, s)
    ensures var l' := After(Next(l, End, s), steps, s);
            l'.phase.Ended? && l'.world == l.world && l'.timer.deadline.None?
  {
    if steps == [] {
    } else {
      EndIsFinal(l, steps[..|steps| - 1], s);
    }
  }

  /******* Every event leads to a listing *******/

  /** What a step is to the debouncer, if anything. */
  function OpOf(step: Step): seq<D.Op> {
    match step
    case Pass(dt) => [D.Wait(dt)]
    case ReceiveEvent => [D.Bump]
    case ReceiveTick => [D.Receive]
    case _ => []
  }

  function Trace(steps: seq<Step>): seq<D.Op> {
    if steps == [] then [] else Trace(steps[..|steps| - 1]) + OpOf(steps[|steps| - 1])
  }

  lemma {:induction false} TraceConcat(a: seq<Step>, b: seq<Step>)
    ensures Trace(a + b) == Trace(a) + Trace(b)
  {
    if b == [] {
      assert a + b == a;
    } else {
      assert (a + b)[..|a + b| - 1] == a + b[..|b| - 1];
      TraceConcat(a, b[..|b| - 1]);
      var op := OpOf(b[|b| - 1]);
      assert Trace(a) + Trace(b[..|b| - 1]) + op == Trace(a) + (Trace(b[..|b| - 1]) + op);
    }
  }

  lemma {:induction false} LoopRunsDebouncer(cs: seq<I.Container>, clock: int, w: World, steps: seq<Step>, s: Setup)
    requires End !in steps
    ensures var l := After(Subscribed(cs, clock, w), steps, s);
            D.Machine(l.clock, l.timer) == D.Exec(clock, s.d, s.async, Trace(steps))
  {
    if steps == [] {
    } else {
      var init, step := steps[..|steps| - 1], steps[|steps| - 1];
      assert step in steps && forall x :: x in init ==> x in steps;
      LoopRunsDebouncer(cs, clock, w, init, s);
      StepRunsTimer(After(Subscribed(cs, clock, w), init, s), step, s);
      TraceStep(clock, init, step, s);
    }
  }

  lemma TraceStep(clock: int, init: seq<Step>, step: Step, s: Setup)
    ensures var m := D.Exec(clock, s.d, s.async, Trace(init));
            D.Exec(clock, s.d, s.async, Trace(init) + OpOf(step)) ==
            if OpOf(step) == [] then m else D.Apply(m, OpOf(step)[0], s.d, s.async)
  {
    var t := Trace(init) + OpOf(step);
    if OpOf(step) == [] { assert t == Trace(init); } else { assert t[..|t| - 1] == Trace(init); }
  }

  lemma StepRunsTimer(l: Loop, step: Step, s: Setup)
    requires !step.End?
    ensures var l', m := Next(l, step, s), D.Machine(l.clock, l.timer);
            D.Machine(l'.clock, l'.timer) == if OpOf(step) == [] then m else D.Apply(m, OpOf(step)[0], s.d, s.async)
  {
  }

  lemma {:induction false} QuietTrace(steps: seq<Step>)
    requires ReceiveEvent !in steps && ReceiveTick !in steps
    ensures D.OnlyWaits(Trace(steps))
  {
    if steps == [] {
    } else {
      assert steps[|steps| - 1] in steps;
      QuietTrace(steps[..|steps| - 1]);
    }
  }

  /** For every event received: once d has passed without another, either a listing has begun since, or the tick that begins one is waiting. */
  lemma EventLeadsToListing(cs: seq<I.Container>, clock: int, w: World, before: seq<Step>, rest: seq<Step>, s: Setup)
    requires ReceiveEvent !in rest && End !in before + [ReceiveEvent] + rest
    requires var l := Subscribed(cs, clock, w);
             After(l, before + [ReceiveEvent] + rest, s).clock >= After(l, before, s).clock + s.d
    ensures var l := After(Subscribed(cs, clock, w), before + [ReceiveEvent] + rest, s);
            ReceiveTick in rest || D.Elapse(l.timer, l.clock).tick.Some?
  {
    if ReceiveTick !in rest {
      var all := before + [ReceiveEvent] + rest;
      var waits := Trace(rest);
      TraceConcat(before + [ReceiveEvent], rest);
      TraceConcat(before, [ReceiveEvent]);
      assert Trace([ReceiveEvent]) == [D.Bump] by { assert [ReceiveEvent][..0] == []; }
      QuietTrace(rest);
      LoopRunsDebouncer(cs, clock, w, all, s);
      assert forall x :: x in before ==> x in all;
      LoopRunsDebouncer(cs, clock, w, before, s);
      D.TimerExplained(clock, s.d, s.async, Trace(all));
      D.TimerExplained(clock, s.d, s.async, Trace(before));
      D.QuietLeavesOneTick(clock, s.d, s.async, Trace(before), waits, []);
    }
  }

  /** The listing a tick begins starts after every event received so far. If it sees everything and the reconcile writes, they make the file current, if nothing changes meanwhile. */
  lemma {:induction false} ListingMakesCurrent(l: Loop, snapshot: seq<I.Container>, env: Env, out: seq<R.Router>, s: Setup)
    requires Enabled(l, ReceiveTick)
    requires var l1 := Next(l, ReceiveTick, s); Enabled(l1, ListDone(snapshot, true))
    requires var l2 := Next(Next(l, ReceiveTick, s), ListDone(snapshot, true), s);
             Enabled(l2, ReconcileEnds(env, out)) && Next(l2, ReconcileEnds(env, out), s).good
    ensures var l3 := Next(Next(Next(l, ReceiveTick, s), ListDone(snapshot, true), s), ReconcileEnds(env, out), s);
            FileIsCurrent(l3.world, l.containers)
  {
    WrittenFileIsCurrent(l.world, snapshot, env, out);
  }

  /** Steps in which nothing changes, no event is received and the loop goes on. */
  predicate Undisturbed(steps: seq<Step>) {
    forall step :: step in steps ==> !step.Change? && !step.ReceiveEvent? && !step.End?
  }

  lemma UndisturbedStep(l: Loop, step: Step, s: Setup)
    requires !step.Change?
    ensures var l' := Next(l, step, s);
            && l'.containers == l.containers
            && (step.ReceiveTick? ==> !l'.changed && !l'.slipped)
            && (!step.ReceiveTick? ==> l'.changed == l.changed && l'.slipped == l.slipped)
  {
  }

  /** From a tick on, if nothing changes, no change is outstanding. */
  lemma {:induction false} TickClears(l0: Loop, before: seq<Step>, rest: seq<Step>, s: Setup)
    requires Undisturbed(rest)
    ensures After(l0, before + rest, s).containers == After(l0, before, s).containers
    ensures ReceiveTick in rest ==> !After(l0, before + rest, s).changed && !After(l0, before + rest, s).slipped
  {
    if rest == [] {
      assert before + rest == before;
    } else {
      var init, step := rest[..|rest| - 1], rest[|rest| - 1];
      UndisturbedParts(rest);
      TickClears(l0, before, init, s);
      UndisturbedStep(After(l0, before + init, s), step, s);
      OneMore(l0, before + init, step, s);
      assert before + rest == before + init + [step];
    }
  }

  lemma UndisturbedParts(rest: seq<Step>)
    requires Undisturbed(rest) && rest != []
    ensures var init, step := rest[..|rest| - 1], rest[|rest| - 1];
            && Undisturbed(init) && !step.Change?
            && (ReceiveTick in rest <==> ReceiveTick in init || step == ReceiveTick)
  {
    var init, step := rest[..|rest| - 1], rest[|rest| - 1];
    assert rest == init + [step];
    assert step in rest && forall x :: x in init ==> x in rest;
  }

  /**
    Over every run: d after an event was received, with time passing anywhere,
    nothing changing any more and no further event, the loop has begun a listing
    since or holds the tick for one. Once it is back at its select without a
    tick, and its latest reconcile listed everything and wrote, the file is a
    render of the containers that were there when the event was received.
  */
  lemma {:induction false} EventMakesCurrent(cs: seq<I.Container>, clock: int, w: World, before: seq<Step>, rest: seq<Step>, s: Setup)
    requires Undisturbed(rest) && End !in before
    requires Possible(Subscribed(cs, clock, w), before + [ReceiveEvent] + rest, s)
    requires var l0 := Subscribed(cs, clock, w);
             var l := After(l0, before + [ReceiveEvent] + rest, s);
             && l.clock >= After(l0, before, s).clock + s.d
             && l.phase.Selecting? && l.good && D.Elapse(l.timer, l.clock).tick.None?
    ensures var l0 := Subscribed(cs, clock, w);
            && ReceiveTick in rest
            && FileIsCurrent(After(l0, before + [ReceiveEvent] + rest, s).world, After(l0, before, s).containers)
  {
    var l0 := Subscribed(cs, clock, w);
    EventLeadsToListing(cs, clock, w, before, rest, s);
    TickClears(l0, before + [ReceiveEvent], rest, s);
    OneMore(l0, before, ReceiveEvent, s);
    RunLosesNothing(cs, clock, w, before + [ReceiveEvent] + rest, s);
  }

  /** The current containers would be listed and written. */
  ghost predicate WouldWrite(l: Loop, env: Env, out: seq<R.Router>) {
    && Honest(env.faults, SanList(l.world.settings, I.Projects(l.containers)))
    && Reconciled(l.world, l.containers, env, out).1 == Done
    && R.Renders(RenderInput(l.world, l.containers), out)
  }

  /** A complete listing of what is there, and a reconcile that writes. */
  lemma {:induction false} GoodRound(l: Loop, env: Env, out: seq<R.Router>, s: Setup)
    requires l.phase.Listing? && !l.changed && !l.slipped && WouldWrite(l, env, out)
    ensures var l1 := Next(l, ListDone(l.containers, true), s);
            && Enabled(l, ListDone(l.containers, true)) && Enabled(l1, ReconcileEnds(env, out))
            && var l2 := Next(l1, ReconcileEnds(env, out), s);
            && l2 == l.(phase := Selecting, good := true, world := Reconciled(l.world, l.containers, env, out).0)
            && FileIsCurrent(l2.world, l.containers)
  {
    var l1 := Next(l, ListDone(l.containers, true), s);
    assert l1 == l.(phase := Reconciling(l.containers, true));
    WrittenFileIsCurrent(l.world, l.containers, env, out);
  }

  /** The wait for a tick after an event, and what comes after the tick. */
  function ToTick(d: int): seq<Step> { [ReceiveEvent] + [Pass(D.Max0(d))] + [ReceiveTick] }

  function FromTick(cs: seq<I.Container>, env: Env, out: seq<R.Router>): seq<Step> {
    [ListDone(cs, true)] + [ReconcileEnds(env, out)]
  }

  lemma {:induction false} TickReachable(l0: Loop, before: seq<Step>, s: Setup)
    requires Possible(l0, before, s)
    requires var l := After(l0, before, s); l.phase.Selecting? && l.queue > 0
    ensures var l, l' := After(l0, before, s), After(l0, before + ToTick(s.d), s);
            && Possible(l0, before + ToTick(s.d), s)
            && l'.phase.Listing? && !l'.changed && !l'.slipped
            && l'.containers == l.containers && l'.world == l.world && l'.queue == l.queue - 1 && l'.timer == D.IDLE
  {
    var l := After(l0, before, s);
    var s1 := before + [ReceiveEvent];
    var s2 := s1 + [Pass(D.Max0(s.d))];
    OneMore(l0, before, ReceiveEvent, s);
    OneMore(l0, s1, Pass(D.Max0(s.d)), s);
    BumpThenWait(l.timer, l.clock, s);
    OneMore(l0, s2, ReceiveTick, s);
    assert s2 + [ReceiveTick] == before + ToTick(s.d);
  }

  lemma {:induction false} FileReachable(l0: Loop, before: seq<Step>, env: Env, out: seq<R.Router>, s: Setup)
    requires Possible(l0, before, s)
    requires var l := After(l0, before, s); l.phase.Listing? && !l.changed && !l.slipped && WouldWrite(l, env, out)
    ensures var l := After(l0, before, s);
            var steps := before + FromTick(l.containers, env, out);
            && Possible(l0, steps, s)
            && After(l0, steps, s) ==
               l.(phase := Selecting, good := true, world := Reconciled(l.world, l.containers, env, out).0)
            && FileIsCurrent(After(l0, steps, s).world, l.containers)
  {
    var l := After(l0, before, s);
    var s1 := before + [ListDone(l.containers, true)];
    GoodRound(l, env, out, s);
    OneMore(l0, before, ListDone(l.containers, true), s);
    OneMore(l0, s1, ReconcileEnds(env, out), s);
    assert s1 + [ReconcileEnds(env, out)] == before + FromTick(l.containers, env, out);
  }

  /** From every reachable state at the select with an event queued: if a reconcile of the current containers would write, the run can go on to a current file. */
  lemma {:induction false} EventCanReachFile(l0: Loop, before: seq<Step>, env: Env, out: seq<R.Router>, s: Setup)
    requires Possible(l0, before, s)
    requires var l := After(l0, before, s); l.phase.Selecting? && l.queue > 0 && WouldWrite(l, env, out)
    ensures var l := After(l0, before, s);
            var steps := before + ToTick(s.d) + FromTick(l.containers, env, out);
            && Possible(l0, steps, s)
            && After(l0, steps, s).good && FileIsCurrent(After(l0, steps, s).world, l.containers)
  {
    TickReachable(l0, before, s);
    FileReachable(l0, before + ToTick(s.d), env, out, s);
  }

  lemma BumpThenWait(t: D.Timer, now: int, s: Setup)
    ensures var later := now + D.Max0(s.d);
            var e := D.Elapse(D.Elapse(D.BumpTimer(t, now, s.d, s.async), later), later);
            e.tick.Some? && e.deadline.None?
  {
  }

  /******* Starvation *******/

  /** At no moment of the run is a tick ready. */
  ghost predicate NoTick(l: Loop, steps: seq<Step>, s: Setup) {
    && (steps != [] ==> NoTick(l, steps[..|steps| - 1], s))
    && var l' := After(l, steps, s); D.Elapse(l'.timer, l'.clock).tick.None?
  }

  /** A run never gets a tick exactly if it always receives the next event before d has passed since the one before. */
  lemma {:induction false} StarvedIff(cs: seq<I.Container>, clock: int, w: World, steps: seq<Step>, s: Setup)
    requires End !in steps
    ensures NoTick(Subscribed(cs, clock, w), steps, s) <==> D.NeverQuiet(clock, s.d, Trace(steps))
  {
    D.StarvedIff(clock, s.d, s.async, Trace(steps));
    NoTickIsNeverReady(cs, clock, w, steps, s);
  }

  lemma {:induction false} NoTickIsNeverReady(cs: seq<I.Container>, clock: int, w: World, steps: seq<Step>, s: Setup)
    requires End !in steps
    ensures NoTick(Subscribed(cs, clock, w), steps, s) <==> D.NeverReady(clock, s.d, s.async, Trace(steps))
  {
    LoopRunsDebouncer(cs, clock, w, steps, s);
    if steps == [] {
    } else {
      var init, step := steps[..|steps| - 1], steps[|steps| - 1];
      assert step in steps && forall x :: x in init ==> x in steps;
      NoTickIsNeverReady(cs, clock, w, init, s);
      LoopRunsDebouncer(cs, clock, w, init, s);
      var t := Trace(init) + OpOf(step);
      if OpOf(step) == [] { assert t == Trace(init); } else { assert t[..|t| - 1] == Trace(init); }
    }
  }

  lemma TicklessStep(l: Loop, step: Step, s: Setup)
    requires (l.phase.Selecting? || l.phase.Ended?) && Enabled(l, step) && D.Elapse(l.timer, l.clock).tick.None?
    ensures !step.ReceiveTick?
    ensures var l' := Next(l, step, s); (l'.phase.Selecting? || l'.phase.Ended?) && l'.world == l.world
  {
  }

  /** Without a tick nothing is listed and the file stays as it is, however many events come. */
  lemma {:induction false} StarvedLoopKeepsFile(cs: seq<I.Container>, clock: int, w: World, steps: seq<Step>, s: Setup)
    requires Possible(Subscribed(cs, clock, w), steps, s) && NoTick(Subscribed(cs, clock, w), steps, s)
    ensures ReceiveTick !in steps
    ensures var l := After(Subscribed(cs, clock, w), steps, s); l.world == w && (l.phase.Selecting? || l.phase.Ended?)
  {
    if steps == [] {
    } else {
      var init, step := steps[..|steps| - 1], steps[|steps| - 1];
      StarvedLoopKeepsFile(cs, clock, w, init, s);
      TicklessStep(After(Subscribed(cs, clock, w), init, s), step, s);
      assert steps == init + [step];
    }
  }

  /** One round of a burst: a change, its event, and almost d of quiet. */
  function Round(cs: seq<I.Container>, d: int): seq<Step>
    requires d >= 1
  {
    [Change(cs, true), ReceiveEvent, Pass(d - 1)]
  }

  function Burst(cs: seq<I.Container>, n: nat, d: int): seq<Step>
    requires d >= 1
  {
    if n == 0 then [] else Burst(cs, n - 1, d) + Round(cs, d)
  }

  lemma {:induction false} RoundStarves(l0: Loop, before: seq<Step>, cs: seq<I.Container>, s: Setup)
    requires s.d >= 1 && Possible(l0, before, s) && NoTick(l0, before, s)
    requires var l := After(l0, before, s); l.phase.Selecting? && l.queue == 0 && D.OneShot(l.timer)
    ensures var steps := before + Round(cs, s.d);
            && Possible(l0, steps, s) && NoTick(l0, steps, s)
            && var l := After(l0, before, s);
            After(l0, steps, s) ==
            l.(containers := cs, changed := true, clock := l.clock + (s.d - 1), timer := D.Timer(Some(l.clock + s.d), None))
  {
    var s1 := before + [Change(cs, true)];
    var s2 := s1 + [ReceiveEvent];
    OneMore(l0, before, Change(cs, true), s);
    OneMore(l0, s1, ReceiveEvent, s);
    OneMore(l0, s2, Pass(s.d - 1), s);
    assert s2 + [Pass(s.d - 1)] == before + Round(cs, s.d);
  }

  /** Such a burst may last as long as it likes: the loop receives every event and never sees a tick, so the changes are not published. */
  lemma {:induction false} BurstStarves(cs: seq<I.Container>, clock: int, w: World, n: nat, s: Setup)
    requires s.d >= 1
    ensures var l0, steps := Subscribed([], clock, w), Burst(cs, n, s.d);
            && Possible(l0, steps, s) && NoTick(l0, steps, s)
            && var l := After(l0, steps, s);
            && l.phase.Selecting? && l.queue == 0 && l.world == w && l.clock == clock + n * (s.d - 1)
            && (n > 0 ==> l.changed && l.containers == cs && l.timer == D.Timer(Some(l.clock + 1), None))
            && (n == 0 ==> l.timer == D.IDLE)
  {
    if n == 0 {
    } else {
      BurstStarves(cs, clock, w, n - 1, s);
      RoundStarves(Subscribed([], clock, w), Burst(cs, n - 1, s.d), cs, s);
      assert n * (s.d - 1) == (n - 1) * (s.d - 1) + (s.d - 1);
    }
  }

  lemma OneMore(l: Loop, steps: seq<Step>, step: Step, s: Setup)
    ensures After(l, steps + [step], s) == Next(After(l, steps, s), step, s)
    ensures Possible(l, steps + [step], s) <==> Possible(l, steps, s) && Enabled(After(l, steps, s), step)
    ensures NoTick(l, steps + [step], s) <==>
            NoTick(l, steps, s) &&
            var l' := Next(After(l, steps, s), step, s); D.Elapse(l'.timer, l'.clock).tick.None?
  {
    assert (steps + [step])[..|steps|] == steps;
  }
}
