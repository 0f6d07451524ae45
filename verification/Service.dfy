/** The event loop and the protocol together: what the loop publishes, and under which certificate. */
module Service {
  import opened Text
  import opened Reconcile
  import opened Coverage
  import E = EventLoop
  import I = Inspect
  import P = Protocol
  import V = Windows

  /** The reconcile that a step of the loop completes, if it does. */
  function Reconciles(l: E.Loop, step: E.Step): seq<P.Step> {
    match step
    case ReconcileEnds(env, out) => if l.phase.Reconciling? then [P.Reconcile(l.phase.snapshot, env, out)] else []
    case _ => []
  }

  /** A run of the loop, as the protocol sees it. */
  ghost function Projected(l: E.Loop, steps: seq<E.Step>, s: E.Setup): seq<P.Step> {
    if steps == [] then [] else
      var init := steps[..|steps| - 1];
      Projected(l, init, s) + Reconciles(E.After(l, init, s), steps[|steps| - 1])
  }

  lemma {:induction false} StepProjects(l: E.Loop, step: E.Step, s: E.Setup)
    requires E.Enabled(l, step)
    ensures var ps := Reconciles(l, step);
            P.After(l.world, ps) == E.Next(l, step, s).world && P.AllGenuine(l.world, ps)
  {
    var ps := Reconciles(l, step);
    if step.ReconcileEnds? {
      V.OneStepRun(l.world, P.Reconcile(l.phase.snapshot, step.env, step.out));
    } else {
      assert ps == [];
    }
  }

  /** Every run of the loop is a run of the protocol. */
  lemma {:induction false} RunProjects(l: E.Loop, steps: seq<E.Step>, s: E.Setup)
    requires E.Possible(l, steps, s)
    ensures P.After(l.world, Projected(l, steps, s)) == E.After(l, steps, s).world
    ensures P.AllGenuine(l.world, Projected(l, steps, s))
  {
    if steps == [] {
    } else {
      var init, step := steps[..|steps| - 1], steps[|steps| - 1];
      RunProjects(l, init, s);
      StepProjects(E.After(l, init, s), step, s);
      V.AfterConcat(l.world, Projected(l, init, s), Reconciles(E.After(l, init, s), step));
    }
  }

  /** The whole history of a discoverer: what went before the subscription, and then what the loop did. */
  ghost function History(boot: seq<P.Step>, l: E.Loop, steps: seq<E.Step>, s: E.Setup): seq<P.Step> {
    boot + Projected(l, steps, s)
  }

  lemma {:induction false} HistoryIsRun(w: World, boot: seq<P.Step>, l: E.Loop, steps: seq<E.Step>, s: E.Setup)
    requires P.AllGenuine(w, boot) && l.world == P.After(w, boot) && E.Possible(l, steps, s)
    ensures P.AllGenuine(w, History(boot, l, steps, s))
    ensures P.After(w, History(boot, l, steps, s)) == E.After(l, steps, s).world
  {
    RunProjects(l, steps, s);
    V.AfterConcat(w, boot, Projected(l, steps, s));
  }

  lemma {:induction false} HistoryGrows(w: World, boot: seq<P.Step>, l: E.Loop, steps: seq<E.Step>, step: E.Step, s: E.Setup)
    requires P.AllGenuine(w, boot) && l.world == P.After(w, boot) && E.Possible(l, steps + [step], s)
    ensures E.Possible(l, steps, s) && E.Enabled(E.After(l, steps, s), step)
    ensures History(boot, l, steps + [step], s) == History(boot, l, steps, s) + Reconciles(E.After(l, steps, s), step)
  {
    E.OneMore(l, steps, step, s);
    assert (steps + [step])[..|steps|] == steps;
  }

  /** A good reconcile has written a file. */
  lemma {:induction false} GoodHasWritten(w: World, boot: seq<P.Step>, l: E.Loop, steps: seq<E.Step>, s: E.Setup)
    requires P.AllGenuine(w, boot) && l.world == P.After(w, boot) && E.Possible(l, steps, s) && !l.good
    ensures E.After(l, steps, s).good ==> P.LastWritten(w, History(boot, l, steps, s)).Some?
  {
    if steps == [] {
    } else {
      var init, step := steps[..|steps| - 1], steps[|steps| - 1];
      assert steps == init + [step];
      HistoryGrows(w, boot, l, init, step, s);
      HistoryIsRun(w, boot, l, init, s);
      GoodHasWritten(w, boot, l, init, s);
      StepHasWritten(w, History(boot, l, init, s), E.After(l, init, s), step, s);
    }
  }

  lemma {:induction false} StepHasWritten(w: World, history: seq<P.Step>, l: E.Loop, step: E.Step, s: E.Setup)
    requires P.After(w, history) == l.world && E.Enabled(l, step)
    requires l.good ==> P.LastWritten(w, history).Some?
    ensures E.Next(l, step, s).good ==> P.LastWritten(w, history + Reconciles(l, step)).Some?
  {
    if step.ReconcileEnds? {
      V.LastWrittenOneMore(w, history, P.Reconcile(l.phase.snapshot, step.env, step.out));
    } else {
      assert history + Reconciles(l, step) == history;
    }
  }

  /** Over every run of the loop: a file it writes is covered if its reconcile asked for a certificate or the history was certified before. */
  lemma {:induction false} LoopWriteCovered(w: World, boot: seq<P.Step>, l0: E.Loop, steps: seq<E.Step>, step: E.Step, s: E.Setup)
    requires P.Fresh(w) && P.AllGenuine(w, boot) && l0.world == P.After(w, boot)
    requires E.Possible(l0, steps + [step], s) && step.ReconcileEnds?
    requires var l := E.After(l0, steps, s);
             && Reconciled(l.world, l.phase.snapshot, step.env, step.out).1 == Done
             && (l.world.last != Some(I.Projects(l.phase.snapshot)) || P.Certified(w, History(boot, l0, steps, s)))
    ensures CurrentFileCovered(E.After(l0, steps + [step], s).world)
  {
    var l, history := E.After(l0, steps, s), History(boot, l0, steps, s);
    HistoryGrows(w, boot, l0, steps, step, s);
    HistoryIsRun(w, boot, l0, steps, s);
    HistoryIsRun(w, boot, l0, steps + [step], s);
    P.EveryWriteCovered(w, history, P.Reconcile(l.phase.snapshot, step.env, step.out));
  }

  /**
    At rest after a good reconcile, whatever happened before: the file is a
    render of the containers as they are if nothing changed unannounced, and it
    is covered by the certificate on disk if the whole history is certified.
  */
  lemma {:induction false} RestIsCurrentAndCovered(w: World, boot: seq<P.Step>, cs: seq<I.Container>, clock: int, steps: seq<E.Step>, s: E.Setup)
    requires P.Fresh(w) && P.AllGenuine(w, boot)
    requires var l0 := E.Subscribed(cs, clock, P.After(w, boot));
             && E.Possible(l0, steps, s)
             && E.AtRest(E.After(l0, steps, s)) && E.After(l0, steps, s).good
             && P.Certified(w, History(boot, l0, steps, s))
    ensures var l := E.After(E.Subscribed(cs, clock, P.After(w, boot)), steps, s);
            && CurrentFileCovered(l.world)
            && (!l.slipped ==> E.FileIsCurrent(l.world, l.containers))
  {
    var l0 := E.Subscribed(cs, clock, P.After(w, boot));
    E.QuiescentFileIsCurrentIff(cs, clock, P.After(w, boot), steps, s);
    HistoryIsRun(w, boot, l0, steps, s);
    GoodHasWritten(w, boot, l0, steps, s);
    P.CertifiedFileCovered(w, History(boot, l0, steps, s));
  }
}
