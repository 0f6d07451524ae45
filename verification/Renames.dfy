/** A rename that the event loop does not notice. */
module Renames {
  import opened Labels
  import opened Sans
  import opened Reissue
  import opened Reconcile
  import opened Coverage
  import opened Witnesses
  import opened EventLoop
  import D = Debounce
  import I = Inspect
  import P = Protocol
  import R = Render

  /** A standalone container of this name. */
  function Standalone(l: string, network: string): I.Container {
    Probe(l, Machine, network)
  }

  lemma {:induction false} StandaloneFacts(cfg: Settings, l: string, network: string)
    requires Accepted(cfg, []) && OneLabel(l) && ValidateLabel(l)
    ensures var c := Standalone(l, network);
            && Routed(c, network) && I.Inspected(c, network).hostname == l
            && Accepted(cfg, I.Projects([c])) && SafeHostnames([c], network)
  {
    var c := Standalone(l, network);
    ProbeFacts(l, Machine, network);
    StandaloneHostname(l, network);
    I.ToLowerSafe(l);
    assert forall x :: x in [c] ==> x == c;
    assert forall p :: p in I.Projects([c]) ==> p in I.ProjectSet([c]);
  }

  lemma FlatOneLabel(l: string)
    requires OneLabel(l)
    ensures R.Flat(l) == l
  {
    assert forall i :: 0 <= i < |l| ==> l[i] in l;
  }

  lemma OtherRouter(settings: Settings, network: string, l: string, l': string)
    requires Accepted(settings, []) && l != l'
    requires OneLabel(l) && ValidateLabel(l) && OneLabel(l') && ValidateLabel(l')
    requires Routed(Standalone(l, network), network) && Routed(Standalone(l', network), network)
    ensures RouterOfContainer(settings, network, Standalone(l, network)) != RouterOfContainer(settings, network, Standalone(l', network))
  {
    StandaloneFacts(settings, l, network);
    StandaloneFacts(settings, l', network);
    FlatOneLabel(l);
    FlatOneLabel(l');
  }

  /** These containers appear and are published, and then others take their place unannounced. */
  function RenameRun(cs: seq<I.Container>, cs': seq<I.Container>, env: Env, out: seq<R.Router>, s: Setup): seq<Step> {
    [Change(cs, true)] + ToTick(s.d) + FromTick(cs, env, out) + [Change(cs', false)]
  }

  lemma {:induction false} RenameRunPossible(cs: seq<I.Container>, cs': seq<I.Container>, clock: int, w: World, env: Env, out: seq<R.Router>, s: Setup)
    requires Honest(env.faults, SanList(w.settings, I.Projects(cs)))
    requires Reconciled(w, cs, env, out).1 == Done && R.Renders(RenderInput(w, cs), out)
    ensures var l0, steps := Subscribed([], clock, w), RenameRun(cs, cs', env, out, s);
            && Possible(l0, steps, s)
            && var l := After(l0, steps, s);
            && AtRest(l) && l.good && l.slipped && l.containers == cs' && l.world == Reconciled(w, cs, env, out).0
  {
    var l0, appear := Subscribed([], clock, w), [Change(cs, true)];
    assert [] + appear == appear;
    OneMore(l0, [], Change(cs, true), s);
    TickReachable(l0, appear, s);
    FileReachable(l0, appear + ToTick(s.d), env, out, s);
    OneMore(l0, appear + ToTick(s.d) + FromTick(cs, env, out), Change(cs', false), s);
  }

  lemma OnlyItsRouter(pub: Publication, c: I.Container, r: R.Router)
    requires Rendered(pub) && (forall x :: x in pub.containers ==> x == c)
    requires Routed(c, pub.network) && r in pub.routers
    ensures r == RouterOfContainer(pub.settings, pub.network, c)
  {
    RoutersComeFromContainers(pub, r);
  }

  /** A render of one routed container has its router. */
  lemma OneRouter(w: World, c: I.Container)
    requires w.published.Some? && Routed(c, w.network)
    requires RouterOfContainer(w.settings, w.network, c) !in w.published.value.routers
    ensures !R.Renders(RenderInput(w, [c]), w.published.value.routers)
  {
    var e := R.Entry(I.Inspected(c, w.network).hostname, I.Inspected(c, w.network).address);
    var routers := R.Routers(RenderInput(w, [c]));
    EntriesElements([c], w.network, e);
    assert c in [c];
    var k :| 0 <= k < |Entries([c], w.network)| && Entries([c], w.network)[k] == e;
    assert routers[k] == RouterOfContainer(w.settings, w.network, c);
    if R.Renders(RenderInput(w, [c]), w.published.value.routers) {
      R.SameRouters(w.published.value.routers, routers);
    }
  }

  /** A reconcile in which nothing fails publishes this container's router and no other. */
  lemma {:induction false} PublishOne(w: World, c: I.Container, t: Times) returns (step: P.Step)
    requires P.Fresh(w) && Accepted(w.settings, I.Projects([c])) && SafeHostnames([c], w.network) && Routed(c, w.network)
    ensures step.Reconcile? && step.containers == [c] && P.Writes(w, step) && P.Genuine(w, step)
    ensures var w' := P.Take(w, step);
            && w'.published.Some? && w'.settings == w.settings && w'.network == w.network
            && RouterOfContainer(w.settings, w.network, c) in w'.published.value.routers
            && forall r :: r in w'.published.value.routers ==> r == RouterOfContainer(w.settings, w.network, c)
  {
    step := SmoothStep(w, [c], t);
    P.WriteMemory(w, step);
    P.WriteIsRendered(w, step);
    var pub := P.Take(w, step).published.value;
    assert c in [c] && forall x :: x in [c] ==> x == c;
    FileHoldsRoutes(pub, c);
    forall r | r in pub.routers ensures r == RouterOfContainer(w.settings, w.network, c) {
      OnlyItsRouter(pub, c, r);
    }
  }

  /**
    A published standalone container is renamed. The loop is at rest after a good
    reconcile and stays so; the file keeps the router of the old name and has
    none for the new one.
  */
  lemma {:induction false} RenameGoesUnnoticed(w: World, l: string, l': string, clock: int, t: Times, s: Setup) returns (steps: seq<Step>)
    requires P.Fresh(w) && Accepted(w.settings, []) && l != l'
    requires OneLabel(l) && ValidateLabel(l) && OneLabel(l') && ValidateLabel(l')
    ensures Routed(Standalone(l, w.network), w.network) && Routed(Standalone(l', w.network), w.network)
    ensures var l0 := Subscribed([], clock, w);
            && Possible(l0, steps, s)
            && var now := After(l0, steps, s);
            && AtRest(now) && now.good && now.containers == [Standalone(l', w.network)]
            && now.world.published.Some?
            && var routers := now.world.published.value.routers;
            && RouterOfContainer(w.settings, w.network, Standalone(l, w.network)) in routers
            && RouterOfContainer(w.settings, w.network, Standalone(l', w.network)) !in routers
            && !R.Renders(RenderInput(now.world, now.containers), routers)
  {
    var c, c' := Standalone(l, w.network), Standalone(l', w.network);
    StandaloneFacts(w.settings, l, w.network);
    StandaloneFacts(w.settings, l', w.network);
    OtherRouter(w.settings, w.network, l, l');
    var step := PublishOne(w, c, t);
    steps := RenameRun([c], [c'], step.env, step.out, s);
    RenameRunPossible([c], [c'], clock, w, step.env, step.out, s);
    OneRouter(P.Take(w, step), c');
  }
}
