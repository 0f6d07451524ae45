/** One reconcile: project set, certificate, routes, file. */
module Reconcile {
  import opened Text
  import opened Labels
  import opened Sans
  import opened Reissue
  import CertServer
  import I = Inspect
  import R = Render
  import M = Misconfig

  /** The config file: what was rendered, and for which containers. */
  datatype Publication = Publication(
    settings: Settings,
    network: string,
    containers: seq<I.Container>,
    routers: seq<R.Router>)

  /** The discoverer's memory (`last` is empty until the first write), the certificate directory and the config file. */
  datatype World = World(
    settings: Settings,
    network: string,
    last: Option<seq<string>>,
    disk: Disk,
    published: Option<Publication>)

  /** A request may be lost, be answered, or take its effect while the discoverer sees an error. */
  datatype Delivery = Lost | Answered | ReplyLost

  datatype Env = Env(delivery: Delivery, now: int, faults: Faults, writeOk: bool)

  datatype Outcome = Done | ReissueFailed | RenderFailed(error: R.Error) | WriteFailed

  /******* One reconcile as a function of the world *******/

  /** The request as certgen handles it, and whether it reports success. */
  ghost function Requested(d: Disk, cfg: Settings, projects: seq<string>, now: int, f: Faults): (Disk, bool) {
    if !Accepted(cfg, projects) then (d, false)
    else
      var (d', r) := ReissueOn(d, now, SanList(cfg, projects), f);
      (d', !r.Failed?)
  }

  /** The disk after the reissue step, and whether the discoverer goes on. */
  ghost function CertStep(w: World, projects: seq<string>, env: Env): (Disk, bool) {
    if w.last == Some(projects) then (w.disk, true)
    else if env.delivery.Lost? then (w.disk, false)
    else
      var (d, ok) := Requested(w.disk, w.settings, projects, env.now, env.faults);
      (d, ok && env.delivery.Answered?)
  }

  ghost function Entries(cs: seq<I.Container>, network: string): seq<R.Entry> {
    if cs == [] then [] else
      var before := Entries(cs[..|cs| - 1], network);
      match I.Inspected(cs[|cs| - 1], network)
      case Routed(hostname, address) => before + [R.Entry(hostname, address)]
      case _ => before
  }

  ghost function RenderInput(w: World, cs: seq<I.Container>): R.Config {
    R.Config(w.settings, Entries(cs, w.network))
  }

  /** `out` is what the sort by name made of the routers, in case a file is written. */
  ghost function Reconciled(w: World, cs: seq<I.Container>, env: Env, out: seq<R.Router>): (World, Outcome) {
    var projects := I.Projects(cs);
    var (disk, ok) := CertStep(w, projects, env);
    var w' := w.(disk := disk);
    if !ok then (w', ReissueFailed)
    else
      var problem := R.Problem(RenderInput(w, cs));
      if problem.Some? then (w', RenderFailed(problem.value))
      else if !env.writeOk then (w', WriteFailed)
      else (w'.(last := Some(projects), published := Some(Publication(w.settings, w.network, cs, out))), Done)
  }

  /******* The reconciler *******/

  class Reconciler {
    const settings: Settings
    const networkName: string
    const store: Reissuer
    var lastProjects: Option<seq<string>>
    var loggedMisconfig: M.Fingerprints
    var published: Option<Publication>

    constructor (settings: Settings, networkName: string, store: Reissuer, published: Option<Publication>)
      ensures State() == World(settings, Network(), None, store.State(), published)
      ensures loggedMisconfig == map[]
    {
      this.settings, this.networkName, this.store := settings, networkName, store;
      lastProjects, loggedMisconfig, this.published := None, map[], published;
    }

    function Network(): (r: string)
      ensures networkName == "" ==> r == "dynomesh-net"
      ensures networkName != "" ==> r == networkName
    {
      if networkName == "" then I.DEFAULT_NETWORK else networkName
    }

    function State(): World
      reads this, store
    {
      World(settings, Network(), lastProjects, store.State(), published)
    }

    /** The routers of the current file. */
    function Routers(): seq<R.Router>
      reads this
    {
      if published.Some? then published.value.routers else []
    }

    method ReconcileWith(cs: seq<I.Container>, env: Env) returns (r: Outcome)
      modifies this, store
      ensures State() == Reconciled(old(State()), cs, env, Routers()).0
      ensures r == Reconciled(old(State()), cs, env, Routers()).1
      ensures lastProjects == if r.Done? then Some(I.Projects(cs)) else old(lastProjects)
      ensures r.Done? ==> published == Some(Publication(settings, Network(), cs, Routers()))
      ensures !r.Done? ==> published == old(published)
      ensures r.Done? ==> published.Some? && R.Renders(RenderInput(old(State()), cs), Routers())
      ensures loggedMisconfig ==
              if r.ReissueFailed? then old(loggedMisconfig) else M.ObserveAll(old(loggedMisconfig), cs, Network())
    {
      ghost var before := State();
      var projects := I.ProjectsOf(cs);
      if lastProjects != Some(projects) {
        var ok := RequestReissue(projects, env);
        if !ok { return ReissueFailed; }
      }
      var entries := InspectAll(cs);
      var rendered := R.Render(R.Config(settings, entries));
      if rendered.Failure? { return RenderFailed(rendered.error); }
      if !env.writeOk { return WriteFailed; }
      published := Some(Publication(settings, Network(), cs, rendered.value));
      lastProjects := Some(projects);
      return Done;
    }

    /** The client call; the reply may get lost on the way back. */
    method RequestReissue(projects: seq<string>, env: Env) returns (ok: bool)
      requires lastProjects != Some(projects)
      modifies store
      ensures (store.State(), ok) == CertStep(old(State()), projects, env)
    {
      if env.delivery.Lost? { return false; }
      var resp := CertServer.HandleReissue(store, CertServer.Decoded(CertServer.Request(settings, projects)), env.now, env.faults);
      return env.delivery.Answered? && (resp.NoContent? || resp.NewCert?);
    }

    method InspectAll(cs: seq<I.Container>) returns (entries: seq<R.Entry>)
      modifies `loggedMisconfig
      ensures entries == Entries(cs, Network())
      ensures loggedMisconfig == M.ObserveAll(old(loggedMisconfig), cs, Network())
    {
      entries := [];
      for i := 0 to |cs|
        invariant entries == Entries(cs[..i], Network())
        invariant loggedMisconfig == M.ObserveAll(old(loggedMisconfig), cs[..i], Network())
      {
        assert cs[..i + 1][..i] == cs[..i];
        var cache, _ := M.LogMisconfigIfNeeded(loggedMisconfig, cs[i], Network());
        loggedMisconfig := cache;
        var seen := I.FromContainer(cs[i], Network());
        match seen {
          case Unnamed =>
          case Skipped =>
          case Routed(hostname, address) => entries := entries + [R.Entry(hostname, address)];
        }
      }
      assert cs[..|cs|] == cs;
    }
  }

  /******* What goes into the file *******/

  ghost predicate Routed(c: I.Container, network: string) { I.Inspected(c, network).Routed? }

  lemma {:induction false} EntriesElements(cs: seq<I.Container>, network: string, e: R.Entry)
    ensures e in Entries(cs, network) <==>
            exists c :: c in cs && I.Inspected(c, network) == I.Routed(e.hostname, e.address)
  {
    if cs == [] {
    } else {
      var before, c := cs[..|cs| - 1], cs[|cs| - 1];
      EntriesElements(before, network, e);
      assert forall c' :: c' in cs <==> c' in before || c' == c;
    }
  }

  /** The router rendered for a routed container. */
  ghost function RouterOfContainer(settings: Settings, network: string, c: I.Container): R.Router
    requires Routed(c, network)
  {
    R.RouterOf(settings, R.Entry(I.Inspected(c, network).hostname, I.Inspected(c, network).address))
  }

  /** Every routed container has its router in the file, whose rule reads back as exactly its hosts. */
  lemma {:induction false} FileHoldsRoutes(pub: Publication, c: I.Container)
    requires R.Problem(R.Config(pub.settings, Entries(pub.containers, pub.network))) == None
    requires R.Renders(R.Config(pub.settings, Entries(pub.containers, pub.network)), pub.routers)
    requires c in pub.containers && Routed(c, pub.network)
    ensures var r := RouterOfContainer(pub.settings, pub.network, c);
            && r in pub.routers
            && R.ParseRule(r.rule) == R.Hosts(pub.settings, I.Inspected(c, pub.network).hostname)
            && r.address == I.Inspected(c, pub.network).address
  {
    var cfg := R.Config(pub.settings, Entries(pub.containers, pub.network));
    var e := R.Entry(I.Inspected(c, pub.network).hostname, I.Inspected(c, pub.network).address);
    EntriesElements(pub.containers, pub.network, e);
    R.RenderedRule(cfg, e);
    var k :| 0 <= k < |cfg.entries| && cfg.entries[k] == e;
    assert R.Routers(cfg)[k] == R.RouterOf(cfg.settings, e);
    R.SameRouters(pub.routers, R.Routers(cfg));
  }

  /** In a file, every router is that of a routed container. */
  lemma RoutersComeFromContainers(pub: Publication, r: R.Router)
    requires R.Renders(R.Config(pub.settings, Entries(pub.containers, pub.network)), pub.routers)
    requires r in pub.routers
    ensures exists c :: c in pub.containers && Routed(c, pub.network) &&
              r == RouterOfContainer(pub.settings, pub.network, c)
  {
    var cfg := R.Config(pub.settings, Entries(pub.containers, pub.network));
    R.SameRouters(pub.routers, R.Routers(cfg));
    var k :| 0 <= k < |cfg.entries| && R.Routers(cfg)[k] == r;
    var e := cfg.entries[k];
    EntriesElements(pub.containers, pub.network, e);
    var c :| c in pub.containers && I.Inspected(c, pub.network) == I.Routed(e.hostname, e.address);
    assert Routed(c, pub.network);
  }

  /******* When a reconcile succeeds *******/

  /** The remembered projects are in order, and certgen has accepted them together with the settings. */
  predicate Vouched(w: World) {
    w.last.Some? ==> Accepted(w.settings, w.last.value) && StrictlySorted(w.last.value)
  }

  lemma AcceptedIsRenderable(cfg: Settings, projects: seq<string>)
    requires Accepted(cfg, projects)
    ensures R.Renderable(cfg)
  {
    forall s | s in cfg.suffixes ensures SafeName(s) { ValidIsSafe(s); }
    ValidIsSafe(cfg.machine);
    ValidIsSafe(cfg.tailnet);
  }

  lemma AddressesNonEmpty(cs: seq<I.Container>, network: string)
    ensures forall e :: e in Entries(cs, network) ==> e.address != "" && e.hostname != ""
  {
    forall e | e in Entries(cs, network) ensures e.address != "" && e.hostname != "" {
      EntriesElements(cs, network, e);
    }
  }

  lemma {:induction false} BadEntryIsUnsafe(entries: seq<R.Entry>)
    requires forall e :: e in entries ==> e.address != "" && e.hostname != ""
    ensures R.FirstBadEntry(entries).Some? ==> R.FirstBadEntry(entries).value.UnsafeHostname?
  {
    if entries == [] {
    } else {
      assert entries[0] in entries;
      BadEntryIsUnsafe(entries[1..]);
    }
  }

  lemma {:induction false} CertStepVouches(w: World, projects: seq<string>, env: Env)
    requires Vouched(w) && CertStep(w, projects, env).1
    ensures Accepted(w.settings, projects)
  {
  }

  /** Once certgen has said yes, rendering can only fail on a container's hostname. */
  lemma {:induction false} RenderFailsOnlyOnHostname(w: World, cs: seq<I.Container>, env: Env, out: seq<R.Router>)
    requires Vouched(w)
    ensures Reconciled(w, cs, env, out).1.RenderFailed? ==> Reconciled(w, cs, env, out).1.error.UnsafeHostname?
  {
    if Reconciled(w, cs, env, out).1.RenderFailed? {
      CertStepVouches(w, I.Projects(cs), env);
      AcceptedIsRenderable(w.settings, I.Projects(cs));
      R.AcceptsIff(RenderInput(w, cs));
      AddressesNonEmpty(cs, w.network);
      BadEntryIsUnsafe(Entries(cs, w.network));
    }
  }

  predicate Smooth(env: Env) {
    env.delivery.Answered? && FaultFree(env.faults) && env.writeOk
  }

  ghost predicate SafeHostnames(cs: seq<I.Container>, network: string) {
    forall c :: c in cs && Routed(c, network) ==> SafeName(I.Inspected(c, network).hostname)
  }

  /** What happens to the certificate: nothing without a request that arrives and is accepted, and otherwise one reissue. */
  lemma RequestMeans(w: World, projects: seq<string>, env: Env)
    ensures w.last == Some(projects) ==> CertStep(w, projects, env) == (w.disk, true)
    ensures w.last != Some(projects) && (env.delivery.Lost? || !Accepted(w.settings, projects)) ==>
              CertStep(w, projects, env) == (w.disk, false)
    ensures w.last != Some(projects) && !env.delivery.Lost? && Accepted(w.settings, projects) ==>
              var (d, r) := ReissueOn(w.disk, env.now, SanList(w.settings, projects), env.faults);
              && CertStep(w, projects, env).0 == d
              && (CertStep(w, projects, env).1 <==> env.delivery.Answered? && !r.Failed?)
  {
  }

  /** The certificate is in place for these projects: nothing was asked, or the request was answered and accepted and either was a no-op or met no failure that matters. */
  ghost predicate CertInPlace(w: World, projects: seq<string>, env: Env) {
    || w.last == Some(projects)
    || (&& env.delivery.Answered? && Accepted(w.settings, projects)
        && (ShortCircuits(w.disk, env.now, SanList(w.settings, projects)) || NothingFails(env.faults)))
  }

  /** Everything up to the second rename succeeds; removals do not matter. */
  predicate NothingFails(f: Faults) {
    f.mkdirCert && f.mkdirKey && f.mkcert.Issues? && f.renameKey && f.renameCert
  }

  lemma {:induction false} CertInPlaceIff(w: World, projects: seq<string>, env: Env)
    ensures CertStep(w, projects, env).1 <==> CertInPlace(w, projects, env)
  {
    RequestMeans(w, projects, env);
    if !ShortCircuits(w.disk, env.now, SanList(w.settings, projects)) {
      OutcomeIff(w.disk, env.now, SanList(w.settings, projects), env.faults);
    }
  }

  /** Which way a reconcile ends, for everything the environment may do: one container with an unsafe hostname blocks all others, and a reconcile that has nothing to ask does not need certgen. */
  lemma {:induction false} SucceedsIff(w: World, cs: seq<I.Container>, env: Env, out: seq<R.Router>)
    requires Vouched(w)
    ensures var r := Reconciled(w, cs, env, out).1;
            && (r == ReissueFailed <==> !CertInPlace(w, I.Projects(cs), env))
            && (r.RenderFailed? <==> CertInPlace(w, I.Projects(cs), env) && !SafeHostnames(cs, w.network))
            && (r == WriteFailed <==>
                CertInPlace(w, I.Projects(cs), env) && SafeHostnames(cs, w.network) && !env.writeOk)
            && (r == Done <==> CertInPlace(w, I.Projects(cs), env) && SafeHostnames(cs, w.network) && env.writeOk)
  {
    CertInPlaceIff(w, I.Projects(cs), env);
    if CertStep(w, I.Projects(cs), env).1 {
      CertStepVouches(w, I.Projects(cs), env);
      AcceptedIsRenderable(w.settings, I.Projects(cs));
      R.AcceptsIff(RenderInput(w, cs));
      SafeEntriesIff(cs, w.network);
    }
  }

  /** In particular with unchanged projects: certgen may be down, and the certificate stays as it is. */
  lemma {:induction false} UnchangedProjects(w: World, cs: seq<I.Container>, env: Env, out: seq<R.Router>)
    requires Vouched(w) && w.last == Some(I.Projects(cs))
    ensures Reconciled(w, cs, env, out).1 == Done <==> SafeHostnames(cs, w.network) && env.writeOk
    ensures Reconciled(w, cs, env, out).0.disk == w.disk
  {
    SucceedsIff(w, cs, env, out);
  }

  /** The entries come in the order of the containers, each routed container gives one, and the others none. */
  lemma {:induction false} EntriesInOrder(cs: seq<I.Container>, c: I.Container, network: string)
    ensures var before, after := Entries(cs, network), Entries(cs + [c], network);
            match I.Inspected(c, network)
            case Routed(hostname, address) => after == before + [R.Entry(hostname, address)]
            case _ => after == before
  {
    assert (cs + [c])[..|cs|] == cs;
  }

  /** No file is written while a routed container has an unsafe hostname. */
  lemma {:induction false} UnsafeHostnameBlocks(w: World, cs: seq<I.Container>, env: Env, out: seq<R.Router>, c: I.Container)
    requires c in cs && Routed(c, w.network) && !SafeName(I.Inspected(c, w.network).hostname)
    ensures Reconciled(w, cs, env, out).1 != Done
    ensures Reconciled(w, cs, env, out).0.published == w.published && Reconciled(w, cs, env, out).0.last == w.last
  {
    R.AcceptsIff(RenderInput(w, cs));
    SafeEntriesIff(cs, w.network);
  }

  /** No file is written while a container belongs to a project that certgen rejects, routed or not. */
  lemma {:induction false} RejectedProjectBlocks(w: World, cs: seq<I.Container>, env: Env, out: seq<R.Router>, c: I.Container)
    requires Vouched(w) && c in cs && I.Project(c) != "" && !ValidateLabel(I.Project(c))
    ensures Reconciled(w, cs, env, out).1 != Done
    ensures Reconciled(w, cs, env, out).0.published == w.published && Reconciled(w, cs, env, out).0.last == w.last
  {
    assert I.Project(c) in I.ProjectSet(cs);
    assert I.Project(c) in I.Projects(cs);
    if CertStep(w, I.Projects(cs), env).1 { CertStepVouches(w, I.Projects(cs), env); }
  }

  lemma {:induction false} SafeEntriesIff(cs: seq<I.Container>, network: string)
    ensures SafeHostnames(cs, network) <==>
            forall e :: e in Entries(cs, network) ==> SafeName(e.hostname) && e.address != ""
  {
    AddressesNonEmpty(cs, network);
    forall e ensures e in Entries(cs, network) <==>
                     exists c :: c in cs && I.Inspected(c, network) == I.Routed(e.hostname, e.address) {
      EntriesElements(cs, network, e);
    }
    forall c | c in cs && Routed(c, network)
      ensures R.Entry(I.Inspected(c, network).hostname, I.Inspected(c, network).address) in Entries(cs, network)
    {
      EntriesElements(cs, network, R.Entry(I.Inspected(c, network).hostname, I.Inspected(c, network).address));
    }
  }
}
