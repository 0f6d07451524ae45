/** Containers that bring out what a certificate lacks, and the runs that need them. */
module Witnesses {
  import opened Text
  import opened Labels
  import opened Sans
  import opened Reissue
  import opened Reconcile
  import opened Coverage
  import opened Protocol
  import CertServer
  import I = Inspect
  import R = Render

  /** A container that belongs to a project and is attached to no network, so that it is not routed. */
  function Anchor(p: string): I.Container {
    I.Container("id-" + p, "/" + p, Some(I.Config(map[I.PROJECT_LABEL := p], {})), Some(map[]))
  }

  function ProbeLabels(l: string, b: Base): map<string, string> {
    match b
    case ProjectSuffix(p, _) => map[I.PROJECT_LABEL := p, I.SERVICE_LABEL := l, I.PORT_LABEL := "80"]
    case ProjectMachine(p) => map[I.PROJECT_LABEL := p, I.SERVICE_LABEL := l, I.PORT_LABEL := "80"]
    case _ => map[I.PORT_LABEL := "80"]
  }

  /** A container called `l` whose hosts need the wildcard for `b`. */
  function Probe(l: string, b: Base, network: string): I.Container {
    I.Container("probe", "/" + l, Some(I.Config(ProbeLabels(l, b), {})), Some(map[network := Some("172.18.0.2")]))
  }

  lemma LabelKeys()
    ensures I.PROJECT_LABEL != I.SERVICE_LABEL && I.PORT_LABEL != I.PROJECT_LABEL && I.PORT_LABEL != I.SERVICE_LABEL
    ensures !HasPrefix(I.PROJECT_LABEL, I.TRAEFIK_PREFIX)
    ensures !HasPrefix(I.SERVICE_LABEL, I.TRAEFIK_PREFIX)
    ensures !HasPrefix(I.PORT_LABEL, I.TRAEFIK_PREFIX)
  {
    assert I.PROJECT_LABEL[19] == 'p' && I.SERVICE_LABEL[19] == 's' && I.PORT_LABEL[0] == 'd';
    assert I.PROJECT_LABEL[0] == 'c' && I.SERVICE_LABEL[0] == 'c' && I.TRAEFIK_PREFIX[0] == 't';
  }

  lemma AnchorFacts(p: string, network: string)
    ensures I.Project(Anchor(p)) == p && !Routed(Anchor(p), network)
  {
  }

  predicate ForProject(b: Base) { b.ProjectSuffix? || b.ProjectMachine? }

  lemma ProbePort(l: string, b: Base, network: string)
    ensures I.PortOf(Probe(l, b, network).config.value) == Some(80)
  {
    LabelKeys();
    assert I.DigitsValue("8") == 8;
    assert "80"[..1] == "8";
    assert I.DigitsValue("80") == 80;
    assert I.Atoi("80") == Some(80);
  }

  lemma ProbeNames(l: string, b: Base, network: string)
    requires OneLabel(l) && ValidateLabel(l) && (ForProject(b) ==> ValidateLabel(b.project))
    ensures var c := Probe(l, b, network);
            && I.Project(c) == (if ForProject(b) then b.project else "")
            && I.Compose(c.config.value) == ForProject(b)
            && I.OwnName(c, c.config.value) == l
            && SafeName(I.InferHostname(c, c.config.value))
  {
    LabelKeys();
    var c := Probe(l, b, network);
    assert I.TrimPrefix("/" + l, "/") == l;
    I.HostnameShape(c, c.config.value);
    I.ToLowerSafe(l);
    if ForProject(b) { DotJoinValid(l, b.project); }
  }

  lemma {:induction false} ProbeFacts(l: string, b: Base, network: string)
    requires OneLabel(l) && ValidateLabel(l) && (ForProject(b) ==> ValidateLabel(b.project))
    ensures var c := Probe(l, b, network);
            && Plain(c, network)
            && I.Project(c) == (if ForProject(b) then b.project else "")
            && I.Compose(c.config.value) == ForProject(b)
            && SafeName(I.Inspected(c, network).hostname)
  {
    ProbePort(l, b, network);
    ProbeNames(l, b, network);
    ProbeIsUnlabelled(l, b, network);
  }

  lemma ProbeIsUnlabelled(l: string, b: Base, network: string)
    ensures !I.TraefikLabelled(Probe(l, b, network).config.value)
  {
    LabelKeys();
    var labels := ProbeLabels(l, b);
    forall k | k in labels ensures !HasPrefix(k, I.TRAEFIK_PREFIX) {
      assert k == I.PROJECT_LABEL || k == I.SERVICE_LABEL || k == I.PORT_LABEL;
    }
  }

  /** Anchors for the projects, and a probe for one of their wildcards. */
  function ProbeList(projects: seq<string>, l: string, b: Base, network: string): seq<I.Container> {
    Map(Anchor, projects) + [Probe(l, b, network)]
  }

  lemma ProbeListElements(projects: seq<string>, l: string, b: Base, network: string, c: I.Container)
    ensures c in ProbeList(projects, l, b, network) <==>
            c == Probe(l, b, network) || exists p :: p in projects && c == Anchor(p)
  {
    var cs, anchors := ProbeList(projects, l, b, network), Map(Anchor, projects);
    assert cs[|projects|] == Probe(l, b, network);
    if c in anchors {
      var k :| 0 <= k < |projects| && anchors[k] == c;
      assert projects[k] in projects;
    }
    if p :| p in projects && c == Anchor(p) {
      var k :| 0 <= k < |projects| && projects[k] == p;
      assert cs[k] == c;
    }
  }

  lemma ProbeListProjects(projects: seq<string>, l: string, b: Base, network: string)
    requires OneLabel(l) && ValidateLabel(l) && (ForProject(b) ==> b.project in projects)
    requires StrictlySorted(projects) && forall p :: p in projects ==> ValidateLabel(p)
    ensures I.Projects(ProbeList(projects, l, b, network)) == projects
  {
    var cs := ProbeList(projects, l, b, network);
    ProbeFacts(l, b, network);
    forall p ensures p in I.Projects(cs) <==> p in projects {
      if p in projects {
        AnchorFacts(p, network);
        ProbeListElements(projects, l, b, network, Anchor(p));
      }
      if p in I.ProjectSet(cs) {
        var c :| c in cs && I.Project(c) == p;
        ProbeListElements(projects, l, b, network, c);
      }
    }
    StrictlySortedUnique(I.Projects(cs), projects);
  }

  lemma {:induction false} ProbeListFacts(cfg: Settings, projects: seq<string>, l: string, b: Base, network: string)
    requires Accepted(cfg, projects) && StrictlySorted(projects) && IsBase(cfg, projects, b)
    requires OneLabel(l) && ValidateLabel(l)
    ensures var cs := ProbeList(projects, l, b, network);
            && I.Projects(cs) == projects
            && SafeHostnames(cs, network)
            && Probe(l, b, network) in cs && Plain(Probe(l, b, network), network)
            && Needs(cfg, Probe(l, b, network), b)
  {
    var cs, probe := ProbeList(projects, l, b, network), Probe(l, b, network);
    ProbeFacts(l, b, network);
    ProbeListProjects(projects, l, b, network);
    ProbeListElements(projects, l, b, network, probe);
    forall c | c in cs && Routed(c, network) ensures SafeName(I.Inspected(c, network).hostname) {
      ProbeListElements(projects, l, b, network, c);
      if c != probe {
        var p :| p in projects && c == Anchor(p);
        AnchorFacts(p, network);
      }
    }
  }

  /** A clock reading, and when a certificate issued then runs out. */
  datatype Times = Times(now: int, notAfter: int)

  /** An environment in which nothing fails and mkcert certifies these names. */
  function SmoothEnv(names: seq<string>, t: Times): Env {
    Env(Answered, t.now, Faults(true, true, Issues(names, t.notAfter), true, true, true, true), true)
  }

  /** A reconcile in which nothing fails, for these containers. */
  lemma {:induction false} SmoothStep(w: World, cs: seq<I.Container>, t: Times) returns (step: Step)
    requires Vouched(w) && Accepted(w.settings, I.Projects(cs)) && SafeHostnames(cs, w.network)
    ensures step.Reconcile? && step.containers == cs && step.env == SmoothEnv(SanList(w.settings, I.Projects(cs)), t)
    ensures Genuine(w, step) && Writes(w, step)
  {
    var out := R.SortRouters(R.Routers(RenderInput(w, cs)));
    var env := SmoothEnv(SanList(w.settings, I.Projects(cs)), t);
    step := Reconcile(cs, env, out);
    SucceedsIff(w, cs, env, out);
  }

  /** A file for unchanged projects that is written without asking for a certificate is covered. */
  ghost predicate SafeToSkip(w: World) {
    forall step | Writes(w, step) && Genuine(w, step) && w.last == Some(I.Projects(step.containers)) ::
      CurrentFileCovered(Take(w, step))
  }

  /** Skipping the request is safe, for all containers of the remembered projects, exactly when the certificate has all SANs for them. */
  lemma {:induction false} SafeToSkipIff(w: World)
    requires Vouched(w) && w.last.Some? && AllWildcards(NamesOf(w.disk))
    ensures SafeToSkip(w) <==> InSync(w)
  {
    if InSync(w) {
      forall step | Writes(w, step) && Genuine(w, step) && w.last == Some(I.Projects(step.containers))
        ensures CurrentFileCovered(Take(w, step))
      {
        SkippedWriteCovered(w, step);
      }
    } else {
      var step := UncoveredStep(w, Times(0, RENEWAL + 1));
    }
  }

  lemma {:induction false} SkippedWriteCovered(w: World, step: Step)
    requires Vouched(w) && AllWildcards(NamesOf(w.disk)) && InSync(w)
    requires Writes(w, step) && Genuine(w, step) && w.last == Some(I.Projects(step.containers))
    ensures CurrentFileCovered(Take(w, step))
  {
    SkipKeepsDisk(w, step);
    WriteCovered(w, step);
  }

  lemma SkipKeepsDisk(w: World, step: Step)
    requires step.Reconcile? && w.last == Some(I.Projects(step.containers))
    ensures Take(w, step).disk == w.disk
  {
  }

  /** Out of sync, a fault-free reconcile can publish a host without a SAN, whatever the clock says. */
  lemma {:induction false} UncoveredStep(w: World, t: Times) returns (step: Step)
    requires Vouched(w) && w.last.Some? && AllWildcards(NamesOf(w.disk)) && !InSync(w)
    ensures Writes(w, step) && Genuine(w, step) && w.last == Some(I.Projects(step.containers))
    ensures step.env == SmoothEnv(SanList(w.settings, w.last.value), t)
    ensures !CurrentFileCovered(Take(w, step))
  {
    var b := MissingBase(w.settings, w.last.value, NamesOf(w.disk));
    var l := ShortLabel();
    step := ProbeStep(w, l, b, t);
    SkipKeepsDisk(w, step);
    ProbeWriteUncovered(w, step, l, b);
  }

  lemma ShortLabel() returns (l: string)
    ensures OneLabel(l) && ValidateLabel(l)
  {
    l := ['a'];
    SingleCharValid('a');
  }

  lemma MissingBase(cfg: Settings, projects: seq<string>, names: seq<string>) returns (b: Base)
    requires !HasSans(names, cfg, projects)
    ensures IsBase(cfg, projects, b) && Wildcard(Dotted(cfg.machine, cfg.tailnet, b)) !in names
  {
    var x :| IsSan(cfg, projects, x) && x !in names;
    b :| IsBase(cfg, projects, b) && x == Wildcard(Dotted(cfg.machine, cfg.tailnet, b));
  }

  lemma {:induction false} ProbeStep(w: World, l: string, b: Base, t: Times) returns (step: Step)
    requires OneLabel(l) && ValidateLabel(l)
    requires Vouched(w) && w.last.Some? && IsBase(w.settings, w.last.value, b)
    ensures Writes(w, step) && Genuine(w, step)
    ensures step.containers == ProbeList(w.last.value, l, b, w.network)
    ensures step.env == SmoothEnv(SanList(w.settings, w.last.value), t)
    ensures w.last == Some(I.Projects(step.containers))
  {
    ProbeListFacts(w.settings, w.last.value, l, b, w.network);
    step := SmoothStep(w, ProbeList(w.last.value, l, b, w.network), t);
  }

  lemma {:induction false} ProbeWriteUncovered(w: World, step: Step, l: string, b: Base)
    requires OneLabel(l) && ValidateLabel(l)
    requires Vouched(w) && w.last.Some? && IsBase(w.settings, w.last.value, b) && AllWildcards(NamesOf(w.disk))
    requires Writes(w, step) && step.containers == ProbeList(w.last.value, l, b, w.network)
    requires Take(w, step).disk == w.disk
    requires Wildcard(Dotted(w.settings.machine, w.settings.tailnet, b)) !in NamesOf(w.disk)
    ensures !CurrentFileCovered(Take(w, step))
  {
    ProbeListFacts(w.settings, w.last.value, l, b, w.network);
    WriteMemory(w, step);
    ProbeIsUncovered(Take(w, step).published.value, w.last.value, Probe(l, b, w.network), b, NamesOf(w.disk));
  }

  lemma ProbeIsUncovered(pub: Publication, projects: seq<string>, c: I.Container, b: Base, names: seq<string>)
    requires Accepted(pub.settings, projects) && I.Projects(pub.containers) == projects && AllWildcards(names)
    requires c in pub.containers && Plain(c, pub.network) && Needs(pub.settings, c, b)
    requires Wildcard(Dotted(pub.settings.machine, pub.settings.tailnet, b)) !in names
    ensures !PublishedCovered(pub, names)
  {
    ProjectsAreWithin(pub.containers);
    PublishedCoveredIff(pub, projects, names);
  }

  /** After any run, with any restarts and failures, skipping the request is safe exactly when the run is certified. */
  lemma {:induction false} SafeToSkipAfterRunIff(w: World, steps: seq<Step>)
    requires Fresh(w) && AllGenuine(w, steps)
    ensures SafeToSkip(After(w, steps)) <==> Certified(w, steps)
  {
    RunVouched(w, steps);
    RunWildcards(w, steps);
    RunInSyncIff(w, steps);
    if After(w, steps).last.Some? { SafeToSkipIff(After(w, steps)); }
  }

  /** Whatever file is written next will be covered when it is written. */
  ghost predicate NextWriteCovered(w: World) {
    forall step | Writes(w, step) && Genuine(w, step) :: CurrentFileCovered(Take(w, step))
  }

  /** After any run at all, the next write is covered, whatever the containers are by then, exactly when the run is certified. */
  lemma {:induction false} NextWriteCoveredIff(w: World, steps: seq<Step>)
    requires Fresh(w) && AllGenuine(w, steps)
    ensures NextWriteCovered(After(w, steps)) <==> Certified(w, steps)
  {
    var v := After(w, steps);
    SafeToSkipAfterRunIff(w, steps);
    forall step | SafeToSkip(v) && Writes(v, step) && Genuine(v, step) ensures CurrentFileCovered(Take(v, step)) {
      if v.last != Some(I.Projects(step.containers)) { AskedWriteCovered(v, step); }
    }
  }

  /******* One container that blocks all *******/

  /** Two containers as Docker allows them: a standalone one with an underscore in its name, and one of a project with an underscore. */
  function UnderscoreName(network: string): I.Container {
    Probe("my_app", Machine, network)
  }

  function UnderscoreProject(): I.Container {
    Anchor("my_app")
  }

  lemma UnderscoreIsUnsafe()
    ensures !SafeName("my_app") && !ValidateLabel("my_app")
  {
    assert !LabelChar("my_app"[2]);
  }

  /** A standalone container is routed under its lower-cased name. */
  lemma StandaloneHostname(l: string, network: string)
    requires l != ""
    ensures var c := Probe(l, Machine, network);
            Routed(c, network) && !I.Compose(c.config.value) && I.Inspected(c, network).hostname == I.ToLower(l)
  {
    var c := Probe(l, Machine, network);
    LabelKeys();
    ProbePort(l, Machine, network);
    ProbeIsUnlabelled(l, Machine, network);
    I.HostnameShape(c, c.config.value);
    assert I.TrimPrefix("/" + l, "/") == l;
  }

  lemma UnderscoreNameFacts(network: string)
    ensures var c := UnderscoreName(network);
            Routed(c, network) && !I.Compose(c.config.value) && I.Inspected(c, network).hostname == "my_app"
  {
    StandaloneHostname("my_app", network);
    UnderscoreLowers();
  }

  lemma UnderscoreLowers()
    ensures I.ToLower("my_app") == "my_app"
  {
    var n := "my_app";
    assert forall i :: 0 <= i < |n| ==> I.LowerRune(n[i]) == n[i];
  }

  /** A container called `/my_app` is not skipped: while it runs no reconcile writes a file, whatever else runs. */
  lemma {:induction false} UnderscoreNameBlocks(w: World, cs: seq<I.Container>, env: Env, out: seq<R.Router>)
    requires UnderscoreName(w.network) in cs
    ensures Routed(UnderscoreName(w.network), w.network)
    ensures Reconciled(w, cs, env, out).1 != Done
    ensures Reconciled(w, cs, env, out).0.published == w.published
  {
    UnderscoreNameFacts(w.network);
    UnderscoreIsUnsafe();
    UnsafeHostnameBlocks(w, cs, env, out, UnderscoreName(w.network));
  }

  /** A container of a project `my_app`, which compose allows, blocks every reconcile too, even if it is not routed itself. */
  lemma {:induction false} UnderscoreProjectBlocks(w: World, cs: seq<I.Container>, env: Env, out: seq<R.Router>)
    requires Vouched(w) && UnderscoreProject() in cs
    ensures I.Project(UnderscoreProject()) == "my_app"
    ensures Reconciled(w, cs, env, out).1 != Done
    ensures Reconciled(w, cs, env, out).0.published == w.published
  {
    AnchorFacts("my_app", w.network);
    UnderscoreIsUnsafe();
    RejectedProjectBlocks(w, cs, env, out, UnderscoreProject());
  }

  /******* Shrink, fail, grow back *******/

  lemma AnchorsFacts(projects: seq<string>, network: string)
    requires forall p :: p in projects ==> ValidateLabel(p)
    ensures var cs := Map(Anchor, projects);
            && (forall p :: p in I.Projects(cs) <==> p in projects)
            && SafeHostnames(cs, network)
  {
    var cs := Map(Anchor, projects);
    forall c | c in cs ensures exists p :: p in projects && c == Anchor(p) {
      var k :| 0 <= k < |projects| && cs[k] == c;
      assert projects[k] in projects;
    }
    forall p ensures p in I.Projects(cs) <==> p in projects {
      if p in projects {
        var k :| 0 <= k < |projects| && projects[k] == p;
        AnchorFacts(p, network);
        assert cs[k] == Anchor(p) && cs[k] in cs;
      }
      if p in I.ProjectSet(cs) {
        var c :| c in cs && I.Project(c) == p;
      }
    }
  }

  lemma OtherProjectLacksSan(p: string, q: string, s: string, projects: seq<string>)
    requires p != q && forall x :: x in projects <==> x == p
    ensures !IsSan(Settings([s], "", ""), projects, Wildcard(q + "." + s))
  {
    var cfg := Settings([s], "", "");
    forall b | IsBase(cfg, projects, b) ensures Wildcard(Dotted("", "", b)) != Wildcard(q + "." + s) {
      assert Wildcard(Dotted("", "", b))[2..] == Dotted("", "", b);
      assert Wildcard(q + "." + s)[2..] == q + "." + s;
      if b.ProjectSuffix? {
        assert b == ProjectSuffix(p, s);
        DotCancel(p, q, s);
      } else {
        assert b == Suffix(s);
        assert |q + "." + s| > |s|;
      }
    }
  }

  /** Nothing fails but the write. */
  function WriteFails(names: seq<string>, t: Times): Env {
    SmoothEnv(names, t).(writeOk := false)
  }

  lemma DotCancel(p: string, q: string, s: string)
    ensures p + "." + s == q + "." + s ==> p == q
  {
    if p + "." + s == q + "." + s {
      assert |p + "." + s| == |p| + 1 + |s|;
      assert p == (p + "." + s)[..|p|] == (q + "." + s)[..|p|];
    }
  }

  /** A fault-free request that is not a no-op gets a new certificate. */
  lemma RequestReplaces(w: World, cs: seq<I.Container>, env: Env, out: seq<R.Router>)
    requires w.last != Some(I.Projects(cs)) && Accepted(w.settings, I.Projects(cs))
    requires env.delivery.Answered? && FaultFree(env.faults)
    requires !ShortCircuits(w.disk, env.now, SanList(w.settings, I.Projects(cs)))
    ensures Replaces(w, Reconcile(cs, env, out)) == Some(CertServer.Request(w.settings, I.Projects(cs)))
    ensures CertStep(w, I.Projects(cs), env).0.cert ==
            Complete(Certificate(w.disk.runs, env.faults.mkcert.names, env.faults.mkcert.notAfter))
  {
  }

  /** A request for other names than the certificate holds is never taken for a no-op. */
  lemma OtherNamesNoShortCircuit(d: Disk, now: int, cfg: Settings, projects: seq<string>, x: string)
    requires x in NamesOf(d) && !IsSan(cfg, projects, x)
    ensures !ShortCircuits(d, now, SanList(cfg, projects))
  {
    SanElements(cfg, projects);
    if d.cert.Complete? { SortElements(d.cert.value.names); }
  }

  lemma NoWrite(w: World, step: Step)
    requires step.Reconcile? && !step.env.writeOk
    ensures !Writes(w, step)
  {
  }

  /** A request that replaces the certificate and whose write fails. */
  lemma {:induction false} FailedShrink(w: World, p: string, q: string, s: string, t: Times) returns (step: Step)
    requires w.settings == Settings([s], "", "") && ValidateLabel(p) && ValidateLabel(q) && ValidateLabel(s) && p != q
    requires Vouched(w) && w.last.Some? && InSync(w)
    requires forall x :: x in w.last.value <==> x == p || x == q
    ensures Genuine(w, step) && Drops(w, step)
    ensures step.Reconcile? && step.env.now == t.now && FaultFree(step.env.faults)
    ensures step.env.faults.mkcert.notAfter == t.notAfter
  {
    var cs := Map(Anchor, [p]);
    AnchorsFacts([p], w.network);
    var projects := I.Projects(cs);
    var env := WriteFails(SanList(w.settings, projects), t);
    step := Reconcile(cs, env, []);
    NoWrite(w, step);
    ShrinkLosesSan(p, q, s, w.last.value, projects);
    LostSan(w, projects, q, s);
    OtherNamesNoShortCircuit(w.disk, t.now, w.settings, projects, Wildcard(q + "." + s));
    RequestReplaces(w, cs, env, []);
  }

  lemma LostSan(w: World, projects: seq<string>, q: string, s: string)
    requires w.settings == Settings([s], "", "") && w.last.Some? && InSync(w)
    requires q in w.last.value && q !in projects
    ensures w.last != Some(projects) && Wildcard(q + "." + s) in NamesOf(w.disk)
  {
    assert IsBase(w.settings, w.last.value, ProjectSuffix(q, s));
    assert IsSan(w.settings, w.last.value, Wildcard(q + "." + s));
  }

  lemma ShrinkLosesSan(p: string, q: string, s: string, projects: seq<string>, projects': seq<string>)
    requires p != q && q in projects && forall x :: x in projects' <==> x == p
    ensures var cfg := Settings([s], "", "");
            !IsSan(cfg, projects', Wildcard(q + "." + s)) && !KeepsSans(cfg, projects, cfg, projects')
  {
    var cfg := Settings([s], "", "");
    assert IsBase(cfg, projects, ProjectSuffix(q, s));
    assert IsSan(cfg, projects, Wildcard(q + "." + s));
    OtherProjectLacksSan(p, q, s, projects');
  }

  /** The world a new installation starts from. */
  function NewWorld(settings: Settings, network: string): World {
    World(settings, network, None, Disk(Absent, Absent, Absent, Absent, 0), None)
  }

  /** These projects are published. */
  ghost predicate Established(w: World, projects: seq<string>) {
    && Vouched(w) && InSync(w) && AllWildcards(NamesOf(w.disk))
    && w.last.Some? && (forall x :: x in w.last.value <==> x in projects)
  }

  lemma {:induction false} Establish(w: World, projects: seq<string>, t: Times) returns (step: Step)
    requires Fresh(w) && Accepted(w.settings, projects)
    ensures Genuine(w, step) && Writes(w, step) && Established(Take(w, step), projects)
    ensures step.env == SmoothEnv(SanList(w.settings, I.Projects(step.containers)), t)
    ensures SafeHostnames(step.containers, w.network)
    ensures Take(w, step).settings == w.settings
  {
    var cs := Map(Anchor, projects);
    AnchorsFacts(projects, w.network);
    step := SmoothStep(w, cs, t);
    WriteIsInSync(w, step);
    StepWildcards(w, step);
    WriteMemory(w, step);
  }

  /******* An expiring certificate *******/

  /** A certificate is issued and, within thirty days of its end or after it, a reconcile in which nothing fails writes the file again and leaves the certificate as it is. */
  lemma {:induction false} ExpiryUnnoticed(settings: Settings, projects: seq<string>, network: string, t0: Times, t1: Times)
    returns (w: World, first: Step, second: Step)
    requires Accepted(settings, projects) && t0.notAfter - t1.now <= RENEWAL
    ensures Fresh(w) && AllGenuine(w, [first, second]) && Timed(first, t0) && Timed(second, t1) && Smooth(second.env)
    ensures Writes(w, first) && Writes(After(w, [first]), second)
    ensures After(w, [first]).disk.cert.Complete? && Expiring(After(w, [first]).disk, t1.now)
    ensures After(w, [first, second]).disk == After(w, [first]).disk
  {
    w := NewWorld(settings, network);
    first := Establish(w, projects, t0);
    FirstCertificate(w, first, t0);
    second := SameAgain(w, first, t1);
    TwoSteps(w, first, second);
  }

  lemma {:induction false} FirstCertificate(w: World, step: Step, t: Times)
    requires Writes(w, step) && w.last.None? && w.disk.cert.Absent?
    requires step.env == SmoothEnv(SanList(w.settings, I.Projects(step.containers)), t)
    ensures Take(w, step).disk.cert.Complete? && Take(w, step).disk.cert.value.notAfter == t.notAfter
  {
    CertStepVouches(w, I.Projects(step.containers), step.env);
    ReconcileDisk(w, step);
    RequestReplaces(w, step.containers, step.env, step.out);
  }

  /** The same containers again, with nothing failing. */
  lemma {:induction false} SameAgain(w: World, first: Step, t: Times) returns (second: Step)
    requires Vouched(w) && Writes(w, first) && SafeHostnames(first.containers, w.network)
    ensures Genuine(Take(w, first), second) && Writes(Take(w, first), second) && Timed(second, t) && Smooth(second.env)
    ensures Take(Take(w, first), second).disk == Take(w, first).disk
  {
    WriteMemory(w, first);
    StepVouched(w, first);
    CertStepVouches(w, I.Projects(first.containers), first.env);
    second := SmoothStep(Take(w, first), first.containers, t);
    SkipKeepsDisk(Take(w, first), second);
  }

  /******* Shrinking *******/

  /**
    Projects p and q are published and q goes away. Although nothing fails,
    between the new certificate and the new file a host of q is published
    without a SAN; the file before and the new file are covered.
  */
  lemma {:induction false} RemovedProjectUncovered(p: string, q: string, s: string, network: string, t0: Times, t1: Times)
    returns (w: World, first: Step, second: Step)
    requires ValidateLabel(p) && ValidateLabel(q) && ValidateLabel(s) && p != q
    ensures Fresh(w) && AllGenuine(w, [first, second]) && Timed(first, t0) && Timed(second, t1) && Smooth(second.env)
    ensures Writes(w, first) && Writes(After(w, [first]), second)
    ensures After(w, [first]).published.Some? && CurrentFileCovered(After(w, [first]))
    ensures !PublishedCovered(After(w, [first]).published.value, NamesOf(After(w, [first, second]).disk))
    ensures CurrentFileCovered(After(w, [first, second]))
  {
    w := NewWorld(Settings([s], "", ""), network);
    var c;
    first, c := PublishBoth(w, p, q, s, t0);
    second := DropProject(Take(w, first), p, q, s, t1);
    ShrunkFileUncovered(Take(w, first).published.value, I.Projects(second.containers),
                        NamesOf(Take(Take(w, first), second).disk), p, q, s, c);
    TwoSteps(w, first, second);
  }

  /** The file shows a plain container of project q under the one suffix s. */
  ghost predicate Shows(pub: Publication, q: string, s: string, c: I.Container) {
    && pub.settings == Settings([s], "", "") && Accepted(pub.settings, I.Projects(pub.containers))
    && c in pub.containers && Plain(c, pub.network) && Needs(pub.settings, c, ProjectSuffix(q, s))
  }

  lemma {:induction false} PublishBoth(w: World, p: string, q: string, s: string, t: Times)
    returns (step: Step, c: I.Container)
    requires w.last.None? && w.settings == Settings([s], "", "")
    requires ValidateLabel(p) && ValidateLabel(q) && ValidateLabel(s) && p != q
    ensures Genuine(w, step) && Writes(w, step) && Timed(step, t)
    ensures var w' := Take(w, step);
            && Vouched(w') && CurrentFileCovered(w') && w'.settings == w.settings
            && w'.last.Some? && q in w'.last.value && Shows(w'.published.value, q, s, c)
  {
    var l := ShortLabel();
    var projects := TwoProjects(p, q);
    c := Probe(l, ProjectSuffix(q, s), w.network);
    ProbeListFacts(w.settings, projects, l, ProjectSuffix(q, s), w.network);
    step := SmoothStep(w, ProbeList(projects, l, ProjectSuffix(q, s), w.network), t);
    AskedWriteCovered(w, step);
    WriteMemory(w, step);
    StepVouched(w, step);
  }

  lemma TwoProjects(p: string, q: string) returns (projects: seq<string>)
    requires p != q && ValidateLabel(p) && ValidateLabel(q)
    ensures StrictlySorted(projects) && forall x :: x in projects <==> x == p || x == q
  {
    AnchorsFacts([p, q], "");
    projects := I.Projects(Map(Anchor, [p, q]));
  }

  lemma {:induction false} DropProject(w: World, p: string, q: string, s: string, t: Times) returns (step: Step)
    requires Vouched(w) && w.settings == Settings([s], "", "") && w.last.Some? && q in w.last.value
    requires ValidateLabel(p) && ValidateLabel(q) && ValidateLabel(s) && p != q
    ensures Genuine(w, step) && Writes(w, step) && Timed(step, t) && Smooth(step.env)
    ensures forall x :: x in I.Projects(step.containers) <==> x == p
    ensures CurrentFileCovered(Take(w, step))
    ensures var names := NamesOf(Take(w, step).disk);
            AllWildcards(names) && forall x :: x in names <==> IsSan(w.settings, I.Projects(step.containers), x)
  {
    AnchorsFacts([p], w.network);
    step := SmoothStep(w, Map(Anchor, [p]), t);
    AskedNames(w, step);
    AskedWriteCovered(w, step);
  }

  lemma {:induction false} ShrunkFileUncovered(pub: Publication, projects: seq<string>, names: seq<string>,
                                               p: string, q: string, s: string, c: I.Container)
    requires p != q && Shows(pub, q, s, c) && forall x :: x in projects <==> x == p
    requires AllWildcards(names) && forall x :: x in names <==> IsSan(pub.settings, projects, x)
    ensures !PublishedCovered(pub, names)
  {
    OtherProjectLacksSan(p, q, s, projects);
    ProbeIsUncovered(pub, I.Projects(pub.containers), c, ProjectSuffix(q, s), names);
  }

  /** One of them goes away in a reconcile whose write fails. */
  lemma {:induction false} LoseOne(w: World, p: string, q: string, s: string, t: Times) returns (step: Step)
    requires ValidateLabel(p) && ValidateLabel(q) && ValidateLabel(s) && p != q
    requires w.settings == Settings([s], "", "") && Established(w, [p, q])
    ensures Genuine(w, step)
    ensures step.Reconcile? && step.env.now == t.now && FaultFree(step.env.faults)
    ensures step.env.faults.mkcert.notAfter == t.notAfter
    ensures var w' := Take(w, step);
            Vouched(w') && w'.last.Some? && AllWildcards(NamesOf(w'.disk)) && !InSync(w')
  {
    step := FailedShrink(w, p, q, s, t);
    StepInSyncIff(w, step);
    StepWildcards(w, step);
    DropKeepsMemory(w, step);
  }

  lemma DropKeepsMemory(w: World, step: Step)
    requires Drops(w, step)
    ensures Take(w, step).last == w.last
  {
    StepMemory(w, step);
  }

  /** The step reads this clock, and a certificate it issues runs out then. */
  predicate Timed(step: Step, t: Times) {
    step.Reconcile? && step.env.now == t.now && step.env.faults.mkcert.Issues? && step.env.faults.mkcert.notAfter == t.notAfter
  }

  /** The hypothesis of EveryWriteCovered is needed, whatever the clock readings and the lifetime of certificates. Two projects are published; one goes away and the write for the other fails after the certificate was replaced; when both are back the request is skipped and a host without a SAN is published. */
  lemma {:induction false} ShrinkFailGrow(p: string, q: string, s: string, network: string, t0: Times, t1: Times, t2: Times)
    returns (w: World, steps: seq<Step>, last: Step)
    requires ValidateLabel(p) && ValidateLabel(q) && ValidateLabel(s) && p != q
    ensures Fresh(w) && AllGenuine(w, steps + [last]) && |steps| == 2
    ensures Timed(steps[0], t0) && Timed(steps[1], t1) && Timed(last, t2)
    ensures Writes(After(w, steps), last)
    ensures After(w, steps + [last]).published.Some? && !CurrentFileCovered(After(w, steps + [last]))
  {
    w := NewWorld(Settings([s], "", ""), network);
    var first := Establish(w, [p, q], t0);
    var second := LoseOne(Take(w, first), p, q, s, t1);
    var w2 := Take(Take(w, first), second);
    last := UncoveredStep(w2, t2);
    WriteMemory(w2, last);
    steps := [first, second];
    TwoSteps(w, first, second);
    ThreeSteps(w, first, second, last);
  }

  lemma TwoSteps(w: World, first: Step, second: Step)
    ensures After(w, [first]) == Take(w, first)
    ensures After(w, [first, second]) == Take(Take(w, first), second)
    ensures Genuine(w, first) && Genuine(Take(w, first), second) ==> AllGenuine(w, [first, second])
  {
    var steps := [first, second];
    assert steps[..1] == [first] && [first][..0] == [];
    assert After(w, [first]) == Take(w, first);
    assert Genuine(w, first) ==> AllGenuine(w, [first]);
  }

  lemma ThreeSteps(w: World, first: Step, second: Step, third: Step)
    ensures After(w, [first, second] + [third]) == Take(Take(Take(w, first), second), third)
    ensures Genuine(w, first) && Genuine(Take(w, first), second) && Genuine(Take(Take(w, first), second), third) ==>
              AllGenuine(w, [first, second] + [third])
  {
    var steps := [first, second] + [third];
    assert steps[..2] == [first, second];
    TwoSteps(w, first, second);
  }
}
