/** The certificate-before-route protocol over whole runs, with restarts and failures anywhere. */
module Protocol {
  import opened Text
  import opened Sans
  import opened Reissue
  import opened Reconcile
  import opened Coverage
  import CertServer
  import I = Inspect
  import R = Render

  /**
    What can happen: a reconcile, a restart of the discoverer (possibly with
    other settings), or a request that certgen gets to only after the discoverer
    has given up on it.
  */
  datatype Step =
    | Reconcile(containers: seq<I.Container>, env: Env, out: seq<R.Router>)
    | Restart(settings: Settings, network: string)
    | Late(settings: Settings, projects: seq<string>, now: int, faults: Faults)

  ghost function Take(w: World, step: Step): World {
    match step
    case Reconcile(cs, env, out) => Reconciled(w, cs, env, out).0
    case Restart(settings, network) => w.(settings := settings, network := network, last := None)
    case Late(settings, projects, now, f) => w.(disk := Requested(w.disk, settings, projects, now, f).0)
  }

  /** mkcert certifies what it was asked for, and the sort by name sorts. */
  ghost predicate Genuine(w: World, step: Step) {
    match step
    case Reconcile(cs, env, out) =>
      && Honest(env.faults, SanList(w.settings, I.Projects(cs)))
      && (Writes(w, step) ==> R.Renders(RenderInput(w, cs), out))
    case Restart(_, _) => true
    case Late(settings, projects, _, f) => Honest(f, SanList(settings, projects))
  }

  /** A reconcile that gets all the way to a new file. */
  ghost predicate Writes(w: World, step: Step) {
    step.Reconcile? && Reconciled(w, step.containers, step.env, step.out).1 == Done
  }

  ghost predicate CertReplaced(w: World, projects: seq<string>, env: Env) {
    && w.last != Some(projects) && !env.delivery.Lost? && Accepted(w.settings, projects)
    && ReissueOn(w.disk, env.now, SanList(w.settings, projects), env.faults).1 == Reissued
  }

  /** The request whose certificate replaces the current one in this step, if any. */
  ghost function Replaces(w: World, step: Step): Option<CertServer.Request> {
    match step
    case Reconcile(cs, env, _) =>
      if CertReplaced(w, I.Projects(cs), env) then Some(CertServer.Request(w.settings, I.Projects(cs))) else None
    case Restart(_, _) => None
    case Late(settings, projects, now, f) =>
      if Accepted(settings, projects) && ReissueOn(w.disk, now, SanList(settings, projects), f).1 == Reissued
      then Some(CertServer.Request(settings, projects)) else None
  }

  /** The certificate has all SANs for the projects of the last write. */
  ghost predicate InSync(w: World) {
    w.last.Some? ==> HasSans(NamesOf(w.disk), w.settings, w.last.value)
  }

  /** Replacing a certificate for the first request by one for the second loses no name. */
  ghost predicate KeepsSans(cfg: Settings, projects: seq<string>, cfg': Settings, projects': seq<string>) {
    forall x :: IsSan(cfg, projects, x) ==> IsSan(cfg', projects', x)
  }

  lemma MoreProjectsKeepSans(cfg: Settings, projects: seq<string>, projects': seq<string>)
    requires forall p :: p in projects ==> p in projects'
    ensures KeepsSans(cfg, projects, cfg, projects')
  {
    forall x | IsSan(cfg, projects, x) ensures IsSan(cfg, projects', x) {
      var b :| IsBase(cfg, projects, b) && x == Wildcard(Dotted(cfg.machine, cfg.tailnet, b));
      assert IsBase(cfg, projects', b);
    }
  }

  /** The step replaces the certificate by one that lacks a name of the last write, and then writes no file. */
  ghost predicate Drops(w: World, step: Step) {
    && !step.Restart? && !Writes(w, step)
    && w.last.Some? && Replaces(w, step).Some?
    && var q := Replaces(w, step).value; !KeepsSans(w.settings, w.last.value, q.settings, q.projects)
  }

  /******* One step *******/

  lemma {:induction false} RequestedNames(d: Disk, cfg: Settings, projects: seq<string>, now: int, f: Faults)
    requires Honest(f, SanList(cfg, projects)) && Accepted(cfg, projects)
    ensures var (d', r) := ReissueOn(d, now, SanList(cfg, projects), f);
            && (r.Failed? ==> NamesOf(d') == NamesOf(d))
            && (r.NoOp? ==> NamesOf(d') == NamesOf(d))
            && (!r.Failed? ==> multiset(NamesOf(d')) == multiset(SanList(cfg, projects)))
  {
    OutcomeMeans(d, now, SanList(cfg, projects), f);
  }

  /** After a step the certificate is the old one or holds exactly the SANs of the request that replaced it. */
  lemma {:induction false} StepNames(w: World, step: Step)
    requires Genuine(w, step)
    ensures Replaces(w, step).None? ==> NamesOf(Take(w, step).disk) == NamesOf(w.disk)
    ensures Replaces(w, step).Some? ==>
              var q := Replaces(w, step).value;
              multiset(NamesOf(Take(w, step).disk)) == multiset(SanList(q.settings, q.projects))
  {
    if step.Reconcile? {
      ReconcileDisk(w, step);
      CertStepNames(w, I.Projects(step.containers), step.env);
    } else if step.Late? && Accepted(step.settings, step.projects) {
      RequestedNames(w.disk, step.settings, step.projects, step.now, step.faults);
    }
  }

  lemma {:induction false} CertStepNames(w: World, projects: seq<string>, env: Env)
    requires Honest(env.faults, SanList(w.settings, projects))
    ensures var d := CertStep(w, projects, env).0;
            && (!CertReplaced(w, projects, env) ==> NamesOf(d) == NamesOf(w.disk))
            && (CertReplaced(w, projects, env) ==> multiset(NamesOf(d)) == multiset(SanList(w.settings, projects)))
  {
    if w.last == Some(projects) {
    } else if env.delivery.Lost? {
    } else if Accepted(w.settings, projects) {
      RequestedNames(w.disk, w.settings, projects, env.now, env.faults);
      if CertReplaced(w, projects, env) {
        assert CertStep(w, projects, env).0 == ReissueOn(w.disk, env.now, SanList(w.settings, projects), env.faults).0;
      }
    }
  }

  lemma ReconcileDisk(w: World, step: Step)
    requires step.Reconcile?
    ensures Take(w, step).disk == CertStep(w, I.Projects(step.containers), step.env).0
  {
  }

  /** What a step does to the discoverer's memory. */
  lemma StepMemory(w: World, step: Step)
    ensures Take(w, step).settings == if step.Restart? then step.settings else w.settings
    ensures Take(w, step).last ==
            if step.Restart? then None else if Writes(w, step) then Some(I.Projects(step.containers)) else w.last
  {
  }

  /** A reconcile that writes leaves the certificate with all SANs for what it wrote. */
  lemma {:induction false} WriteIsInSync(w: World, step: Step)
    requires Genuine(w, step) && Vouched(w) && InSync(w) && Writes(w, step)
    ensures Vouched(Take(w, step)) && InSync(Take(w, step))
  {
    var projects, env := I.Projects(step.containers), step.env;
    CertStepVouches(w, projects, env);
    if w.last != Some(projects) {
      RequestedNames(w.disk, w.settings, projects, env.now, env.faults);
      IssuedNames(w.settings, projects, NamesOf(Take(w, step).disk));
    }
  }

  /** From a state in sync, a step ends in sync exactly unless it drops a name. */
  lemma {:induction false} StepInSyncIff(w: World, step: Step)
    requires Genuine(w, step) && Vouched(w) && InSync(w)
    ensures Vouched(Take(w, step))
    ensures InSync(Take(w, step)) <==> !Drops(w, step)
  {
    StepNames(w, step);
    StepMemory(w, step);
    if Writes(w, step) {
      WriteIsInSync(w, step);
    } else if Replaces(w, step).Some? {
      var q := Replaces(w, step).value;
      IssuedNames(q.settings, q.projects, NamesOf(Take(w, step).disk));
    }
  }

  /******* Runs *******/

  ghost function After(w: World, steps: seq<Step>): World {
    if steps == [] then w else Take(After(w, steps[..|steps| - 1]), steps[|steps| - 1])
  }

  ghost predicate AllGenuine(w: World, steps: seq<Step>) {
    steps == [] ||
    (AllGenuine(w, steps[..|steps| - 1]) && Genuine(After(w, steps[..|steps| - 1]), steps[|steps| - 1]))
  }

  ghost predicate NoDrops(w: World, steps: seq<Step>) {
    steps == [] ||
    (NoDrops(w, steps[..|steps| - 1]) && !Drops(After(w, steps[..|steps| - 1]), steps[|steps| - 1]))
  }

  /** A discoverer that has just started, next to a certificate directory and a config file in any state certgen can leave. */
  ghost predicate Fresh(w: World) {
    w.last.None? && AllWildcards(NamesOf(w.disk))
  }

  lemma {:induction false} RunInSync(w: World, steps: seq<Step>)
    requires Fresh(w) && AllGenuine(w, steps) && NoDrops(w, steps)
    ensures Vouched(After(w, steps)) && InSync(After(w, steps))
  {
    if steps == [] {
    } else {
      var init := steps[..|steps| - 1];
      RunInSync(w, init);
      StepInSyncIff(After(w, init), steps[|steps| - 1]);
    }
  }

  lemma {:induction false} RunWildcards(w: World, steps: seq<Step>)
    requires Fresh(w) && AllGenuine(w, steps)
    ensures AllWildcards(NamesOf(After(w, steps).disk))
  {
    if steps == [] {
    } else {
      var init, step := steps[..|steps| - 1], steps[|steps| - 1];
      RunWildcards(w, init);
      StepWildcards(After(w, init), step);
    }
  }

  lemma {:induction false} StepWildcards(w: World, step: Step)
    requires Genuine(w, step) && AllWildcards(NamesOf(w.disk))
    ensures AllWildcards(NamesOf(Take(w, step).disk))
  {
    StepNames(w, step);
    if Replaces(w, step).Some? {
      var q := Replaces(w, step).value;
      IssuedNames(q.settings, q.projects, NamesOf(Take(w, step).disk));
    }
  }

  lemma StepVouched(w: World, step: Step)
    requires Vouched(w)
    ensures Vouched(Take(w, step))
  {
    StepMemory(w, step);
    if Writes(w, step) { CertStepVouches(w, I.Projects(step.containers), step.env); }
  }

  lemma {:induction false} RunVouched(w: World, steps: seq<Step>)
    requires Fresh(w)
    ensures Vouched(After(w, steps))
  {
    if steps == [] {
    } else {
      var init, step := steps[..|steps| - 1], steps[|steps| - 1];
      RunVouched(w, init);
      StepVouched(After(w, init), step);
    }
  }

  /** A file written from a state in sync is covered. */
  lemma {:induction false} WriteCovered(w: World, step: Step)
    requires Genuine(w, step) && Vouched(w) && InSync(w) && Writes(w, step)
    requires AllWildcards(NamesOf(Take(w, step).disk))
    ensures CurrentFileCovered(Take(w, step))
  {
    var w' := Take(w, step);
    WriteIsInSync(w, step);
    WriteMemory(w, step);
    ProjectsAreWithin(step.containers);
    SansCoverPublication(w'.published.value, I.Projects(step.containers), NamesOf(w'.disk));
  }

  lemma WriteMemory(w: World, step: Step)
    requires Writes(w, step)
    ensures var w' := Take(w, step);
            && w'.published == Some(Publication(w.settings, w.network, step.containers, step.out))
            && w'.last == Some(I.Projects(step.containers)) && w'.settings == w.settings
  {
  }

  lemma FileUnchanged(w: World, step: Step)
    requires !Writes(w, step)
    ensures Take(w, step).published == w.published
  {
  }

  lemma {:induction false} WriteIsRendered(w: World, step: Step)
    requires Genuine(w, step) && Writes(w, step)
    ensures Rendered(Take(w, step).published.value)
  {
    WriteMemory(w, step);
  }

  /** After a write that asked, the certificate holds exactly the SANs for what was written. */
  lemma {:induction false} AskedNames(w: World, step: Step)
    requires Genuine(w, step) && Writes(w, step) && w.last != Some(I.Projects(step.containers))
    ensures Accepted(w.settings, I.Projects(step.containers))
    ensures var names := NamesOf(Take(w, step).disk);
            AllWildcards(names) && forall x :: x in names <==> IsSan(w.settings, I.Projects(step.containers), x)
  {
    var projects, env := I.Projects(step.containers), step.env;
    RequestedNames(w.disk, w.settings, projects, env.now, env.faults);
    IssuedNames(w.settings, projects, NamesOf(Take(w, step).disk));
  }

  /** A write that asked for a certificate is covered, whatever went before. */
  lemma {:induction false} AskedWriteCovered(w: World, step: Step)
    requires Genuine(w, step) && Writes(w, step) && w.last != Some(I.Projects(step.containers))
    ensures CurrentFileCovered(Take(w, step))
  {
    AskedNames(w, step);
    WriteMemory(w, step);
    ProjectsAreWithin(step.containers);
    SansCoverPublication(Take(w, step).published.value, I.Projects(step.containers), NamesOf(Take(w, step).disk));
  }

  /******* Memory and requests *******/

  /** The containers of the last file this discoverer has written since it started, if any. */
  ghost function LastWritten(w: World, steps: seq<Step>): Option<seq<I.Container>> {
    if steps == [] then None else
      var init, step := steps[..|steps| - 1], steps[|steps| - 1];
      if step.Restart? then None
      else if Writes(After(w, init), step) then Some(step.containers)
      else LastWritten(w, init)
  }

  lemma {:induction false} MemoryIsLastWrite(w: World, steps: seq<Step>)
    requires w.last.None?
    ensures LastWritten(w, steps).None? ==> After(w, steps).last.None?
    ensures LastWritten(w, steps).Some? ==> After(w, steps).last == Some(I.Projects(LastWritten(w, steps).value))
  {
    if steps == [] {
    } else {
      var init, step := steps[..|steps| - 1], steps[|steps| - 1];
      MemoryIsLastWrite(w, init);
      StepMemory(After(w, init), step);
    }
  }

  /** What the discoverer remembers is what the file shows. */
  lemma {:induction false} MemoryIsFile(w: World, steps: seq<Step>)
    requires w.last.None?
    ensures var v := After(w, steps);
            v.last.Some? ==>
              v.published.Some? && v.published.value.settings == v.settings &&
              v.last.value == I.Projects(v.published.value.containers)
  {
    if steps == [] {
    } else {
      var init, step := steps[..|steps| - 1], steps[|steps| - 1];
      MemoryIsFile(w, init);
      StepMemory(After(w, init), step);
      if Writes(After(w, init), step) { WriteMemory(After(w, init), step); } else { FileUnchanged(After(w, init), step); }
    }
  }

  /** The request behind the certificate on disk, if it was issued during the run. */
  ghost function LastRequest(w: World, steps: seq<Step>): Option<CertServer.Request> {
    if steps == [] then None else
      var init, step := steps[..|steps| - 1], steps[|steps| - 1];
      if Replaces(After(w, init), step).Some? then Replaces(After(w, init), step) else LastRequest(w, init)
  }

  lemma {:induction false} NamesAreLastRequests(w: World, steps: seq<Step>)
    requires AllGenuine(w, steps) && LastRequest(w, steps).Some?
    ensures var q := LastRequest(w, steps).value;
            multiset(NamesOf(After(w, steps).disk)) == multiset(SanList(q.settings, q.projects))
  {
    var init, step := steps[..|steps| - 1], steps[|steps| - 1];
    StepNames(After(w, init), step);
    if Replaces(After(w, init), step).None? { NamesAreLastRequests(w, init); }
  }

  /******* Every run *******/

  /** The latest certificate issued during the run, if any, is for a request that asked for every SAN of the projects last written, if any. */
  ghost predicate Certified(w: World, steps: seq<Step>) {
    LastWritten(w, steps).Some? && LastRequest(w, steps).Some? ==>
      var q := LastRequest(w, steps).value;
      KeepsSans(After(w, steps).settings, I.Projects(LastWritten(w, steps).value), q.settings, q.projects)
  }

  /** While no new certificate is issued, every write finds its SANs in the one that was there at the start. */
  lemma {:induction false} UnreplacedIsInSync(w: World, steps: seq<Step>)
    requires Fresh(w) && AllGenuine(w, steps) && LastRequest(w, steps).None?
    ensures InSync(After(w, steps))
  {
    if steps == [] {
    } else {
      var init, step := steps[..|steps| - 1], steps[|steps| - 1];
      UnreplacedIsInSync(w, init);
      RunVouched(w, init);
      StepInSyncIff(After(w, init), step);
    }
  }

  /** After any run, with any restarts and failures, the certificate has all SANs of the last write exactly when the run is certified. */
  lemma {:induction false} RunInSyncIff(w: World, steps: seq<Step>)
    requires Fresh(w) && AllGenuine(w, steps)
    ensures InSync(After(w, steps)) <==> Certified(w, steps)
  {
    MemoryIsLastWrite(w, steps);
    if LastRequest(w, steps).None? {
      UnreplacedIsInSync(w, steps);
    } else {
      var q := LastRequest(w, steps).value;
      NamesAreLastRequests(w, steps);
      IssuedNames(q.settings, q.projects, NamesOf(After(w, steps).disk));
    }
  }

  /** At every moment after the first write of a run that is certified so far, the file is covered by the certificate on disk. */
  lemma {:induction false} CertifiedFileCovered(w: World, steps: seq<Step>)
    requires Fresh(w) && AllGenuine(w, steps) && Certified(w, steps) && LastWritten(w, steps).Some?
    ensures CurrentFileCovered(After(w, steps))
  {
    var v := After(w, steps);
    RunVouched(w, steps);
    RunWildcards(w, steps);
    RunInSyncIff(w, steps);
    MemoryIsLastWrite(w, steps);
    MemoryIsFile(w, steps);
    ProjectsAreWithin(v.published.value.containers);
    SansCoverPublication(v.published.value, v.last.value, NamesOf(v.disk));
  }

  /** Over every run, every file is covered when written if the write asked for a certificate, or if the run was certified before it. */
  lemma {:induction false} EveryWriteCovered(w: World, steps: seq<Step>, step: Step)
    requires Fresh(w) && AllGenuine(w, steps + [step]) && Writes(After(w, steps), step)
    requires After(w, steps).last != Some(I.Projects(step.containers)) || Certified(w, steps)
    ensures CurrentFileCovered(After(w, steps + [step]))
  {
    var v := After(w, steps);
    assert (steps + [step])[..|steps|] == steps;
    if v.last != Some(I.Projects(step.containers)) {
      AskedWriteCovered(v, step);
    } else {
      RunVouched(w, steps);
      RunInSyncIff(w, steps);
      RunWildcards(w, steps + [step]);
      WriteCovered(v, step);
    }
  }

  /** The same said of the rules in the file: every router belongs to a container, and that of a plain container mentions covered hosts only. */
  lemma {:induction false} EveryRuleCovered(w: World, steps: seq<Step>, step: Step)
    requires Fresh(w) && AllGenuine(w, steps + [step]) && Writes(After(w, steps), step)
    requires After(w, steps).last != Some(I.Projects(step.containers)) || Certified(w, steps)
    ensures var v, names := After(w, steps), NamesOf(After(w, steps + [step]).disk);
            && (forall c | c in step.containers && Plain(c, v.network) ::
                  var r := RouterOfContainer(v.settings, v.network, c); r in step.out && RuleCovered(r, names))
            && (forall r | r in step.out ::
                  exists c :: c in step.containers && Routed(c, v.network) && r == RouterOfContainer(v.settings, v.network, c))
  {
    var v, w' := After(w, steps), After(w, steps + [step]);
    assert (steps + [step])[..|steps|] == steps;
    EveryWriteCovered(w, steps, step);
    WriteIsRendered(v, step);
    WriteMemory(v, step);
    forall c | c in step.containers && Plain(c, v.network)
      ensures var r := RouterOfContainer(v.settings, v.network, c); r in step.out && RuleCovered(r, NamesOf(w'.disk))
    {
      RulesCovered(w'.published.value, NamesOf(w'.disk), c);
    }
    forall r | r in step.out
      ensures exists c :: c in step.containers && Routed(c, v.network) && r == RouterOfContainer(v.settings, v.network, c)
    {
      RoutersComeFromContainers(w'.published.value, r);
    }
  }

  /** A run is certified if no step of it drops a name. */
  lemma {:induction false} NoDropsCertify(w: World, steps: seq<Step>)
    requires Fresh(w) && AllGenuine(w, steps) && NoDrops(w, steps)
    ensures Certified(w, steps)
  {
    RunInSync(w, steps);
    RunInSyncIff(w, steps);
  }

  /** In particular when every step that replaces the certificate without writing a file asks, with the same settings, for at least the projects of the last write. */
  lemma {:induction false} GrowingRequestsNeverDrop(w: World, steps: seq<Step>)
    requires forall k | 0 <= k < |steps| :: AsksForMore(After(w, steps[..k]), steps[k])
    ensures NoDrops(w, steps)
  {
    if steps == [] {
    } else {
      var init, step := steps[..|steps| - 1], steps[|steps| - 1];
      assert forall k | 0 <= k < |init| :: init[..k] == steps[..k] && init[k] == steps[k];
      GrowingRequestsNeverDrop(w, init);
      var v := After(w, init);
      if v.last.Some? && Replaces(v, step).Some? && !Writes(v, step) {
        MoreProjectsKeepSans(v.settings, v.last.value, Replaces(v, step).value.projects);
      }
    }
  }

  ghost predicate AsksForMore(w: World, step: Step) {
    w.last.Some? && Replaces(w, step).Some? && !Writes(w, step) ==>
      Replaces(w, step).value.settings == w.settings &&
      forall p :: p in w.last.value ==> p in Replaces(w, step).value.projects
  }

  /******* Asking *******/

  /** A reconcile asks for a certificate exactly when nothing has been written since the start or the set of projects differs from the last write's. */
  lemma {:induction false} AsksIff(w: World, steps: seq<Step>, cs: seq<I.Container>)
    requires w.last.None?
    ensures After(w, steps).last != Some(I.Projects(cs)) <==>
            LastWritten(w, steps).None? || I.ProjectSet(LastWritten(w, steps).value) != I.ProjectSet(cs)
  {
    MemoryIsLastWrite(w, steps);
    if LastWritten(w, steps).Some? { I.ProjectsCanonical(LastWritten(w, steps).value, cs); }
  }

  /** A reconcile that failed after replacing the certificate is retried without running mkcert again, while more than thirty days are left. */
  lemma {:induction false} RetryIsCheap(w: World, step: Step, cs: seq<I.Container>, env: Env, out: seq<R.Router>)
    requires step.Reconcile? && Genuine(w, step) && Replaces(w, step).Some?
    requires I.ProjectSet(cs) == I.ProjectSet(step.containers)
    requires step.env.faults.mkcert.Issues? && step.env.faults.mkcert.notAfter - env.now > RENEWAL
    ensures Reconciled(Take(w, step), cs, env, out).0.disk == Take(w, step).disk
  {
    var projects, f := I.Projects(step.containers), step.env.faults;
    I.ProjectsCanonical(step.containers, cs);
    ReconcileDisk(w, step);
    ReconcileDisk(Take(w, step), Reconcile(cs, env, out));
    RepeatIsNoOp(w.disk, step.env.now, f, env.now, env.faults, w.settings, w.settings, projects, projects);
    StepMemory(w, step);
    RepeatedRequest(Take(w, step), projects, env);
  }

  lemma RepeatedRequest(w: World, projects: seq<string>, env: Env)
    requires Accepted(w.settings, projects) ==>
               ReissueOn(w.disk, env.now, SanList(w.settings, projects), env.faults).0 == w.disk
    ensures CertStep(w, projects, env).0 == w.disk
  {
  }

  /** The certificate is missing, unreadable or within thirty days of its end. */
  predicate Expiring(d: Disk, now: int) {
    d.cert.Complete? ==> d.cert.value.notAfter - now <= RENEWAL
  }

  /** A request that nothing gets in the way of renews an expiring certificate, if it is made at all. */
  lemma AskedRenews(w: World, cs: seq<I.Container>, env: Env, out: seq<R.Router>)
    requires Accepted(w.settings, I.Projects(cs)) && env.delivery.Answered? && FaultFree(env.faults)
    requires Expiring(w.disk, env.now)
    ensures Replaces(w, Reconcile(cs, env, out)).Some? <==> w.last != Some(I.Projects(cs))
  {
  }

  /** Over every run: a reconcile in which nothing fails replaces an expiring certificate exactly if nothing has been written since the start or the set of projects differs from the last write's. */
  lemma {:induction false} RenewedIff(w: World, steps: seq<Step>, cs: seq<I.Container>, env: Env, out: seq<R.Router>)
    requires w.last.None?
    requires var v := After(w, steps);
             && Accepted(v.settings, I.Projects(cs)) && env.delivery.Answered? && FaultFree(env.faults)
             && Expiring(v.disk, env.now)
    ensures Replaces(After(w, steps), Reconcile(cs, env, out)).Some? <==>
            LastWritten(w, steps).None? || I.ProjectSet(LastWritten(w, steps).value) != I.ProjectSet(cs)
  {
    AsksIff(w, steps, cs);
    AskedRenews(After(w, steps), cs, env, out);
  }

  /** While the project set stays what was last written, certgen is never asked, so the certificate is not renewed however close its expiry. */
  lemma {:induction false} SteadyRunNeverRenews(w: World, steps: seq<Step>)
    requires w.last.Some?
    requires forall step :: step in steps ==> step.Reconcile? && Some(I.Projects(step.containers)) == w.last
    ensures After(w, steps).disk == w.disk && After(w, steps).last == w.last
  {
    if steps == [] {
    } else {
      var init, step := steps[..|steps| - 1], steps[|steps| - 1];
      assert step in steps && forall x :: x in init ==> x in steps;
      SteadyRunNeverRenews(w, init);
      ReconcileDisk(After(w, init), step);
      StepMemory(After(w, init), step);
    }
  }
}
