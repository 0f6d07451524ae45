/** The time between a new certificate and a new file. */
module Windows {
  import opened Text
  import opened Sans
  import opened Reconcile
  import opened Coverage
  import opened Protocol
  import CertServer
  import I = Inspect
  import R = Render

  /** No published container's project is left out of a later request, and the settings stay. */
  ghost predicate Grows(w: World, step: Step) {
    match step
    case Reconcile(cs, _, _) => w.published.Some? ==> Within(w.published.value.containers, I.Projects(cs))
    case Restart(settings, _) => settings == w.settings
    case Late(settings, projects, _, _) =>
      settings == w.settings && (w.published.Some? ==> Within(w.published.value.containers, projects))
  }

  ghost predicate AllGrow(w: World, steps: seq<Step>) {
    steps == [] ||
    (AllGrow(w, steps[..|steps| - 1]) && Grows(After(w, steps[..|steps| - 1]), steps[|steps| - 1]))
  }

  /** The certificate has all SANs for the published containers, whatever the discoverer remembers. */
  ghost predicate FileInSync(w: World) {
    && AllWildcards(NamesOf(w.disk))
    && (w.last.Some? ==> w.published.Some? && w.last.value == I.Projects(w.published.value.containers))
    && (w.published.Some? ==>
          var pub := w.published.value;
          && pub.settings == w.settings
          && Accepted(w.settings, I.Projects(pub.containers))
          && HasSans(NamesOf(w.disk), w.settings, I.Projects(pub.containers)))
  }

  lemma {:induction false} FileCovered(w: World, names: seq<string>)
    requires w.published.Some? && AllWildcards(names)
    requires Accepted(w.published.value.settings, I.Projects(w.published.value.containers))
    requires HasSans(names, w.published.value.settings, I.Projects(w.published.value.containers))
    ensures PublishedCovered(w.published.value, names)
  {
    ProjectsAreWithin(w.published.value.containers);
    SansCoverPublication(w.published.value, I.Projects(w.published.value.containers), names);
  }

  lemma GrowingRequest(w: World, step: Step)
    requires Grows(w, step) && Replaces(w, step).Some?
    ensures var q := Replaces(w, step).value;
            && q.settings == w.settings
            && (w.published.Some? ==> Within(w.published.value.containers, q.projects))
  {
  }

  lemma {:induction false} RequestKeepsNames(pub: Publication, q: CertServer.Request, names: seq<string>)
    requires Within(pub.containers, q.projects)
    requires multiset(names) == multiset(SanList(q.settings, q.projects))
    ensures HasSans(names, q.settings, I.Projects(pub.containers))
  {
    IssuedNames(q.settings, q.projects, names);
    WithinCoversProjects(pub.containers, q.projects);
    MoreProjectsKeepSans(q.settings, I.Projects(pub.containers), q.projects);
  }

  /** A growing step keeps every name the published file needs, already before it writes. */
  lemma {:induction false} GrowingStepKeepsNames(w: World, step: Step)
    requires FileInSync(w) && Genuine(w, step) && Grows(w, step)
    ensures var names := NamesOf(Take(w, step).disk);
            && AllWildcards(names)
            && (w.published.Some? ==> HasSans(names, w.settings, I.Projects(w.published.value.containers)))
  {
    StepNames(w, step);
    if Replaces(w, step).Some? {
      var q, names := Replaces(w, step).value, NamesOf(Take(w, step).disk);
      GrowingRequest(w, step);
      IssuedNames(q.settings, q.projects, names);
      if w.published.Some? { RequestKeepsNames(w.published.value, q, names); }
    }
  }

  lemma WithinCoversProjects(cs: seq<I.Container>, projects: seq<string>)
    requires Within(cs, projects)
    ensures forall p :: p in I.Projects(cs) ==> p in projects
  {
    forall p | p in I.Projects(cs) ensures p in projects {
      assert p in I.ProjectSet(cs);
    }
  }

  lemma {:induction false} FileStaysInSync(w: World, step: Step)
    requires Vouched(w) && FileInSync(w) && Genuine(w, step) && Grows(w, step)
    ensures FileInSync(Take(w, step))
  {
    GrowingStepKeepsNames(w, step);
    StepMemory(w, step);
    if Writes(w, step) {
      WriteMemory(w, step);
      WriteIsInSync(w, step);
    } else {
      FileUnchanged(w, step);
    }
  }

  lemma {:induction false} RunFileInSync(w: World, steps: seq<Step>)
    requires Vouched(w) && FileInSync(w) && AllGenuine(w, steps) && AllGrow(w, steps)
    ensures Vouched(After(w, steps)) && FileInSync(After(w, steps))
  {
    if steps == [] {
    } else {
      var init, step := steps[..|steps| - 1], steps[|steps| - 1];
      RunFileInSync(w, init);
      StepVouched(After(w, init), step);
      FileStaysInSync(After(w, init), step);
    }
  }

  /** Every write that asked for a certificate brings the certificate in line with the file, whatever went before. */
  lemma {:induction false} AskedWriteInSync(w: World, step: Step)
    requires Vouched(w) && Genuine(w, step) && Writes(w, step) && w.last != Some(I.Projects(step.containers))
    ensures Vouched(Take(w, step)) && FileInSync(Take(w, step))
  {
    AskedNames(w, step);
    StepVouched(w, step);
    WriteMemory(w, step);
  }

  /** So does any certified run that has written a file. */
  lemma {:induction false} CertifiedIsInSync(w: World, steps: seq<Step>)
    requires Fresh(w) && AllGenuine(w, steps) && Certified(w, steps) && LastWritten(w, steps).Some?
    ensures Vouched(After(w, steps)) && FileInSync(After(w, steps))
  {
    RunVouched(w, steps);
    RunWildcards(w, steps);
    RunInSyncIff(w, steps);
    MemoryIsLastWrite(w, steps);
    MemoryIsFile(w, steps);
  }

  /******* Every file at every moment *******/

  /** The file, if there is one, is for settings and projects that certgen accepts. */
  ghost predicate FileVouched(w: World) {
    w.published.Some? ==> Accepted(w.published.value.settings, I.Projects(w.published.value.containers))
  }

  lemma {:induction false} RunFileVouched(w: World, steps: seq<Step>)
    requires Vouched(w) && FileVouched(w)
    ensures Vouched(After(w, steps)) && FileVouched(After(w, steps))
  {
    if steps == [] {
    } else {
      var init, step := steps[..|steps| - 1], steps[|steps| - 1];
      var v := After(w, init);
      RunFileVouched(w, init);
      StepVouched(v, step);
      if Writes(v, step) {
        CertStepVouches(v, I.Projects(step.containers), step.env);
        WriteMemory(v, step);
      } else {
        FileUnchanged(v, step);
      }
    }
  }

  /** A name is in the certificate after the run: it is a SAN of the latest request that got one, or was there from the start. */
  ghost predicate Issued(w: World, steps: seq<Step>, x: string) {
    if LastRequest(w, steps).Some?
    then IsSan(LastRequest(w, steps).value.settings, LastRequest(w, steps).value.projects, x)
    else x in NamesOf(w.disk)
  }

  lemma {:induction false} IssuedIff(w: World, steps: seq<Step>)
    requires AllGenuine(w, steps) && AllWildcards(NamesOf(w.disk))
    ensures forall x :: x in NamesOf(After(w, steps).disk) <==> Issued(w, steps, x)
    ensures AllWildcards(NamesOf(After(w, steps).disk))
  {
    if LastRequest(w, steps).Some? {
      var q := LastRequest(w, steps).value;
      NamesAreLastRequests(w, steps);
      IssuedNames(q.settings, q.projects, NamesOf(After(w, steps).disk));
    } else {
      UnreplacedNames(w, steps);
    }
  }

  lemma {:induction false} UnreplacedNames(w: World, steps: seq<Step>)
    requires AllGenuine(w, steps) && LastRequest(w, steps).None?
    ensures NamesOf(After(w, steps).disk) == NamesOf(w.disk)
  {
    if steps == [] {
    } else {
      var init := steps[..|steps| - 1];
      UnreplacedNames(w, init);
      StepNames(After(w, init), steps[|steps| - 1]);
    }
  }

  /**
    Over every run: the file in force at some moment is covered by the
    certificate of that or of any later moment exactly if every wildcard its
    plain containers need is a SAN of the latest request that got a certificate
    by then. With nothing in `later` this is the file under its own certificate;
    otherwise the file that `later` has not replaced yet.
  */
  lemma {:induction false} CoveredAtAnyMomentIff(w: World, steps: seq<Step>, later: seq<Step>)
    requires Vouched(w) && FileVouched(w) && AllWildcards(NamesOf(w.disk))
    requires AllGenuine(w, steps + later) && After(w, steps).published.Some?
    ensures var pub := After(w, steps).published.value;
            PublishedCovered(pub, NamesOf(After(w, steps + later).disk)) <==>
            forall c, b | c in pub.containers && Plain(c, pub.network) && Needs(pub.settings, c, b) ::
              Issued(w, steps + later, Wildcard(Dotted(pub.settings.machine, pub.settings.tailnet, b)))
  {
    var pub := After(w, steps).published.value;
    RunFileVouched(w, steps);
    IssuedIff(w, steps + later);
    ProjectsAreWithin(pub.containers);
    PublishedCoveredIff(pub, I.Projects(pub.containers), NamesOf(After(w, steps + later).disk));
  }

  /** In particular the current file, after any run. */
  lemma {:induction false} CurrentFileCoveredIff(w: World, steps: seq<Step>)
    requires Vouched(w) && FileVouched(w) && AllWildcards(NamesOf(w.disk))
    requires AllGenuine(w, steps) && After(w, steps).published.Some?
    ensures var pub := After(w, steps).published.value;
            CurrentFileCovered(After(w, steps)) <==>
            forall c, b | c in pub.containers && Plain(c, pub.network) && Needs(pub.settings, c, b) ::
              Issued(w, steps, Wildcard(Dotted(pub.settings.machine, pub.settings.tailnet, b)))
  {
    assert steps + [] == steps;
    CoveredAtAnyMomentIff(w, steps, []);
  }

  /******* Requests that overtake a write *******/

  /** Requests that certgen gets to late. */
  predicate AllLate(late: seq<Step>) { forall step :: step in late ==> step.Late? }

  /** A reconcile taken apart: its own request, then late ones while it renders, then its write. */
  ghost function Interrupted(w: World, cs: seq<I.Container>, env: Env, out: seq<R.Router>, late: seq<Step>): World {
    var (disk, ok) := CertStep(w, I.Projects(cs), env);
    var held := After(w.(disk := disk), late);
    if ok && R.Problem(RenderInput(held, cs)) == None && env.writeOk
    then held.(last := Some(I.Projects(cs)), published := Some(Publication(held.settings, held.network, cs, out)))
    else held
  }

  lemma {:induction false} LateTouchesDisk(w: World, v: World, late: seq<Step>)
    requires AllLate(late) && w.disk == v.disk
    ensures After(w, late) == w.(disk := After(v, late).disk)
  {
    if late == [] {
    } else {
      assert late[|late| - 1] in late;
      LateTouchesDisk(w, v, late[..|late| - 1]);
    }
  }

  /** Late requests that overtake a write leave what they leave when they come right after it. */
  lemma {:induction false} InterruptedIsInOrder(w: World, cs: seq<I.Container>, env: Env, out: seq<R.Router>, late: seq<Step>)
    requires AllLate(late)
    ensures Interrupted(w, cs, env, out, late) == After(Take(w, Reconcile(cs, env, out)), late)
  {
    var held := w.(disk := CertStep(w, I.Projects(cs), env).0);
    LateTouchesDisk(held, held, late);
    LateTouchesDisk(Take(w, Reconcile(cs, env, out)), held, late);
  }

  lemma {:induction false} AfterConcat(w: World, a: seq<Step>, b: seq<Step>)
    ensures After(w, a + b) == After(After(w, a), b)
    ensures AllGenuine(w, a + b) <==> AllGenuine(w, a) && AllGenuine(After(w, a), b)
    ensures AllGrow(w, a + b) <==> AllGrow(w, a) && AllGrow(After(w, a), b)
  {
    if b == [] {
      assert a + b == a;
    } else {
      assert (a + b)[..|a + b| - 1] == a + b[..|b| - 1];
      AfterConcat(w, a, b[..|b| - 1]);
    }
  }

  lemma OneStepRun(w: World, step: Step)
    ensures After(w, [step]) == Take(w, step)
    ensures AllGenuine(w, [step]) <==> Genuine(w, step)
    ensures AllGrow(w, [step]) <==> Grows(w, step)
  {
    assert [step][..0] == [];
    assert After(w, []) == w;
    assert After(w, [step]) == Take(After(w, []), step);
    assert AllGenuine(w, [step]) <==> AllGenuine(w, []) && Genuine(After(w, []), step);
    assert AllGrow(w, [step]) <==> AllGrow(w, []) && Grows(After(w, []), step);
  }

  /** A write that late requests have overtaken is covered if the run is certified with them in it. */
  lemma {:induction false} InterruptedWriteCovered(w: World, steps: seq<Step>, step: Step, late: seq<Step>)
    requires Fresh(w) && AllGenuine(w, steps + [step] + late) && AllLate(late)
    requires Writes(After(w, steps), step) && Certified(w, steps + [step] + late)
    ensures CurrentFileCovered(Interrupted(After(w, steps), step.containers, step.env, step.out, late))
  {
    var v := After(w, steps);
    InterruptedIsInOrder(v, step.containers, step.env, step.out, late);
    AfterConcat(w, steps, [step]);
    AfterConcat(w, steps + [step], late);
    OneStepRun(v, step);
    LastWrittenOneMore(w, steps, step);
    LateKeepsLastWritten(w, steps + [step], late);
    CertifiedFileCovered(w, steps + [step] + late);
  }

  lemma LastWrittenOneMore(w: World, steps: seq<Step>, step: Step)
    ensures LastWritten(w, steps + [step]) ==
            if step.Restart? then None
            else if Writes(After(w, steps), step) then Some(step.containers)
            else LastWritten(w, steps)
  {
    assert (steps + [step])[..|steps|] == steps;
  }

  lemma {:induction false} LateKeepsLastWritten(w: World, steps: seq<Step>, late: seq<Step>)
    requires AllLate(late)
    ensures LastWritten(w, steps + late) == LastWritten(w, steps)
  {
    if late == [] {
      assert steps + late == steps;
    } else {
      var init, step := late[..|late| - 1], late[|late| - 1];
      assert step in late;
      LateKeepsLastWritten(w, steps, init);
      LastWrittenOneMore(w, steps + init, step);
      assert steps + late == steps + init + [step];
    }
  }

  /******* Growing runs *******/

  /** The certificate has all SANs for an earlier file, whose projects the current file still shows. */
  ghost predicate StillServes(w: World, pub: Publication) {
    var names := NamesOf(w.disk);
    && AllWildcards(names) && w.settings == pub.settings
    && HasSans(names, pub.settings, I.Projects(pub.containers))
    && w.published.Some? && Within(pub.containers, I.Projects(w.published.value.containers))
  }

  lemma WithinTrans(cs: seq<I.Container>, cs': seq<I.Container>, projects: seq<string>)
    requires Within(cs, I.Projects(cs')) && Within(cs', projects)
    ensures Within(cs, projects)
  {
    forall c | c in cs && I.Project(c) != "" ensures I.Project(c) in projects {
      assert I.Project(c) in I.ProjectSet(cs');
      var c' :| c' in cs' && I.Project(c') == I.Project(c);
    }
  }

  lemma {:induction false} StepStillServes(w: World, step: Step)
    requires FileInSync(w) && w.published.Some? && Genuine(w, step) && Grows(w, step)
    ensures StillServes(Take(w, step), w.published.value)
  {
    GrowingStepKeepsNames(w, step);
    StepMemory(w, step);
    ProjectsAreWithin(w.published.value.containers);
    if Writes(w, step) { WriteMemory(w, step); } else { FileUnchanged(w, step); }
  }

  lemma {:induction false} LateStillServes(w: World, pub: Publication, step: Step)
    requires StillServes(w, pub) && step.Late? && Genuine(w, step) && Grows(w, step)
    ensures StillServes(Take(w, step), pub)
  {
    StepNames(w, step);
    StepMemory(w, step);
    FileUnchanged(w, step);
    if Replaces(w, step).Some? {
      var q := Replaces(w, step).value;
      GrowingRequest(w, step);
      WithinTrans(pub.containers, w.published.value.containers, q.projects);
      IssuedNames(q.settings, q.projects, NamesOf(Take(w, step).disk));
      RequestKeepsNames(pub, q, NamesOf(Take(w, step).disk));
    }
  }

  lemma {:induction false} LateRunStillServes(w: World, pub: Publication, late: seq<Step>)
    requires StillServes(w, pub) && AllLate(late) && AllGenuine(w, late) && AllGrow(w, late)
    ensures StillServes(After(w, late), pub)
  {
    if late == [] {
    } else {
      var init, step := late[..|late| - 1], late[|late| - 1];
      assert step in late;
      LateRunStillServes(w, pub, init);
      LateStillServes(After(w, init), pub, step);
    }
  }

  /**
    Once certificate and file are in line, and as long as projects are only
    added, the file is covered at every moment: before a step, between its new
    certificate and its new file, with any number of late requests coming in
    between, and after it.
  */
  lemma {:induction false} NoUncoveredWindow(w: World, steps: seq<Step>, step: Step, late: seq<Step>)
    requires Vouched(w) && FileInSync(w) && AllLate(late)
    requires AllGenuine(w, steps + [step] + late) && AllGrow(w, steps + [step] + late)
    ensures var v, m := After(w, steps), After(w, steps + [step] + late);
            && (v.published.Some? ==> PublishedCovered(v.published.value, NamesOf(v.disk)))
            && (v.published.Some? ==> PublishedCovered(v.published.value, NamesOf(m.disk)))
            && (m.published.Some? ==> PublishedCovered(m.published.value, NamesOf(m.disk)))
  {
    var v, m := After(w, steps), After(w, steps + [step] + late);
    AfterConcat(w, steps, [step]);
    AfterConcat(w, steps + [step], late);
    OneStepRun(v, step);
    RunFileInSync(w, steps);
    RunFileInSync(w, steps + [step] + late);
    if v.published.Some? {
      FileCovered(v, NamesOf(v.disk));
      StepStillServes(v, step);
      LateRunStillServes(Take(v, step), v.published.value, late);
      FileCovered(v, NamesOf(m.disk));
    }
    if m.published.Some? { FileCovered(m, NamesOf(m.disk)); }
  }

  /** When the certificate is replaced by one for other projects, the old file stays covered exactly if every wildcard its plain containers need is a SAN of the new request. */
  lemma {:induction false} WindowIff(pub: Publication, cfg: Settings, projects: seq<string>, names: seq<string>)
    requires Accepted(pub.settings, I.Projects(pub.containers))
    requires multiset(names) == multiset(SanList(cfg, projects))
    ensures PublishedCovered(pub, names) <==>
            forall c, b | c in pub.containers && Plain(c, pub.network) && Needs(pub.settings, c, b) ::
              IsSan(cfg, projects, Wildcard(Dotted(pub.settings.machine, pub.settings.tailnet, b)))
  {
    IssuedNames(cfg, projects, names);
    ProjectsAreWithin(pub.containers);
    PublishedCoveredIff(pub, I.Projects(pub.containers), names);
  }
}
