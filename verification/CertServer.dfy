/** The certgen handlers: validation, and the mutex around each reissue and each status report. */
module CertServer {
  import opened Text
  import opened Labels
  import opened Sans
  import opened Reissue

  datatype Request = Request(settings: Settings, projects: seq<string>)

  /** What arrives: another method, a body that is too long or not JSON, or a request. */
  datatype Incoming = NotPost | Undecodable | Decoded(request: Request)

  datatype Response =
    | MethodNotAllowed
    | BadRequest
    | InternalError(at: Stage)
    | NoContent
    | NewCert(sans: seq<string>)

  function ResponseFor(sans: seq<string>, r: Outcome): Response {
    match r
    case NoOp => NoContent
    case Reissued => NewCert(sans)
    case Failed(at) => InternalError(at)
  }

  /** The checks on a decoded request, in the order the handler makes them. */
  method Validate(req: Request) returns (ok: bool)
    ensures ok == Accepted(req.settings, req.projects)
    ensures ok <==>
            && req.settings.suffixes != []
            && (forall s :: s in req.settings.suffixes ==> ValidateLabel(s))
            && (req.settings.machine != "" ==> ValidateLabel(req.settings.machine))
            && (req.settings.tailnet != "" ==> ValidateLabel(req.settings.tailnet))
            && forall p :: p in req.projects ==> ValidateLabel(p)
  {
    var suffixes := req.settings.suffixes;
    if suffixes == [] { return false; }
    for i := 0 to |suffixes|
      invariant forall s :: s in suffixes[..i] ==> ValidateLabel(s)
    {
      if !ValidateLabel(suffixes[i]) { return false; }
    }
    assert suffixes[..|suffixes|] == suffixes;
    if req.settings.machine != "" && !ValidateLabel(req.settings.machine) { return false; }
    if req.settings.tailnet != "" && !ValidateLabel(req.settings.tailnet) { return false; }
    for i := 0 to |req.projects|
      invariant forall p :: p in req.projects[..i] ==> ValidateLabel(p)
    {
      if !ValidateLabel(req.projects[i]) { return false; }
    }
    assert req.projects[..|req.projects|] == req.projects;
    return true;
  }

  /** One reissue request from its arrival to its response; a rejected one leaves the files alone. */
  method HandleReissue(store: Reissuer, incoming: Incoming, now: int, f: Faults) returns (resp: Response)
    modifies store
    ensures resp == MethodNotAllowed <==> incoming.NotPost?
    ensures resp == BadRequest <==>
            incoming.Undecodable? || (incoming.Decoded? && !Accepted(incoming.request.settings, incoming.request.projects))
    ensures resp.MethodNotAllowed? || resp.BadRequest? ==> store.State() == old(store.State())
    ensures !resp.MethodNotAllowed? && !resp.BadRequest? ==>
              var sans := SanList(incoming.request.settings, incoming.request.projects);
              var (d, r) := ReissueOn(old(store.State()), now, sans, f);
              && store.State() == d
              && (resp == NewCert(sans) <==> r == Reissued)
              && (resp == NoContent <==> r == NoOp)
              && (resp.InternalError? <==> r.Failed?) && (r.Failed? ==> resp == InternalError(r.at))
    ensures resp.NewCert? && Honest(f, resp.sans) ==>
              && resp.sans == SanList(incoming.request.settings, incoming.request.projects)
              && Matching(store.State()) && store.cert.value.run == old(store.runs)
              && multiset(store.cert.value.names) == multiset(resp.sans)
    ensures resp.NoContent? ==>
              && store.State() == old(store.State()) && store.cert.Complete?
              && multiset(store.cert.value.names) == multiset(SanList(incoming.request.settings, incoming.request.projects))
              && store.cert.value.notAfter - now > 2_592_000_000_000_000
    ensures resp.InternalError? ==> store.cert == old(store.cert)
  {
    if incoming.NotPost? { return MethodNotAllowed; }
    if incoming.Undecodable? { return BadRequest; }
    var req := incoming.request;
    var ok := Validate(req);
    if !ok { return BadRequest; }
    var sans := SANs(req.settings.suffixes, req.settings.machine, req.settings.tailnet, req.projects);
    ghost var before := store.State();
    var r := store.Reissue(now, sans, f);
    RespondsWell(before, now, sans, f);
    return ResponseFor(sans, r);
  }

  lemma {:induction false} RespondsWell(d: Disk, now: int, sans: seq<string>, f: Faults)
    requires Sorted(sans)
    ensures var (d', r) := ReissueOn(d, now, sans, f);
            && (r == Reissued && Honest(f, sans) ==>
                  Matching(d') && d'.cert.value.run == d.runs && multiset(d'.cert.value.names) == multiset(sans))
            && (r == NoOp ==>
                  && d' == d && d.cert.Complete? && multiset(d.cert.value.names) == multiset(sans)
                  && d.cert.value.notAfter - now > 2_592_000_000_000_000)
            && (r.Failed? ==> d'.cert == d.cert)
  {
    NoOpIff(d, now, sans, f);
  }

  /******* Concurrent handlers, one step at a time *******/

  /** A handler with everything the environment will answer it: its clock reading and its faults. */
  datatype Job =
    | ReissueJob(now: int, sans: seq<string>, faults: Faults)
    | StatusJob

  datatype Pc =
    | Waiting
    | AtCheck | AtMkdirCert | AtMkdirKey | AtMkcert | AtRenameKey | AtRenameCert | AtRemoveKey | AtRemoveCert
    | AtRead
    | AtUnlock
    | Finished

  datatype Answer = Unanswered | Did(outcome: Outcome) | Reported(info: Option<CertInfo>)

  /** `run` is the mkcert run this handler started, once it has started one. */
  datatype Handler = Handler(job: Job, pc: Pc, answer: Answer, run: nat)

  /** `log` lists the handlers in the order in which they gave up the mutex. */
  datatype System = System(disk: Disk, holder: Option<nat>, handlers: seq<Handler>, log: seq<nat>)

  predicate Locked(pc: Pc) { !pc.Waiting? && !pc.Finished? }

  predicate Working(pc: Pc) { Locked(pc) && !pc.AtUnlock? }

  /** One step inside the locked section. */
  ghost function Micro(d: Disk, h: Handler): (Disk, Handler)
    requires Working(h.pc)
  {
    if h.job.StatusJob? then (d, h.(pc := AtUnlock, answer := Reported(CurrentSans(d))))
    else
      var f := h.job.faults;
      match h.pc
      case AtCheck =>
        if ShortCircuits(d, h.job.now, h.job.sans) then (d, h.(pc := AtUnlock, answer := Did(NoOp)))
        else (d, h.(pc := AtMkdirCert))
      case AtMkdirCert =>
        if f.mkdirCert then (d, h.(pc := AtMkdirKey)) else (d, h.(pc := AtUnlock, answer := Did(Failed(MkdirCert))))
      case AtMkdirKey =>
        if f.mkdirKey then (d, h.(pc := AtMkcert)) else (d, h.(pc := AtUnlock, answer := Did(Failed(MkdirKey))))
      case AtMkcert =>
        var d' := RunMkcertOn(d, f.mkcert);
        if f.mkcert.Issues? then (d', h.(pc := AtRenameKey, run := d.runs))
        else (d', h.(pc := AtRemoveKey, answer := Did(Failed(RunMkcert)), run := d.runs))
      case AtRenameKey =>
        if f.renameKey then (MoveKey(d), h.(pc := AtRenameCert))
        else (d, h.(pc := AtRemoveKey, answer := Did(Failed(RenameKey))))
      case AtRenameCert =>
        if f.renameCert then (MoveCert(d), h.(pc := AtRemoveKey, answer := Did(Reissued)))
        else (d, h.(pc := AtRemoveKey, answer := Did(Failed(RenameCert))))
      case AtRemoveKey => (if f.removeKey then d.(tmpKey := Absent) else d, h.(pc := AtRemoveCert))
      case AtRemoveCert => (if f.removeCert then d.(tmpCert := Absent) else d, h.(pc := AtUnlock))
      case _ => (d, h.(pc := AtUnlock))
  }

  /** Handler `i` is scheduled; one that is blocked or finished does nothing. */
  ghost function Step(sys: System, i: nat): System {
    if i >= |sys.handlers| then sys
    else
      var h := sys.handlers[i];
      match h.pc
      case Waiting =>
        if sys.holder.Some? then sys
        else sys.(holder := Some(i),
                  handlers := sys.handlers[i := h.(pc := if h.job.StatusJob? then AtRead else AtCheck)])
      case Finished => sys
      case AtUnlock =>
        sys.(holder := None, handlers := sys.handlers[i := h.(pc := Finished)], log := sys.log + [i])
      case _ =>
        var (d, h') := Micro(sys.disk, h);
        sys.(disk := d, handlers := sys.handlers[i := h'])
  }

  function Start(d: Disk, jobs: seq<Job>): System {
    System(d, None, Map((j: Job) => Handler(j, Waiting, Unanswered, 0), jobs), [])
  }

  ghost function Run(sys: System, schedule: seq<nat>): System {
    if schedule == [] then sys else Step(Run(sys, schedule[..|schedule| - 1]), schedule[|schedule| - 1])
  }

  /******* The sequential order *******/

  /** A whole locked section at once. */
  ghost function Serve(d: Disk, job: Job): (Disk, Answer) {
    match job
    case ReissueJob(now, sans, f) => (ReissueOn(d, now, sans, f).0, Did(ReissueOn(d, now, sans, f).1))
    case StatusJob => (d, Reported(CurrentSans(d)))
  }

  predicate InRange(handlers: seq<Handler>, order: seq<nat>) {
    forall k :: 0 <= k < |order| ==> order[k] < |handlers|
  }

  /** The disk after serving the listed handlers one after the other. */
  ghost function ServeAll(d: Disk, handlers: seq<Handler>, order: seq<nat>): Disk
    requires InRange(handlers, order)
  {
    if order == [] then d
    else Serve(ServeAll(d, handlers, order[..|order| - 1]), handlers[order[|order| - 1]].job).0
  }

  lemma {:induction false} ServeAllSameJobs(d: Disk, handlers: seq<Handler>, handlers': seq<Handler>, order: seq<nat>)
    requires InRange(handlers, order) && |handlers| == |handlers'|
    requires forall i :: 0 <= i < |handlers| ==> handlers[i].job == handlers'[i].job
    ensures ServeAll(d, handlers, order) == ServeAll(d, handlers', order)
  {
    if order == [] {
    } else {
      ServeAllSameJobs(d, handlers, handlers', order[..|order| - 1]);
    }
  }

  function Remaining(pc: Pc): nat {
    match pc
    case AtCheck => 9
    case AtMkdirCert => 8
    case AtMkdirKey => 7
    case AtMkcert => 6
    case AtRenameKey => 5
    case AtRenameCert => 4
    case AtRemoveKey => 3
    case AtRemoveCert => 2
    case AtRead => 1
    case _ => 0
  }

  lemma MicroProgress(d: Disk, h: Handler)
    requires Working(h.pc)
    ensures Remaining(Micro(d, h).1.pc) < Remaining(h.pc)
  {
    match h.pc
    case AtCheck =>
    case AtMkdirCert =>
    case AtMkdirKey =>
    case AtMkcert =>
    case _ =>
  }

  /** What a handler still has to do under the lock, done without interruption. */
  ghost function Finish(d: Disk, h: Handler): (Disk, Answer)
    decreases Remaining(h.pc)
  {
    if !Working(h.pc) then (d, h.answer) else
      MicroProgress(d, h);
      var (d', h') := Micro(d, h);
      Finish(d', h')
  }

  lemma FinishRemovals(d: Disk, h: Handler)
    requires h.job.ReissueJob? && h.pc.AtRemoveKey?
    ensures Finish(d, h) == (Cleanup(d, h.job.faults), h.answer)
  {
    var (d', h') := Micro(d, h);
    assert Finish(d', h') == Finish(Micro(d', h').0, Micro(d', h').1);
  }

  lemma FinishCommit(d: Disk, h: Handler)
    requires h.job.ReissueJob? && h.pc.AtMkcert?
    ensures var f := h.job.faults; Finish(d, h) == (Cleanup(Commit(d, f).0, f), Did(Commit(d, f).1))
  {
    var f := h.job.faults;
    var (d1, h1) := Micro(d, h);
    if f.mkcert.Fails? {
      FinishRemovals(d1, h1);
    } else {
      var (d2, h2) := Micro(d1, h1);
      if !f.renameKey {
        FinishRemovals(d2, h2);
      } else {
        var (d3, h3) := Micro(d2, h2);
        FinishRemovals(d3, h3);
        assert Finish(d2, h2) == Finish(d3, h3);
      }
      assert Finish(d1, h1) == Finish(d2, h2);
    }
  }

  /** The steps of a locked section, run to the end, are the section done at once. */
  lemma FinishIsServe(d: Disk, h: Handler)
    requires h.pc == if h.job.StatusJob? then AtRead else AtCheck
    ensures Finish(d, h) == Serve(d, h.job)
  {
    if h.job.ReissueJob? {
      var (d1, h1) := Micro(d, h);
      if !ShortCircuits(d, h.job.now, h.job.sans) {
        var (d2, h2) := Micro(d1, h1);
        assert Finish(d1, h1) == Finish(d2, h2);
        if h.job.faults.mkdirCert {
          var (d3, h3) := Micro(d2, h2);
          assert Finish(d2, h2) == Finish(d3, h3);
          if h.job.faults.mkdirKey { FinishCommit(d3, h3); }
        }
      }
    }
  }

  /******* Every interleaving is some sequential order *******/

  /** The temporary pair about to be renamed is the one this handler's own mkcert run wrote. */
  predicate OwnPair(d: Disk, h: Handler) {
    && (h.pc.AtRenameKey? ==> d.tmpKey == Complete(h.run))
    && (h.pc.AtRenameKey? || h.pc.AtRenameCert? ==> d.tmpCert.Complete? && d.tmpCert.value.run == h.run)
    && (h.pc.AtRenameCert? ==> d.key == Complete(h.run))
  }

  /** Finished handlers got the answers of the sequential order in which they released the mutex. */
  ghost predicate Linearized(d: Disk, sys: System) {
    && InRange(sys.handlers, sys.log)
    && NoDup(sys.log)
    && (forall i: nat | i < |sys.handlers| :: sys.handlers[i].pc.Finished? <==> i in sys.log)
    && (forall k | 0 <= k < |sys.log| ::
          sys.handlers[sys.log[k]].answer ==
          Serve(ServeAll(d, sys.handlers, sys.log[..k]), sys.handlers[sys.log[k]].job).1)
    && (sys.holder.None? ==> sys.disk == ServeAll(d, sys.handlers, sys.log))
    && (forall i: nat | i < |sys.handlers| :: OwnPair(sys.disk, sys.handlers[i]))
  }

  /** The mutex is held by the one handler inside its section, whose remaining steps complete the sequential order. */
  ghost predicate MutexInv(d: Disk, sys: System) {
    && Linearized(d, sys)
    && (forall i: nat | i < |sys.handlers| :: Locked(sys.handlers[i].pc) <==> sys.holder == Some(i))
    && (sys.holder.Some? ==> sys.holder.value < |sys.handlers|)
    && (sys.holder.Some? ==>
          Finish(sys.disk, sys.handlers[sys.holder.value]) ==
          Serve(ServeAll(d, sys.handlers, sys.log), sys.handlers[sys.holder.value].job))
  }

  lemma {:induction false} AnswersKept(d: Disk, sys: System, handlers: seq<Handler>)
    requires Linearized(d, sys) && |handlers| == |sys.handlers|
    requires forall i :: 0 <= i < |handlers| ==> handlers[i].job == sys.handlers[i].job
    requires forall i: nat :: i in sys.log ==> handlers[i].answer == sys.handlers[i].answer
    ensures forall k | 0 <= k < |sys.log| ::
              handlers[sys.log[k]].answer ==
              Serve(ServeAll(d, handlers, sys.log[..k]), handlers[sys.log[k]].job).1
    ensures ServeAll(d, handlers, sys.log) == ServeAll(d, sys.handlers, sys.log)
  {
    ServeAllSameJobs(d, sys.handlers, handlers, sys.log);
    forall k | 0 <= k < |sys.log|
      ensures handlers[sys.log[k]].answer ==
              Serve(ServeAll(d, handlers, sys.log[..k]), handlers[sys.log[k]].job).1
    {
      ServeAllSameJobs(d, sys.handlers, handlers, sys.log[..k]);
      assert sys.log[k] in sys.log;
    }
  }

  lemma {:induction false} StepAcquires(d: Disk, sys: System, i: nat)
    requires MutexInv(d, sys) && i < |sys.handlers| && sys.handlers[i].pc.Waiting?
    ensures MutexInv(d, Step(sys, i))
  {
    if sys.holder.None? {
      var sys' := Step(sys, i);
      AnswersKept(d, sys, sys'.handlers);
      FinishIsServe(sys.disk, sys'.handlers[i]);
      AcquireLock(d, sys, i);
      assert Linearized(d, sys');
    }
  }

  lemma AcquireLock(d: Disk, sys: System, i: nat)
    requires MutexInv(d, sys) && i < |sys.handlers| && sys.handlers[i].pc.Waiting? && sys.holder.None?
    ensures var sys' := Step(sys, i);
            && sys'.disk == sys.disk && sys'.log == sys.log && sys'.holder == Some(i)
            && (forall j: nat | j < |sys'.handlers| :: Locked(sys'.handlers[j].pc) <==> j == i)
            && (forall j: nat | j < |sys'.handlers| :: OwnPair(sys'.disk, sys'.handlers[j]))
            && (forall j: nat | j < |sys'.handlers| :: sys'.handlers[j].pc.Finished? <==> j in sys'.log)
  {
    var sys' := Step(sys, i);
    forall j: nat | j < |sys'.handlers|
      ensures Locked(sys'.handlers[j].pc) <==> j == i
      ensures OwnPair(sys'.disk, sys'.handlers[j])
      ensures sys'.handlers[j].pc.Finished? <==> j in sys'.log
    {
      assert Locked(sys.handlers[j].pc) <==> sys.holder == Some(j);
    }
  }

  lemma {:induction false} StepWorks(d: Disk, sys: System, i: nat)
    requires MutexInv(d, sys) && i < |sys.handlers| && Working(sys.handlers[i].pc)
    ensures MutexInv(d, Step(sys, i))
  {
    var sys' := Step(sys, i);
    var h := sys.handlers[i];
    assert sys.holder == Some(i) && i !in sys.log;
    MicroStays(sys.disk, h);
    AnswersKept(d, sys, sys'.handlers);
    WorkLock(d, sys, i);
    assert Linearized(d, sys');
  }

  lemma WorkLock(d: Disk, sys: System, i: nat)
    requires MutexInv(d, sys) && i < |sys.handlers| && Working(sys.handlers[i].pc)
    ensures var sys' := Step(sys, i);
            && sys'.log == sys.log && sys'.holder == Some(i)
            && (forall j: nat | j < |sys'.handlers| :: Locked(sys'.handlers[j].pc) <==> j == i)
            && (forall j: nat | j < |sys'.handlers| :: OwnPair(sys'.disk, sys'.handlers[j]))
            && (forall j: nat | j < |sys'.handlers| :: sys'.handlers[j].pc.Finished? <==> j in sys'.log)
  {
    var sys' := Step(sys, i);
    MicroStays(sys.disk, sys.handlers[i]);
    forall j: nat | j < |sys'.handlers|
      ensures Locked(sys'.handlers[j].pc) <==> j == i
      ensures OwnPair(sys'.disk, sys'.handlers[j])
      ensures sys'.handlers[j].pc.Finished? <==> j in sys'.log
    {
      assert Locked(sys.handlers[j].pc) <==> sys.holder == Some(j);
      assert Locked(sys.handlers[i].pc) <==> sys.holder == Some(i);
    }
  }

  /** A step under the lock stays under the lock, and keeps its own pair in place. */
  lemma MicroStays(d: Disk, h: Handler)
    requires Working(h.pc) && OwnPair(d, h)
    ensures var (d', h') := Micro(d, h);
            Locked(h'.pc) && h'.job == h.job && OwnPair(d', h')
  {
  }

  lemma {:induction false} StepReleases(d: Disk, sys: System, i: nat)
    requires MutexInv(d, sys) && i < |sys.handlers| && sys.handlers[i].pc.AtUnlock?
    ensures MutexInv(d, Step(sys, i))
  {
    var sys' := Step(sys, i);
    ReleaseAnswers(d, sys, i);
    ReleaseOrder(d, sys, i);
    ReleaseLock(d, sys, i);
    assert Linearized(d, sys');
  }

  lemma ReleaseLock(d: Disk, sys: System, i: nat)
    requires MutexInv(d, sys) && i < |sys.handlers| && sys.handlers[i].pc.AtUnlock?
    ensures var sys' := Step(sys, i);
            && sys'.holder == None
            && (forall j: nat | j < |sys'.handlers| :: !Locked(sys'.handlers[j].pc))
            && (forall j: nat | j < |sys'.handlers| :: OwnPair(sys'.disk, sys'.handlers[j]))
  {
    var sys' := Step(sys, i);
    forall j: nat | j < |sys'.handlers|
      ensures !Locked(sys'.handlers[j].pc) && OwnPair(sys'.disk, sys'.handlers[j])
    {
      assert Locked(sys.handlers[j].pc) <==> sys.holder == Some(j);
    }
  }

  lemma ReleaseAnswers(d: Disk, sys: System, i: nat)
    requires MutexInv(d, sys) && i < |sys.handlers| && sys.handlers[i].pc.AtUnlock?
    ensures var sys' := Step(sys, i);
            && InRange(sys'.handlers, sys'.log)
            && sys'.disk == ServeAll(d, sys'.handlers, sys'.log)
            && forall k | 0 <= k < |sys'.log| ::
                 sys'.handlers[sys'.log[k]].answer ==
                 Serve(ServeAll(d, sys'.handlers, sys'.log[..k]), sys'.handlers[sys'.log[k]].job).1
  {
    var sys' := Step(sys, i);
    assert Finish(sys.disk, sys.handlers[i]) == (sys.disk, sys.handlers[i].answer);
    AnswersKept(d, sys, sys'.handlers);
    LogGrows(d, sys, sys', i);
  }

  lemma ReleaseOrder(d: Disk, sys: System, i: nat)
    requires MutexInv(d, sys) && i < |sys.handlers| && sys.handlers[i].pc.AtUnlock?
    ensures var sys' := Step(sys, i);
            && NoDup(sys'.log)
            && (forall j: nat | j < |sys'.handlers| :: sys'.handlers[j].pc.Finished? <==> j in sys'.log)
  {
    var sys' := Step(sys, i);
    assert i !in sys.log;
    forall j: nat | j < |sys'.handlers| ensures sys'.handlers[j].pc.Finished? <==> j in sys'.log {
      assert sys.handlers[j].pc.Finished? <==> j in sys.log;
    }
  }

  lemma {:induction false} LogGrows(d: Disk, sys: System, sys': System, i: nat)
    requires InRange(sys.handlers, sys.log) && i < |sys.handlers| == |sys'.handlers|
    requires sys'.log == sys.log + [i]
    requires (sys'.disk, sys'.handlers[i].answer) == Serve(ServeAll(d, sys'.handlers, sys.log), sys'.handlers[i].job)
    requires forall k | 0 <= k < |sys.log| ::
               sys'.handlers[sys.log[k]].answer ==
               Serve(ServeAll(d, sys'.handlers, sys.log[..k]), sys'.handlers[sys.log[k]].job).1
    ensures InRange(sys'.handlers, sys'.log)
    ensures sys'.disk == ServeAll(d, sys'.handlers, sys'.log)
    ensures forall k | 0 <= k < |sys'.log| ::
              sys'.handlers[sys'.log[k]].answer ==
              Serve(ServeAll(d, sys'.handlers, sys'.log[..k]), sys'.handlers[sys'.log[k]].job).1
  {
    var n := |sys.log|;
    assert sys'.log[..n] == sys.log && sys'.log[n] == i;
    forall k | 0 <= k < |sys'.log|
      ensures sys'.handlers[sys'.log[k]].answer ==
              Serve(ServeAll(d, sys'.handlers, sys'.log[..k]), sys'.handlers[sys'.log[k]].job).1
    {
      if k < n { assert sys'.log[..k] == sys.log[..k] && sys'.log[k] == sys.log[k]; }
    }
  }

  lemma {:induction false} StepKeepsMutex(d: Disk, sys: System, i: nat)
    requires MutexInv(d, sys)
    ensures MutexInv(d, Step(sys, i))
  {
    if i < |sys.handlers| {
      match sys.handlers[i].pc {
        case Waiting => StepAcquires(d, sys, i);
        case Finished =>
        case AtUnlock => StepReleases(d, sys, i);
        case _ => StepWorks(d, sys, i);
      }
    }
  }

  lemma {:induction false} RunKeepsMutex(d: Disk, jobs: seq<Job>, schedule: seq<nat>)
    ensures MutexInv(d, Run(Start(d, jobs), schedule))
  {
    if schedule == [] {
    } else {
      RunKeepsMutex(d, jobs, schedule[..|schedule| - 1]);
      StepKeepsMutex(d, Run(Start(d, jobs), schedule[..|schedule| - 1]), schedule[|schedule| - 1]);
    }
  }

  lemma {:induction false} JobsKept(d: Disk, jobs: seq<Job>, schedule: seq<nat>)
    ensures var sys := Run(Start(d, jobs), schedule);
            |sys.handlers| == |jobs| && forall i :: 0 <= i < |jobs| ==> sys.handlers[i].job == jobs[i]
  {
    if schedule == [] {
    } else {
      JobsKept(d, jobs, schedule[..|schedule| - 1]);
    }
  }

  /** Every interleaving of any number of handlers gives the disk and the answers of the sequential order in its log, for the requests that were made. */
  lemma {:induction false} EveryInterleavingIsSequential(d: Disk, jobs: seq<Job>, schedule: seq<nat>)
    ensures var sys := Run(Start(d, jobs), schedule);
            && Linearized(d, sys)
            && |sys.handlers| == |jobs| && forall i :: 0 <= i < |jobs| ==> sys.handlers[i].job == jobs[i]
  {
    RunKeepsMutex(d, jobs, schedule);
    JobsKept(d, jobs, schedule);
  }

  /** In particular a status report shows the certificate as some whole number of locked sections left it. */
  lemma StatusIsNeverTorn(d: Disk, jobs: seq<Job>, schedule: seq<nat>, sys: System, i: nat)
    requires sys == Run(Start(d, jobs), schedule)
    requires i < |sys.handlers| && sys.handlers[i].job.StatusJob? && sys.handlers[i].pc.Finished?
    ensures exists order | InRange(sys.handlers, order) && order < sys.log ::
              sys.handlers[i].answer == Reported(CurrentSans(ServeAll(d, sys.handlers, order)))
  {
    RunKeepsMutex(d, jobs, schedule);
    var k :| 0 <= k < |sys.log| && sys.log[k] == i;
    assert InRange(sys.handlers, sys.log[..k]) && sys.log[..k] < sys.log;
  }

  /******* Every handler gets its turn *******/

  /** How many steps a handler still takes once it has the mutex. */
  function Left(h: Handler): nat {
    match h.pc
    case Waiting => 12
    case Finished => 0
    case _ => 1 + Remaining(h.pc)
  }

  function TotalLeft(handlers: seq<Handler>): nat {
    if handlers == [] then 0 else TotalLeft(handlers[..|handlers| - 1]) + Left(handlers[|handlers| - 1])
  }

  lemma {:induction false} TotalLeftDrops(handlers: seq<Handler>, i: nat, h: Handler)
    requires i < |handlers| && Left(h) < Left(handlers[i])
    ensures TotalLeft(handlers[i := h]) < TotalLeft(handlers)
  {
    var n, updated := |handlers| - 1, handlers[i := h];
    if i == n {
      assert updated[..n] == handlers[..n];
    } else {
      assert updated[..n] == handlers[..n][i := h];
      TotalLeftDrops(handlers[..n], i, h);
    }
  }

  lemma {:induction false} StepDrops(sys: System, i: nat)
    requires i < |sys.handlers|
    requires Left(Step(sys, i).handlers[i]) < Left(sys.handlers[i])
    requires Step(sys, i).handlers == sys.handlers[i := Step(sys, i).handlers[i]]
    ensures TotalLeft(Step(sys, i).handlers) < TotalLeft(sys.handlers)
  {
    TotalLeftDrops(sys.handlers, i, Step(sys, i).handlers[i]);
  }

  lemma WorkMoves(sys: System, i: nat)
    requires i < |sys.handlers| && Working(sys.handlers[i].pc)
    ensures |Step(sys, i).handlers| == |sys.handlers|
    ensures Left(Step(sys, i).handlers[i]) < Left(sys.handlers[i])
    ensures Step(sys, i).handlers == sys.handlers[i := Step(sys, i).handlers[i]]
  {
    MicroProgress(sys.disk, sys.handlers[i]);
    MicroStaysLocked(sys.disk, sys.handlers[i]);
  }

  lemma MicroStaysLocked(d: Disk, h: Handler)
    requires Working(h.pc)
    ensures Locked(Micro(d, h).1.pc)
  {
  }

  lemma LockMoves(sys: System, i: nat)
    requires i < |sys.handlers|
    requires sys.handlers[i].pc.AtUnlock? || (sys.handlers[i].pc.Waiting? && sys.holder.None?)
    ensures |Step(sys, i).handlers| == |sys.handlers|
    ensures Left(Step(sys, i).handlers[i]) < Left(sys.handlers[i])
    ensures Step(sys, i).handlers == sys.handlers[i := Step(sys, i).handlers[i]]
  {
  }

  /** Who can move: the holder of the mutex, or anyone still waiting when it is free. */
  lemma {:induction false} SomeoneMoves(d: Disk, sys: System) returns (i: nat)
    requires MutexInv(d, sys) && exists j: nat :: j < |sys.handlers| && !sys.handlers[j].pc.Finished?
    ensures i < |sys.handlers| && TotalLeft(Step(sys, i).handlers) < TotalLeft(sys.handlers)
  {
    i := Mover(d, sys);
    if Working(sys.handlers[i].pc) { WorkMoves(sys, i); } else { LockMoves(sys, i); }
    StepDrops(sys, i);
  }

  lemma {:induction false} Mover(d: Disk, sys: System) returns (i: nat)
    requires MutexInv(d, sys) && exists j: nat :: j < |sys.handlers| && !sys.handlers[j].pc.Finished?
    ensures i < |sys.handlers|
    ensures Locked(sys.handlers[i].pc) || (sys.handlers[i].pc.Waiting? && sys.holder.None?)
  {
    if sys.holder.Some? {
      i := sys.holder.value;
      assert Locked(sys.handlers[i].pc);
    } else {
      i :| i < |sys.handlers| && !sys.handlers[i].pc.Finished?;
      assert !Locked(sys.handlers[i].pc);
    }
  }

  lemma {:induction false} RunFirst(sys: System, i: nat, schedule: seq<nat>)
    ensures Run(sys, [i] + schedule) == Run(Step(sys, i), schedule)
  {
    if schedule == [] {
      assert [i] + schedule == [i] && [i][..0] == [];
      assert Run(sys, [i]) == Step(Run(sys, []), i);
    } else {
      assert ([i] + schedule)[..|schedule|] == [i] + schedule[..|schedule| - 1];
      RunFirst(sys, i, schedule[..|schedule| - 1]);
    }
  }

  lemma {:induction false} CanFinish(d: Disk, sys: System) returns (schedule: seq<nat>)
    requires MutexInv(d, sys)
    ensures forall j: nat | j < |Run(sys, schedule).handlers| :: Run(sys, schedule).handlers[j].pc.Finished?
    decreases TotalLeft(sys.handlers)
  {
    schedule := [];
    if exists j: nat :: j < |sys.handlers| && !sys.handlers[j].pc.Finished? {
      var i := SomeoneMoves(d, sys);
      StepKeepsMutex(d, sys, i);
      var rest := CanFinish(d, Step(sys, i));
      RunFirst(sys, i, rest);
      schedule := [i] + rest;
    }
  }

  lemma {:induction false} RunConcat(sys: System, a: seq<nat>, b: seq<nat>)
    ensures Run(sys, a + b) == Run(Run(sys, a), b)
  {
    if b == [] {
      assert a + b == a;
    } else {
      assert (a + b)[..|a + b| - 1] == a + b[..|b| - 1];
      RunConcat(sys, a, b[..|b| - 1]);
    }
  }

  /** No interleaving gets stuck: from wherever it has come to, it can go on until every handler has finished. */
  lemma {:induction false} NeverStuck(d: Disk, jobs: seq<Job>, schedule: seq<nat>) returns (more: seq<nat>)
    ensures var sys := Run(Start(d, jobs), schedule + more);
            |sys.handlers| == |jobs| && forall j | 0 <= j < |jobs| :: sys.handlers[j].pc.Finished?
  {
    RunKeepsMutex(d, jobs, schedule);
    more := CanFinish(d, Run(Start(d, jobs), schedule));
    RunConcat(Start(d, jobs), schedule, more);
    JobsKept(d, jobs, schedule + more);
  }

  /******* A crash at any step *******/

  /** Between its mkcert run and its last rename, a handler's run is the newest there is. */
  predicate NewestRun(d: Disk, h: Handler) {
    h.pc.AtRenameKey? || h.pc.AtRenameCert? ==>
      h.run < d.runs && (d.cert.Complete? ==> d.cert.value.run <= h.run)
  }

  ghost predicate KeyLeadsNow(sys: System) {
    && KeyLeads(sys.disk)
    && (forall i: nat | i < |sys.handlers| :: NewestRun(sys.disk, sys.handlers[i]))
  }

  lemma MicroKeyLeads(d: Disk, h: Handler)
    requires Working(h.pc) && OwnPair(d, h) && NewestRun(d, h) && KeyLeads(d)
    ensures KeyLeads(Micro(d, h).0) && NewestRun(Micro(d, h).0, Micro(d, h).1)
  {
  }

  lemma {:induction false} StepKeyLeads(d: Disk, sys: System, i: nat)
    requires MutexInv(d, sys) && KeyLeadsNow(sys)
    ensures KeyLeadsNow(Step(sys, i))
  {
    if i < |sys.handlers| && Working(sys.handlers[i].pc) {
      MicroKeyLeads(sys.disk, sys.handlers[i]);
      forall j: nat | j < |sys.handlers| && j != i ensures !Locked(sys.handlers[j].pc) {
        assert Locked(sys.handlers[j].pc) <==> sys.holder == Some(j);
        assert Locked(sys.handlers[i].pc) <==> sys.holder == Some(i);
      }
    }
  }

  /** Stopping certgen between any two steps of any interleaving never leaves a certificate newer than its key. */
  lemma {:induction false} KeyLeadsThroughout(d: Disk, jobs: seq<Job>, schedule: seq<nat>)
    requires KeyLeads(d)
    ensures KeyLeadsNow(Run(Start(d, jobs), schedule))
  {
    if schedule == [] {
    } else {
      var init := schedule[..|schedule| - 1];
      KeyLeadsThroughout(d, jobs, init);
      RunKeepsMutex(d, jobs, init);
      StepKeyLeads(d, Run(Start(d, jobs), init), schedule[|schedule| - 1]);
    }
  }
}
