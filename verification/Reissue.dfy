/** Issuing the certificate: the no-op guard, mkcert, and the two renames, with every step allowed to fail. */
module Reissue {
  import opened Text
  import opened Sans

  /** `Partial` is a file that is there but cannot be read or parsed. */
  datatype File<+T> = Absent | Partial | Complete(value: T)

  /** A certificate, with the number of the mkcert run that made it and its key. */
  datatype Certificate = Certificate(run: nat, names: seq<string>, notAfter: int)

  /** The certificate directory; a key is the number of the run that made it. */
  datatype Disk = Disk(
    cert: File<Certificate>,
    key: File<nat>,
    tmpCert: File<Certificate>,
    tmpKey: File<nat>,
    runs: nat)

  /** Thirty days in nanoseconds. */
  const RENEWAL: int := 30 * 24 * 3600 * 1_000_000_000

  /** What one run of mkcert does: fail with anything left in the temporary files, or issue. */
  datatype Mkcert =
    | Fails(leftCert: File<Certificate>, leftKey: File<nat>)
    | Issues(names: seq<string>, notAfter: int)

  /** The environment's answers during one call; `true` means that the step succeeds. */
  datatype Faults = Faults(
    mkdirCert: bool,
    mkdirKey: bool,
    mkcert: Mkcert,
    renameKey: bool,
    renameCert: bool,
    removeKey: bool,
    removeCert: bool)

  datatype Stage = MkdirCert | MkdirKey | RunMkcert | RenameKey | RenameCert

  datatype Outcome = NoOp | Reissued | Failed(at: Stage)

  datatype CertInfo = CertInfo(sans: seq<string>, notAfter: int)

  /** mkcert puts exactly the requested names into the certificate, in some order. */
  ghost predicate Honest(f: Faults, sans: seq<string>) {
    f.mkcert.Issues? ==> multiset(f.mkcert.names) == multiset(sans)
  }

  predicate FaultFree(f: Faults) {
    && f.mkdirCert && f.mkdirKey && f.mkcert.Issues?
    && f.renameKey && f.renameCert && f.removeKey && f.removeCert
  }

  /******* One call, as a function of the disk *******/

  ghost function CurrentSans(d: Disk): Option<CertInfo> {
    if d.cert.Complete? then Some(CertInfo(Sort(d.cert.value.names), d.cert.value.notAfter)) else None
  }

  ghost predicate ShortCircuits(d: Disk, now: int, sans: seq<string>) {
    && CurrentSans(d).Some?
    && CurrentSans(d).value.sans == sans
    && CurrentSans(d).value.notAfter - now > RENEWAL
  }

  function RunMkcertOn(d: Disk, m: Mkcert): Disk {
    match m
    case Fails(cert, key) => d.(tmpCert := cert, tmpKey := key, runs := d.runs + 1)
    case Issues(names, notAfter) =>
      d.(tmpCert := Complete(Certificate(d.runs, names, notAfter)), tmpKey := Complete(d.runs), runs := d.runs + 1)
  }

  function MoveKey(d: Disk): Disk { d.(key := d.tmpKey, tmpKey := Absent) }

  function MoveCert(d: Disk): Disk { d.(cert := d.tmpCert, tmpCert := Absent) }

  function Cleanup(d: Disk, f: Faults): Disk {
    d.(tmpKey := if f.removeKey then Absent else d.tmpKey, tmpCert := if f.removeCert then Absent else d.tmpCert)
  }

  function Commit(d: Disk, f: Faults): (Disk, Outcome) {
    var d1 := RunMkcertOn(d, f.mkcert);
    if f.mkcert.Fails? then (d1, Failed(RunMkcert))
    else if !f.renameKey then (d1, Failed(RenameKey))
    else if !f.renameCert then (MoveKey(d1), Failed(RenameCert))
    else (MoveCert(MoveKey(d1)), Reissued)
  }

  ghost function ReissueOn(d: Disk, now: int, sans: seq<string>, f: Faults): (Disk, Outcome) {
    if ShortCircuits(d, now, sans) then (d, NoOp)
    else if !f.mkdirCert then (d, Failed(MkdirCert))
    else if !f.mkdirKey then (d, Failed(MkdirKey))
    else (Cleanup(Commit(d, f).0, f), Commit(d, f).1)
  }

  /******* The same call on files changed in place *******/

  class Reissuer {
    var cert: File<Certificate>
    var key: File<nat>
    var tmpCert: File<Certificate>
    var tmpKey: File<nat>
    var runs: nat

    constructor (d: Disk)
      ensures State() == d
    {
      cert, key, tmpCert, tmpKey, runs := d.cert, d.key, d.tmpCert, d.tmpKey, d.runs;
    }

    function State(): Disk
      reads this
    {
      Disk(cert, key, tmpCert, tmpKey, runs)
    }

    method CurrentSANs() returns (info: Option<CertInfo>)
      ensures info == CurrentSans(State())
    {
      if !cert.Complete? { return None; }
      var sans := cert.value.names;
      sans := SortStrings(sans);
      return Some(CertInfo(sans, cert.value.notAfter));
    }

    method Reissue(now: int, sans: seq<string>, f: Faults) returns (r: Outcome)
      modifies this
      ensures (State(), r) == ReissueOn(old(State()), now, sans, f)
    {
      var cur := CurrentSANs();
      if cur.Some? && cur.value.sans == sans && cur.value.notAfter - now > RENEWAL { return NoOp; }
      if !f.mkdirCert { return Failed(MkdirCert); }
      if !f.mkdirKey { return Failed(MkdirKey); }
      r := RunAndRename(f);
      if f.removeKey { tmpKey := Absent; }
      if f.removeCert { tmpCert := Absent; }
    }

    method RunAndRename(f: Faults) returns (r: Outcome)
      modifies this
      ensures (State(), r) == Commit(old(State()), f)
    {
      var run := runs;
      runs := runs + 1;
      match f.mkcert {
        case Fails(leftCert, leftKey) =>
          tmpCert, tmpKey := leftCert, leftKey;
          return Failed(RunMkcert);
        case Issues(names, notAfter) =>
          tmpCert, tmpKey := Complete(Certificate(run, names, notAfter)), Complete(run);
      }
      if !f.renameKey { return Failed(RenameKey); }
      key, tmpKey := tmpKey, Absent;
      if !f.renameCert { return Failed(RenameCert); }
      cert, tmpCert := tmpCert, Absent;
      return Reissued;
    }
  }

  /******* What one call does *******/

  predicate Matching(d: Disk) {
    d.cert.Complete? && d.key.Complete? && d.cert.value.run == d.key.value
  }

  /** The certificate is never from a later run than the key. */
  predicate KeyLeads(d: Disk) {
    && (d.key.Complete? ==> d.key.value < d.runs)
    && (d.cert.Complete? ==> d.key.Complete? && d.cert.value.run <= d.key.value)
  }

  /** A call that reports a new certificate leaves a matching pair with exactly the requested names; one that fails leaves the pair as it was, or replaces only the key. */
  lemma OutcomeMeans(d: Disk, now: int, sans: seq<string>, f: Faults)
    requires Honest(f, sans) && Sorted(sans)
    ensures var (d', r) := ReissueOn(d, now, sans, f);
            && (r.Reissued? ==> Matching(d') && CurrentSans(d').value.sans == sans && d'.cert.value.run == d.runs)
            && (r.NoOp? ==> d' == d && d.cert.Complete? && multiset(d.cert.value.names) == multiset(sans))
            && (r.Failed? ==> d'.cert == d.cert && (d'.key == d.key || (r.at.RenameCert? && d'.key == Complete(d.runs))))
            && (r.NoOp? <==> ShortCircuits(d, now, sans))
  {
    var (d', r) := ReissueOn(d, now, sans, f);
    if r.Reissued? {
      SortedUnique(CurrentSans(d').value.sans, sans);
    }
  }

  /** When a call is a no-op: the certificate can be read, holds exactly the requested names in whatever order, and has more than thirty days left, counted in nanoseconds. */
  lemma {:induction false} NoOpIff(d: Disk, now: int, sans: seq<string>, f: Faults)
    requires Sorted(sans)
    ensures ReissueOn(d, now, sans, f).1 == NoOp <==>
            d.cert.Complete? && multiset(d.cert.value.names) == multiset(sans) &&
            d.cert.value.notAfter - now > 2_592_000_000_000_000
  {
    if d.cert.Complete? && multiset(d.cert.value.names) == multiset(sans) {
      SortedUnique(Sort(d.cert.value.names), sans);
    }
  }

  /** A call that is not a no-op succeeds exactly if both directories, mkcert and both renames do, and otherwise names the first of them that failed. */
  lemma OutcomeIff(d: Disk, now: int, sans: seq<string>, f: Faults)
    requires ReissueOn(d, now, sans, f).1 != NoOp
    ensures var r := ReissueOn(d, now, sans, f).1;
            && (r == Reissued <==> f.mkdirCert && f.mkdirKey && f.mkcert.Issues? && f.renameKey && f.renameCert)
            && (r == Failed(MkdirCert) <==> !f.mkdirCert)
            && (r == Failed(MkdirKey) <==> f.mkdirCert && !f.mkdirKey)
            && (r == Failed(RunMkcert) <==> f.mkdirCert && f.mkdirKey && f.mkcert.Fails?)
            && (r == Failed(RenameKey) <==> f.mkdirCert && f.mkdirKey && f.mkcert.Issues? && !f.renameKey)
            && (r == Failed(RenameCert) <==>
                f.mkdirCert && f.mkdirKey && f.mkcert.Issues? && f.renameKey && !f.renameCert)
  {
  }

  /** What is left behind: mkcert was run exactly once if both directories were there, and the temporary files stay only if their removal fails. */
  lemma LeftBehind(d: Disk, now: int, sans: seq<string>, f: Faults)
    ensures var (d', r) := ReissueOn(d, now, sans, f);
            var ran := r != NoOp && f.mkdirCert && f.mkdirKey;
            && d'.runs == (if ran then d.runs + 1 else d.runs)
            && (ran && f.removeKey ==> d'.tmpKey.Absent?) && (ran && f.removeCert ==> d'.tmpCert.Absent?)
            && (ran && f.mkcert.Issues? && !f.removeKey ==> (d'.tmpKey.Absent? <==> f.renameKey))
            && (ran && f.mkcert.Issues? && !f.removeCert ==> (d'.tmpCert.Absent? <==> f.renameKey && f.renameCert))
            && (!ran ==> d' == d)
  {
  }

  /** A matching pair is lost in one way only: the key was renamed and the certificate was not. */
  lemma MatchLostIff(d: Disk, now: int, sans: seq<string>, f: Faults)
    requires Matching(d) && KeyLeads(d)
    ensures Matching(ReissueOn(d, now, sans, f).0) <==> ReissueOn(d, now, sans, f).1 != Failed(RenameCert)
  {
  }

  /******* Sequences of calls *******/

  datatype Call = Call(now: int, sans: seq<string>, faults: Faults)

  ghost function AfterCalls(d: Disk, calls: seq<Call>): Disk {
    if calls == [] then d else
      var c := calls[|calls| - 1];
      ReissueOn(AfterCalls(d, calls[..|calls| - 1]), c.now, c.sans, c.faults).0
  }

  /** Over every sequence of calls, whatever fails, the key is at least as new as the certificate. */
  lemma {:induction false} KeyAlwaysLeads(d: Disk, calls: seq<Call>)
    requires KeyLeads(d)
    ensures KeyLeads(AfterCalls(d, calls))
  {
    if calls == [] {
    } else {
      KeyAlwaysLeads(d, calls[..|calls| - 1]);
    }
  }

  /** The outcome of the last call that touched the key, if any did. */
  ghost function LastDecisive(d: Disk, calls: seq<Call>): Option<Outcome> {
    if calls == [] then None else
      var init, c := calls[..|calls| - 1], calls[|calls| - 1];
      var r := ReissueOn(AfterCalls(d, init), c.now, c.sans, c.faults).1;
      if r == Reissued || r == Failed(RenameCert) then Some(r) else LastDecisive(d, init)
  }

  /** After any sequence of calls the pair matches exactly if the last call that touched it reissued, or none did and it matched before. */
  lemma {:induction false} MatchingIff(d: Disk, calls: seq<Call>)
    requires KeyLeads(d)
    ensures Matching(AfterCalls(d, calls)) <==>
            LastDecisive(d, calls) == Some(Reissued) || (LastDecisive(d, calls).None? && Matching(d))
  {
    if calls == [] {
    } else {
      var init, c := calls[..|calls| - 1], calls[|calls| - 1];
      MatchingIff(d, init);
      KeyAlwaysLeads(d, init);
      CallMatches(AfterCalls(d, init), c.now, c.sans, c.faults);
    }
  }

  lemma CallMatches(d: Disk, now: int, sans: seq<string>, f: Faults)
    requires KeyLeads(d)
    ensures var (d', r) := ReissueOn(d, now, sans, f);
            Matching(d') <==> r == Reissued || (r != Failed(RenameCert) && Matching(d))
  {
  }

  predicate NoTemporaries(d: Disk) { d.tmpCert.Absent? && d.tmpKey.Absent? }

  /** No temporary file outlives a sequence of calls whose removals succeed. */
  lemma {:induction false} TemporariesRemoved(d: Disk, calls: seq<Call>)
    requires NoTemporaries(d)
    requires forall c :: c in calls ==> c.faults.removeKey && c.faults.removeCert
    ensures NoTemporaries(AfterCalls(d, calls))
  {
    if calls == [] {
    } else {
      assert calls[|calls| - 1] in calls;
      TemporariesRemoved(d, calls[..|calls| - 1]);
    }
  }

  /******* Retrying *******/

  /** After a failed call the same request is never taken for a no-op, and a fault-free retry ends in a matching pair. */
  lemma RetryConverges(d: Disk, now: int, sans: seq<string>, f: Faults, d': Disk, later: int, g: Faults)
    requires Sorted(sans) && Honest(f, sans) && Honest(g, sans)
    requires ReissueOn(d, now, sans, f).1.Failed?
    requires d'.cert == ReissueOn(d, now, sans, f).0.cert && now <= later
    requires FaultFree(g)
    ensures !ShortCircuits(d', later, sans)
    ensures ReissueOn(d', later, sans, g).1 == Reissued
    ensures Matching(ReissueOn(d', later, sans, g).0)
    ensures CurrentSans(ReissueOn(d', later, sans, g).0).value.sans == sans
  {
    OutcomeMeans(d, now, sans, f);
    OutcomeMeans(d', later, sans, g);
  }

  /** A fault-free call ends in a matching pair unless it short-circuits on a mismatched one. */
  lemma HealsIff(d: Disk, now: int, sans: seq<string>, g: Faults)
    requires FaultFree(g)
    ensures Matching(ReissueOn(d, now, sans, g).0) <==> !(ShortCircuits(d, now, sans) && !Matching(d))
  {
  }

  /** "The next reissue retries the certificate" fails while the requests are for the old certificate's names: they are all no-ops, and the mismatch stays. */
  lemma {:induction false} MismatchPersists(d: Disk, now: int, sans: seq<string>, f: Faults, oldSans: seq<string>, calls: seq<Call>)
    requires Matching(d) && KeyLeads(d)
    requires ReissueOn(d, now, sans, f).1 == Failed(RenameCert)
    requires forall c :: c in calls ==> c.sans == oldSans && ShortCircuits(d, c.now, oldSans)
    ensures var d' := ReissueOn(d, now, sans, f).0;
            && !Matching(d') && AfterCalls(d', calls) == d'
            && forall c :: c in calls ==> ReissueOn(d', c.now, c.sans, c.faults).1 == NoOp
  {
    MatchLostIff(d, now, sans, f);
    if calls == [] {
    } else {
      assert calls[|calls| - 1] in calls;
      MismatchPersists(d, now, sans, f, oldSans, calls[..|calls| - 1]);
    }
  }

  /** Asking again for the same projects and suffixes, in any order and with repetition, is a no-op while more than thirty days are left. */
  lemma {:induction false} RepeatIsNoOp(d: Disk, now: int, f: Faults, later: int, g: Faults,
                     cfg: Settings, cfg': Settings, projects: seq<string>, projects': seq<string>)
    requires Honest(f, SanList(cfg, projects))
    requires ReissueOn(d, now, SanList(cfg, projects), f).1 == Reissued
    requires cfg.machine == cfg'.machine && cfg.tailnet == cfg'.tailnet
    requires multiset(cfg.suffixes) == multiset(cfg'.suffixes)
    requires forall p :: p in projects <==> p in projects'
    requires f.mkcert.Issues? && f.mkcert.notAfter - later > RENEWAL
    ensures var d' := ReissueOn(d, now, SanList(cfg, projects), f).0;
            ReissueOn(d', later, SanList(cfg', projects'), g) == (d', NoOp)
  {
    OutcomeMeans(d, now, SanList(cfg, projects), f);
    SanCanonical(cfg, cfg', projects, projects');
  }
}
