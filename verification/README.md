# The certificate-before-route protocol of dockerdynomesh, in Dafny

dockerdynomesh publishes Docker containers under hostnames. The *discoverer*
lists containers, asks *certgen* for a wildcard certificate whenever the set of
compose projects has changed, and then writes a Traefik config file. Its stated
invariant is that no hostname gets published for which the certificate has no
SAN. This project models the whole path from container list to published file,
with failures at every step, and proves what the program does and does not
guarantee.

The files follow the program's packages:

| file | models |
|---|---|
| `Text.dfy`, `Labels.dfy` | string order, sorting, split and join; the two name checks |
| `Sans.dfy`, `Wildcards.dfy` | the SAN list, and which hosts a certificate name covers (section 6.3 of RFC 9525) |
| `Inspect.dfy`, `Render.dfy` | what is read off a container; routers and rules |
| `Reissue.dfy`, `CertServer.dfy` | the no-op guard, mkcert and the two renames; concurrent handlers under the mutex |
| `Reconcile.dfy`, `Coverage.dfy` | one reconcile; which published hosts a certificate covers |
| `Protocol.dfy`, `Windows.dfy`, `Witnesses.dfy` | whole runs with restarts, lost replies and failures; the window between certificate and file; runs that go wrong |
| `Misconfig.dfy`, `AtomicWrite.dfy` | the warning cache; the crash-safe file write |
| `Debounce.dfy`, `EventLoop.dfy`, `Renames.dfy` | the debouncer on both kinds of Go timer channel; the event loop; a change it does not notice |
| `Service.dfy` | the event loop's runs as runs of the protocol |
| `Suffixes.dfy` | the takeover suffix list as the Go parser and the shell loop read it |

Code that changes state is imperative here too: the reconciler, the reissuer,
the debouncer, the event loop's select and the file write are classes, and the
list-building functions are methods with loops. Each method is tied to a
function of the old state, and the lemmas are about those functions.

## How the environment enters

- Every answer from outside is a parameter: clock readings, what mkcert does,
  whether each directory, rename, removal, open, write, sync and close succeeds,
  and whether a request is lost, answered, or carried out with the reply lost.
  The theorems hold for all of them.
- mkcert either fails, leaving anything in the temporary files, or issues a pair
  for exactly the requested names in some order. A rename that fails has no
  effect. Each mkcert run has a number, which identifies the pair it made.
- A run is any sequence of reconciles, restarts of the discoverer (possibly with
  other settings) and requests that certgen carries out after the discoverer has
  given up on them, also between a reconcile's own request and its write.
- Docker may change anything at any time. A change is announced if its event is
  of a kind the loop subscribes to, and unannounced otherwise.
- The order in which Go visits a map is arbitrary, and `sort.Slice` may put
  routers of equal name in any order; both are left open.
- Strings are sequences of code points. Code-point order is the byte order of
  valid UTF-8.

## Main results

- **Coverage over whole runs.** A run is *certified* if the latest certificate
  issued in it, if any, was for a request that asked for every SAN of the last
  written projects, if any. `Witnesses.NextWriteCoveredIff`: after any run at
  all, with any restarts and failures, the next file is covered when written,
  whatever the containers are by then, exactly if the run is certified.
  `Protocol.EveryWriteCovered`: a write that asked for a certificate is covered
  in every run, one that skipped asking if the run is certified;
  `Protocol.EveryRuleCovered` says it of the text of the rules.
  `Witnesses.ShrinkFailGrow` is a three-step run, for any clock and any
  certificate lifetime, that publishes a host without a SAN.
- **The window.** `Windows.CoveredAtAnyMomentIff`: over every run, the file in
  force at some moment is covered by the certificate of that or any later moment
  exactly if every wildcard its one-label containers need is a SAN of the latest
  request that got a certificate by then, or was in the certificate at the start
  if none did. So `Windows.NoUncoveredWindow`: from any state in which file and
  certificate are in line, and as long as projects are only added, the file is
  covered at every moment, also between a new certificate and the new file, and
  with late requests in between. Every write that asked leaves such a state, in
  any run (`Windows.AskedWriteInSync`). `Witnesses.RemovedProjectUncovered` is a
  fault-free run in which a removed project's host is uncovered meanwhile.
- **Expiry.** `Protocol.RenewedIff`: over every run, a reconcile in which nothing
  fails renews an expiring certificate exactly if nothing has been written since
  the start or the projects differ from those last written;
  `Witnesses.ExpiryUnnoticed` is a run that leaves one to expire.
- **Certgen.** The certificate is never newer than its key, over every sequence
  of calls and at every step of every interleaving; every interleaving of
  handlers equals the sequential order in which they released the mutex.
- **Convergence.** Whenever the loop comes to rest after a good reconcile, the
  file is a render of the containers as they are, unless something changed
  unannounced; `EventLoop.QuiescentFileIsCurrentIff` gives the exact condition
  for that case and `Renames.RenameGoesUnnoticed` a run where the file is stale.
  After an event and an interval of quiet, a loop back at its select without a
  tick has listed since, and after a good reconcile its file shows the containers
  that were there at the event (`EventLoop.EventMakesCurrent`); events that are
  received closer together than the interval starve the loop
  (`EventLoop.StarvedIff`, `EventLoop.BurstStarves`). Every run of the loop is a
  run of the protocol, so `Service.RestIsCurrentAndCovered` says both things of
  one file.
- **Refinement.** The timer-based debouncer receives exactly when the interval
  has passed since a bump that nobody answered.

## Where the code and what is said about it differ

- `docs/architecture.md:35-36` says that Traefik never sees a hostname the
  certificate does not cover. `Witnesses.ShrinkFailGrow` is a run where it does.
  Also, removing a project leaves its old routes uncovered until the new file is
  written (`Witnesses.RemovedProjectUncovered`), except for hosts whose wildcard
  happens to be a SAN of the new request too (`Windows.CoveredAtAnyMomentIff`).
- `internal/certgen/reissue.go:73` says that the next reissue retries the
  certificate after a failed rename. It does not if the next request is for the
  old certificate's names (`Reissue.MismatchPersists`).
- `internal/certgen/san.go:49` calls the SAN list deduplicated. Two different
  wildcards can be spelled the same (`Sans.RepeatedSan`); `Sans.SanStrictIff`
  gives the exact condition.
- `docs/hostname-rules.md:43-45` says that containers with an invalid hostname
  are skipped. In the code one such container makes every reconcile fail
  (`Reconcile.SucceedsIff`). `Witnesses.UnderscoreNameBlocks` shows it for a
  container called `/my_app`, and `Witnesses.UnderscoreProjectBlocks` for one of
  a compose project `my_app` that is not even routed.
- `docs/hostname-rules.md:9-12` gives a standalone container the hostname of its
  name. After `docker rename` it keeps the old hostname and has no router for
  the new one: the rename event is not among those subscribed to at
  `cmd/discoverer/reconcile.go:66-79`, and a loop at rest stays at rest until
  some other event (`Renames.RenameGoesUnnoticed`, `EventLoop.RestPersists`).
- `docs/architecture.md:153-154` says that certgen reissues when the certificate
  is within 30 days of expiry. It does so only when asked, which happens exactly
  if nothing has been written since the start or the project set has changed
  (`Protocol.RenewedIff`); otherwise the certificate is left to expire
  (`Witnesses.ExpiryUnnoticed`, `Protocol.SteadyRunNeverRenews`).
- The Go parser of the takeover list trims vertical tab, form feed and carriage
  return; the shell loop does not, and rejects what Go accepts
  (`Suffixes.CarriageReturnDisagrees`, exactly when: `Suffixes.VerdictsAgreeIff`).
- `LabeledMissingNetwork` flags a labelled container attached to no network, but
  its fingerprint equals the map's default, so the first such flag is silent
  (`Misconfig.DetachedIsSilent`).

## Model

| member | source | states |
|---|---|---|
| Witnesses.NextWriteCoveredIff | cmd/discoverer/reconcile.go:126-194 | after any run at all, the next write is covered, for every container list, exactly when the run is certified: the latest certificate issued in it, if any, was for a request that asked for every SAN of the projects last written, if any |
| Protocol.EveryWriteCovered | cmd/discoverer/reconcile.go:126-194 | over every run, a written file is covered if its reconcile asked for a certificate or the run was certified before it: each host of each routed container with a one-label name is matched by a name in the certificate on disk |
| Protocol.CertifiedFileCovered | cmd/discoverer/reconcile.go:129-194 | at every moment of a run that is certified so far, after its first write, the file is covered |
| Protocol.RunInSyncIff | cmd/discoverer/reconcile.go:131-194 | after any run the certificate has all SANs of the last write exactly when the run is certified |
| Protocol.EveryRuleCovered | internal/render/render.go:113-129 | in such a file the router of every one-label container is present and every host read back from its rule is covered, and every router is that of a routed container |
| Protocol.NoDropsCertify | cmd/discoverer/reconcile.go:149-152 | a run is certified if none of its steps replaces the certificate by one that lacks a SAN of the last write and then writes no file |
| Protocol.GrowingRequestsNeverDrop | cmd/discoverer/reconcile.go:149-152 | no step drops a name if every failed reconcile that replaced the certificate asked for at least the projects of the last write |
| Protocol.StepInSyncIff | cmd/discoverer/reconcile.go:131-194 | from a state where the certificate has all SANs of the last write, a step keeps that exactly unless it drops one of those names and writes no file |
| Witnesses.SafeToSkipIff | cmd/discoverer/reconcile.go:132-153 | skipping the request is safe for all container lists with the remembered projects exactly when the certificate has all their SANs |
| Witnesses.SafeToSkipAfterRunIff | cmd/discoverer/reconcile.go:132-193 | after any run, skipping the request is safe for all container lists exactly when the run is certified |
| Witnesses.UncoveredStep | cmd/discoverer/reconcile.go:132-193 | when the certificate lacks such a SAN, a fault-free reconcile at any time exists that publishes an uncovered host |
| Witnesses.ShrinkFailGrow | cmd/discoverer/reconcile.go:132-193 | for any clock readings and certificate lifetimes, a run from a new installation whose third reconcile publishes a host without a SAN |
| Witnesses.UnderscoreNameBlocks | internal/render/render.go:106-112 | while a standalone container called `/my_app` runs, no reconcile writes a file |
| Witnesses.UnderscoreProjectBlocks | internal/certgen/api.go:74-79 | while a container of a project `my_app` runs, no reconcile writes a file, although the container is not routed |
| Protocol.AsksIff | cmd/discoverer/reconcile.go:131-143 | over any run, certgen is asked exactly when nothing has been written since the start or the set of projects differs from the last write's; an empty first set counts as different |
| Protocol.RetryIsCheap | cmd/discoverer/reconcile.go:149-152 | a reconcile that failed after replacing the certificate is retried without running mkcert, while more than 30 days are left |
| Protocol.RenewedIff | internal/certgen/reissue.go:36-39 | over every run, a reconcile in which nothing fails replaces a certificate that is missing or within thirty days of its end exactly if nothing has been written since the start or the set of projects differs from the last write's |
| Witnesses.ExpiryUnnoticed | cmd/discoverer/reconcile.go:131-132 | a run that issues a certificate and, within thirty days of its end or later, writes the file in a fault-free reconcile without renewing it |
| Protocol.SteadyRunNeverRenews | cmd/discoverer/reconcile.go:131-132 | reconciles for the last written projects never touch the certificate, whatever the clock says |
| Windows.CoveredAtAnyMomentIff | cmd/discoverer/reconcile.go:143-192 | over every run, a file is covered by the certificate of its own or any later moment exactly if every wildcard its one-label containers need was issued: it is a SAN of the latest request that got a certificate by then, or in the certificate at the start if none did |
| Windows.CurrentFileCoveredIff | cmd/discoverer/reconcile.go:143-192 | the same of the current file and the current certificate after any run |
| Windows.NoUncoveredWindow | cmd/discoverer/reconcile.go:143-192 | from any state in which the certificate has all SANs for the file, as long as projects are only added, the file is covered before and after every step, and the old file between the step's certificate and its write, with any number of late requests in between |
| Windows.AskedWriteInSync | cmd/discoverer/reconcile.go:143-192 | every write that asked leaves such a state, whatever went before |
| Windows.CertifiedIsInSync | cmd/discoverer/reconcile.go:129-194 | so does every certified run that has written a file |
| Windows.InterruptedIsInOrder | cmd/discoverer/reconcile.go:143-192 | late requests that certgen serves between a reconcile's own request and its write leave the same state as if they came right after the write |
| Windows.InterruptedWriteCovered | cmd/discoverer/reconcile.go:143-192 | such an overtaken write is covered if the run is certified with the late requests in it |
| Windows.WindowIff | cmd/discoverer/reconcile.go:143-192 | under a certificate for another request the old file stays covered exactly if every wildcard its containers need is a SAN of that request |
| Witnesses.RemovedProjectUncovered | cmd/discoverer/reconcile.go:143-192 | a fault-free run in which a project is removed and, between the new certificate and the new file, its host is published without a SAN |
| Reconcile.Reconciler.ReconcileWith | cmd/discoverer/reconcile.go:129-194 | the new memory, certificate directory, file and warning cache, as functions of the old state, for every failure; only a reconcile that is done changes the memory and the file, and its file is a sorted permutation of the routers |
| Reconcile.Reconciler.RequestReissue | internal/certclient/client.go:41-71 | what the client call does to certgen's files and whether it reports success, including an error after the request took effect |
| Reconcile.Reconciler.InspectAll | cmd/discoverer/reconcile.go:165-183 | the loop keeps exactly the routed containers, in order, and checks each one for misconfiguration |
| Reconcile.FileHoldsRoutes | cmd/discoverer/reconcile.go:165-192 | the router of every routed container is in the file, with its address and a rule that reads back as exactly its hosts |
| Reconcile.RoutersComeFromContainers | cmd/discoverer/reconcile.go:165-192 | every router in the file is that of a routed container |
| Reconcile.RenderFailsOnlyOnHostname | internal/render/render.go:89-112 | once certgen has accepted the settings, rendering can fail only on a container's hostname |
| Reconcile.SucceedsIff | cmd/discoverer/reconcile.go:129-194 | for everything that may fail: which of the four ways a reconcile ends; it writes exactly when the certificate is in place (nothing to ask, or an accepted and answered request that is a no-op or meets no failure), every routed container has a safe hostname, and the write succeeds |
| Reconcile.UnchangedProjects | cmd/discoverer/reconcile.go:131-132 | with the projects of the last write certgen may be down: the reconcile writes exactly if the hostnames are safe and the write succeeds, and the certificate stays as it is |
| Reconcile.UnsafeHostnameBlocks | internal/render/render.go:106-112 | whatever else happens, no file is written while any routed container has an unsafe hostname |
| Coverage.HostsAreNeeds | internal/inspect/inspect.go:106-116 | the hosts of a routed container are its first label in front of each base it needs, no more and no fewer |
| Coverage.CoveredBelowIff | docs/hostname-rules.md:49-55 | under a certificate of wildcards a host is covered exactly when the wildcard one label up is in it |
| Coverage.PublishedCoveredIff | cmd/discoverer/reconcile.go:126-128 | a file is covered exactly when the certificate has every wildcard its one-label containers need |
| Coverage.SansCoverPublication | internal/certgen/san.go:35-47 | a certificate with all SANs of some projects covers every file for those projects |
| Coverage.DottedNameIff | docs/hostname-rules.md:49-55 | a dotted name is covered only if the rest after its first label is itself certified |
| Coverage.RulesCovered | internal/render/render.go:114-128 | a covered file holds the router of every one-label container, and every host in its rule is covered |
| Wildcards.WildcardIff | docs/hostname-rules.md:49-55 | a wildcard covers exactly the hosts one label below its base |
| Wildcards.ExactNameIff | docs/hostname-rules.md:49-55 | a name without a star covers itself only |
| Wildcards.CoveredIff | internal/certgen/san.go:35-47 | the hosts covered by a certificate for an accepted request are those one label below one of its bases |
| Sans.SANs | internal/certgen/san.go:51-79 | the loops produce the list of the wildcards of all bases, projects taken once, each entry a prefix of every later one or smaller at the first difference |
| Sans.SanStrings | internal/certgen/san.go:62-76 | the strings in the list, spelled out, and no others |
| Sans.SanCount | internal/certgen/san.go:62-76 | how many there are: one row per suffix and one for the tailnet, each with a name for itself and one per distinct project |
| Text.LeqMeans | internal/certgen/san.go:77 | the order of `sort.Strings` without recursion: a prefix comes first, otherwise the smaller character at the first difference does |
| Sans.Unique | internal/certgen/san.go:52-61 | repeated projects are collapsed to their first occurrences |
| Text.DedupKeepsOrder | internal/certgen/san.go:52-61 | what is left comes in the order of the first occurrences |
| Sans.SanElements | internal/certgen/san.go:35-47 | the list holds exactly the suffix, project, machine and project-machine wildcards |
| Sans.SanStrictIff | internal/certgen/san.go:49-50 | the list is sorted; it has no repetition exactly when the suffixes are distinct and no two wildcards are spelled the same |
| Sans.RepeatedSan | internal/certgen/san.go:49-50 | an accepted request with distinct suffixes whose list repeats a name |
| Sans.SanCanonical | internal/certgen/san.go:49-50 | the list depends only on the set of projects and on the suffixes up to order |
| Sans.SansValid | internal/certgen/api.go:56-80 | every SAN of an accepted request is a wildcard over a valid label |
| Labels.ValidateLabelIff | internal/certgen/san.go:18-33 | valid labels are the dot-joined non-empty parts of letters, digits and hyphens that begin and end with a letter or digit |
| Labels.DotJoinValid | internal/certgen/san.go:66-75 | joining valid labels with a dot gives a valid label |
| Labels.ValidIsSafe | internal/render/render.go:14-17 | what certgen accepts render accepts, and not the other way round |
| Inspect.SelectPort | internal/inspect/inspect.go:80-104 | a port in the label is taken whatever is exposed; without one a single exposed port that parses; with none or several, 80 if exposed, else 8080, else 8000, else none |
| Inspect.AddressUnique | internal/inspect/inspect.go:62 | an address determines its IP and port |
| Inspect.FromContainer | internal/inspect/inspect.go:31-63 | which containers are skipped (no config, a `traefik.` label, no address on the network, no port), which have no usable name, and the hostname and address of the others |
| Inspect.LabeledMissingNetwork | internal/inspect/inspect.go:129-160 | flags exactly the containers with a `traefik.` label that are not on their target network, which the network label overrides, with their networks in strict order |
| Inspect.ProjectsOf | internal/inspect/inspect.go:164-181 | the strictly sorted list of the non-empty compose project labels, no more and no fewer |
| Render.Render | internal/render/render.go:88-132 | the first error in program order, or a permutation of the routers sorted by name |
| Render.ProblemMeans | internal/render/render.go:89-112 | which error is reported: suffixes, machine, tailnet, then the containers in order, each check naming its first offender |
| Render.RuleText | internal/render/render.go:114-128 | the text of a rule |
| Render.AcceptsIff | internal/render/render.go:89-112 | rendering succeeds exactly on safe settings and routes that all have a safe hostname and an address |
| Render.RuleRoundTrip | internal/render/render.go:114-128 | splitting a rule and stripping the matchers gives the host list back |
| Render.RuleInjective | internal/render/render.go:114-128 | different host lists never give the same rule |
| Render.RenderedRule | internal/render/render.go:106-129 | in an accepted config every rule reads back as the hosts of its container |
| Render.DeterministicIff | internal/render/render.go:130-132 | all sort algorithms give the same file exactly when equal router names mean equal routers |
| Render.RenderPermutes | internal/render/render.go:92-132 | permuting containers and suffixes does not change what may be rendered |
| Render.RenderCanonical | internal/render/render.go:38-39 | with distinct router names the file depends neither on the order of the input nor on the sort |
| Render.RenderedKeysUniqueIff | internal/render/render.go:47-63 | the emitted router keys are unique exactly when the flattened names are distinct and none is another followed by `-http` |
| Render.FlatCollision | internal/render/render.go:113 | two different safe hostnames with the same router name |
| Reissue.Reissuer.CurrentSANs | internal/certgen/reissue.go:91-107 | the certificate's names in sorted order and its expiry, or nothing if the file is missing or unreadable |
| Reissue.Reissuer.Reissue | internal/certgen/reissue.go:35-84 | the four files and the result as a function of the old files, for every failure |
| Reissue.OutcomeMeans | internal/certgen/reissue.go:33-84 | success leaves a matching pair with the requested names; failure leaves the pair, or replaces only the key, at the last rename; a no-op changes nothing |
| Reissue.NoOpIff | internal/certgen/reissue.go:36-39 | a call is a no-op exactly if the certificate can be read, holds the requested names in whatever order, and has more than thirty days left |
| Reissue.KeyAlwaysLeads | internal/certgen/reissue.go:71-82 | over every sequence of calls the certificate is never from a later run than the key |
| Reissue.TemporariesRemoved | internal/certgen/reissue.go:52-55 | no temporary file outlives calls whose removals succeed |
| Reissue.RetryConverges | internal/certgen/reissue.go:36-39 | after a failure the same request never short-circuits, and a fault-free retry ends in a matching pair with its names |
| Reissue.MatchingIff | internal/certgen/reissue.go:35-84 | after any sequence of calls certificate and key match exactly if the last call that renamed the key also renamed the certificate, or none renamed it and they matched before |
| Reissue.MismatchPersists | internal/certgen/reissue.go:71-76 | after a failed certificate rename any number of requests for the old names are no-ops and keep the mismatch |
| Reissue.RepeatIsNoOp | internal/certgen/reissue.go:19-21 | the same projects and suffixes in any order, with repetition, are a no-op while more than 30 days are left |
| CertServer.Validate | internal/certgen/api.go:56-79 | accepts exactly requests with a suffix whose suffixes and projects are valid labels and whose machine and tailnet are valid or empty |
| CertServer.HandleReissue | internal/certgen/api.go:45-98 | refuses other methods and undecodable or unacceptable requests without touching the files; otherwise each outcome has its own response: a new certificate means a matching pair of this run with the requested names, no content means unchanged files that hold those names for more than thirty days, an internal error means the old certificate |
| CertServer.FinishIsServe | internal/certgen/api.go:82-97 | the steps of one locked section add up to one whole reissue or report |
| CertServer.EveryInterleavingIsSequential | internal/certgen/api.go:82-113 | every interleaving of any number of handlers gives the files and answers of serving the requests made in the order in which they released the mutex, and a handler renames the pair of its own mkcert run |
| CertServer.NeverStuck | internal/certgen/api.go:82-113 | no interleaving gets stuck: from wherever it has come to, it can go on until every handler has finished |
| CertServer.StatusIsNeverTorn | internal/certgen/api.go:105-118 | a status report shows the certificate as a whole number of locked sections left it |
| CertServer.KeyLeadsThroughout | internal/certgen/reissue.go:71-82 | stopping certgen between any two steps of any interleaving never leaves a certificate newer than its key |
| Misconfig.LogMisconfigIfNeeded | cmd/discoverer/reconcile.go:199-226 | forgets on recovery, stays silent on the remembered network list, otherwise warns and remembers |
| Misconfig.WarnsIff | cmd/discoverer/reconcile.go:196-226 | in any interleaving of containers, a container is warned about exactly when flagged with a network list other than that of its last flag since it was healthy |
| AtomicWrite.FileSystem.AtomicWrite | cmd/discoverer/reconcile.go:258-288 | every state the write passes through; it succeeds exactly if every system call does, whatever was there before; success leaves the synced content and no temporary file, failure the old target and a temporary file only if its removal fails |
| AtomicWrite.CrashSafe | cmd/discoverer/reconcile.go:258-288 | at every step, live and after a crash, the target holds the old or the complete new content; an error means old, success means new |
| AtomicWrite.NothingTorn | cmd/discoverer/reconcile.go:258-288 | over any number of attempts, any of them cut short by a crash at any step, and at any step of one more, what a crash leaves is one complete content: an initial one or one that was being written |
| Debounce.Debouncer.constructor | cmd/discoverer/debounce.go:14-20 | created stopped with an empty channel, however long creation takes |
| Debounce.Debouncer.Bump | cmd/discoverer/debounce.go:22-30 | from any state not both armed and holding a tick, a bump leaves the timer due one interval from now and no tick waiting |
| Debounce.FiresIffQuiet | cmd/discoverer/debounce.go:5-8 | on every timed trace a receive succeeds exactly when the interval has passed since a bump no receive has answered |
| Debounce.ReceiveAfterQuiet | cmd/discoverer/debounce.go:5-8 | a receive happens at least the interval after the latest bump |
| Debounce.BumpBetweenReceives | cmd/discoverer/debounce.go:5-8 | between two receives there is a bump |
| Debounce.QuietLeavesOneTick | cmd/discoverer/debounce.go:22-32 | an interval of quiet after a bump leaves exactly one tick to receive |
| Debounce.StarvedIff | cmd/discoverer/debounce.go:5-8 | over every timed trace no tick is ever ready exactly if at no moment the interval has passed since the latest bump |
| EventLoop.Discoverer.Select | cmd/discoverer/reconcile.go:84-111 | cancellation and a failed stream end the loop and stop the timer; an event only bumps the timer; a tick is consumed, then one listing and one reconcile follow, without retry |
| EventLoop.RunLosesNothing | cmd/discoverer/reconcile.go:84-120 | while the loop lives, an announced change since the latest listing began always has an event queued or a timer running or fired |
| EventLoop.QuiescentFileIsCurrentIff | cmd/discoverer/reconcile.go:66-120 | at rest after a good reconcile the file is current if nothing changed unannounced since its listing began; in any case exactly if its snapshot equals the containers, and it shows their routes exactly if the routers of both agree up to order |
| EventLoop.RestPersists | cmd/discoverer/reconcile.go:66-110 | a loop at rest keeps its file, whatever time passes and whatever changes unannounced |
| EventLoop.EndIsFinal | cmd/discoverer/reconcile.go:82-105 | once the loop has ended nothing more is listed, the file stays and the timer is stopped |
| Renames.RenameGoesUnnoticed | cmd/discoverer/reconcile.go:66-79 | a run in which a published container is renamed and the loop comes to rest with a router for the old name and none for the new one |
| EventLoop.StarvedIff | cmd/discoverer/reconcile.go:88-109 | no tick is ever ready in a run exactly if at no moment of it the interval has passed since the latest event received |
| EventLoop.StarvedLoopKeepsFile | cmd/discoverer/reconcile.go:88-109 | a run without a tick lists nothing and keeps its file |
| EventLoop.BurstStarves | cmd/discoverer/reconcile.go:88-109 | for every length there is a burst of announced changes, all received, that never lets a tick through |
| EventLoop.EventLeadsToListing | cmd/discoverer/reconcile.go:88-109 | once the interval has passed after an event, a listing has begun since or the tick that begins one is waiting |
| EventLoop.EventMakesCurrent | cmd/discoverer/reconcile.go:84-120 | over every run, the interval after an event with no further change or event, a loop at its select without a tick has begun a listing since, and if its latest reconcile was good the file is a render of the containers at the event |
| EventLoop.EventCanReachFile | cmd/discoverer/reconcile.go:84-120 | from every reachable state with an event queued, if a reconcile of the current containers would write, the run can go on to a current file |
| Service.RunProjects | cmd/discoverer/reconcile.go:84-120 | every run of the event loop is a genuine run of the protocol with the same outcome |
| Service.LoopWriteCovered | cmd/discoverer/reconcile.go:84-194 | a file that the loop writes is covered if its reconcile asked or the history was certified before |
| Service.RestIsCurrentAndCovered | cmd/discoverer/reconcile.go:57-194 | at rest after a good reconcile the file is covered if the whole history is certified, and current if nothing changed unannounced |
| Suffixes.ParseTakeoverSuffixes | cmd/discoverer/main.go:150-172 | the primary and the non-blank entries in strict order, or the first invalid entry |
| Suffixes.TrimSpaceMeans | cmd/discoverer/main.go:157 | trimming takes all spaces off both ends and nothing else |
| Suffixes.CommaSeparates | cmd/discoverer/main.go:156 | two valid suffixes with a comma between them are two entries, to the shell as well |
| Suffixes.CleanSuffixes | bootstrap.sh:172-187 | the loop fails exactly on an invalid entry and otherwise gives the non-blank entries in strict order |
| Suffixes.ParsersAgree | bootstrap.sh:167-171 | without spaces that only one side trims, both parsers give the same verdict, and the Go list is the shell's plus the primary |
| Suffixes.VerdictsAgreeIff | cmd/discoverer/main.go:157-163 | the verdicts differ exactly when Go accepts a list with such a space |
| Suffixes.CarriageReturnDisagrees | cmd/discoverer/main.go:157-163 | a valid suffix followed by a carriage return is accepted by Go and rejected by the shell |

## Smaller facts

One-step consequences of the definitions that the results above rest on or that
are worth naming:

- `Reissue.MatchLostIff` (`internal/certgen/reissue.go:71-82`): a matching pair
  stops matching exactly when the certificate's rename fails.
- `Reconcile.RejectedProjectBlocks` (`internal/certgen/api.go:74-79`): whatever else
  happens, no file is written while any container belongs to a project that
  certgen rejects.
- `Reissue.HealsIff` (`internal/certgen/reissue.go:36-39`): a fault-free call
  ends in a matching pair unless it short-circuits on a mismatched one.
- `Inspect.AtoiOfDecimal` (`internal/inspect/inspect.go:62-82`): parsing a
  printed number gives it back.
- `AtomicWrite.SyncIsNeeded` (`cmd/discoverer/reconcile.go:263-264`): without
  the sync a crash after the rename could leave anything.
- `Suffixes.ValidatorsAgree` (`bootstrap.sh:103-114`): the shell's patterns
  accept exactly what certgen's check accepts.
- `Debounce.BumpIsCleanIff` (`cmd/discoverer/debounce.go:22-30`): from which
  timer states stop, drain and reset leave no stale tick.
- `Inspect.LoweredIsSafeIff` (`internal/inspect/inspect.go:115`): lower-casing
  makes a name safe exactly when nothing but case was wrong with it.
- `Inspect.HostnameShape` (`internal/inspect/inspect.go:106-116`): the hostname
  is the lower-cased own name, in front of the project for a compose container,
  and empty only for a nameless container without compose labels.
- `Inspect.ProjectsCanonical` (`internal/inspect/inspect.go:164-181`): two
  container lists give the same project list exactly when they have the same set
  of projects.
- `EventLoop.ListingMakesCurrent` (`cmd/discoverer/reconcile.go:106-120`): a tick,
  a complete listing and a reconcile that writes, back to back, make the file
  current.
- `Misconfig.DetachedIsSilent` (`cmd/discoverer/reconcile.go:208-211`): a first
  flag with no network attached is not reported.
- `Labels.CharCodes` (`internal/certgen/san.go:18`): the allowed characters by
  their ASCII codes.
- `Inspect.LowerRuneMeans` (`internal/inspect/inspect.go:115`): capital letters
  go to the small letter of the same place in the alphabet; of the others only
  U+0130 and U+212A change.
- `Suffixes.SpaceCodes` (`cmd/discoverer/main.go:157`): within ASCII, tab to
  carriage return and the space are trimmed.
- `Suffixes.BlankCodes` (`bootstrap.sh:176`): awk separates at spaces, tabs and
  newlines.
- `Render.HostsMeans` (`internal/render/render.go:114-122`): the hosts of a
  container: one per suffix in sorted order, and the tailnet one at the end.
- `Render.RoutersMean` (`internal/render/render.go:113-129`): one router per
  entry, with the hostname's dots as hyphens, its rule and its address.
- `Reissue.OutcomeIff` (`internal/certgen/reissue.go:40-84`): a call that is not
  a no-op succeeds exactly if both directories, mkcert and both renames do, and
  otherwise names the first failure.
- `Reissue.LeftBehind` (`internal/certgen/reissue.go:52-84`): mkcert runs once,
  and temporary files stay only if their removal fails.
- `Reconcile.RequestMeans` (`internal/certclient/client.go:41-71`): what a
  request does to the certificate, lost, rejected, answered or with its reply
  lost.
- `Reconcile.EntriesInOrder` (`cmd/discoverer/reconcile.go:165-183`): the render
  input has one entry per routed container, in the order of the containers, and
  nothing for the others.
- `Inspect.AtoiIff` (`internal/inspect/inspect.go:82-91`): which strings parse
  as a port number: digits after at most one sign, if the number fits into 64
  bits.
- `Inspect.HostnameMeans` (`internal/inspect/inspect.go:106-116`): the hostname
  from the labels themselves: service and project if both are set, otherwise the
  name without a leading slash, in lower case.
- `AtomicWrite.WriteSucceedsIff` (`cmd/discoverer/reconcile.go:258-288`): a
  write succeeds exactly if every system call does, whatever the target and the
  temporary file hold; a failed one leaves a temporary file only if its removal
  fails.
- `AtomicWrite.RenameMayBeLost` (`cmd/discoverer/reconcile.go:263-287`): after
  the rename of a synced file a crash may leave the new content or whatever the
  target may have held before.

## Left out

- ParsersAgree: a list with a newline or a glob character is not modelled as the shell would split or expand it.
- CleanSuffixes: the same, and `sort -u` is taken to sort by byte, as it does in the C locale.
- Render: stops at the sorted router list; the template that turns it into YAML text is not modelled.
- EveryWriteCovered: says nothing about dotted service or container names, which one-level wildcards do not cover in general (`Coverage.DottedNameIff` says when they do).
- RestIsCurrentAndCovered: late requests are steps of the protocol's runs only, not of the event loop's.
- RenameGoesUnnoticed: a rename is the witness; which other Docker actions change a container without a subscribed event is left open.
- The event loop as a loop: its rounds are a method, but the loop over all of time and its interplay with Docker and the clock are a step relation on values.
- The boot reconcile's bounded retry, and changes between the boot listing and the subscription, which the program does not replay.
- Docker, HTTP, JSON, sockets and the 64 KiB body limit: only their outcomes appear.
- mkcert, PEM and X.509 parsing beyond the names, the expiry and which run made a file.
- YAML text: routers, rules and keys are modelled, layout is not.
- Log text, banners and the welcome server; Traefik, dnsmasq and the rest of `bootstrap.sh`.
- Other writers of the certificate directory, and clients that refuse wildcards directly below a top-level domain.
- Invalid UTF-8, and lower case outside ASCII where both the letter and its lower case are outside ASCII: a hostname holding one is refused by render either way.
- Atomicity of a listing: it returns the current containers if nothing changed since it began, and anything otherwise.
