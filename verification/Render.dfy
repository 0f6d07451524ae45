/** The Traefik routers rendered for a list of containers. */
module Render {
  import opened Text
  import opened Labels
  import opened Sans

  datatype Entry = Entry(hostname: string, address: string)

  datatype Config = Config(settings: Settings, entries: seq<Entry>)

  datatype Router = Router(name: string, rule: string, address: string)

  datatype Error =
    | NoSuffixes
    | UnsafeSuffix(suffix: string)
    | UnsafeMachine
    | UnsafeTailnet
    | MissingField(entry: Entry)
    | UnsafeHostname(hostname: string)

  /******* Routers and rules *******/

  /** The hostname with its dots turned into hyphens. */
  function Flat(hostname: string): (r: string)
    ensures |r| == |hostname|
    ensures forall i :: 0 <= i < |r| ==> r[i] == if hostname[i] == '.' then '-' else hostname[i]
  {
    seq(|hostname|, i requires 0 <= i < |hostname| => if hostname[i] == '.' then '-' else hostname[i])
  }

  function Below(hostname: string): string -> string {
    s => hostname + "." + s
  }

  /** The hosts one container answers to: one per suffix, in sorted order, and then the remote one. */
  ghost function Hosts(settings: Settings, hostname: string): seq<string> {
    Map(Below(hostname), Sort(settings.suffixes)) +
    if settings.Remote() then [hostname + "." + settings.machine + "." + settings.tailnet] else []
  }

  function HostMatcher(host: string): string {
    "Host(`" + host + "`)"
  }

  function Rule(hosts: seq<string>): string {
    Join(Map(HostMatcher, hosts), " || ")
  }

  ghost function RouterOf(settings: Settings, e: Entry): Router {
    Router(Flat(e.hostname), Rule(Hosts(settings, e.hostname)), e.address)
  }

  ghost function RouterFor(settings: Settings): Entry -> Router {
    e => RouterOf(settings, e)
  }

  ghost function Routers(cfg: Config): seq<Router> {
    Map(RouterFor(cfg.settings), cfg.entries)
  }

  predicate SortedByName(rs: seq<Router>) {
    forall i, j :: 0 <= i < j < |rs| ==> Leq(rs[i].name, rs[j].name)
  }

  /** What a correct sort by name may make of the routers; routers of one name may come out in any order. */
  ghost predicate Renders(cfg: Config, out: seq<Router>) {
    SortedByName(out) && multiset(out) == multiset(Routers(cfg))
  }

  /******* Checks *******/

  function FirstUnsafe(suffixes: seq<string>): Option<Error> {
    if suffixes == [] then None
    else if !SafeName(suffixes[0]) then Some(UnsafeSuffix(suffixes[0]))
    else FirstUnsafe(suffixes[1..])
  }

  function EntryProblem(e: Entry): Option<Error> {
    if e.hostname == "" || e.address == "" then Some(MissingField(e))
    else if !SafeName(e.hostname) then Some(UnsafeHostname(e.hostname))
    else None
  }

  function FirstBadEntry(entries: seq<Entry>): Option<Error> {
    if entries == [] then None
    else if EntryProblem(entries[0]).Some? then EntryProblem(entries[0])
    else FirstBadEntry(entries[1..])
  }

  ghost function SettingsProblem(settings: Settings): Option<Error> {
    if settings.suffixes == [] then Some(NoSuffixes)
    else if FirstUnsafe(Sort(settings.suffixes)).Some? then FirstUnsafe(Sort(settings.suffixes))
    else if settings.machine != "" && !SafeName(settings.machine) then Some(UnsafeMachine)
    else if settings.tailnet != "" && !SafeName(settings.tailnet) then Some(UnsafeTailnet)
    else None
  }

  /** The error the program reports, if any. */
  ghost function Problem(cfg: Config): Option<Error> {
    if SettingsProblem(cfg.settings).Some? then SettingsProblem(cfg.settings) else FirstBadEntry(cfg.entries)
  }

  method Render(cfg: Config) returns (r: Result<seq<Router>, Error>)
    ensures r.Failure? ==> Problem(cfg) == Some(r.error)
    ensures r.Success? ==> Problem(cfg) == None && Renders(cfg, r.value)
  {
    if cfg.settings.suffixes == [] { return Failure(NoSuffixes); }
    var suffixes := SortStrings(cfg.settings.suffixes);
    for i := 0 to |suffixes|
      invariant FirstUnsafe(suffixes) == FirstUnsafe(suffixes[i..])
    {
      if !SafeName(suffixes[i]) { return Failure(UnsafeSuffix(suffixes[i])); }
    }
    if cfg.settings.machine != "" && !SafeName(cfg.settings.machine) { return Failure(UnsafeMachine); }
    if cfg.settings.tailnet != "" && !SafeName(cfg.settings.tailnet) { return Failure(UnsafeTailnet); }
    var built := BuildRouters(cfg, suffixes);
    if built.Failure? { return built; }
    var sorted := SortByName(built.value);
    return Success(sorted);
  }

  /** The loop over the containers: check, name, rule. */
  method BuildRouters(cfg: Config, suffixes: seq<string>) returns (r: Result<seq<Router>, Error>)
    requires suffixes == Sort(cfg.settings.suffixes)
    ensures r.Failure? ==> FirstBadEntry(cfg.entries) == Some(r.error)
    ensures r.Success? ==> FirstBadEntry(cfg.entries) == None && r.value == Routers(cfg)
  {
    var routers: seq<Router> := [];
    for i := 0 to |cfg.entries|
      invariant FirstBadEntry(cfg.entries) == FirstBadEntry(cfg.entries[i..])
      invariant routers == Map(RouterFor(cfg.settings), cfg.entries[..i])
    {
      var e := cfg.entries[i];
      if e.hostname == "" || e.address == "" { return Failure(MissingField(e)); }
      if !SafeName(e.hostname) { return Failure(UnsafeHostname(e.hostname)); }
      var matchers := HostMatchers(suffixes, cfg.settings.machine, cfg.settings.tailnet, e.hostname);
      var router := Router(Flat(e.hostname), Join(matchers, " || "), e.address);
      assert router == RouterOf(cfg.settings, e) by { MatchersOfHosts(cfg.settings, e.hostname); }
      RoutersStep(cfg.settings, cfg.entries[..i], e);
      assert cfg.entries[..i + 1] == cfg.entries[..i] + [e];
      routers := routers + [router];
    }
    assert cfg.entries[..|cfg.entries|] == cfg.entries;
    return Success(routers);
  }

  lemma RoutersStep(settings: Settings, entries: seq<Entry>, e: Entry)
    ensures Map(RouterFor(settings), entries + [e]) == Map(RouterFor(settings), entries) + [RouterOf(settings, e)]
  {
  }

  method HostMatchers(suffixes: seq<string>, machine: string, tailnet: string, hostname: string)
    returns (matchers: seq<string>)
    ensures matchers == Map(s => HostMatcher(hostname + "." + s), suffixes) +
                        if machine != "" && tailnet != ""
                        then [HostMatcher(hostname + "." + machine + "." + tailnet)] else []
  {
    matchers := [];
    for i := 0 to |suffixes|
      invariant matchers == Map(s => HostMatcher(hostname + "." + s), suffixes[..i])
    {
      assert suffixes[..i + 1] == suffixes[..i] + [suffixes[i]];
      matchers := matchers + [HostMatcher(hostname + "." + suffixes[i])];
    }
    assert suffixes[..|suffixes|] == suffixes;
    if machine != "" && tailnet != "" {
      matchers := matchers + [HostMatcher(hostname + "." + machine + "." + tailnet)];
    }
  }

  lemma MatchersOfHosts(settings: Settings, hostname: string)
    ensures Map(HostMatcher, Hosts(settings, hostname)) ==
            Map(s => HostMatcher(hostname + "." + s), Sort(settings.suffixes)) +
            if settings.machine != "" && settings.tailnet != ""
            then [HostMatcher(hostname + "." + settings.machine + "." + settings.tailnet)] else []
  {
    MapConcat(HostMatcher, Map(Below(hostname), Sort(settings.suffixes)),
              if settings.Remote() then [hostname + "." + settings.machine + "." + settings.tailnet] else []);
  }

  function InsertByName(r: Router, rs: seq<Router>): (out: seq<Router>)
    requires SortedByName(rs)
    ensures SortedByName(out)
    ensures multiset(out) == multiset(rs) + multiset{r}
  {
    if rs == [] then [r]
    else if Leq(r.name, rs[0].name) then
      NameFront(r, rs);
      [r] + rs
    else
      LeqTotal(r.name, rs[0].name);
      var rest := InsertByName(r, rs[1..]);
      NameBehind(r, rs, rest);
      [rs[0]] + rest
  }

  lemma NameFront(r: Router, rs: seq<Router>)
    requires SortedByName(rs) && rs != [] && Leq(r.name, rs[0].name)
    ensures SortedByName([r] + rs)
  {
    forall j | 0 <= j < |rs| ensures Leq(r.name, rs[j].name) {
      if j > 0 { LeqTransitive(r.name, rs[0].name, rs[j].name); }
    }
  }

  lemma NameBehind(r: Router, rs: seq<Router>, rest: seq<Router>)
    requires SortedByName(rs) && rs != [] && Leq(rs[0].name, r.name)
    requires SortedByName(rest) && multiset(rest) == multiset(rs[1..]) + multiset{r}
    ensures SortedByName([rs[0]] + rest)
    ensures multiset([rs[0]] + rest) == multiset(rs) + multiset{r}
  {
    assert rs == [rs[0]] + rs[1..];
    forall j | 0 <= j < |rest| ensures Leq(rs[0].name, rest[j].name) {
      assert rest[j] in multiset(rest);
      if rest[j] != r {
        assert rest[j] in rs[1..];
        var k :| 0 <= k < |rs[1..]| && rs[1..][k] == rest[j];
        assert rs[k + 1] == rest[j];
      }
    }
  }

  /** The sort by name; only its contract is relied on, which leaves the order within one name open. */
  method SortByName(rs: seq<Router>) returns (out: seq<Router>)
    ensures SortedByName(out) && multiset(out) == multiset(rs)
  {
    out := [];
    for i := 0 to |rs|
      invariant SortedByName(out) && multiset(out) == multiset(rs[..i])
    {
      assert rs[..i + 1] == rs[..i] + [rs[i]];
      out := InsertByName(rs[i], out);
    }
    assert rs[..|rs|] == rs;
  }

  /******* What is accepted *******/

  lemma {:induction false} FirstUnsafeIff(suffixes: seq<string>)
    ensures FirstUnsafe(suffixes) == None <==> forall s :: s in suffixes ==> SafeName(s)
  {
    if suffixes == [] {
    } else {
      FirstUnsafeIff(suffixes[1..]);
      assert forall s :: s in suffixes <==> s == suffixes[0] || s in suffixes[1..];
    }
  }

  lemma {:induction false} FirstBadEntryIff(entries: seq<Entry>)
    ensures FirstBadEntry(entries) == None <==>
            forall e :: e in entries ==> SafeName(e.hostname) && e.address != ""
  {
    if entries == [] {
    } else {
      FirstBadEntryIff(entries[1..]);
      assert forall e :: e in entries <==> e == entries[0] || e in entries[1..];
    }
  }

  /** Settings that render accepts, whatever the containers. */
  predicate Renderable(settings: Settings) {
    && settings.suffixes != []
    && (forall s :: s in settings.suffixes ==> SafeName(s))
    && (settings.machine == "" || SafeName(settings.machine))
    && (settings.tailnet == "" || SafeName(settings.tailnet))
  }

  /** Rendering succeeds exactly on safe settings and routes that all have a safe hostname and an address; one bad hostname fails the whole file. */
  lemma AcceptsIff(cfg: Config)
    ensures Problem(cfg) == None <==>
            Renderable(cfg.settings) && forall e :: e in cfg.entries ==> SafeName(e.hostname) && e.address != ""
    ensures Renderable(cfg.settings) ==> Problem(cfg) == FirstBadEntry(cfg.entries)
  {
    FirstUnsafeIff(Sort(cfg.settings.suffixes));
    SortElements(cfg.settings.suffixes);
    FirstBadEntryIff(cfg.entries);
  }

  /******* Rules can be read back *******/

  /** The hosts of one container: its hostname in front of every suffix, in sorted order, and at the end in front of machine and tailnet if both are set. */
  lemma HostsMeans(settings: Settings, hostname: string)
    ensures var hosts, n := Hosts(settings, hostname), |settings.suffixes|;
            && |hosts| == n + (if settings.machine != "" && settings.tailnet != "" then 1 else 0)
            && |Sort(settings.suffixes)| == n
            && (forall i | 0 <= i < n :: hosts[i] == hostname + "." + Sort(settings.suffixes)[i])
            && (settings.machine != "" && settings.tailnet != "" ==>
                  hosts[n] == hostname + "." + settings.machine + "." + settings.tailnet)
  {
    assert |multiset(Sort(settings.suffixes))| == |multiset(settings.suffixes)|;
  }

  /** The text of a rule. */
  lemma RuleText(host: string, rest: seq<string>)
    ensures Rule([host]) == "Host(`" + host + "`)"
    ensures rest != [] ==> Rule([host] + rest) == "Host(`" + host + "`)" + " || " + Rule(rest)
  {
    var ms, tail := Map(HostMatcher, [host] + rest), Map(HostMatcher, rest);
    assert Map(HostMatcher, [host]) == [HostMatcher(host)];
    assert ms == [HostMatcher(host)] + tail;
    assert ms[1..] == tail;
  }

  /** One router per entry: the hostname with hyphens for dots, the rule for its hosts, its address. */
  lemma RoutersMean(cfg: Config, k: nat)
    requires k < |cfg.entries|
    ensures |Routers(cfg)| == |cfg.entries|
    ensures var e, r := cfg.entries[k], Routers(cfg)[k];
            && r.address == e.address && r.rule == Rule(Hosts(cfg.settings, e.hostname))
            && |r.name| == |e.hostname|
            && forall i :: 0 <= i < |r.name| ==> r.name[i] == if e.hostname[i] == '.' then '-' else e.hostname[i]
  {
  }

  /** Which error is reported: the checks in order, suffixes in sorted order, containers as listed. */
  lemma {:induction false} ProblemMeans(cfg: Config)
    ensures Problem(cfg) == Some(NoSuffixes) <==> cfg.settings.suffixes == []
    ensures var suffixes := Sort(cfg.settings.suffixes);
            forall k | 0 <= k < |suffixes| && (forall i :: 0 <= i < k ==> SafeName(suffixes[i])) ::
              !SafeName(suffixes[k]) ==> Problem(cfg) == Some(UnsafeSuffix(suffixes[k]))
    ensures var fine := cfg.settings.suffixes != [] && forall s :: s in cfg.settings.suffixes ==> SafeName(s);
            var machineFine := cfg.settings.machine == "" || SafeName(cfg.settings.machine);
            var tailnetFine := cfg.settings.tailnet == "" || SafeName(cfg.settings.tailnet);
            && (fine && !machineFine ==> Problem(cfg) == Some(UnsafeMachine))
            && (fine && machineFine && !tailnetFine ==> Problem(cfg) == Some(UnsafeTailnet))
            && (fine && machineFine && tailnetFine ==>
                  forall k | 0 <= k < |cfg.entries| && (forall i :: 0 <= i < k ==> EntryFine(cfg.entries[i])) ::
                    var e := cfg.entries[k];
                    && (e.hostname == "" || e.address == "" ==> Problem(cfg) == Some(MissingField(e)))
                    && (e.hostname != "" && e.address != "" && !SafeName(e.hostname) ==>
                          Problem(cfg) == Some(UnsafeHostname(e.hostname))))
  {
    var suffixes := Sort(cfg.settings.suffixes);
    SortElements(cfg.settings.suffixes);
    assert |multiset(suffixes)| == |multiset(cfg.settings.suffixes)|;
    FirstUnsafeIff(suffixes);
    ProblemKinds(suffixes, cfg.entries);
    forall k | 0 <= k < |suffixes| && (forall i :: 0 <= i < k ==> SafeName(suffixes[i])) && !SafeName(suffixes[k])
      ensures FirstUnsafe(suffixes) == Some(UnsafeSuffix(suffixes[k]))
    {
      FirstUnsafeAt(suffixes, k);
    }
    forall k | 0 <= k < |cfg.entries| && (forall i :: 0 <= i < k ==> EntryFine(cfg.entries[i])) && !EntryFine(cfg.entries[k])
      ensures FirstBadEntry(cfg.entries) == EntryProblem(cfg.entries[k])
    {
      FirstBadEntryAt(cfg.entries, k);
    }
  }

  predicate EntryFine(e: Entry) { SafeName(e.hostname) && e.address != "" }

  lemma {:induction false} ProblemKinds(suffixes: seq<string>, entries: seq<Entry>)
    ensures FirstUnsafe(suffixes).Some? ==> FirstUnsafe(suffixes).value.UnsafeSuffix?
    ensures FirstBadEntry(entries).Some? ==>
              FirstBadEntry(entries).value.MissingField? || FirstBadEntry(entries).value.UnsafeHostname?
  {
    if suffixes == [] {
    } else {
      ProblemKinds(suffixes[1..], entries);
    }
    if entries == [] {
    } else {
      ProblemKinds(suffixes, entries[1..]);
    }
  }

  lemma {:induction false} FirstUnsafeAt(suffixes: seq<string>, k: nat)
    requires k < |suffixes| && !SafeName(suffixes[k]) && forall i :: 0 <= i < k ==> SafeName(suffixes[i])
    ensures FirstUnsafe(suffixes) == Some(UnsafeSuffix(suffixes[k]))
  {
    if k > 0 {
      assert forall i :: 0 <= i < k - 1 ==> suffixes[1..][i] == suffixes[i + 1];
      FirstUnsafeAt(suffixes[1..], k - 1);
    }
  }

  lemma {:induction false} FirstBadEntryAt(entries: seq<Entry>, k: nat)
    requires k < |entries| && !EntryFine(entries[k]) && forall i :: 0 <= i < k ==> EntryFine(entries[i])
    ensures FirstBadEntry(entries) == EntryProblem(entries[k])
  {
    if k > 0 {
      assert forall i :: 0 <= i < k - 1 ==> entries[1..][i] == entries[i + 1];
      FirstBadEntryAt(entries[1..], k - 1);
    }
  }

  /** Takes the host out of Host(`...`). */
  function MatchedHost(matcher: string): string {
    if |matcher| >= 8 && HasPrefix(matcher, "Host(`") && HasSuffix(matcher, "`)") then matcher[6..|matcher| - 2] else ""
  }

  function ParseRule(rule: string): seq<string> {
    Map(MatchedHost, Split(rule, " || "))
  }

  predicate HostText(h: string) {
    forall i :: 0 <= i < |h| ==> LabelChar(h[i])
  }

  /** Splitting a rule at ` || ` and stripping the matchers gives the hosts back. */
  lemma RuleRoundTrip(hosts: seq<string>)
    requires hosts != [] && forall h :: h in hosts ==> HostText(h)
    ensures ParseRule(Rule(hosts)) == hosts
  {
    var matchers := Map(HostMatcher, hosts);
    forall m | m in matchers ensures ' ' !in m {
      var k :| 0 <= k < |hosts| && m == HostMatcher(hosts[k]);
      assert hosts[k] in hosts;
      assert ' ' !in "Host(`" && ' ' !in "`)";
    }
    SplitOfJoin(matchers, " || ");
    forall k | 0 <= k < |hosts| ensures MatchedHost(matchers[k]) == hosts[k] {
      var m := HostMatcher(hosts[k]);
      assert m[6..|m| - 2] == hosts[k];
    }
  }

  lemma RuleInjective(hosts: seq<string>, hosts': seq<string>)
    requires hosts != [] && forall h :: h in hosts ==> HostText(h)
    requires hosts' != [] && forall h :: h in hosts' ==> HostText(h)
    requires Rule(hosts) == Rule(hosts')
    ensures hosts == hosts'
  {
    RuleRoundTrip(hosts);
    RuleRoundTrip(hosts');
  }

  lemma HostsAreText(settings: Settings, hostname: string)
    requires Renderable(settings) && SafeName(hostname)
    ensures Hosts(settings, hostname) != []
    ensures forall h :: h in Hosts(settings, hostname) ==> HostText(h)
  {
    var sorted := Sort(settings.suffixes);
    assert |multiset(sorted)| == |multiset(settings.suffixes)|;
    SortElements(settings.suffixes);
    forall k | 0 <= k < |sorted| ensures HostText(Map(Below(hostname), sorted)[k]) {
      assert sorted[k] in settings.suffixes;
      TextBelow(hostname, sorted[k]);
    }
    if settings.Remote() {
      TextBelow(hostname, settings.machine);
      TextBelow(hostname + "." + settings.machine, settings.tailnet);
    }
  }

  lemma TextBelow(a: string, b: string)
    requires HostText(a) && HostText(b)
    ensures HostText(a + "." + b)
  {
  }

  /** In a rendered file every rule reads back as exactly the hosts of its container. */
  lemma RenderedRule(cfg: Config, e: Entry)
    requires Problem(cfg) == None && e in cfg.entries
    ensures ParseRule(RouterOf(cfg.settings, e).rule) == Hosts(cfg.settings, e.hostname)
  {
    AcceptsIff(cfg);
    HostsAreText(cfg.settings, e.hostname);
    RuleRoundTrip(Hosts(cfg.settings, e.hostname));
  }

  /******* Determinism *******/

  /** Routers of one name are one router. */
  ghost predicate NamesIdentify(rs: seq<Router>) {
    forall r, r' | r in rs && r' in rs :: r.name == r'.name ==> r == r'
  }

  lemma SortedByNameUnique(a: seq<Router>, b: seq<Router>)
    requires SortedByName(a) && SortedByName(b) && multiset(a) == multiset(b) && NamesIdentify(a)
    ensures a == b
  {
    var name := (r: Router) => r.name;
    MapPermutes(name, a, b);
    SortedUnique(Map(name, a), Map(name, b));
    SameRouters(a, b);
    assert |multiset(a)| == |a| && |multiset(b)| == |b|;
    forall i | 0 <= i < |a| ensures a[i] == b[i] {
      assert Map(name, a)[i] == Map(name, b)[i];
      assert a[i] in a && b[i] in b;
    }
  }

  lemma SwapWithinName(out: seq<Router>, i: nat, j: nat) returns (other: seq<Router>)
    requires SortedByName(out) && i < j < |out| && out[i].name == out[j].name && out[i] != out[j]
    ensures SortedByName(other) && multiset(other) == multiset(out) && other != out
  {
    other := out[i := out[j]][j := out[i]];
    forall k, l | 0 <= k < l < |other| ensures Leq(other[k].name, other[l].name) {
      assert other[k].name == out[k].name && other[l].name == out[l].name;
    }
    assert other[i] != out[i];
  }

  /** Every sort algorithm gives the same file exactly when equal router names mean equal routers. */
  lemma DeterministicIff(cfg: Config)
    ensures (forall a, b | Renders(cfg, a) && Renders(cfg, b) :: a == b) <==> NamesIdentify(Routers(cfg))
  {
    var rs := Routers(cfg);
    if NamesIdentify(rs) {
      forall a, b | Renders(cfg, a) && Renders(cfg, b) ensures a == b {
        SameRouters(a, rs);
        SortedByNameUnique(a, b);
      }
    } else {
      var a, b := TwoRenderings(cfg);
    }
  }

  lemma TwoRenderings(cfg: Config) returns (out: seq<Router>, other: seq<Router>)
    requires !NamesIdentify(Routers(cfg))
    ensures Renders(cfg, out) && Renders(cfg, other) && out != other
  {
    out, other := TwoSorts(Routers(cfg));
  }

  lemma TwoSorts(rs: seq<Router>) returns (out: seq<Router>, other: seq<Router>)
    requires !NamesIdentify(rs)
    ensures SortedByName(out) && multiset(out) == multiset(rs)
    ensures SortedByName(other) && multiset(other) == multiset(rs)
    ensures out != other
  {
    out := SortRouters(rs);
    SameRouters(out, rs);
    var r, r' :| r in rs && r' in rs && r.name == r'.name && r != r';
    assert r in out && r' in out;
    var i :| 0 <= i < |out| && out[i] == r;
    var j :| 0 <= j < |out| && out[j] == r';
    if i < j { other := SwapWithinName(out, i, j); } else { other := SwapWithinName(out, j, i); }
  }

  lemma SameRouters(a: seq<Router>, b: seq<Router>)
    requires multiset(a) == multiset(b)
    ensures forall r :: r in a <==> r in b
  {
    forall r ensures r in a <==> r in b {
      assert r in multiset(a) <==> r in multiset(b);
    }
  }

  lemma {:induction false} SortRouters(rs: seq<Router>) returns (out: seq<Router>)
    ensures SortedByName(out) && multiset(out) == multiset(rs)
  {
    if rs == [] {
      out := [];
    } else {
      assert rs == [rs[0]] + rs[1..];
      var rest := SortRouters(rs[1..]);
      out := InsertByName(rs[0], rest);
    }
  }

  function FlatName(e: Entry): string { Flat(e.hostname) }

  function NameList(entries: seq<Entry>): seq<string> { Map(FlatName, entries) }

  /** Permuting containers and suffixes changes nothing about what may be rendered. */
  lemma {:induction false} RenderPermutes(cfg: Config, cfg': Config, out: seq<Router>)
    requires cfg.settings.machine == cfg'.settings.machine && cfg.settings.tailnet == cfg'.settings.tailnet
    requires multiset(cfg.settings.suffixes) == multiset(cfg'.settings.suffixes)
    requires multiset(cfg.entries) == multiset(cfg'.entries)
    ensures Renders(cfg, out) <==> Renders(cfg', out)
  {
    SortedUnique(Sort(cfg.settings.suffixes), Sort(cfg'.settings.suffixes));
    var f, f' := RouterFor(cfg.settings), RouterFor(cfg'.settings);
    MapPermutes(f, cfg.entries, cfg'.entries);
    forall e ensures f(e) == f'(e) {
      assert Hosts(cfg.settings, e.hostname) == Hosts(cfg'.settings, e.hostname);
    }
    assert Map(f, cfg'.entries) == Map(f', cfg'.entries);
  }

  /** With distinct flattened names the file does not depend on the order of containers or suffixes, nor on the sort. */
  lemma RenderCanonical(cfg: Config, cfg': Config, out: seq<Router>, out': seq<Router>)
    requires cfg.settings.machine == cfg'.settings.machine && cfg.settings.tailnet == cfg'.settings.tailnet
    requires multiset(cfg.settings.suffixes) == multiset(cfg'.settings.suffixes)
    requires multiset(cfg.entries) == multiset(cfg'.entries)
    requires NoDup(NameList(cfg.entries))
    requires Renders(cfg, out) && Renders(cfg', out')
    ensures out == out'
  {
    RenderPermutes(cfg, cfg', out');
    DistinctNamesIdentify(cfg);
    DeterministicIff(cfg);
  }

  lemma DistinctNamesIdentify(cfg: Config)
    requires NoDup(NameList(cfg.entries))
    ensures NamesIdentify(Routers(cfg))
  {
    var rs, names := Routers(cfg), NameList(cfg.entries);
    assert forall i :: 0 <= i < |rs| ==> rs[i].name == names[i];
    IndexedNamesIdentify(rs, names);
  }

  lemma IndexedNamesIdentify(rs: seq<Router>, names: seq<string>)
    requires NoDup(names) && |rs| == |names|
    requires forall i :: 0 <= i < |rs| ==> rs[i].name == names[i]
    ensures NamesIdentify(rs)
  {
    forall r, r' | r in rs && r' in rs && r.name == r'.name ensures r == r' {
      var i :| 0 <= i < |rs| && rs[i] == r;
      var j :| 0 <= j < |rs| && rs[j] == r';
      assert names[i] == names[j];
    }
  }

  /******* Router keys *******/

  /** The two keys the template emits for a router. */
  function KeysOf(names: seq<string>): seq<string> {
    if names == [] then [] else [names[0], names[0] + "-http"] + KeysOf(names[1..])
  }

  function EmittedKeys(out: seq<Router>): seq<string> {
    KeysOf(Map((r: Router) => r.name, out))
  }

  predicate NoneRedirects(names: seq<string>) {
    forall a, b | a in names && b in names :: a != b + "-http"
  }

  lemma {:induction false} KeysElements(names: seq<string>, k: string)
    ensures k in KeysOf(names) <==> exists n :: n in names && (k == n || k == n + "-http")
  {
    if names == [] {
    } else {
      KeysElements(names[1..], k);
      assert forall n :: n in names <==> n == names[0] || n in names[1..];
    }
  }

  lemma SuffixInjective(a: string, b: string)
    ensures a + "-http" == b + "-http" ==> a == b
    ensures a != a + "-http"
  {
    if a + "-http" == b + "-http" {
      assert a == (a + "-http")[..|a + "-http"| - 5] == (b + "-http")[..|b + "-http"| - 5] == b;
    }
    assert |a + "-http"| == |a| + 5;
  }

  /** Router keys are unique exactly when the names are and none is another followed by `-http`. */
  lemma {:induction false} KeysUniqueIff(names: seq<string>)
    ensures NoDup(KeysOf(names)) <==> NoDup(names) && NoneRedirects(names)
  {
    if names == [] {
    } else {
      var n, rest := names[0], names[1..];
      assert names == [n] + rest;
      KeysUniqueIff(rest);
      SuffixInjective(n, n);
      NoDupConcat([n, n + "-http"], KeysOf(rest));
      NoDupConcat([n], rest);
      KeysElements(rest, n);
      KeysElements(rest, n + "-http");
      forall b ensures n + "-http" == b + "-http" <==> n == b { SuffixInjective(n, b); }
      assert NoDup([n, n + "-http"]);
      assert forall a :: a in names <==> a == n || a in rest;
    }
  }

  /** For a rendered file, said of the containers that went into it. */
  lemma RenderedKeysUniqueIff(cfg: Config, out: seq<Router>)
    requires Renders(cfg, out)
    ensures NoDup(EmittedKeys(out)) <==> NoDup(NameList(cfg.entries)) && NoneRedirects(NameList(cfg.entries))
  {
    var name := (r: Router) => r.name;
    var names, input := Map(name, out), NameList(cfg.entries);
    assert Map(name, Routers(cfg)) == input;
    MapPermutes(name, out, Routers(cfg));
    KeysUniqueIff(names);
    NoDupCounts(names);
    NoDupCounts(input);
    forall n ensures n in names <==> n in input {
      assert n in multiset(names) <==> n in multiset(input);
    }
  }

  /** Different hostnames can share a router name. */
  lemma FlatCollision(a: string, b: string)
    requires SafeName(a) && SafeName(b)
    ensures SafeName(a + "." + b) && SafeName(a + "-" + b) && a + "." + b != a + "-" + b
    ensures Flat(a + "." + b) == Flat(a + "-" + b)
  {
    assert (a + "." + b)[|a|] != (a + "-" + b)[|a|];
  }
}
