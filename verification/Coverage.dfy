/** Which hosts of a config file the certificate covers. */
module Coverage {
  import opened Text
  import opened Labels
  import opened Sans
  import opened Wildcards
  import opened Reissue
  import opened Reconcile
  import I = Inspect
  import R = Render

  function NamesOf(d: Disk): seq<string> {
    if d.cert.Complete? then d.cert.value.names else []
  }

  /** The certificate has every name that these settings and projects ask for. */
  ghost predicate HasSans(names: seq<string>, cfg: Settings, projects: seq<string>) {
    forall x :: IsSan(cfg, projects, x) ==> x in names
  }

  /** Every name is a wildcard, as certgen issues them. */
  predicate AllWildcards(names: seq<string>) {
    forall n :: n in names ==> IsWildcard(n)
  }

  predicate IsWildcard(n: string) { |n| >= 2 && n[..2] == "*." }

  lemma WildcardBase(n: string)
    ensures IsWildcard(n) <==> |n| >= 2 && n == Wildcard(n[2..])
  {
    if |n| >= 2 { assert n == n[..2] + n[2..]; }
  }

  /** Routed, and called by one label: the service of a compose container, the container name otherwise. */
  ghost predicate Plain(c: I.Container, network: string) {
    Routed(c, network) && OneLabel(I.OwnName(c, c.config.value))
  }

  /** The wildcards the hosts of a container need. */
  predicate Needs(cfg: Settings, c: I.Container, b: Base)
    requires c.config.Some?
  {
    match b
    case Suffix(s) => !I.Compose(c.config.value) && s in cfg.suffixes
    case ProjectSuffix(p, s) => I.Compose(c.config.value) && p == I.Project(c) && s in cfg.suffixes
    case Machine => !I.Compose(c.config.value) && cfg.Remote()
    case ProjectMachine(p) => I.Compose(c.config.value) && p == I.Project(c) && cfg.Remote()
  }

  /** Every host of every plain container is covered. */
  ghost predicate PublishedCovered(pub: Publication, names: seq<string>) {
    forall c | c in pub.containers && Plain(c, pub.network) :: HostsCovered(pub.settings, c, pub.network, names)
  }

  ghost predicate HostsCovered(cfg: Settings, c: I.Container, network: string, names: seq<string>)
    requires Routed(c, network)
  {
    forall h :: h in R.Hosts(cfg, I.Inspected(c, network).hostname) ==> Covered(names, h)
  }

  /******* Hosts and the wildcards they need *******/

  /** The label in front of the wildcard's base. */
  function FirstLabel(c: I.Container): string
    requires c.config.Some?
  {
    I.ToLower(I.OwnName(c, c.config.value))
  }

  lemma FirstLabelIsOne(c: I.Container, network: string)
    requires Plain(c, network)
    ensures OneLabel(FirstLabel(c))
  {
    I.ToLowerDots(I.OwnName(c, c.config.value));
  }

  function HostFor(cfg: Settings, c: I.Container, b: Base): string
    requires c.config.Some?
  {
    FirstLabel(c) + "." + Dotted(cfg.machine, cfg.tailnet, b)
  }

  function LocalBase(c: I.Container, s: string): Base
    requires c.config.Some?
  {
    if I.Compose(c.config.value) then ProjectSuffix(I.Project(c), s) else Suffix(s)
  }

  function RemoteBase(c: I.Container): Base
    requires c.config.Some?
  {
    if I.Compose(c.config.value) then ProjectMachine(I.Project(c)) else Machine
  }

  lemma RoutedHostname(c: I.Container, network: string)
    requires Routed(c, network)
    requires I.Compose(c.config.value) ==> ValidateLabel(I.Project(c))
    ensures I.Inspected(c, network).hostname ==
            if I.Compose(c.config.value) then FirstLabel(c) + "." + I.Project(c) else FirstLabel(c)
  {
    I.HostnameShape(c, c.config.value);
  }

  lemma BelowProject(l: string, p: string, s: string, m: string, t: string)
    ensures l + "." + p + "." + s == l + "." + Dotted(m, t, ProjectSuffix(p, s))
  {
    assert l + "." + p + "." + s == l + "." + (p + "." + s);
  }

  lemma BelowMachine(l: string, m: string, t: string)
    ensures l + "." + m + "." + t == l + "." + Dotted(m, t, Machine)
  {
    assert l + "." + m + "." + t == l + "." + (m + "." + t);
  }

  lemma BelowProjectMachine(l: string, p: string, m: string, t: string)
    ensures l + "." + p + "." + m + "." + t == l + "." + Dotted(m, t, ProjectMachine(p))
  {
    assert l + "." + p + "." + m + "." + t == l + "." + (p + "." + m + "." + t);
  }

  lemma {:induction false} LocalHost(cfg: Settings, c: I.Container, network: string, s: string)
    requires Routed(c, network)
    requires I.Compose(c.config.value) ==> ValidateLabel(I.Project(c))
    ensures I.Inspected(c, network).hostname + "." + s == HostFor(cfg, c, LocalBase(c, s))
  {
    RoutedHostname(c, network);
    BelowProject(FirstLabel(c), I.Project(c), s, cfg.machine, cfg.tailnet);
  }

  lemma {:induction false} RemoteHost(cfg: Settings, c: I.Container, network: string)
    requires Routed(c, network)
    requires I.Compose(c.config.value) ==> ValidateLabel(I.Project(c))
    ensures I.Inspected(c, network).hostname + "." + cfg.machine + "." + cfg.tailnet == HostFor(cfg, c, RemoteBase(c))
  {
    RoutedHostname(c, network);
    BelowMachine(FirstLabel(c), cfg.machine, cfg.tailnet);
    BelowProjectMachine(FirstLabel(c), I.Project(c), cfg.machine, cfg.tailnet);
  }

  /** The hosts of a routed container are its first label in front of each base it needs. */
  lemma HostsAreNeeds(cfg: Settings, c: I.Container, network: string)
    requires Routed(c, network)
    requires I.Compose(c.config.value) ==> ValidateLabel(I.Project(c))
    ensures forall b :: Needs(cfg, c, b) ==> HostFor(cfg, c, b) in R.Hosts(cfg, I.Inspected(c, network).hostname)
    ensures forall h :: h in R.Hosts(cfg, I.Inspected(c, network).hostname) ==>
              exists b :: Needs(cfg, c, b) && h == HostFor(cfg, c, b)
  {
    var hostname := I.Inspected(c, network).hostname;
    var sorted := Sort(cfg.suffixes);
    var local := Map(R.Below(hostname), sorted);
    SortElements(cfg.suffixes);
    RemoteHost(cfg, c, network);
    forall b | Needs(cfg, c, b) ensures HostFor(cfg, c, b) in R.Hosts(cfg, hostname) {
      if b.Suffix? || b.ProjectSuffix? {
        assert b == LocalBase(c, b.suffix);
        LocalHost(cfg, c, network, b.suffix);
        var k :| 0 <= k < |sorted| && sorted[k] == b.suffix;
        assert local[k] == HostFor(cfg, c, b);
        assert R.Hosts(cfg, hostname)[k] == local[k];
      } else {
        assert b == RemoteBase(c);
        assert R.Hosts(cfg, hostname)[|local|] == HostFor(cfg, c, b);
      }
    }
    forall h | h in R.Hosts(cfg, hostname) ensures exists b :: Needs(cfg, c, b) && h == HostFor(cfg, c, b) {
      if h in local {
        var k :| 0 <= k < |local| && local[k] == h;
        LocalHost(cfg, c, network, sorted[k]);
        assert sorted[k] in cfg.suffixes;
        assert Needs(cfg, c, LocalBase(c, sorted[k]));
      } else {
        assert Needs(cfg, c, RemoteBase(c));
      }
    }
  }

  /** For a certificate of wildcards, a host is covered exactly when the wildcard one label up is in it. */
  lemma CoveredBelowIff(names: seq<string>, l: string, d: string)
    requires AllWildcards(names) && OneLabel(l) && ValidateLabel(d)
    ensures Covered(names, l + "." + d) <==> Wildcard(d) in names
  {
    if Wildcard(d) in names { WildcardCovers(l, d); }
    if Covered(names, l + "." + d) {
      var n :| n in names && Matches(n, l + "." + d);
      WildcardBase(n);
      var l' := WildcardCoversOnly(n[2..], l + "." + d);
      FirstLabelUnique(l, d, l', n[2..]);
    }
  }

  lemma NeedsAreValid(cfg: Settings, projects: seq<string>, c: I.Container, b: Base)
    requires Accepted(cfg, projects) && c.config.Some? && Needs(cfg, c, b)
    requires I.Project(c) != "" ==> I.Project(c) in projects
    ensures IsBase(cfg, projects, b)
    ensures ValidateLabel(Dotted(cfg.machine, cfg.tailnet, b))
  {
    assert IsBase(cfg, projects, b);
    BaseValid(cfg, projects, b);
  }

  /** A plain container is covered exactly when the certificate has the wildcards it needs. */
  lemma {:induction false} HostsCoveredIff(cfg: Settings, projects: seq<string>, c: I.Container, network: string, names: seq<string>)
    requires Accepted(cfg, projects) && Plain(c, network) && AllWildcards(names)
    requires I.Project(c) != "" ==> I.Project(c) in projects
    ensures HostsCovered(cfg, c, network, names) <==>
            forall b :: Needs(cfg, c, b) ==> Wildcard(Dotted(cfg.machine, cfg.tailnet, b)) in names
  {
    FirstLabelIsOne(c, network);
    HostsAreNeeds(cfg, c, network);
    forall b | Needs(cfg, c, b)
      ensures Covered(names, HostFor(cfg, c, b)) <==> Wildcard(Dotted(cfg.machine, cfg.tailnet, b)) in names
    {
      NeedsAreValid(cfg, projects, c, b);
      CoveredBelowIff(names, FirstLabel(c), Dotted(cfg.machine, cfg.tailnet, b));
    }
  }

  /** The containers of the file belong to these projects, or to none. */
  predicate Within(cs: seq<I.Container>, projects: seq<string>) {
    forall c :: c in cs && I.Project(c) != "" ==> I.Project(c) in projects
  }

  lemma ProjectsAreWithin(cs: seq<I.Container>)
    ensures Within(cs, I.Projects(cs))
  {
    forall c | c in cs && I.Project(c) != "" ensures I.Project(c) in I.Projects(cs) {
      assert I.Project(c) in I.ProjectSet(cs);
    }
  }

  /** A file is covered exactly when the certificate has the wildcards its plain containers need. */
  lemma {:induction false} PublishedCoveredIff(pub: Publication, projects: seq<string>, names: seq<string>)
    requires Accepted(pub.settings, projects) && Within(pub.containers, projects) && AllWildcards(names)
    ensures PublishedCovered(pub, names) <==>
            forall c, b | c in pub.containers && Plain(c, pub.network) && Needs(pub.settings, c, b) ::
              Wildcard(Dotted(pub.settings.machine, pub.settings.tailnet, b)) in names
  {
    forall c | c in pub.containers && Plain(c, pub.network)
      ensures HostsCovered(pub.settings, c, pub.network, names) <==>
              forall b :: Needs(pub.settings, c, b) ==>
                Wildcard(Dotted(pub.settings.machine, pub.settings.tailnet, b)) in names
    {
      HostsCoveredIff(pub.settings, projects, c, pub.network, names);
    }
  }

  /** A certificate with all SANs of some projects covers every file for those projects, whenever it is published. */
  lemma {:induction false} SansCoverPublication(pub: Publication, projects: seq<string>, names: seq<string>)
    requires Accepted(pub.settings, projects) && Within(pub.containers, projects)
    requires AllWildcards(names) && HasSans(names, pub.settings, projects)
    ensures PublishedCovered(pub, names)
  {
    var cfg := pub.settings;
    forall c, b | c in pub.containers && Plain(c, pub.network) && Needs(cfg, c, b)
      ensures Wildcard(Dotted(cfg.machine, cfg.tailnet, b)) in names
    {
      NeedsAreValid(cfg, projects, c, b);
      assert IsSan(cfg, projects, Wildcard(Dotted(cfg.machine, cfg.tailnet, b)));
    }
    PublishedCoveredIff(pub, projects, names);
  }

  /** A dotted name is covered only if what follows its first label happens to be certified itself. */
  lemma {:induction false} DottedNameIff(cfg: Settings, projects: seq<string>, names: seq<string>, l: string, rest: string, b: Base)
    requires Accepted(cfg, projects) && multiset(names) == multiset(SanList(cfg, projects))
    requires OneLabel(l) && ValidateLabel(rest) && IsBase(cfg, projects, b)
    ensures var d := Dotted(cfg.machine, cfg.tailnet, b);
            Covered(names, l + "." + (rest + "." + d)) <==> IsSan(cfg, projects, Wildcard(rest + "." + d))
  {
    var d := Dotted(cfg.machine, cfg.tailnet, b);
    BaseValid(cfg, projects, b);
    DotJoinValid(rest, d);
    IssuedNames(cfg, projects, names);
    CoveredBelowIff(names, l, rest + "." + d);
  }

  /** What a certificate issued for a request holds. */
  lemma {:induction false} IssuedNames(cfg: Settings, projects: seq<string>, names: seq<string>)
    requires multiset(names) == multiset(SanList(cfg, projects))
    ensures forall x :: x in names <==> IsSan(cfg, projects, x)
    ensures AllWildcards(names)
  {
    SanElements(cfg, projects);
    forall x ensures x in names <==> IsSan(cfg, projects, x) {
      assert x in names <==> x in multiset(SanList(cfg, projects));
    }
    forall n | n in names ensures IsWildcard(n) {
      var b :| IsBase(cfg, projects, b) && n == Wildcard(Dotted(cfg.machine, cfg.tailnet, b));
      assert n[..2] == "*.";
    }
  }

  /** The current file is covered by the current certificate. */
  ghost predicate CurrentFileCovered(w: World) {
    w.published.Some? && PublishedCovered(w.published.value, NamesOf(w.disk))
  }

  /** The file went through render without a complaint. */
  ghost predicate Rendered(pub: Publication) {
    var cfg := R.Config(pub.settings, Entries(pub.containers, pub.network));
    R.Problem(cfg) == None && R.Renders(cfg, pub.routers)
  }

  /** Every host that a router's rule mentions is covered. */
  ghost predicate RuleCovered(r: R.Router, names: seq<string>) {
    forall h :: h in R.ParseRule(r.rule) ==> Covered(names, h)
  }

  /** In a covered file, the router of every plain container mentions covered hosts only. */
  lemma RulesCovered(pub: Publication, names: seq<string>, c: I.Container)
    requires Rendered(pub) && PublishedCovered(pub, names)
    requires c in pub.containers && Plain(c, pub.network)
    ensures var r := RouterOfContainer(pub.settings, pub.network, c);
            r in pub.routers && RuleCovered(r, names)
  {
    FileHoldsRoutes(pub, c);
    assert HostsCovered(pub.settings, c, pub.network, names);
  }
}
