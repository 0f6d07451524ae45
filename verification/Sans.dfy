/** The SAN list of the wildcard certificate. */
module Sans {
  import opened Text
  import opened Labels

  /** What the discoverer is configured with and sends along with every request. */
  datatype Settings = Settings(suffixes: seq<string>, machine: string, tailnet: string) {
    predicate Remote() { machine != "" && tailnet != "" }
  }

  /** What a wildcard can be issued for. */
  datatype Base =
    | Suffix(suffix: string)
    | ProjectSuffix(project: string, suffix: string)
    | Machine
    | ProjectMachine(project: string)

  function Dotted(machine: string, tailnet: string, b: Base): string {
    match b
    case Suffix(s) => s
    case ProjectSuffix(p, s) => p + "." + s
    case Machine => machine + "." + tailnet
    case ProjectMachine(p) => p + "." + machine + "." + tailnet
  }

  function Wildcard(d: string): string {
    "*." + d
  }

  function Namer(machine: string, tailnet: string): Base -> string {
    b => Wildcard(Dotted(machine, tailnet, b))
  }

  /******* The list in the order the loops build it *******/

  function ProjectAt(suffix: string): string -> Base {
    p => ProjectSuffix(p, suffix)
  }

  function SuffixRow(s: string, projects: seq<string>): seq<Base> {
    [Suffix(s)] + Map(ProjectAt(s), projects)
  }

  function SuffixRows(suffixes: seq<string>, projects: seq<string>): seq<Base> {
    if suffixes == [] then [] else
      SuffixRows(suffixes[..|suffixes| - 1], projects) + SuffixRow(suffixes[|suffixes| - 1], projects)
  }

  function ProjectRemote(): string -> Base {
    p => ProjectMachine(p)
  }

  function RemoteRow(cfg: Settings, projects: seq<string>): seq<Base> {
    if cfg.Remote() then [Machine] + Map(ProjectRemote(), projects) else []
  }

  function BaseList(cfg: Settings, projects: seq<string>): seq<Base> {
    SuffixRows(cfg.suffixes, projects) + RemoteRow(cfg, projects)
  }

  function Names(cfg: Settings, projects: seq<string>): seq<string> {
    Map(Namer(cfg.machine, cfg.tailnet), BaseList(cfg, projects))
  }

  ghost function SanList(cfg: Settings, projects: seq<string>): seq<string> {
    Sort(Names(cfg, Dedup(projects)))
  }

  /** A row is its first name followed by one name per project. */
  lemma RowNames(f: Base -> string, g: string -> Base, h: string -> string, b: Base, ps: seq<string>)
    requires forall p :: f(g(p)) == h(p)
    ensures Map(f, [b] + Map(g, ps)) == [f(b)] + Map(h, ps)
  {
  }

  function SuffixName(s: string): string -> string {
    p => "*." + p + "." + s
  }

  lemma {:induction false} SuffixRowNames(machine: string, tailnet: string, s: string, projects: seq<string>)
    ensures Map(Namer(machine, tailnet), SuffixRow(s, projects)) == ["*." + s] + Map(SuffixName(s), projects)
  {
    forall p ensures Namer(machine, tailnet)(ProjectAt(s)(p)) == SuffixName(s)(p) {
      assert "*." + (p + "." + s) == "*." + p + "." + s;
    }
    RowNames(Namer(machine, tailnet), ProjectAt(s), SuffixName(s), Suffix(s), projects);
  }

  function RemoteName(machine: string, tailnet: string): string -> string {
    p => "*." + p + "." + machine + "." + tailnet
  }

  lemma {:induction false} RemoteRowNames(machine: string, tailnet: string, projects: seq<string>)
    requires machine != "" && tailnet != ""
    ensures Map(Namer(machine, tailnet), RemoteRow(Settings([], machine, tailnet), projects)) ==
            ["*." + machine + "." + tailnet] + Map(RemoteName(machine, tailnet), projects)
  {
    forall p ensures Namer(machine, tailnet)(ProjectRemote()(p)) == RemoteName(machine, tailnet)(p) {
      ProjectMachineName(machine, tailnet, p);
    }
    MachineName(machine, tailnet);
    RowNames(Namer(machine, tailnet), ProjectRemote(), RemoteName(machine, tailnet), Machine, projects);
  }

  lemma MachineName(machine: string, tailnet: string)
    ensures Namer(machine, tailnet)(Machine) == "*." + machine + "." + tailnet
  {
    assert "*." + (machine + "." + tailnet) == "*." + machine + "." + tailnet;
  }

  lemma ProjectMachineName(machine: string, tailnet: string, p: string)
    ensures Namer(machine, tailnet)(ProjectMachine(p)) == RemoteName(machine, tailnet)(p)
  {
    assert "*." + (p + "." + machine + "." + tailnet) == "*." + p + "." + machine + "." + tailnet;
  }

  /** Collapses repeated projects, remembering the ones already seen. */
  method Unique(projects: seq<string>) returns (unique: seq<string>)
    ensures unique == Dedup(projects)
  {
    var seen: set<string> := {};
    unique := [];
    for i := 0 to |projects|
      invariant unique == Dedup(projects[..i])
      invariant forall x :: x in seen <==> x in unique
    {
      assert projects[..i + 1][..i] == projects[..i];
      if projects[i] !in seen {
        seen := seen + {projects[i]};
        unique := unique + [projects[i]];
      }
    }
    assert projects[..|projects|] == projects;
  }

  /** The names for one suffix. */
  method SuffixSans(machine: string, tailnet: string, s: string, projects: seq<string>) returns (out: seq<string>)
    ensures out == Map(Namer(machine, tailnet), SuffixRow(s, projects))
  {
    out := ["*." + s];
    for j := 0 to |projects|
      invariant out == ["*." + s] + Map(SuffixName(s), projects[..j])
    {
      assert projects[..j + 1] == projects[..j] + [projects[j]];
      out := out + ["*." + projects[j] + "." + s];
    }
    assert projects[..|projects|] == projects;
    SuffixRowNames(machine, tailnet, s, projects);
  }

  /** The names for the tailnet. */
  method RemoteSans(machine: string, tailnet: string, projects: seq<string>) returns (out: seq<string>)
    requires machine != "" && tailnet != ""
    ensures out == ["*." + machine + "." + tailnet] + Map(RemoteName(machine, tailnet), projects)
  {
    out := ["*." + machine + "." + tailnet];
    for j := 0 to |projects|
      invariant out == ["*." + machine + "." + tailnet] + Map(RemoteName(machine, tailnet), projects[..j])
    {
      assert projects[..j + 1] == projects[..j] + [projects[j]];
      out := out + ["*." + projects[j] + "." + machine + "." + tailnet];
    }
    assert projects[..|projects|] == projects;
  }

  /** The SAN computation as the program runs it: dedupe, one row per suffix, the remote row, sort. */
  method SANs(suffixes: seq<string>, machine: string, tailnet: string, projects: seq<string>)
    returns (sans: seq<string>)
    ensures sans == SanList(Settings(suffixes, machine, tailnet), projects)
    ensures forall i, j | 0 <= i < j < |sans| ::
              sans[i] <= sans[j] ||
              exists k | 0 <= k < |sans[i]| && k < |sans[j]| :: sans[i][..k] == sans[j][..k] && sans[i][k] < sans[j][k]
  {
    var unique := Unique(projects);
    var out := LocalSans(suffixes, machine, tailnet, unique);
    if machine != "" && tailnet != "" {
      var row := RemoteSans(machine, tailnet, unique);
      out := out + row;
    }
    assert out == Names(Settings(suffixes, machine, tailnet), unique) by {
      BaseListNames(Settings(suffixes, machine, tailnet), unique);
    }
    sans := SortStrings(out);
    forall i, j | 0 <= i < j < |sans|
      ensures sans[i] <= sans[j] ||
              exists k | 0 <= k < |sans[i]| && k < |sans[j]| :: sans[i][..k] == sans[j][..k] && sans[i][k] < sans[j][k]
    {
      SortedPairs(sans, i, j);
    }
  }

  /** The names for all suffixes, one row after the other. */
  method LocalSans(suffixes: seq<string>, machine: string, tailnet: string, projects: seq<string>)
    returns (out: seq<string>)
    ensures out == Map(Namer(machine, tailnet), SuffixRows(suffixes, projects))
  {
    out := [];
    for i := 0 to |suffixes|
      invariant out == Map(Namer(machine, tailnet), SuffixRows(suffixes[..i], projects))
    {
      var row := SuffixSans(machine, tailnet, suffixes[i], projects);
      out := out + row;
      SuffixRowsStep(machine, tailnet, suffixes[..i], projects, suffixes[i]);
      assert suffixes[..i + 1] == suffixes[..i] + [suffixes[i]];
    }
    assert suffixes[..|suffixes|] == suffixes;
  }

  lemma SuffixRowsStep(machine: string, tailnet: string, suffixes: seq<string>, projects: seq<string>, s: string)
    ensures Map(Namer(machine, tailnet), SuffixRows(suffixes + [s], projects)) ==
            Map(Namer(machine, tailnet), SuffixRows(suffixes, projects)) +
            Map(Namer(machine, tailnet), SuffixRow(s, projects))
  {
    assert (suffixes + [s])[..|suffixes|] == suffixes;
    MapConcat(Namer(machine, tailnet), SuffixRows(suffixes, projects), SuffixRow(s, projects));
  }

  lemma {:induction false} BaseListNames(cfg: Settings, projects: seq<string>)
    ensures var f := Namer(cfg.machine, cfg.tailnet);
            Map(f, BaseList(cfg, projects)) == Map(f, SuffixRows(cfg.suffixes, projects)) +
            if cfg.Remote()
            then ["*." + cfg.machine + "." + cfg.tailnet] + Map(RemoteName(cfg.machine, cfg.tailnet), projects)
            else []
  {
    MapConcat(Namer(cfg.machine, cfg.tailnet), SuffixRows(cfg.suffixes, projects), RemoteRow(cfg, projects));
    if cfg.Remote() { RemoteRowNames(cfg.machine, cfg.tailnet, projects); }
  }

  /******* Which names are in it *******/

  /** The wildcards the certificate is for, said without any list order. */
  predicate IsBase(cfg: Settings, projects: seq<string>, b: Base) {
    match b
    case Suffix(s) => s in cfg.suffixes
    case ProjectSuffix(p, s) => p in projects && s in cfg.suffixes
    case Machine => cfg.Remote()
    case ProjectMachine(p) => cfg.Remote() && p in projects
  }

  ghost predicate IsSan(cfg: Settings, projects: seq<string>, x: string) {
    exists b :: IsBase(cfg, projects, b) && x == Wildcard(Dotted(cfg.machine, cfg.tailnet, b))
  }

  lemma {:induction false} SuffixRowsElements(suffixes: seq<string>, projects: seq<string>, b: Base)
    ensures b in SuffixRows(suffixes, projects) <==>
            (b.Suffix? && b.suffix in suffixes) ||
            (b.ProjectSuffix? && b.project in projects && b.suffix in suffixes)
  {
    if suffixes == [] {
    } else {
      var init, s := suffixes[..|suffixes| - 1], suffixes[|suffixes| - 1];
      assert suffixes == init + [s];
      SuffixRowsElements(init, projects, b);
      RowElements(s, projects, b);
    }
  }

  lemma RowElements(s: string, projects: seq<string>, b: Base)
    ensures b in SuffixRow(s, projects) <==>
            b == Suffix(s) || (b.ProjectSuffix? && b.suffix == s && b.project in projects)
  {
    var row := Map(ProjectAt(s), projects);
    if b.ProjectSuffix? && b.suffix == s && b.project in projects {
      var k :| 0 <= k < |projects| && projects[k] == b.project;
      assert row[k] == b;
    }
  }

  lemma BaseListElements(cfg: Settings, projects: seq<string>, b: Base)
    ensures b in BaseList(cfg, projects) <==> IsBase(cfg, projects, b)
  {
    SuffixRowsElements(cfg.suffixes, projects, b);
    if cfg.Remote() && b.ProjectMachine? && b.project in projects {
      var k :| 0 <= k < |projects| && projects[k] == b.project;
      assert RemoteRow(cfg, projects)[k + 1] == b;
    }
  }

  /** The list holds exactly the four kinds of wildcard, whatever order the loops visit them in. */
  lemma SanElements(cfg: Settings, projects: seq<string>)
    ensures forall x :: x in SanList(cfg, projects) <==> IsSan(cfg, projects, x)
  {
    var f, bases := Namer(cfg.machine, cfg.tailnet), BaseList(cfg, Dedup(projects));
    SortElements(Map(f, bases));
    forall x ensures x in Map(f, bases) <==> IsSan(cfg, projects, x) {
      if x in Map(f, bases) { ListedIsSan(cfg, projects, x); }
      if IsSan(cfg, projects, x) { SanIsListed(cfg, projects, x); }
    }
  }

  /** The same spelled out: these strings and no others. */
  lemma SanStrings(cfg: Settings, projects: seq<string>, x: string)
    ensures x in SanList(cfg, projects) <==>
            || (exists s :: s in cfg.suffixes && x == "*." + s)
            || (exists p, s :: p in projects && s in cfg.suffixes && x == "*." + p + "." + s)
            || (cfg.machine != "" && cfg.tailnet != "" &&
                (x == "*." + cfg.machine + "." + cfg.tailnet ||
                 exists p :: p in projects && x == "*." + p + "." + cfg.machine + "." + cfg.tailnet))
  {
    SanElements(cfg, projects);
    SanIsString(cfg, projects, x);
    StringIsSan(cfg, projects, x);
  }

  lemma SanIsString(cfg: Settings, projects: seq<string>, x: string)
    ensures IsSan(cfg, projects, x) ==>
            || (exists s :: s in cfg.suffixes && x == "*." + s)
            || (exists p, s :: p in projects && s in cfg.suffixes && x == "*." + p + "." + s)
            || (cfg.machine != "" && cfg.tailnet != "" &&
                (x == "*." + cfg.machine + "." + cfg.tailnet ||
                 exists p :: p in projects && x == "*." + p + "." + cfg.machine + "." + cfg.tailnet))
  {
    if b :| IsBase(cfg, projects, b) && x == Wildcard(Dotted(cfg.machine, cfg.tailnet, b)) {
      match b
      case Suffix(s) =>
      case ProjectSuffix(p, s) => assert "*." + (p + "." + s) == "*." + p + "." + s;
      case Machine => MachineName(cfg.machine, cfg.tailnet);
      case ProjectMachine(p) => ProjectMachineName(cfg.machine, cfg.tailnet, p);
    }
  }

  lemma StringIsSan(cfg: Settings, projects: seq<string>, x: string)
    ensures forall s :: s in cfg.suffixes && x == "*." + s ==> IsSan(cfg, projects, x)
    ensures forall p, s :: p in projects && s in cfg.suffixes && x == "*." + p + "." + s ==> IsSan(cfg, projects, x)
    ensures cfg.Remote() && x == "*." + cfg.machine + "." + cfg.tailnet ==> IsSan(cfg, projects, x)
    ensures forall p :: cfg.Remote() && p in projects && x == "*." + p + "." + cfg.machine + "." + cfg.tailnet ==>
              IsSan(cfg, projects, x)
  {
    forall s | s in cfg.suffixes && x == "*." + s ensures IsSan(cfg, projects, x) {
      assert IsBase(cfg, projects, Suffix(s));
    }
    forall p, s | p in projects && s in cfg.suffixes && x == "*." + p + "." + s ensures IsSan(cfg, projects, x) {
      assert IsBase(cfg, projects, ProjectSuffix(p, s));
      assert "*." + (p + "." + s) == "*." + p + "." + s;
    }
    if cfg.Remote() && x == "*." + cfg.machine + "." + cfg.tailnet {
      assert IsBase(cfg, projects, Machine);
      MachineName(cfg.machine, cfg.tailnet);
    }
    forall p | cfg.Remote() && p in projects && x == "*." + p + "." + cfg.machine + "." + cfg.tailnet
      ensures IsSan(cfg, projects, x)
    {
      assert IsBase(cfg, projects, ProjectMachine(p));
      ProjectMachineName(cfg.machine, cfg.tailnet, p);
    }
  }

  /** How many there are: one row per suffix, and one more for the tailnet, each with a name for itself and one per project. */
  lemma {:induction false} SanCount(cfg: Settings, projects: seq<string>)
    ensures |SanList(cfg, projects)| ==
            (|cfg.suffixes| + if cfg.machine != "" && cfg.tailnet != "" then 1 else 0) * (1 + |Dedup(projects)|)
  {
    SortLength(Names(cfg, Dedup(projects)));
    NamesCount(cfg, Dedup(projects));
  }

  lemma NamesCount(cfg: Settings, projects: seq<string>)
    ensures |Names(cfg, projects)| ==
            (|cfg.suffixes| + if cfg.machine != "" && cfg.tailnet != "" then 1 else 0) * (1 + |projects|)
  {
    RowsCount(cfg.suffixes, projects);
    RemoteCount(cfg, projects);
    OneMoreRow(|cfg.suffixes|, 1 + |projects|);
  }

  lemma RemoteCount(cfg: Settings, projects: seq<string>)
    ensures |RemoteRow(cfg, projects)| == if cfg.machine != "" && cfg.tailnet != "" then 1 + |projects| else 0
  {
  }

  lemma OneMoreRow(n: nat, m: nat)
    ensures (n + 1) * m == n * m + m
  {
  }

  lemma {:induction false} RowsCount(suffixes: seq<string>, projects: seq<string>)
    ensures |SuffixRows(suffixes, projects)| == |suffixes| * (1 + |projects|)
  {
    if suffixes == [] {
    } else {
      var init, s := suffixes[..|suffixes| - 1], suffixes[|suffixes| - 1];
      RowsCount(init, projects);
      OneMoreRow(|init|, 1 + |projects|);
      assert SuffixRows(suffixes, projects) == SuffixRows(init, projects) + SuffixRow(s, projects);
      assert |SuffixRow(s, projects)| == 1 + |projects|;
    }
  }

  lemma ListedIsSan(cfg: Settings, projects: seq<string>, x: string)
    requires x in Map(Namer(cfg.machine, cfg.tailnet), BaseList(cfg, Dedup(projects)))
    ensures IsSan(cfg, projects, x)
  {
    var f, bases := Namer(cfg.machine, cfg.tailnet), BaseList(cfg, Dedup(projects));
    var k :| 0 <= k < |bases| && Map(f, bases)[k] == x;
    BaseListElements(cfg, Dedup(projects), bases[k]);
    assert IsBase(cfg, projects, bases[k]);
  }

  lemma SanIsListed(cfg: Settings, projects: seq<string>, x: string)
    requires IsSan(cfg, projects, x)
    ensures x in Map(Namer(cfg.machine, cfg.tailnet), BaseList(cfg, Dedup(projects)))
  {
    var f, bases := Namer(cfg.machine, cfg.tailnet), BaseList(cfg, Dedup(projects));
    var b :| IsBase(cfg, projects, b) && x == Wildcard(Dotted(cfg.machine, cfg.tailnet, b));
    BaseListElements(cfg, Dedup(projects), b);
    var k :| 0 <= k < |bases| && bases[k] == b;
    assert Map(f, bases)[k] == x;
  }

  /******* When the list is free of repetition *******/

  /** No two different wildcards are spelled the same. */
  ghost predicate SpelledApart(cfg: Settings, projects: seq<string>) {
    forall b, b' | IsBase(cfg, projects, b) && IsBase(cfg, projects, b') ::
      Dotted(cfg.machine, cfg.tailnet, b) == Dotted(cfg.machine, cfg.tailnet, b') ==> b == b'
  }

  lemma MapNoDupIff<S(!new), T>(f: S -> T, xs: seq<S>)
    ensures NoDup(Map(f, xs)) <==> NoDup(xs) && forall x, y | x in xs && y in xs :: f(x) == f(y) ==> x == y
  {
    var ys := Map(f, xs);
    if NoDup(ys) {
      forall i, j | 0 <= i < j < |xs| ensures xs[i] != xs[j] {
        assert ys[i] != ys[j];
      }
      forall x, y | x in xs && y in xs && f(x) == f(y) ensures x == y {
        var i :| 0 <= i < |xs| && xs[i] == x;
        var j :| 0 <= j < |xs| && xs[j] == y;
        assert ys[i] == ys[j];
      }
    }
  }

  lemma NoDupConcat<T>(xs: seq<T>, ys: seq<T>)
    ensures NoDup(xs + ys) <==> NoDup(xs) && NoDup(ys) && forall x | x in xs :: x !in ys
  {
    NoDupCounts(xs);
    NoDupCounts(ys);
    NoDupCounts(xs + ys);
    forall x ensures multiset(xs + ys)[x] == multiset(xs)[x] + multiset(ys)[x] {}
    forall x ensures (x in xs <==> multiset(xs)[x] > 0) && (x in ys <==> multiset(ys)[x] > 0) {}
  }

  lemma {:induction false} SuffixRowsNoDup(suffixes: seq<string>, projects: seq<string>)
    requires NoDup(projects)
    ensures NoDup(SuffixRows(suffixes, projects)) <==> NoDup(suffixes)
  {
    if suffixes == [] {
    } else {
      var init, s := suffixes[..|suffixes| - 1], suffixes[|suffixes| - 1];
      assert suffixes == init + [s];
      SuffixRowsNoDup(init, projects);
      MapNoDupIff(ProjectAt(s), projects);
      NoDupConcat([Suffix(s)], Map(ProjectAt(s), projects));
      NoDupConcat(SuffixRows(init, projects), SuffixRow(s, projects));
      NoDupConcat(init, [s]);
      forall b ensures b in SuffixRows(init, projects) && b in SuffixRow(s, projects) ==> s in init {
        SuffixRowsElements(init, projects, b);
        RowElements(s, projects, b);
      }
      SuffixRowsElements(init, projects, Suffix(s));
      RowElements(s, projects, Suffix(s));
    }
  }

  lemma BaseListNoDup(cfg: Settings, projects: seq<string>)
    requires NoDup(projects)
    ensures NoDup(BaseList(cfg, projects)) <==> NoDup(cfg.suffixes)
  {
    var local, remote := SuffixRows(cfg.suffixes, projects), RemoteRow(cfg, projects);
    SuffixRowsNoDup(cfg.suffixes, projects);
    assert NoDup(remote);
    forall b | b in local ensures b !in remote {
      SuffixRowsElements(cfg.suffixes, projects, b);
    }
    NoDupConcat(local, remote);
  }

  /** The list always is sorted; it is free of repetition exactly when the suffixes are distinct and no two wildcards coincide. */
  lemma {:induction false} SanStrictIff(cfg: Settings, projects: seq<string>)
    ensures Sorted(SanList(cfg, projects))
    ensures StrictlySorted(SanList(cfg, projects)) <==> NoDup(cfg.suffixes) && SpelledApart(cfg, projects)
  {
    var f, bases := Namer(cfg.machine, cfg.tailnet), BaseList(cfg, Dedup(projects));
    SortStrictIff(Map(f, bases));
    MapNoDupIff(f, bases);
    BaseListNoDup(cfg, Dedup(projects));
    SpelledApartIff(cfg, projects);
  }

  lemma SpelledApartIff(cfg: Settings, projects: seq<string>)
    ensures var f, bases := Namer(cfg.machine, cfg.tailnet), BaseList(cfg, Dedup(projects));
            SpelledApart(cfg, projects) <==> forall b, b' | b in bases && b' in bases :: f(b) == f(b') ==> b == b'
  {
    var f, bases := Namer(cfg.machine, cfg.tailnet), BaseList(cfg, Dedup(projects));
    forall b ensures b in bases <==> IsBase(cfg, projects, b) {
      BaseListElements(cfg, Dedup(projects), b);
    }
    forall b ensures f(b)[2..] == Dotted(cfg.machine, cfg.tailnet, b) {}
    forall b, b' ensures f(b) == f(b') <==>
                         Dotted(cfg.machine, cfg.tailnet, b) == Dotted(cfg.machine, cfg.tailnet, b') {
      assert f(b)[2..] == Dotted(cfg.machine, cfg.tailnet, b);
      assert f(b')[2..] == Dotted(cfg.machine, cfg.tailnet, b');
    }
  }

  lemma {:induction false} SpelledTwice(cfg: Settings, projects: seq<string>, b: Base, b': Base)
    requires IsBase(cfg, projects, b) && IsBase(cfg, projects, b') && b != b'
    requires Dotted(cfg.machine, cfg.tailnet, b) == Dotted(cfg.machine, cfg.tailnet, b')
    ensures !StrictlySorted(SanList(cfg, projects))
  {
    SanStrictIff(cfg, projects);
  }

  /** Distinct suffixes are not enough: project `p` under suffix `s` is spelled like the suffix `p.s`. */
  lemma RepeatedSan(p: string, s: string, cfg: Settings, projects: seq<string>)
    requires ValidateLabel(p) && ValidateLabel(s)
    requires cfg == Settings([p + "." + s, s], "", "") && projects == [p]
    ensures Accepted(cfg, projects) && NoDup(cfg.suffixes)
    ensures !StrictlySorted(SanList(cfg, projects))
  {
    DotJoinValid(p, s);
    assert |cfg.suffixes[0]| > |cfg.suffixes[1]|;
    SpelledTwice(cfg, projects, Suffix(p + "." + s), ProjectSuffix(p, s));
  }

  /******* Canonical form *******/

  lemma {:induction false} SuffixRowsConcat(xs: seq<string>, ys: seq<string>, projects: seq<string>)
    ensures SuffixRows(xs + ys, projects) == SuffixRows(xs, projects) + SuffixRows(ys, projects)
  {
    if ys == [] {
      assert xs + ys == xs;
    } else {
      assert (xs + ys)[..|xs + ys| - 1] == xs + ys[..|ys| - 1];
      SuffixRowsConcat(xs, ys[..|ys| - 1], projects);
    }
  }

  lemma {:induction false} SuffixRowsPermute(xs: seq<string>, ys: seq<string>, ps: seq<string>, qs: seq<string>)
    requires multiset(xs) == multiset(ys) && multiset(ps) == multiset(qs)
    ensures multiset(SuffixRows(xs, ps)) == multiset(SuffixRows(ys, qs))
  {
    if xs == [] {
      assert |multiset(ys)| == 0;
    } else {
      var x, tail := xs[0], xs[1..];
      assert xs == [x] + tail;
      var before, after := RemoveOne(xs, ys);
      SuffixRowsPermute(tail, before + after, ps, qs);
      SuffixRowsConcat([x], tail, ps);
      SuffixRowsConcat(before, [x] + after, qs);
      SuffixRowsConcat([x], after, qs);
      SuffixRowsConcat(before, after, qs);
      SingleRow(x, ps);
      SingleRow(x, qs);
      MapPermutes(ProjectAt(x), ps, qs);
    }
  }

  lemma SingleRow(x: string, projects: seq<string>)
    ensures SuffixRows([x], projects) == SuffixRow(x, projects)
  {
    assert [x][..0] == [];
  }

  /** The list depends only on the set of projects and on the suffixes up to order. */
  lemma {:induction false} SanCanonical(cfg: Settings, cfg': Settings, projects: seq<string>, projects': seq<string>)
    requires cfg.machine == cfg'.machine && cfg.tailnet == cfg'.tailnet
    requires multiset(cfg.suffixes) == multiset(cfg'.suffixes)
    requires forall p :: p in projects <==> p in projects'
    ensures SanList(cfg, projects) == SanList(cfg', projects')
  {
    var ps, qs := Dedup(projects), Dedup(projects');
    assert forall p :: p in ps <==> p in projects;
    NoDupSameElements(ps, qs);
    SuffixRowsPermute(cfg.suffixes, cfg'.suffixes, ps, qs);
    MapPermutes(ProjectRemote(), ps, qs);
    var f := Namer(cfg.machine, cfg.tailnet);
    MapPermutes(f, BaseList(cfg, ps), BaseList(cfg', qs));
    SortedUnique(SanList(cfg, projects), SanList(cfg', projects'));
  }

  /******* Requests certgen accepts *******/

  predicate Accepted(cfg: Settings, projects: seq<string>) {
    && cfg.suffixes != []
    && (forall s :: s in cfg.suffixes ==> ValidateLabel(s))
    && (cfg.machine == "" || ValidateLabel(cfg.machine))
    && (cfg.tailnet == "" || ValidateLabel(cfg.tailnet))
    && (forall p :: p in projects ==> ValidateLabel(p))
  }

  lemma BaseValid(cfg: Settings, projects: seq<string>, b: Base)
    requires Accepted(cfg, projects) && IsBase(cfg, projects, b)
    ensures ValidateLabel(Dotted(cfg.machine, cfg.tailnet, b))
  {
    match b
    case Suffix(s) =>
    case ProjectSuffix(p, s) => DotJoinValid(p, s);
    case Machine => DotJoinValid(cfg.machine, cfg.tailnet);
    case ProjectMachine(p) =>
      DotJoinValid(p, cfg.machine);
      DotJoinValid(p + "." + cfg.machine, cfg.tailnet);
  }

  /** Every SAN of an accepted request is `*.` followed by a valid label. */
  lemma SansValid(cfg: Settings, projects: seq<string>, x: string)
    requires Accepted(cfg, projects) && x in SanList(cfg, projects)
    ensures exists d :: ValidateLabel(d) && x == Wildcard(d)
  {
    SanElements(cfg, projects);
    var b :| IsBase(cfg, projects, b) && x == Wildcard(Dotted(cfg.machine, cfg.tailnet, b));
    BaseValid(cfg, projects, b);
  }
}
