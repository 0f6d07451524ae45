/** What the discoverer reads off a container: its route, its project, its network misconfiguration. */
module Inspect {
  import opened Text
  import opened Labels

  const PROJECT_LABEL := "com.docker.compose.project"
  const SERVICE_LABEL := "com.docker.compose.service"
  const PORT_LABEL := "dynomesh.port"
  const NETWORK_LABEL := "traefik.docker.network"
  const TRAEFIK_PREFIX := "traefik."
  const DEFAULT_NETWORK := "dynomesh-net"

  datatype ExposedPort = ExposedPort(number: string, protocol: string)

  datatype Config = Config(labels: map<string, string>, exposed: set<ExposedPort>)

  /** A missing `config` or `networks` stands for a nil pointer, a missing endpoint for a nil endpoint. */
  datatype Container = Container(
    id: string,
    name: string,
    config: Option<Config>,
    networks: Option<map<string, Option<string>>>)

  function Label(cfg: Config, key: string): string {
    if key in cfg.labels then cfg.labels[key] else ""
  }

  ghost predicate TraefikLabelled(cfg: Config) {
    exists k :: k in cfg.labels && HasPrefix(k, TRAEFIK_PREFIX)
  }

  function NetworkIP(c: Container, network: string): string {
    if c.networks.Some? && network in c.networks.value && c.networks.value[network].Some?
    then c.networks.value[network].value
    else ""
  }

  /******* Lower case *******/

  /** The only characters outside ASCII whose lower case is ASCII are U+0130 and U+212A; the others stay outside. */
  function LowerRune(c: char): char {
    if 'A' <= c <= 'Z' then c + ' '
    else if c == '\U{130}' then 'i'
    else if c == '\U{212A}' then 'k'
    else c
  }

  function ToLower(s: string): (r: string)
    ensures |r| == |s|
    ensures forall i :: 0 <= i < |s| ==> r[i] == LowerRune(s[i])
  {
    seq(|s|, i requires 0 <= i < |s| => LowerRune(s[i]))
  }

  /** Capital letters go to the small letter of the same place in the alphabet, the two characters above to i and k, all others stay. */
  lemma LowerRuneMeans(c: char)
    ensures 65 <= c as int <= 90 ==> LowerRune(c) as int == c as int + 32
    ensures c as int == 0x130 ==> LowerRune(c) as int == 105
    ensures c as int == 0x212A ==> LowerRune(c) as int == 107
    ensures !(65 <= c as int <= 90) && c as int != 0x130 && c as int != 0x212A ==> LowerRune(c) == c
  {
  }

  lemma ToLowerConcat(a: string, b: string)
    ensures ToLower(a + b) == ToLower(a) + ToLower(b)
  {
  }

  lemma ToLowerSafe(s: string)
    requires SafeName(s)
    ensures ToLower(s) == s
  {
    assert forall i :: 0 <= i < |s| ==> LabelChar(s[i]);
  }

  lemma ToLowerDots(s: string)
    ensures '.' in ToLower(s) <==> '.' in s
  {
    var r := ToLower(s);
    assert forall i :: 0 <= i < |s| ==> (r[i] == '.' <==> s[i] == '.');
  }

  /** A letter, digit, dot or hyphen, in either case; U+0130 and U+212A count as capital letters. */
  predicate AnyCaseLabelChar(c: char) {
    LabelChar(c) || 'A' <= c <= 'Z' || c == '\U{130}' || c == '\U{212A}'
  }

  /** Lowering makes a hostname safe exactly when nothing but case was wrong with it, and lowering again changes nothing. */
  lemma LoweredIsSafeIff(s: string)
    ensures SafeName(ToLower(s)) <==>
            s != "" && s[0] != '.' && s[0] != '-' && forall i :: 0 <= i < |s| ==> AnyCaseLabelChar(s[i])
    ensures ToLower(ToLower(s)) == ToLower(s)
  {
    var r := ToLower(s);
    forall i | 0 <= i < |s|
      ensures (LabelChar(r[i]) <==> AnyCaseLabelChar(s[i])) && (r[i] == '.' <==> s[i] == '.') && (r[i] == '-' <==> s[i] == '-')
    {
      assert r[i] == LowerRune(s[i]);
    }
  }

  /******* Hostname *******/

  function TrimPrefix(s: string, p: string): string {
    if HasPrefix(s, p) then s[|p|..] else s
  }

  /** A compose container, that is one with both a project and a service label. */
  predicate Compose(cfg: Config) {
    Label(cfg, PROJECT_LABEL) != "" && Label(cfg, SERVICE_LABEL) != ""
  }

  /** The part of the hostname that sits in front of the project, if any. */
  function OwnName(c: Container, cfg: Config): string {
    if Compose(cfg) then Label(cfg, SERVICE_LABEL) else TrimPrefix(c.name, "/")
  }

  function InferHostname(c: Container, cfg: Config): string {
    var project, service := Label(cfg, PROJECT_LABEL), Label(cfg, SERVICE_LABEL);
    ToLower(if project != "" && service != "" then service + "." + project else TrimPrefix(c.name, "/"))
  }

  /** The hostname by the labels themselves: service and project if both are there, otherwise the name without a leading slash. */
  lemma HostnameMeans(c: Container, cfg: Config, service: string, project: string, name: string)
    requires service == (if "com.docker.compose.service" in cfg.labels then cfg.labels["com.docker.compose.service"] else "")
    requires project == (if "com.docker.compose.project" in cfg.labels then cfg.labels["com.docker.compose.project"] else "")
    requires c.name == "/" + name || (c.name == name && (name == "" || name[0] != '/'))
    ensures InferHostname(c, cfg) == ToLower(if service != "" && project != "" then service + "." + project else name)
  {
    if c.name == "/" + name {
      assert TrimPrefix("/" + name, "/") == name;
    } else if name != "" {
      assert "/"[0] == '/';
    }
  }

  /** The hostname is the lower-cased own name, below the project for a compose container whose project is valid. */
  lemma HostnameShape(c: Container, cfg: Config)
    ensures !Compose(cfg) ==> InferHostname(c, cfg) == ToLower(OwnName(c, cfg))
    ensures Compose(cfg) && ValidateLabel(Label(cfg, PROJECT_LABEL)) ==>
              InferHostname(c, cfg) == ToLower(OwnName(c, cfg)) + "." + Label(cfg, PROJECT_LABEL)
    ensures InferHostname(c, cfg) == "" <==> OwnName(c, cfg) == "" && !Compose(cfg)
  {
    if Compose(cfg) {
      var project, service := Label(cfg, PROJECT_LABEL), Label(cfg, SERVICE_LABEL);
      ToLowerConcat(service + ".", project);
      ToLowerConcat(service, ".");
      assert ToLower(".") == ".";
      if ValidateLabel(project) {
        ToLowerSafe(project);
      }
    }
  }

  /******* Decimal numbers *******/

  const MAX_INT: int := 0x7fff_ffff_ffff_ffff
  const MIN_INT: int := -0x8000_0000_0000_0000

  predicate Digit(c: char) { '0' <= c <= '9' }

  predicate Digits(s: string) {
    s != "" && forall i :: 0 <= i < |s| ==> Digit(s[i])
  }

  function DigitsValue(s: string): nat
    requires forall i :: 0 <= i < |s| ==> Digit(s[i])
  {
    if s == "" then 0 else
      assert Digit(s[|s| - 1]);
      10 * DigitsValue(s[..|s| - 1]) + (s[|s| - 1] as int - '0' as int)
  }

  /** `strconv.Atoi` on a 64-bit machine: an optional sign, digits, and an error when out of range. */
  function Atoi(s: string): Option<int> {
    var signed := s != "" && (s[0] == '-' || s[0] == '+');
    var digits := if signed then s[1..] else s;
    if !Digits(digits) then None
    else
      var v: int := DigitsValue(digits);
      var n := if signed && s[0] == '-' then -v else v;
      if MIN_INT <= n <= MAX_INT then Some(n) else None
  }

  /** What is parsed: digits after at most one sign, if the number fits. */
  lemma {:induction false} AtoiIff(s: string, n: int)
    ensures Atoi(s) == Some(n) <==>
            -0x8000_0000_0000_0000 <= n <= 0x7fff_ffff_ffff_ffff &&
            exists d | Digits(d) ::
              ((s == d || s == "+" + d) && n == DigitsValue(d)) || (s == "-" + d && n == -(DigitsValue(d) as int))
  {
    forall d | Digits(d) && (s == d || s == "+" + d || s == "-" + d) ensures d == Unsigned(s) {
      assert Digit(d[0]);
      assert ("+" + d)[1..] == d && ("-" + d)[1..] == d;
    }
    var d := Unsigned(s);
    if Digits(d) {
      assert d == s || s == [s[0]] + d;
    }
  }

  function Unsigned(s: string): string {
    if s != "" && (s[0] == '-' || s[0] == '+') then s[1..] else s
  }

  function DecimalNat(n: nat): (s: string)
    ensures Digits(s)
    ensures DigitsValue(s) == n
  {
    var d := [('0' as int + n % 10) as char];
    if n < 10 then d else
      var s := DecimalNat(n / 10) + d;
      assert s[..|s| - 1] == DecimalNat(n / 10);
      s
  }

  /** The `%d` format. */
  function Decimal(n: int): string {
    if n < 0 then "-" + DecimalNat(-n) else DecimalNat(n)
  }

  lemma AtoiOfDecimal(n: int)
    requires MIN_INT <= n <= MAX_INT
    ensures Atoi(Decimal(n)) == Some(n)
  {
    if n < 0 { assert Decimal(n)[1..] == DecimalNat(-n); }
  }

  function Address(ip: string, port: int): string {
    ip + ":" + Decimal(port)
  }

  /** An address names its IP and its port. */
  lemma AddressUnique(ip: string, port: int, ip': string, port': int)
    requires Address(ip, port) == Address(ip', port')
    requires MIN_INT <= port <= MAX_INT && MIN_INT <= port' <= MAX_INT
    ensures ip == ip' && port == port'
  {
    var a, d, d' := Address(ip, port), Decimal(port), Decimal(port');
    assert a == ip + ":" + d && a == ip' + ":" + d';
    assert forall i :: 0 <= i < |d| ==> d[i] != ':';
    assert forall i :: 0 <= i < |d'| ==> d'[i] != ':';
    assert forall i :: |ip| < i < |a| ==> a[i] != ':';
    assert forall i :: |ip'| < i < |a| ==> a[i] != ':';
    assert a[|ip|] == ':' && a[|ip'|] == ':';
    assert ip == a[..|ip|] == ip' && d == a[|ip| + 1..] == d';
    AtoiOfDecimal(port);
    AtoiOfDecimal(port');
  }

  /******* Port selection *******/

  function LabelPort(cfg: Config): Option<int> {
    match Atoi(Label(cfg, PORT_LABEL))
    case Some(p) => if 0 < p < 65536 then Some(p) else None
    case None => None
  }

  /** The exposed ports whose number parses; `80/tcp` and `80/udp` are two. */
  ghost function Numbered(cfg: Config): set<ExposedPort> {
    set p | p in cfg.exposed && Atoi(p.number).Some?
  }

  predicate Exposes(cfg: Config, n: int) {
    exists p | p in cfg.exposed :: Atoi(p.number) == Some(n)
  }

  /** The label wins, then a single exposed port, then the first favourite that is exposed. */
  ghost function PortOf(cfg: Config): Option<int> {
    if LabelPort(cfg).Some? then LabelPort(cfg)
    else if |Numbered(cfg)| == 1 then
      var p :| p in Numbered(cfg); Atoi(p.number)
    else if Exposes(cfg, 80) then Some(80)
    else if Exposes(cfg, 8080) then Some(8080)
    else if Exposes(cfg, 8000) then Some(8000)
    else None
  }

  /** The port label, by itself. */
  predicate LabelSays(cfg: Config, n: int) {
    1 <= n <= 65535 && "dynomesh.port" in cfg.labels && Atoi(cfg.labels["dynomesh.port"]) == Some(n)
  }

  /** The exposed ports leave no choice. */
  predicate OnlyExposes(cfg: Config, p: ExposedPort) {
    p in cfg.exposed && Atoi(p.number).Some? && forall q :: q in cfg.exposed && Atoi(q.number).Some? ==> q == p
  }

  /** What port selection promises: the label wins whatever is exposed; without a port in it a single exposed port is taken; with none or several, the first of 80, 8080 and 8000 that is exposed. */
  ghost predicate RightPort(cfg: Config, port: Option<int>) {
    && (forall n :: LabelSays(cfg, n) ==> port == Some(n))
    && ((forall n :: !LabelSays(cfg, n)) ==> forall p :: OnlyExposes(cfg, p) ==> port == Atoi(p.number))
    && ((forall n :: !LabelSays(cfg, n)) && (forall p :: !OnlyExposes(cfg, p)) ==>
          && (port == Some(80) <==> Exposes(cfg, 80))
          && (port == Some(8080) <==> !Exposes(cfg, 80) && Exposes(cfg, 8080))
          && (port == Some(8000) <==> !Exposes(cfg, 80) && !Exposes(cfg, 8080) && Exposes(cfg, 8000))
          && (port == None <==> !Exposes(cfg, 80) && !Exposes(cfg, 8080) && !Exposes(cfg, 8000)))
  }

  method SelectPort(cfg: Config) returns (port: Option<int>)
    ensures port == PortOf(cfg) && RightPort(cfg, port)
  {
    PortIsRight(cfg);
    if Label(cfg, PORT_LABEL) != "" {
      var p := Atoi(Label(cfg, PORT_LABEL));
      if p.Some? && 0 < p.value < 65536 { return p; }
    }
    assert LabelPort(cfg) == None;
    var exposed := ExposedNumbers(cfg);
    if |exposed| == 1 {
      SingleNumber(cfg, exposed[0]);
      return Some(exposed[0]);
    }
    var favourites := [80, 8080, 8000];
    for i := 0 to |favourites|
      invariant forall j :: 0 <= j < i ==> favourites[j] !in exposed
    {
      assert favourites[0] == 80 && favourites[1] == 8080 && favourites[2] == 8000;
      if favourites[i] in exposed { return Some(favourites[i]); }
    }
    assert favourites[0] == 80 && favourites[1] == 8080 && favourites[2] == 8000;
    return None;
  }

  /** The exposed port numbers that parse, once per exposed port. */
  method ExposedNumbers(cfg: Config) returns (exposed: seq<int>)
    ensures |exposed| == |Numbered(cfg)|
    ensures forall n :: n in exposed <==> Exposes(cfg, n)
  {
    exposed := [];
    var todo := cfg.exposed;
    while todo != {}
      invariant todo <= cfg.exposed
      invariant |exposed| == |Numbered(cfg.(exposed := cfg.exposed - todo))|
      invariant forall n :: n in exposed <==> Exposes(cfg.(exposed := cfg.exposed - todo), n)
    {
      var p :| p in todo;
      NumberedStep(cfg, todo, p);
      todo := todo - {p};
      if Atoi(p.number).Some? { exposed := exposed + [Atoi(p.number).value]; }
    }
    assert cfg.(exposed := cfg.exposed - todo) == cfg;
  }

  lemma LabelMeans(cfg: Config)
    ensures LabelPort(cfg).None? <==> forall n :: !LabelSays(cfg, n)
    ensures LabelPort(cfg).Some? ==> LabelSays(cfg, LabelPort(cfg).value)
    ensures forall n :: LabelSays(cfg, n) ==> LabelPort(cfg) == Some(n)
  {
    assert Atoi("") == None;
    if LabelPort(cfg).Some? { assert LabelSays(cfg, LabelPort(cfg).value); }
  }

  lemma SingletonElement<T>(s: set<T>) returns (x: T)
    requires |s| == 1
    ensures s == {x}
  {
    x :| x in s;
    assert |s - {x}| == 0;
  }

  lemma OnlyOneNumbered(cfg: Config)
    ensures forall p :: OnlyExposes(cfg, p) ==> Numbered(cfg) == {p}
    ensures |Numbered(cfg)| == 1 ==> exists p :: OnlyExposes(cfg, p)
  {
    forall p | OnlyExposes(cfg, p) ensures Numbered(cfg) == {p} {
      assert forall q :: q in Numbered(cfg) <==> q == p;
    }
    if |Numbered(cfg)| == 1 {
      var p := SingletonElement(Numbered(cfg));
      assert p in Numbered(cfg);
      assert OnlyExposes(cfg, p) by {
        assert forall q :: q in cfg.exposed && Atoi(q.number).Some? ==> q in Numbered(cfg);
      }
    }
  }

  lemma {:induction false} PortIsRight(cfg: Config)
    ensures RightPort(cfg, PortOf(cfg))
  {
    LabelMeans(cfg);
    OnlyOneNumbered(cfg);
  }

  lemma NumberedStep(cfg: Config, todo: set<ExposedPort>, p: ExposedPort)
    requires todo <= cfg.exposed && p in todo
    ensures var before, after := cfg.(exposed := cfg.exposed - todo), cfg.(exposed := cfg.exposed - (todo - {p}));
            && |Numbered(after)| == |Numbered(before)| + (if Atoi(p.number).Some? then 1 else 0)
            && forall n :: Exposes(after, n) <==> Exposes(before, n) || Atoi(p.number) == Some(n)
  {
    var before, after := cfg.(exposed := cfg.exposed - todo), cfg.(exposed := cfg.exposed - (todo - {p}));
    assert after.exposed == before.exposed + {p};
    if Atoi(p.number).Some? {
      assert Numbered(after) == Numbered(before) + {p};
    } else {
      assert Numbered(after) == Numbered(before);
    }
  }

  lemma SingleNumber(cfg: Config, n: int)
    requires |Numbered(cfg)| == 1 && Exposes(cfg, n)
    ensures forall p :: p in Numbered(cfg) ==> Atoi(p.number) == Some(n)
  {
    var q :| q in cfg.exposed && Atoi(q.number) == Some(n);
    var others := Numbered(cfg) - {q};
    assert |others| == 0;
    assert forall p :: p in Numbered(cfg) ==> p == q || p in others;
  }

  /******* FromContainer *******/

  datatype Inspection = Skipped | Unnamed | Routed(hostname: string, address: string)

  ghost function Inspected(c: Container, network: string): Inspection {
    if c.config.None? || TraefikLabelled(c.config.value) || NetworkIP(c, network) == "" || PortOf(c.config.value).None?
    then Skipped
    else
      var hostname := InferHostname(c, c.config.value);
      if hostname == "" then Unnamed
      else Routed(hostname, Address(NetworkIP(c, network), PortOf(c.config.value).value))
  }

  method HasTraefikLabel(cfg: Config) returns (found: bool)
    ensures found == TraefikLabelled(cfg)
  {
    var todo := cfg.labels.Keys;
    while todo != {}
      invariant todo <= cfg.labels.Keys
      invariant forall k :: k in cfg.labels && k !in todo ==> !HasPrefix(k, TRAEFIK_PREFIX)
    {
      var k :| k in todo;
      if HasPrefix(k, TRAEFIK_PREFIX) { return true; }
      todo := todo - {k};
    }
    return false;
  }

  method FromContainer(c: Container, network: string) returns (r: Inspection)
    ensures r == Inspected(c, network)
    ensures !r.Skipped? <==>
            && c.config.Some? && (forall k :: k in c.config.value.labels ==> !("traefik." <= k))
            && c.networks.Some? && network in c.networks.value && c.networks.value[network].Some?
            && c.networks.value[network].value != "" && PortOf(c.config.value).Some?
    ensures r.Unnamed? <==> !r.Skipped? && InferHostname(c, c.config.value) == ""
    ensures r.Routed? ==>
              && r.hostname == InferHostname(c, c.config.value)
              && r.address == c.networks.value[network].value + ":" + Decimal(PortOf(c.config.value).value)
  {
    if c.config.None? { return Skipped; }
    var cfg := c.config.value;
    var labelled := HasTraefikLabel(cfg);
    if labelled { return Skipped; }
    var ip := NetworkIP(c, network);
    if ip == "" { return Skipped; }
    var port := SelectPort(cfg);
    if port.None? { return Skipped; }
    var hostname := InferHostname(c, cfg);
    if hostname == "" { return Unnamed; }
    return Routed(hostname, Address(ip, port.value));
  }

  /******* LabeledMissingNetwork *******/

  ghost predicate Lists(r: seq<string>, s: set<string>) {
    StrictlySorted(r) && forall x :: x in r <==> x in s
  }

  lemma {:induction false} SortedListExists(s: set<string>)
    ensures exists r :: Lists(r, s)
  {
    if s == {} {
      assert Lists([], s);
    } else {
      var x :| x in s;
      SortedListExists(s - {x});
      var rest :| Lists(rest, s - {x});
      InsertFresh(x, rest);
      assert Lists(Insert(x, rest), s);
    }
  }

  /** The elements of a set in increasing order. */
  ghost function SortedList(s: set<string>): (r: seq<string>)
    ensures StrictlySorted(r)
    ensures forall x :: x in r <==> x in s
  {
    SortedListExists(s);
    var r :| Lists(r, s);
    r
  }

  lemma InsertFresh(x: string, xs: seq<string>)
    requires StrictlySorted(xs) && x !in xs
    ensures StrictlySorted(Insert(x, xs))
    ensures forall y :: y in Insert(x, xs) <==> y == x || y in xs
  {
    NoDupCounts(xs);
    NoDupCounts(Insert(x, xs));
    assert multiset(xs)[x] == 0;
    forall y ensures y in Insert(x, xs) <==> y == x || y in xs {
      assert y in multiset(Insert(x, xs)) <==> y == x || y in multiset(xs);
    }
  }

  ghost predicate MissingNetwork(c: Container, network: string) {
    && c.config.Some? && c.networks.Some? && TraefikLabelled(c.config.value)
    && TargetNetwork(c.config.value, network) !in c.networks.value
  }

  function TargetNetwork(cfg: Config, network: string): string {
    if Label(cfg, NETWORK_LABEL) != "" then Label(cfg, NETWORK_LABEL) else network
  }

  ghost function Attached(c: Container): seq<string> {
    if c.networks.Some? then SortedList(c.networks.value.Keys) else []
  }

  method LabeledMissingNetwork(c: Container, network: string) returns (attached: seq<string>, bad: bool)
    ensures bad == MissingNetwork(c, network)
    ensures attached == if bad then Attached(c) else []
    ensures bad <==>
            && c.config.Some? && c.networks.Some?
            && (exists k :: k in c.config.value.labels && "traefik." <= k)
            && (if "traefik.docker.network" in c.config.value.labels && c.config.value.labels["traefik.docker.network"] != ""
                then c.config.value.labels["traefik.docker.network"] !in c.networks.value
                else network !in c.networks.value)
    ensures bad ==> StrictlySorted(attached) && forall n :: n in attached <==> n in c.networks.value
  {
    if c.config.None? || c.networks.None? { return [], false; }
    var cfg := c.config.value;
    var labelled := HasTraefikLabel(cfg);
    if !labelled { return [], false; }
    var names: seq<string> := [];
    var todo := c.networks.value.Keys;
    while todo != {}
      invariant todo <= c.networks.value.Keys
      invariant NoDup(names)
      invariant forall n :: n in names <==> n in c.networks.value.Keys - todo
    {
      var n :| n in todo;
      assert n !in names;
      todo := todo - {n};
      names := names + [n];
    }
    attached := SortStrings(names);
    SortStrictIff(names);
    SortElements(names);
    StrictlySortedUnique(attached, Attached(c));
    var target := TargetNetwork(cfg, network);
    for i := 0 to |attached|
      invariant target !in attached[..i]
    {
      if attached[i] == target { return [], false; }
    }
    assert attached[..|attached|] == attached;
    return attached, true;
  }

  /******* ProjectsOf *******/

  function Project(c: Container): string {
    if c.config.Some? then Label(c.config.value, PROJECT_LABEL) else ""
  }

  function ProjectSet(cs: seq<Container>): set<string> {
    set c | c in cs && Project(c) != "" :: Project(c)
  }

  lemma ProjectSetStep(cs: seq<Container>, c: Container)
    ensures ProjectSet(cs + [c]) == ProjectSet(cs) + if Project(c) != "" then {Project(c)} else {}
  {
    forall p ensures p in ProjectSet(cs + [c]) <==> p in ProjectSet(cs) || (p == Project(c) && p != "") {
      if p == Project(c) && p != "" { assert c in cs + [c]; }
      if p in ProjectSet(cs) {
        var c' :| c' in cs && Project(c') == p;
        assert c' in cs + [c];
      }
    }
  }

  ghost function Projects(cs: seq<Container>): seq<string> {
    SortedList(ProjectSet(cs))
  }

  method ProjectsOf(cs: seq<Container>) returns (projects: seq<string>)
    ensures projects == Projects(cs)
    ensures StrictlySorted(projects)
    ensures forall p :: p in projects <==>
              p != "" &&
              exists c | c in cs && c.config.Some? && "com.docker.compose.project" in c.config.value.labels ::
                c.config.value.labels["com.docker.compose.project"] == p
  {
    var seen: set<string> := {};
    for i := 0 to |cs|
      invariant seen == ProjectSet(cs[..i])
    {
      assert cs[..i + 1] == cs[..i] + [cs[i]];
      ProjectSetStep(cs[..i], cs[i]);
      if cs[i].config.Some? {
        var p := Label(cs[i].config.value, PROJECT_LABEL);
        if p != "" { seen := seen + {p}; }
      }
    }
    assert cs[..|cs|] == cs;
    var out: seq<string> := [];
    var todo := seen;
    while todo != {}
      invariant todo <= seen && NoDup(out)
      invariant forall p :: p in out <==> p in seen - todo
    {
      var p :| p in todo;
      assert p !in out;
      todo := todo - {p};
      out := out + [p];
    }
    projects := SortStrings(out);
    SortStrictIff(out);
    SortElements(out);
    StrictlySortedUnique(projects, Projects(cs));
    ProjectSetMeans(cs);
  }

  lemma ProjectSetMeans(cs: seq<Container>)
    ensures forall p :: p in ProjectSet(cs) <==>
              p != "" &&
              exists c | c in cs && c.config.Some? && "com.docker.compose.project" in c.config.value.labels ::
                c.config.value.labels["com.docker.compose.project"] == p
  {
    forall p ensures p in ProjectSet(cs) <==>
              p != "" &&
              exists c | c in cs && c.config.Some? && "com.docker.compose.project" in c.config.value.labels ::
                c.config.value.labels["com.docker.compose.project"] == p
    {
      if p in ProjectSet(cs) {
        var c :| c in cs && Project(c) == p && p != "";
      }
      if p != "" {
        forall c | c in cs && c.config.Some? && "com.docker.compose.project" in c.config.value.labels &&
                   c.config.value.labels["com.docker.compose.project"] == p
          ensures p in ProjectSet(cs)
        {
          assert Project(c) == p;
        }
      }
    }
  }

  /** The project list is strictly sorted and stands for the set of non-empty project labels, no more and no less. */
  lemma ProjectsCanonical(cs: seq<Container>, cs': seq<Container>)
    ensures StrictlySorted(Projects(cs))
    ensures Projects(cs) == Projects(cs') <==> ProjectSet(cs) == ProjectSet(cs')
  {
    if Projects(cs) == Projects(cs') {
      forall p ensures p in ProjectSet(cs) <==> p in ProjectSet(cs') {
        assert p in Projects(cs) <==> p in ProjectSet(cs);
        assert p in Projects(cs') <==> p in ProjectSet(cs');
      }
    }
  }
}
