/** When a certificate name covers a host (section 6.3 of RFC 9525). */
module Wildcards {
  import opened Text
  import opened Labels
  import opened Sans

  /** Compared label by label; a leading `*` stands for exactly one label. */
  predicate Matches(pattern: string, host: string) {
    LabelsMatch(Split(pattern, "."), Split(host, "."))
  }

  predicate LabelsMatch(ps: seq<string>, hs: seq<string>)
    requires ps != []
  {
    && |ps| == |hs|
    && (forall k :: 0 <= k < |hs| ==> hs[k] != "")
    && (ps[0] == hs[0] || ps[0] == "*")
    && (forall k :: 1 <= k < |ps| ==> ps[k] == hs[k])
  }

  ghost predicate Covered(names: seq<string>, host: string) {
    exists n :: n in names && Matches(n, host)
  }

  lemma SplitAtDot(x: string, rest: string)
    requires '.' !in x
    ensures Split(x + "." + rest, ".") == [x] + Split(rest, ".")
  {
    var s := x + "." + rest;
    FindAfter(x, rest, ".");
    assert s[..|x|] == x && s[|x| + 1..] == rest;
  }

  lemma JoinHead(xs: seq<string>)
    requires |xs| >= 2
    ensures Join(xs, ".") == xs[0] + "." + Join(xs[1..], ".")
  {
  }

  lemma WildcardCovers(l: string, d: string)
    requires OneLabel(l) && ValidateLabel(d)
    ensures Matches(Wildcard(d), l + "." + d)
  {
    SplitAtDot(l, d);
    SplitWildcard(d);
    ValidParts(d);
    StarMatches(l, Split(d, "."));
  }

  lemma StarMatches(l: string, parts: seq<string>)
    requires l != "" && forall part :: part in parts ==> part != ""
    ensures LabelsMatch(["*"] + parts, [l] + parts)
  {
    var hs := [l] + parts;
    assert forall k :: 1 <= k < |hs| ==> hs[k] in parts;
  }

  /** A host comes apart into its first label and the rest in one way only. */
  lemma FirstLabelUnique(l: string, d: string, l': string, d': string)
    requires '.' !in l && '.' !in l' && l + "." + d == l' + "." + d'
    ensures l == l' && d == d'
  {
    var h := l + "." + d;
    FindAfter(l, d, ".");
    FindAfter(l', d', ".");
    assert h[..|l|] == l && h[..|l|] == l';
    assert h[|l| + 1..] == d && h[|l| + 1..] == d';
  }

  lemma SplitWildcard(d: string)
    ensures Split(Wildcard(d), ".") == ["*"] + Split(d, ".")
  {
    assert Wildcard(d) == "*" + "." + d;
    SplitAtDot("*", d);
  }

  lemma WildcardCoversOnly(d: string, host: string) returns (l: string)
    requires Matches(Wildcard(d), host)
    ensures OneLabel(l) && host == l + "." + d
  {
    var hs := Split(host, ".");
    l := hs[0];
    SplitWildcard(d);
    assert hs[1..] == Split(d, ".");
    JoinOfSplit(host, ".");
    JoinOfSplit(d, ".");
    JoinHead(hs);
    SplitPieces(host, '.');
    assert hs[0] in hs;
  }

  /** A wildcard for `d` covers exactly the hosts one label below `d`. */
  lemma WildcardIff(d: string, host: string)
    requires ValidateLabel(d)
    ensures Matches(Wildcard(d), host) <==> exists l :: OneLabel(l) && host == l + "." + d
  {
    if Matches(Wildcard(d), host) {
      var l := WildcardCoversOnly(d, host);
    }
    if l :| OneLabel(l) && host == l + "." + d {
      WildcardCovers(l, d);
    }
  }

  /** A name without a star covers itself only. */
  lemma {:induction false} ExactNameIff(d: string, host: string)
    requires ValidateLabel(d)
    ensures Matches(d, host) <==> host == d
  {
    ValidParts(d);
    ValidateLabelIff(d);
    var ds, hs := Split(d, "."), Split(host, ".");
    if Matches(d, host) {
      assert !LabelPart("*") by { assert !Alnum("*"[0]); }
      assert ds[0] in ds;
      assert ds == hs;
      JoinOfSplit(d, ".");
      JoinOfSplit(host, ".");
    }
    if host == d {
      assert forall k :: 0 <= k < |hs| ==> hs[k] in ds;
    }
  }

  /** The hosts a certificate for an accepted request covers: one label below one of its bases. */
  ghost predicate OneBelow(cfg: Settings, projects: seq<string>, host: string) {
    exists l, b :: OneLabel(l) && IsBase(cfg, projects, b) && host == l + "." + Dotted(cfg.machine, cfg.tailnet, b)
  }

  lemma {:induction false} CoveredIff(cfg: Settings, projects: seq<string>, names: seq<string>, host: string)
    requires Accepted(cfg, projects) && multiset(names) == multiset(SanList(cfg, projects))
    ensures Covered(names, host) <==> OneBelow(cfg, projects, host)
  {
    SanElements(cfg, projects);
    forall x ensures x in names <==> IsSan(cfg, projects, x) {
      assert x in names <==> x in multiset(SanList(cfg, projects));
    }
    if Covered(names, host) {
      var n :| n in names && Matches(n, host);
      var b :| IsBase(cfg, projects, b) && n == Wildcard(Dotted(cfg.machine, cfg.tailnet, b));
      BaseValid(cfg, projects, b);
      WildcardIff(Dotted(cfg.machine, cfg.tailnet, b), host);
    }
    if OneBelow(cfg, projects, host) {
      var l, b :| OneLabel(l) && IsBase(cfg, projects, b) && host == l + "." + Dotted(cfg.machine, cfg.tailnet, b);
      BaseValid(cfg, projects, b);
      WildcardIff(Dotted(cfg.machine, cfg.tailnet, b), host);
      assert Wildcard(Dotted(cfg.machine, cfg.tailnet, b)) in names;
    }
  }
}
