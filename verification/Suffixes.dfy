/**
  The takeover suffix list, read twice: by the discoverer, and by the shell loop
  that sets up DNS. A newline or a glob character in the list is out of scope,
  because the shell would split or expand it further.
*/
module Suffixes {
  import opened Text
  import opened Labels

  /******* The discoverer's parser *******/

  /** `unicode.IsSpace`. */
  predicate IsSpace(c: char) {
    || '\t' <= c <= '\r' || c == ' ' || c == '\U{85}' || c == '\U{A0}' || c == '\U{1680}'
    || '\U{2000}' <= c <= '\U{200A}' || c == '\U{2028}' || c == '\U{2029}' || c == '\U{202F}'
    || c == '\U{205F}' || c == '\U{3000}'
  }

  function TrimLeft(s: string): string {
    if s != "" && IsSpace(s[0]) then TrimLeft(s[1..]) else s
  }

  function TrimRight(s: string): string {
    if s != "" && IsSpace(s[|s| - 1]) then TrimRight(s[..|s| - 1]) else s
  }

  function TrimSpace(s: string): string { TrimRight(TrimLeft(s)) }

  /** Within ASCII: tab to carriage return, and the space. */
  lemma SpaceCodes(c: char)
    requires c as int < 128
    ensures IsSpace(c) <==> 9 <= c as int <= 13 || c as int == 32
  {
  }

  datatype Error = InvalidPrimary | InvalidTakeover(suffix: string)

  predicate FieldFits(s: string) { s == "" || ValidateLabel(s) }

  function Trimmed(env: string): seq<string> { Map(TrimSpace, Split(env, ",")) }

  /** Every entry is blank or a valid label. */
  predicate GoAccepts(env: string) {
    forall s :: s in Trimmed(env) ==> FieldFits(s)
  }

  ghost predicate GoElement(primary: string, env: string, x: string) {
    x == primary || (x != "" && x in Trimmed(env))
  }

  /** The parser returns the primary and the non-blank entries, each once and in order, or the first invalid entry. */
  method ParseTakeoverSuffixes(primary: string, env: string) returns (r: Result<seq<string>, Error>)
    ensures r == Failure(InvalidPrimary) <==> !ValidateLabel(primary)
    ensures r.Success? <==> ValidateLabel(primary) && GoAccepts(env)
    ensures r.Success? ==> StrictlySorted(r.value) && forall x :: x in r.value <==> GoElement(primary, env, x)
    ensures r.Failure? && r.error.InvalidTakeover? ==>
              exists k :: 0 <= k < |Trimmed(env)| && r.error.suffix == Trimmed(env)[k] &&
                !FieldFits(Trimmed(env)[k]) && forall s :: s in Trimmed(env)[..k] ==> FieldFits(s)
  {
    if !ValidateLabel(primary) { return Failure(InvalidPrimary); }
    var seen := {primary};
    var out := [primary];
    var fields := Split(env, ",");
    for i := 0 to |fields|
      invariant forall s :: s in Trimmed(env)[..i] ==> FieldFits(s)
      invariant NoDup(out)
      invariant forall x :: x in seen <==> x in out
      invariant forall x :: x in out <==> x == primary || (x != "" && x in Trimmed(env)[..i])
    {
      var s := TrimSpace(fields[i]);
      assert Trimmed(env)[i] == s;
      assert Trimmed(env)[..i + 1] == Trimmed(env)[..i] + [s];
      if s == "" { continue; }
      assert s in Trimmed(env);
      if !ValidateLabel(s) { return Failure(InvalidTakeover(s)); }
      if s in seen { continue; }
      seen := seen + {s};
      out := out + [s];
    }
    assert Trimmed(env)[..|fields|] == Trimmed(env);
    SortStrictIff(out);
    SortElements(out);
    var sorted := SortStrings(out);
    return Success(sorted);
  }

  /******* The shell loop *******/

  predicate Blank(c: char) { c == ' ' || c == '\t' || c == '\n' }

  function WordEnd(s: string): (k: nat)
    ensures k <= |s|
    ensures forall i :: 0 <= i < k ==> !Blank(s[i])
    ensures k < |s| ==> Blank(s[k])
  {
    if s == "" || Blank(s[0]) then 0 else 1 + WordEnd(s[1..])
  }

  /** The fields awk splits a line into. */
  function Words(s: string): seq<string>
    decreases |s|
  {
    if s == "" then []
    else if Blank(s[0]) then Words(s[1..])
    else [s[..WordEnd(s)]] + Words(s[WordEnd(s)..])
  }

  /** `awk '{$1=$1};1'` on one line: the words, joined by single spaces. */
  function Squeeze(s: string): string { Join(Words(s), " ") }

  /** awk separates fields at spaces, tabs and newlines. */
  lemma BlankCodes(c: char)
    ensures Blank(c) <==> c as int == 32 || c as int == 9 || c as int == 10
  {
  }

  /** Unquoted expansion with IFS set to a comma drops one trailing empty field. */
  function ShellFields(env: string): seq<string> {
    var fields := Split(env, ",");
    if fields[|fields| - 1] == "" then fields[..|fields| - 1] else fields
  }

  /** The three case patterns of `valid_suffix`, each of which rejects. */
  predicate ValidSuffix(s: string) {
    && !(s == "" || exists i :: 0 <= i < |s| && !LabelChar(s[i]))
    && !(s != "" && !Alnum(s[0]))
    && !(Contains(s, "..") || HasSuffix(s, ".") || HasSuffix(s, "-"))
  }

  function Squeezed(env: string): seq<string> { Map(Squeeze, ShellFields(env)) }

  predicate ShellAccepts(env: string) {
    forall s :: s in Squeezed(env) ==> s == "" || ValidSuffix(s)
  }

  /** The clean loop and the `sort -u` behind it; a failure is the exit on an invalid suffix. */
  method CleanSuffixes(env: string) returns (r: Result<seq<string>, string>)
    ensures r.Success? <==> ShellAccepts(env)
    ensures r.Success? ==> StrictlySorted(r.value) && forall x :: x in r.value <==> x != "" && x in Squeezed(env)
    ensures r.Failure? ==> r.error in Squeezed(env) && r.error != "" && !ValidSuffix(r.error)
  {
    var cleaned: seq<string> := [];
    var fields := ShellFields(env);
    for i := 0 to |fields|
      invariant forall s :: s in Squeezed(env)[..i] ==> s == "" || ValidSuffix(s)
      invariant forall x :: x in cleaned <==> x != "" && x in Squeezed(env)[..i]
    {
      var s := Squeeze(fields[i]);
      assert Squeezed(env)[i] == s;
      assert Squeezed(env)[..i + 1] == Squeezed(env)[..i] + [s];
      if s == "" { continue; }
      if !ValidSuffix(s) { return Failure(s); }
      cleaned := cleaned + [s];
    }
    assert Squeezed(env)[..|fields|] == Squeezed(env);
    SortStrictIff(Dedup(cleaned));
    SortElements(Dedup(cleaned));
    var sorted := SortStrings(Dedup(cleaned));
    return Success(sorted);
  }

  /** Both validators accept the same strings. */
  lemma ValidatorsAgree(s: string)
    ensures ValidSuffix(s) <==> ValidateLabel(s)
  {
  }

  /******* One field, read both ways *******/

  /** A space that the discoverer trims and awk does not: vertical tab, form feed, carriage return, or one outside ASCII. */
  predicate OddSpace(c: char) { IsSpace(c) && !Blank(c) }

  predicate NoOddSpace(s: string) { forall i :: 0 <= i < |s| ==> !OddSpace(s[i]) }

  predicate AllBlank(s: string) { forall i :: 0 <= i < |s| ==> Blank(s[i]) }

  predicate NoBlank(s: string) { forall i :: 0 <= i < |s| ==> !Blank(s[i]) }

  lemma {:induction false} TrimLeftSplits(s: string) returns (a: string)
    ensures s == a + TrimLeft(s)
    ensures forall i :: 0 <= i < |a| ==> IsSpace(a[i])
    ensures TrimLeft(s) != "" ==> !IsSpace(TrimLeft(s)[0])
  {
    if s != "" && IsSpace(s[0]) {
      var a' := TrimLeftSplits(s[1..]);
      a := [s[0]] + a';
      assert s == [s[0]] + s[1..];
    } else {
      a := "";
    }
  }

  lemma {:induction false} TrimRightSplits(s: string) returns (b: string)
    ensures s == TrimRight(s) + b
    ensures forall i :: 0 <= i < |b| ==> IsSpace(b[i])
    ensures TrimRight(s) != "" ==> !IsSpace(TrimRight(s)[|TrimRight(s)| - 1])
  {
    if s != "" && IsSpace(s[|s| - 1]) {
      var init, c := s[..|s| - 1], s[|s| - 1];
      var b' := TrimRightSplits(init);
      b := b' + [c];
      AppendLast(s, TrimRight(init), b');
    } else {
      b := "";
    }
  }

  lemma AppendLast(s: string, a: string, b: string)
    requires s != "" && s[..|s| - 1] == a + b
    ensures s == a + (b + [s[|s| - 1]])
  {
    assert s == s[..|s| - 1] + [s[|s| - 1]];
  }

  lemma {:induction false} WordsSkipBlanks(a: string, s: string)
    requires AllBlank(a)
    ensures Words(a + s) == Words(s)
  {
    if a == "" {
      assert a + s == s;
    } else {
      assert (a + s)[1..] == a[1..] + s;
      WordsSkipBlanks(a[1..], s);
    }
  }

  lemma WordsOfBlanks(a: string)
    requires AllBlank(a)
    ensures Words(a) == []
  {
    WordsSkipBlanks(a, "");
    assert a + "" == a;
  }

  lemma {:induction false} WordEndPastWord(t: string, b: string)
    requires NoBlank(t) && (b == "" || Blank(b[0]))
    ensures WordEnd(t + b) == |t|
  {
    if t == "" {
      assert t + b == b;
    } else {
      assert (t + b)[1..] == t[1..] + b;
      WordEndPastWord(t[1..], b);
    }
  }

  lemma WordsOfOneWord(a: string, t: string, b: string)
    requires AllBlank(a) && AllBlank(b) && t != "" && NoBlank(t)
    ensures Words(a + t + b) == [t]
  {
    assert a + t + b == a + (t + b);
    WordsSkipBlanks(a, t + b);
    WordEndPastWord(t, b);
    assert (t + b)[..|t|] == t && (t + b)[|t|..] == b;
    WordsOfBlanks(b);
  }

  /** Every character that is not blank survives in some word. */
  lemma {:induction false} CharsSurvive(s: string, c: char)
    requires c in s && !Blank(c)
    ensures c in Squeeze(s)
    decreases |s|
  {
    if Blank(s[0]) {
      assert s == [s[0]] + s[1..];
      CharsSurvive(s[1..], c);
    } else {
      var k := WordEnd(s);
      assert s == s[..k] + s[k..];
      if c !in s[..k] {
        CharsSurvive(s[k..], c);
      }
    }
  }

  /** A blank between two words leaves a space behind. */
  lemma {:induction false} BlankSurvives(s: string, i: nat)
    requires i < |s| - 1 && Blank(s[i]) && !Blank(s[0]) && !Blank(s[|s| - 1])
    ensures ' ' in Squeeze(s)
  {
    var k := WordEnd(s);
    assert k <= i;
    assert 0 < k;
    var rest := s[k..];
    assert rest[|rest| - 1] == s[|s| - 1];
    CharsSurvive(rest, s[|s| - 1]);
    assert Squeeze(s) == s[..k] + " " + Squeeze(rest);
  }

  /** Trimming takes all spaces off both ends and nothing else. */
  lemma TrimSpaceMeans(f: string) returns (a: string, b: string)
    ensures f == a + TrimSpace(f) + b
    ensures (forall i :: 0 <= i < |a| ==> IsSpace(a[i])) && (forall i :: 0 <= i < |b| ==> IsSpace(b[i]))
    ensures var t := TrimSpace(f); t != "" ==> !IsSpace(t[0]) && !IsSpace(t[|t| - 1])
  {
    a := TrimLeftSplits(f);
    b := TrimRightSplits(TrimLeft(f));
    assert TrimLeft(f) == TrimSpace(f) + b;
  }

  /** Without odd spaces, trimming takes blanks off both ends. */
  lemma TrimSpaceSplits(f: string) returns (a: string, b: string)
    requires NoOddSpace(f)
    ensures f == a + TrimSpace(f) + b && AllBlank(a) && AllBlank(b)
    ensures NoOddSpace(TrimSpace(f))
    ensures var t := TrimSpace(f); t != "" ==> !Blank(t[0]) && !Blank(t[|t| - 1])
  {
    a := TrimLeftSplits(f);
    b := TrimRightSplits(TrimLeft(f));
    var t := TrimSpace(f);
    assert TrimLeft(f) == t + b;
    assert f == a + t + b;
    NoOddParts(a, t, b);
  }

  lemma NoOddParts(a: string, t: string, b: string)
    requires NoOddSpace(a + t + b)
    ensures NoOddSpace(a) && NoOddSpace(t) && NoOddSpace(b)
  {
    var f := a + t + b;
    assert forall i :: 0 <= i < |a| ==> a[i] == f[i];
    assert forall i :: 0 <= i < |t| ==> t[i] == f[|a| + i];
    assert forall i :: 0 <= i < |b| ==> b[i] == f[|a| + |t| + i];
  }

  /** A field without odd spaces reads the same: blank both times, or the same label, or invalid both times. */
  lemma PlainField(f: string)
    requires NoOddSpace(f)
    ensures TrimSpace(f) == "" <==> Squeeze(f) == ""
    ensures ValidateLabel(TrimSpace(f)) <==> ValidateLabel(Squeeze(f))
    ensures ValidateLabel(TrimSpace(f)) ==> TrimSpace(f) == Squeeze(f)
  {
    var t := TrimSpace(f);
    var a, b := TrimSpaceSplits(f);
    if t == "" {
      assert f == a + b;
      WordsOfBlanks(f);
    } else if NoBlank(t) {
      WordsOfOneWord(a, t, b);
    } else {
      var i :| 0 <= i < |t| && Blank(t[i]);
      InnerBlank(a, t, b, i);
      assert t[i] in t;
    }
  }

  lemma InnerBlank(a: string, t: string, b: string, i: nat)
    requires AllBlank(a) && AllBlank(b)
    requires i < |t| && Blank(t[i]) && !Blank(t[0]) && !Blank(t[|t| - 1])
    ensures ' ' in Squeeze(a + t + b)
  {
    assert a + t + b == a + (t + b);
    WordsSkipBlanks(a, t + b);
    WordsDropTrailing(t, b);
    BlankSurvives(t, i);
  }

  lemma {:induction false} WordsDropTrailing(t: string, b: string)
    requires AllBlank(b)
    ensures Words(t + b) == Words(t)
    decreases |t|
  {
    if t == "" {
      assert t + b == b;
      WordsOfBlanks(b);
    } else if Blank(t[0]) {
      assert (t + b)[1..] == t[1..] + b;
      WordsDropTrailing(t[1..], b);
    } else {
      var k := WordEnd(t);
      assert t + b == t[..k] + (t[k..] + b);
      WordEndPastWord(t[..k], t[k..] + b);
      assert (t + b)[..k] == t[..k] && (t + b)[k..] == t[k..] + b;
      WordsDropTrailing(t[k..], b);
    }
  }

  /** A field with an odd space is always rejected by the shell. */
  lemma OddField(f: string)
    requires !NoOddSpace(f)
    ensures Squeeze(f) != "" && !ValidateLabel(Squeeze(f))
  {
    var i :| 0 <= i < |f| && OddSpace(f[i]);
    CharsSurvive(f, f[i]);
  }

  /******* Both parsers *******/

  predicate NoOddSpaces(env: string) {
    forall f :: f in Split(env, ",") ==> NoOddSpace(f)
  }

  /** The field the shell drops is blank to the discoverer too. */
  lemma SameFields(env: string)
    ensures forall f :: f in Split(env, ",") <==> f in ShellFields(env) || (f == "" && "" in Split(env, ","))
  {
    var fields := Split(env, ",");
    var n := |fields| - 1;
    assert fields == fields[..n] + [fields[n]];
  }

  lemma MapElements(g: string -> string, fs: seq<string>, x: string)
    ensures x in Map(g, fs) <==> exists f :: f in fs && g(f) == x
  {
    if f :| f in fs && g(f) == x {
      var k :| 0 <= k < |fs| && fs[k] == f;
      assert Map(g, fs)[k] == x;
    }
  }

  lemma FitsByField(g: string -> string, fs: seq<string>)
    ensures (forall s :: s in Map(g, fs) ==> FieldFits(s)) <==> forall f :: f in fs ==> FieldFits(g(f))
  {
    forall f | f in fs ensures g(f) in Map(g, fs) {
      MapElements(g, fs, g(f));
    }
    forall s | s in Map(g, fs) ensures exists f :: f in fs && g(f) == s {
      MapElements(g, fs, s);
    }
  }

  lemma VerdictsByField(env: string)
    ensures GoAccepts(env) <==> forall f :: f in Split(env, ",") ==> FieldFits(TrimSpace(f))
    ensures ShellAccepts(env) <==> forall f :: f in Split(env, ",") ==> FieldFits(Squeeze(f))
  {
    var fields, shell := Split(env, ","), ShellFields(env);
    FitsByField(TrimSpace, fields);
    FitsByField(Squeeze, shell);
    forall s ensures FieldFits(s) <==> s == "" || ValidSuffix(s) {
      ValidatorsAgree(s);
    }
    SameFields(env);
    assert FieldFits(Squeeze(""));
    assert forall f :: f in fields ==> f in shell || f == "";
    assert forall f :: f in shell ==> f in fields;
  }

  /** Without odd spaces both parsers give the same verdict, and on acceptance the discoverer's list is the shell's plus the primary. */
  lemma ParsersAgree(primary: string, env: string)
    requires ValidateLabel(primary) && NoOddSpaces(env)
    ensures GoAccepts(env) <==> ShellAccepts(env)
    ensures GoAccepts(env) ==>
              forall x :: GoElement(primary, env, x) <==> x == primary || (x != "" && x in Squeezed(env))
  {
    VerdictsByField(env);
    forall f | f in Split(env, ",") ensures FieldFits(TrimSpace(f)) <==> FieldFits(Squeeze(f)) {
      PlainField(f);
    }
    if GoAccepts(env) {
      forall x | x != "" ensures x in Trimmed(env) <==> x in Squeezed(env) {
        SameElement(env, x);
      }
    }
  }

  lemma SameElement(env: string, x: string)
    requires NoOddSpaces(env) && x != ""
    requires forall f :: f in Split(env, ",") ==> FieldFits(TrimSpace(f))
    ensures x in Trimmed(env) <==> x in Squeezed(env)
  {
    var fields, shell := Split(env, ","), ShellFields(env);
    SameFields(env);
    MapElements(TrimSpace, fields, x);
    MapElements(Squeeze, shell, x);
    forall f | f in fields ensures TrimSpace(f) == Squeeze(f) {
      PlainField(f);
    }
    assert TrimSpace("") == "";
  }

  /** With an odd space the shell always rejects, so the verdicts agree exactly when the discoverer rejects too. */
  lemma VerdictsAgreeIff(env: string)
    ensures (GoAccepts(env) <==> ShellAccepts(env)) <==> NoOddSpaces(env) || !GoAccepts(env)
    ensures !NoOddSpaces(env) ==> !ShellAccepts(env)
  {
    VerdictsByField(env);
    if NoOddSpaces(env) {
      forall f | f in Split(env, ",") ensures FieldFits(TrimSpace(f)) <==> FieldFits(Squeeze(f)) {
        PlainField(f);
      }
    } else {
      var f :| f in Split(env, ",") && !NoOddSpace(f);
      OddField(f);
    }
  }

  lemma {:induction false} LabelReads(s: string)
    requires ValidateLabel(s)
    ensures TrimSpace(s) == s && Squeeze(s) == s && ',' !in s
  {
    forall i | 0 <= i < |s| ensures LabelChar(s[i]) && !IsSpace(s[i]) && !Blank(s[i]) {}
    assert TrimLeft(s) == s && TrimRight(s) == s;
    assert "" + s + "" == s;
    WordsOfOneWord("", s, "");
  }

  lemma TwoFields(a: string, b: string)
    requires ',' !in a && ',' !in b
    ensures Split(a + "," + b, ",") == [a, b]
  {
    FindAfter(a, b, ",");
    var env := a + "," + b;
    assert env[..|a|] == a && env[|a| + 1..] == b;
    FindAbsent(b, ",");
  }

  lemma TwoImages(f: string -> string, a: string, b: string)
    requires f(a) == a && f(b) == b
    ensures Map(f, [a, b]) == [a, b]
  {
  }

  lemma ShellTwoFields(a: string, b: string)
    requires ',' !in a && ',' !in b && b != ""
    ensures ShellFields(a + "," + b) == [a, b]
  {
    TwoFields(a, b);
  }

  /** Two valid suffixes with a comma between them are two entries to both. */
  lemma {:induction false} CommaSeparates(a: string, b: string)
    requires ValidateLabel(a) && ValidateLabel(b)
    ensures Trimmed(a + "," + b) == [a, b] && Squeezed(a + "," + b) == [a, b]
  {
    LabelReads(a);
    LabelReads(b);
    TwoFields(a, b);
    ShellTwoFields(a, b);
    TwoImages(TrimSpace, a, b);
    TwoImages(Squeeze, a, b);
  }

  lemma TrimReturn(s: string)
    requires ValidateLabel(s)
    ensures TrimSpace(s + "\r") == s
  {
    var env := s + "\r";
    assert LabelChar(s[0]) && LabelChar(s[|s| - 1]);
    assert TrimLeft(env) == env;
    assert env[|env| - 1] == '\r' && env[..|env| - 1] == s;
    assert TrimRight(s) == s;
  }

  /** A carriage return after a valid suffix, say from a file with DOS line ends, is such a case. */
  lemma CarriageReturnDisagrees(s: string)
    requires ValidateLabel(s)
    ensures GoAccepts(s + "\r") && !ShellAccepts(s + "\r")
  {
    var env := s + "\r";
    assert ',' !in env by { assert forall i :: 0 <= i < |s| ==> LabelChar(s[i]); }
    FindAbsent(env, ",");
    assert Split(env, ",") == [env];
    TrimReturn(s);
    assert Trimmed(env) == [s];
    assert OddSpace(env[|s|]);
    assert env in Split(env, ",") && !NoOddSpace(env);
    VerdictsAgreeIff(env);
  }
}
