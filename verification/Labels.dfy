/** Which strings may go into a hostname or a SAN. */
module Labels {
  import opened Text

  predicate Alnum(c: char) {
    'a' <= c <= 'z' || '0' <= c <= '9'
  }

  predicate LabelChar(c: char) {
    Alnum(c) || c == '.' || c == '-'
  }

  /** The characters by their ASCII codes: lower-case letters, digits, the dot and the hyphen. */
  lemma CharCodes(c: char)
    ensures Alnum(c) <==> 97 <= c as int <= 122 || 48 <= c as int <= 57
    ensures LabelChar(c) <==> Alnum(c) || c as int == 46 || c as int == 45
  {
  }

  /** The expression `^[a-z0-9][a-z0-9.-]*$`, used by certgen and by render. */
  predicate SafeName(s: string) {
    s != "" && Alnum(s[0]) && forall i :: 0 <= i < |s| ==> LabelChar(s[i])
  }

  predicate ValidateLabel(s: string) {
    SafeName(s) && !Contains(s, "..") && !HasSuffix(s, ".") && !HasSuffix(s, "-")
  }

  /** A non-empty name without dots. */
  predicate OneLabel(s: string) {
    s != "" && '.' !in s
  }

  /** A non-empty run of letters, digits and hyphens. */
  predicate LabelPart(s: string) {
    s != "" && forall i :: 0 <= i < |s| ==> Alnum(s[i]) || s[i] == '-'
  }

  /** What a valid label looks like, said by its dot-separated parts. */
  predicate WellFormedLabel(s: string) {
    && s != "" && Alnum(s[0]) && Alnum(s[|s| - 1])
    && forall part :: part in Split(s, ".") ==> LabelPart(part)
  }

  /******* ValidateLabel and the parts of a name *******/

  predicate NoDoubleDot(s: string) {
    forall i :: 0 <= i < |s| - 1 ==> !(s[i] == '.' && s[i + 1] == '.')
  }

  lemma NoDoubleDotIff(s: string)
    ensures NoDoubleDot(s) <==> !Contains(s, "..")
  {
    if Contains(s, "..") {
      var i: nat :| i <= |s| && StartsAt(s, "..", i);
      assert s[i] == s[i..i + 2][0] && s[i + 1] == s[i..i + 2][1];
    } else {
      forall i | 0 <= i < |s| - 1 ensures !(s[i] == '.' && s[i + 1] == '.') {
        assert !StartsAt(s, "..", i);
      }
    }
  }

  /** Dots neither at an end nor next to each other, and otherwise only letters, digits and hyphens. */
  predicate DotsSeparate(s: string) {
    && s != "" && s[0] != '.' && s[|s| - 1] != '.' && NoDoubleDot(s)
    && forall i :: 0 <= i < |s| ==> LabelChar(s[i])
  }

  lemma {:induction false} PartsIff(s: string)
    ensures DotsSeparate(s) <==> forall part :: part in Split(s, ".") ==> LabelPart(part)
    decreases |s|
  {
    var k := Find(s, ".");
    var rest := if k < |s| then s[k + 1..] else "";
    forall j | 0 <= j < k ensures s[j] != '.' {
      assert !StartsAt(s, ".", j);
    }
    if k < |s| {
      assert Split(s, ".") == [s[..k]] + Split(rest, ".");
      PartsIff(rest);
      assert s[k] == '.' by { OccurrenceHead(s, ".", k); }
      assert forall i :: 0 <= i < |rest| ==> rest[i] == s[k + 1 + i];
      assert s[..k] in Split(s, ".");
      assert forall part :: part in Split(s, ".") <==> part == s[..k] || part in Split(rest, ".");
      if LabelPart(s[..k]) && DotsSeparate(rest) { DotsJoin(s, k); }
      if DotsSeparate(s) { DotsSplit(s, k); }
    } else {
      assert Split(s, ".") == [s];
      assert s in Split(s, ".");
    }
  }

  lemma DotsJoin(s: string, k: nat)
    requires k < |s| && s[k] == '.'
    requires LabelPart(s[..k]) && DotsSeparate(s[k + 1..])
    ensures DotsSeparate(s)
  {
    var rest := s[k + 1..];
    forall i | 0 <= i < |s| ensures LabelChar(s[i]) && (i < k ==> s[i] != '.') {
      if i < k { assert s[..k][i] == s[i]; }
      if i > k { assert rest[i - k - 1] == s[i]; }
    }
    forall i | 0 <= i < |s| - 1 ensures !(s[i] == '.' && s[i + 1] == '.') {
      if i > k { assert !(rest[i - k - 1] == '.' && rest[i - k] == '.'); }
    }
  }

  lemma DotsSplit(s: string, k: nat)
    requires k < |s| && s[k] == '.' && DotsSeparate(s)
    requires forall j :: 0 <= j < k ==> s[j] != '.'
    ensures LabelPart(s[..k]) && DotsSeparate(s[k + 1..])
  {
    var rest := s[k + 1..];
    assert !(s[k] == '.' && s[k + 1] == '.');
    forall i | 0 <= i < |rest| - 1 ensures !(rest[i] == '.' && rest[i + 1] == '.') {
      assert !(s[k + 1 + i] == '.' && s[k + 2 + i] == '.');
    }
  }

  /** `ValidateLabel` accepts exactly the dot-joined lists of non-empty parts that start and end with a letter or digit. */
  lemma ValidateLabelIff(s: string)
    ensures ValidateLabel(s) <==> WellFormedLabel(s)
  {
    NoDoubleDotIff(s);
    PartsIff(s);
    if s != "" {
      var last := s[|s| - 1];
      assert s[|s| - 1..] == [last];
      assert HasSuffix(s, ".") <==> last == '.';
      assert HasSuffix(s, "-") <==> last == '-';
    }
  }

  /** Joining two valid labels with a dot gives a valid label. */
  lemma DotJoinValid(a: string, b: string)
    requires ValidateLabel(a) && ValidateLabel(b)
    ensures ValidateLabel(a + "." + b)
  {
    var s := a + "." + b;
    NoDoubleDotIff(a);
    NoDoubleDotIff(b);
    NoDoubleDotIff(s);
    ValidateLabelIff(a);
    ValidateLabelIff(b);
    forall i | 0 <= i < |s| - 1 ensures !(s[i] == '.' && s[i + 1] == '.') {
      if i < |a| - 1 {
        assert !(a[i] == '.' && a[i + 1] == '.');
      } else if i > |a| {
        assert !(b[i - |a| - 1] == '.' && b[i - |a|] == '.');
      }
    }
    assert s[|s| - 1] == b[|b| - 1];
    assert s[|s| - 1..] == [s[|s| - 1]];
  }

  lemma SingleCharValid(c: char)
    requires Alnum(c)
    ensures ValidateLabel([c])
  {
    NoDoubleDotIff([c]);
  }

  /** Parts of a valid label are non-empty and hold no dot. */
  lemma ValidParts(s: string)
    requires ValidateLabel(s)
    ensures forall part :: part in Split(s, ".") ==> OneLabel(part)
  {
    ValidateLabelIff(s);
    SplitPieces(s, '.');
  }

  /** Certgen's check is the stricter of the two; `a..b` is safe to render but not valid. */
  lemma ValidIsSafe(s: string)
    ensures ValidateLabel(s) ==> SafeName(s)
    ensures SafeName("a..b") && !ValidateLabel("a..b")
  {
    assert StartsAt("a..b", "..", 1);
  }
}
