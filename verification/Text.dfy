/**
  Strings and lists of strings, as the standard library used by the program
  treats them: code-point order, `sort.Strings`, `strings.Join`,
  `strings.Split`, substring search, and lists without repetition.
*/
module Text {

  datatype Option<+T> = None | Some(value: T)

  datatype Result<+T, +E> = Success(value: T) | Failure(error: E)

  /******* Lexicographic order *******/

  predicate Leq(a: string, b: string) {
    a == "" || (b != "" && (a[0] < b[0] || (a[0] == b[0] && Leq(a[1..], b[1..]))))
  }

  lemma {:induction false} LeqReflexive(a: string)
    ensures Leq(a, a)
  {
    if a == "" {
    } else {
      LeqReflexive(a[1..]);
    }
  }

  lemma {:induction false} LeqTotal(a: string, b: string)
    ensures Leq(a, b) || Leq(b, a)
  {
    if a != "" && b != "" { LeqTotal(a[1..], b[1..]); }
  }

  lemma {:induction false} LeqAntisymmetric(a: string, b: string)
    requires Leq(a, b) && Leq(b, a)
    ensures a == b
  {
    if a != "" && b != "" {
      LeqAntisymmetric(a[1..], b[1..]);
      assert a == [a[0]] + a[1..] && b == [b[0]] + b[1..];
    }
  }

  lemma {:induction false} LeqTransitive(a: string, b: string, c: string)
    requires Leq(a, b) && Leq(b, c)
    ensures Leq(a, c)
  {
    if a != "" && a[0] == b[0] == c[0] { LeqTransitive(a[1..], b[1..], c[1..]); }
  }

  /** Said without recursion: a prefix comes first, otherwise the smaller character at the first difference does. */
  lemma {:induction false} LeqMeans(a: string, b: string)
    ensures Leq(a, b) <==> a <= b || exists k | 0 <= k < |a| && k < |b| :: a[..k] == b[..k] && a[k] < b[k]
  {
    if a == "" || b == "" {
    } else if a[0] == b[0] {
      LeqMeans(a[1..], b[1..]);
      SamePrefix(a, b);
      SmallerLater(a, b);
    } else if a[0] < b[0] {
      assert a[..0] == b[..0];
    } else {
      forall k | 0 < k < |a| && k < |b| ensures a[..k] != b[..k] {
        assert a[..k][0] == a[0] && b[..k][0] == b[0];
      }
    }
  }

  lemma SamePrefix(a: string, b: string)
    requires a != "" && b != "" && a[0] == b[0]
    ensures a <= b <==> a[1..] <= b[1..]
  {
    if a[1..] <= b[1..] {
      assert a == [a[0]] + a[1..] && b == [b[0]] + b[1..];
      assert |a| <= |b|;
      forall i | 0 <= i < |a| ensures a[i] == b[i] {
        if i > 0 { assert a[i] == a[1..][i - 1] && b[i] == b[1..][i - 1]; }
      }
    }
  }

  lemma SmallerLater(a: string, b: string)
    requires a != "" && b != "" && a[0] == b[0]
    ensures (exists k | 0 <= k < |a| && k < |b| :: a[..k] == b[..k] && a[k] < b[k]) <==>
            exists k | 0 <= k < |a[1..]| && k < |b[1..]| :: a[1..][..k] == b[1..][..k] && a[1..][k] < b[1..][k]
  {
    if k :| 0 <= k < |a| && k < |b| && a[..k] == b[..k] && a[k] < b[k] {
      assert a[1..][..k - 1] == a[..k][1..] && b[1..][..k - 1] == b[..k][1..];
      assert a[1..][k - 1] < b[1..][k - 1];
    }
    if k :| 0 <= k < |a[1..]| && k < |b[1..]| && a[1..][..k] == b[1..][..k] && a[1..][k] < b[1..][k] {
      assert a[..k + 1] == [a[0]] + a[1..][..k] && b[..k + 1] == [b[0]] + b[1..][..k];
      assert a[k + 1] < b[k + 1];
    }
  }

  /******* Sorted lists *******/

  predicate Sorted(xs: seq<string>) {
    forall i, j :: 0 <= i < j < |xs| ==> Leq(xs[i], xs[j])
  }

  predicate NoDup<T(==)>(xs: seq<T>) {
    forall i, j :: 0 <= i < j < |xs| ==> xs[i] != xs[j]
  }

  predicate StrictlySorted(xs: seq<string>) {
    Sorted(xs) && NoDup(xs)
  }

  function Insert(x: string, xs: seq<string>): (r: seq<string>)
    requires Sorted(xs)
    ensures Sorted(r)
    ensures multiset(r) == multiset(xs) + multiset{x}
  {
    if xs == [] then [x]
    else if Leq(x, xs[0]) then
      InsertFront(x, xs);
      [x] + xs
    else
      LeqTotal(x, xs[0]);
      var rest := Insert(x, xs[1..]);
      InsertBehind(x, xs, rest);
      [xs[0]] + rest
  }

  lemma InsertFront(x: string, xs: seq<string>)
    requires Sorted(xs) && xs != [] && Leq(x, xs[0])
    ensures Sorted([x] + xs)
  {
    forall j | 0 <= j < |xs| ensures Leq(x, xs[j]) {
      if j > 0 { LeqTransitive(x, xs[0], xs[j]); }
    }
  }

  lemma InsertBehind(x: string, xs: seq<string>, rest: seq<string>)
    requires Sorted(xs) && xs != [] && Leq(xs[0], x)
    requires Sorted(rest) && multiset(rest) == multiset(xs[1..]) + multiset{x}
    ensures Sorted([xs[0]] + rest)
    ensures multiset([xs[0]] + rest) == multiset(xs) + multiset{x}
  {
    assert xs == [xs[0]] + xs[1..];
    forall j | 0 <= j < |rest| ensures Leq(xs[0], rest[j]) {
      assert rest[j] in multiset(rest);
      if rest[j] != x {
        assert rest[j] in xs[1..];
        var k :| 0 <= k < |xs[1..]| && xs[1..][k] == rest[j];
        assert xs[k + 1] == rest[j];
      }
    }
  }

  lemma {:induction false} SortExists(xs: seq<string>)
    ensures exists r :: Sorted(r) && multiset(r) == multiset(xs)
  {
    if xs == [] {
      assert Sorted([]);
    } else {
      assert xs == [xs[0]] + xs[1..];
      SortExists(xs[1..]);
      var rest :| Sorted(rest) && multiset(rest) == multiset(xs[1..]);
      var r := Insert(xs[0], rest);
      assert Sorted(r) && multiset(r) == multiset(xs);
    }
  }

  /** The sorted permutation of a list, which is unique (see SortedUnique). */
  ghost function Sort(xs: seq<string>): (r: seq<string>)
    ensures Sorted(r)
    ensures multiset(r) == multiset(xs)
  {
    SortExists(xs);
    var r :| Sorted(r) && multiset(r) == multiset(xs);
    r
  }

  /** `sort.Strings`; any other sorting algorithm would leave the same list behind. */
  method SortStrings(xs: seq<string>) returns (r: seq<string>)
    ensures r == Sort(xs)
  {
    r := [];
    for i := 0 to |xs|
      invariant Sorted(r) && multiset(r) == multiset(xs[..i])
    {
      assert xs[..i + 1] == xs[..i] + [xs[i]];
      r := Insert(xs[i], r);
    }
    assert xs[..|xs|] == xs;
    SortedUnique(r, Sort(xs));
  }

  /** Whatever algorithm sorts a list of strings, the result is the same. */
  lemma {:induction false} SortedUnique(a: seq<string>, b: seq<string>)
    requires Sorted(a) && Sorted(b) && multiset(a) == multiset(b)
    ensures a == b
  {
    if a == [] {
      assert |multiset(b)| == 0;
    } else {
      assert |multiset(a)| == |a| && |multiset(b)| == |b|;
      HeadIsLeast(a, b);
      HeadIsLeast(b, a);
      LeqAntisymmetric(a[0], b[0]);
      TailCounts(a);
      TailCounts(b);
      SortedUnique(a[1..], b[1..]);
    }
  }

  lemma TailCounts<T>(a: seq<T>)
    requires a != []
    ensures a == [a[0]] + a[1..]
    ensures multiset(a[1..]) == multiset(a) - multiset{a[0]}
  {
    assert a == [a[0]] + a[1..];
  }

  lemma HeadIsLeast(a: seq<string>, b: seq<string>)
    requires Sorted(a) && a != [] && b != [] && multiset(a) == multiset(b)
    ensures Leq(a[0], b[0])
  {
    assert b[0] in multiset(b);
    var k :| 0 <= k < |a| && a[k] == b[0];
    if k == 0 { LeqReflexive(a[0]); }
  }

  /** Of any two elements the earlier is a prefix of the later, or has the smaller character at their first difference. */
  lemma SortedPairs(xs: seq<string>, i: nat, j: nat)
    requires Sorted(xs) && i < j < |xs|
    ensures var a, b := xs[i], xs[j];
            a <= b || exists k | 0 <= k < |a| && k < |b| :: a[..k] == b[..k] && a[k] < b[k]
  {
    LeqMeans(xs[i], xs[j]);
  }

  lemma SortLength(xs: seq<string>)
    ensures |Sort(xs)| == |xs|
  {
    assert |multiset(Sort(xs))| == |multiset(xs)|;
  }

  lemma SortElements(xs: seq<string>)
    ensures forall x :: x in Sort(xs) <==> x in xs
  {
    forall x ensures x in Sort(xs) <==> x in xs {
      assert x in multiset(Sort(xs)) <==> x in multiset(xs);
    }
  }

  /******* Lists without repetition *******/

  lemma {:induction false} NoDupCounts<T>(xs: seq<T>)
    ensures NoDup(xs) <==> forall x :: multiset(xs)[x] <= 1
  {
    if xs == [] {
    } else {
      var x0, rest := xs[0], xs[1..];
      assert xs == [x0] + rest;
      NoDupCounts(rest);
      assert multiset(xs) == multiset{x0} + multiset(rest);
      if NoDup(xs) {
        assert forall i, j :: 0 <= i < j < |rest| ==> rest[i] == xs[i + 1] && rest[j] == xs[j + 1];
        assert x0 !in rest;
      } else if forall x :: multiset(xs)[x] <= 1 {
        assert multiset(xs)[x0] == 1 + multiset(rest)[x0];
        assert x0 !in multiset(rest);
        assert forall x :: multiset(rest)[x] <= multiset(xs)[x];
        assert false;
      }
    }
  }

  lemma NoDupSameElements<T>(xs: seq<T>, ys: seq<T>)
    requires NoDup(xs) && NoDup(ys)
    requires forall x :: x in xs <==> x in ys
    ensures multiset(xs) == multiset(ys)
  {
    NoDupCounts(xs);
    NoDupCounts(ys);
    forall x ensures multiset(xs)[x] == multiset(ys)[x] {
      assert x in xs <==> x in ys;
      assert multiset(xs)[x] > 0 <==> x in xs;
      assert multiset(ys)[x] > 0 <==> x in ys;
    }
  }

  lemma {:induction false} SortStrictIff(xs: seq<string>)
    ensures StrictlySorted(Sort(xs)) <==> NoDup(xs)
  {
    NoDupCounts(xs);
    NoDupCounts(Sort(xs));
  }

  lemma StrictlySortedUnique(xs: seq<string>, ys: seq<string>)
    requires StrictlySorted(xs) && StrictlySorted(ys)
    requires forall x :: x in xs <==> x in ys
    ensures xs == ys
  {
    NoDupSameElements(xs, ys);
    SortedUnique(xs, ys);
  }

  /** First occurrences, in order. */
  function Dedup<T(==,!new)>(xs: seq<T>): (r: seq<T>)
    ensures NoDup(r)
    ensures forall x :: x in r <==> x in xs
  {
    if xs == [] then [] else
      var r := Dedup(xs[..|xs| - 1]);
      assert xs == xs[..|xs| - 1] + [xs[|xs| - 1]];
      if xs[|xs| - 1] in r then r else r + [xs[|xs| - 1]]
  }

  /** The elements come in the order of their first occurrences. */
  lemma {:induction false} DedupKeepsOrder<T(!new)>(xs: seq<T>, i: nat, j: nat)
    requires i < j < |Dedup(xs)|
    ensures exists a, b | 0 <= a < b < |xs| :: xs[a] == Dedup(xs)[i] && xs[b] == Dedup(xs)[j] && Dedup(xs)[j] !in xs[..b]
  {
    var init, n := xs[..|xs| - 1], |xs| - 1;
    if j < |Dedup(init)| {
      DedupKeepsOrder(init, i, j);
      var a, b :| 0 <= a < b < |init| && init[a] == Dedup(init)[i] && init[b] == Dedup(init)[j] && Dedup(init)[j] !in init[..b];
      assert xs[a] == init[a] && xs[b] == init[b] && xs[..b] == init[..b];
    } else {
      assert Dedup(init)[i] in init;
      var a :| 0 <= a < |init| && init[a] == Dedup(init)[i];
      assert xs[a] == init[a] && xs[..n] == init;
    }
  }

  function Map<S, T>(f: S -> T, xs: seq<S>): (r: seq<T>)
    ensures |r| == |xs|
    ensures forall i :: 0 <= i < |xs| ==> r[i] == f(xs[i])
  {
    seq(|xs|, i requires 0 <= i < |xs| => f(xs[i]))
  }

  lemma MapConcat<S, T>(f: S -> T, xs: seq<S>, ys: seq<S>)
    ensures Map(f, xs + ys) == Map(f, xs) + Map(f, ys)
  {
  }

  /** Permuting a list permutes its image. */
  lemma {:induction false} MapPermutes<S, T>(f: S -> T, xs: seq<S>, ys: seq<S>)
    requires multiset(xs) == multiset(ys)
    ensures multiset(Map(f, xs)) == multiset(Map(f, ys))
  {
    if xs == [] {
      assert |multiset(ys)| == 0;
    } else {
      var x, tail := xs[0], xs[1..];
      assert xs == [x] + tail;
      var before, after := RemoveOne(xs, ys);
      MapPermutes(f, tail, before + after);
      MapConcat(f, [x], tail);
      MapConcat(f, before, after);
      MapConcat(f, before, [x] + after);
      MapConcat(f, [x], after);
    }
  }

  /** The first element of a list occurs in every permutation of it. */
  lemma RemoveOne<T>(xs: seq<T>, ys: seq<T>) returns (before: seq<T>, after: seq<T>)
    requires xs != [] && multiset(xs) == multiset(ys)
    ensures ys == before + ([xs[0]] + after)
    ensures multiset(xs[1..]) == multiset(before + after)
  {
    assert xs == [xs[0]] + xs[1..];
    assert xs[0] in multiset(ys);
    var k :| 0 <= k < |ys| && ys[k] == xs[0];
    before, after := ys[..k], ys[k + 1..];
    assert ys == before + ([ys[k]] + after);
    assert multiset(xs[1..]) == multiset(xs) - multiset{xs[0]};
  }

  /******* Substrings, Join and Split *******/

  predicate HasPrefix(s: string, p: string) {
    p <= s
  }

  predicate HasSuffix(s: string, p: string) {
    |p| <= |s| && s[|s| - |p|..] == p
  }

  predicate StartsAt(s: string, t: string, i: nat) {
    i + |t| <= |s| && s[i..i + |t|] == t
  }

  predicate Contains(s: string, t: string) {
    exists i: nat :: i <= |s| && StartsAt(s, t, i)
  }

  function Join(xs: seq<string>, sep: string): string {
    if xs == [] then ""
    else if |xs| == 1 then xs[0]
    else xs[0] + sep + Join(xs[1..], sep)
  }

  /** Position of the first occurrence of `sep`, or the length of `s`. */
  function Find(s: string, sep: string): (k: nat)
    requires sep != ""
    ensures k <= |s|
    ensures k < |s| ==> StartsAt(s, sep, k)
    ensures forall j: nat :: j < k ==> !StartsAt(s, sep, j)
  {
    if s == "" || StartsAt(s, sep, 0) then 0
    else
      var k := Find(s[1..], sep);
      StartsAtTail(s, sep);
      1 + k
  }

  lemma StartsAtTail(s: string, sep: string)
    requires s != ""
    ensures forall j: nat :: 1 <= j ==> (StartsAt(s, sep, j) <==> StartsAt(s[1..], sep, j - 1))
  {
    forall j: nat | 1 <= j ensures StartsAt(s, sep, j) <==> StartsAt(s[1..], sep, j - 1) {
      if j + |sep| <= |s| { SameSlice(s, j, |sep|); }
    }
  }

  /** A slice of the tail is a slice of the whole, one place further on. */
  lemma SameSlice(s: string, j: nat, n: nat)
    requires 1 <= j && j + n <= |s|
    ensures s[j..j + n] == s[1..][j - 1..j - 1 + n]
  {
    var whole, tail := s[j..j + n], s[1..][j - 1..j - 1 + n];
    forall i | 0 <= i < n ensures whole[i] == tail[i] {
      assert whole[i] == s[j + i] && tail[i] == s[1..][j - 1 + i];
    }
  }

  /** `strings.Split` with a non-empty separator. */
  function Split(s: string, sep: string): (r: seq<string>)
    requires sep != ""
    ensures r != []
    decreases |s|
  {
    var k := Find(s, sep);
    if k == |s| then [s] else [s[..k]] + Split(s[k + |sep|..], sep)
  }

  lemma {:induction false} JoinOfSplit(s: string, sep: string)
    requires sep != ""
    ensures Join(Split(s, sep), sep) == s
    decreases |s|
  {
    var k := Find(s, sep);
    if k == |s| {
      JoinOne(s, sep);
    } else {
      var rest := s[k + |sep|..];
      JoinOfSplit(rest, sep);
      JoinHeadTail(s[..k], Split(rest, sep), sep);
      CutAt(s, sep, k);
    }
  }

  lemma JoinOne(x: string, sep: string)
    ensures Join([x], sep) == x
  {
  }

  lemma JoinHeadTail(x: string, xs: seq<string>, sep: string)
    requires xs != []
    ensures Join([x] + xs, sep) == x + sep + Join(xs, sep)
  {
    assert ([x] + xs)[1..] == xs;
  }

  lemma CutAt(s: string, sep: string, k: nat)
    requires StartsAt(s, sep, k)
    ensures s == s[..k] + sep + s[k + |sep|..]
  {
    assert s == s[..k] + s[k..k + |sep|] + s[k + |sep|..];
  }

  /** Joined pieces come apart again when no piece holds the separator's first character. */
  lemma {:induction false} SplitOfJoin(xs: seq<string>, sep: string)
    requires xs != [] && sep != ""
    requires forall x :: x in xs ==> sep[0] !in x
    ensures Split(Join(xs, sep), sep) == xs
  {
    var s := Join(xs, sep);
    if |xs| == 1 {
      FindAbsent(s, sep);
    } else {
      FindAfter(xs[0], Join(xs[1..], sep), sep);
      assert s[..|xs[0]|] == xs[0];
      assert s[|xs[0]| + |sep|..] == Join(xs[1..], sep);
      SplitOfJoin(xs[1..], sep);
    }
  }

  lemma OccurrenceHead(s: string, sep: string, k: nat)
    requires sep != "" && StartsAt(s, sep, k)
    ensures k < |s| && s[k] == sep[0]
  {
    assert s[k..k + |sep|][0] == s[k];
  }

  lemma FindAbsent(s: string, sep: string)
    requires sep != "" && sep[0] !in s
    ensures Find(s, sep) == |s|
  {
    if Find(s, sep) < |s| { OccurrenceHead(s, sep, Find(s, sep)); }
  }

  lemma FindAfter(x: string, rest: string, sep: string)
    requires sep != "" && sep[0] !in x
    ensures Find(x + sep + rest, sep) == |x|
  {
    var s := x + sep + rest;
    assert StartsAt(s, sep, |x|);
    assert forall i :: 0 <= i < |x| ==> s[i] == x[i] && x[i] in x;
    if Find(s, sep) < |x| { OccurrenceHead(s, sep, Find(s, sep)); }
  }

  /** Pieces of a split at a one-character separator never hold that character. */
  lemma {:induction false} SplitPieces(s: string, c: char)
    ensures forall x :: x in Split(s, [c]) ==> c !in x
    decreases |s|
  {
    var k := Find(s, [c]);
    forall j: nat | j < k ensures s[j] != c {
      assert !StartsAt(s, [c], j);
    }
    if k < |s| { SplitPieces(s[k + 1..], c); }
  }
}
