/** When the discoverer warns about a labelled container that is not on the network. */
module Misconfig {
  import opened Text
  import opened Inspect

  /** Remembered fingerprints by container id; a missing one reads as the empty string. */
  type Fingerprints = map<string, string>

  function Remembered(cache: Fingerprints, id: string): string {
    if id in cache then cache[id] else ""
  }

  ghost function Observe(cache: Fingerprints, c: Container, network: string): (Fingerprints, bool) {
    if !MissingNetwork(c, network) then (cache - {c.id}, false)
    else if Remembered(cache, c.id) == Join(Attached(c), ",") then (cache, false)
    else (cache[c.id := Join(Attached(c), ",")], true)
  }

  /** The check itself: forget on recovery, stay silent on a known fingerprint, otherwise warn and remember. */
  method LogMisconfigIfNeeded(cache: Fingerprints, c: Container, network: string)
    returns (cache': Fingerprints, warned: bool)
    ensures (cache', warned) == Observe(cache, c, network)
  {
    var attached, bad := LabeledMissingNetwork(c, network);
    if !bad { return cache - {c.id}, false; }
    var fingerprint := Join(attached, ",");
    if Remembered(cache, c.id) == fingerprint { return cache, false; }
    return cache[c.id := fingerprint], true;
  }

  ghost function ObserveAll(cache: Fingerprints, cs: seq<Container>, network: string): Fingerprints {
    if cs == [] then cache
    else Observe(ObserveAll(cache, cs[..|cs| - 1], network), cs[|cs| - 1], network).0
  }

  /** The networks of a container's last flagged observation since it was last healthy; none reads as the empty list. */
  ghost function LastFlagged(cs: seq<Container>, id: string, network: string): seq<string> {
    if cs == [] then [] else
      var c := cs[|cs| - 1];
      if c.id != id then LastFlagged(cs[..|cs| - 1], id, network)
      else if MissingNetwork(c, network) then Attached(c)
      else []
  }

  /** Docker network names are non-empty and hold no comma. */
  predicate NetworkName(n: string) { n != "" && ',' !in n }

  predicate ProperNames(names: seq<string>) { forall n :: n in names ==> NetworkName(n) }

  lemma JoinInjective(a: seq<string>, b: seq<string>)
    requires ProperNames(a) && ProperNames(b)
    ensures Join(a, ",") == Join(b, ",") <==> a == b
  {
    JoinNonEmpty(a);
    JoinNonEmpty(b);
    if a != [] && b != [] {
      SplitOfJoin(a, ",");
      SplitOfJoin(b, ",");
    }
  }

  lemma JoinNonEmpty(a: seq<string>)
    requires ProperNames(a)
    ensures Join(a, ",") == "" <==> a == []
  {
    if a != [] { assert a[0] in a; }
  }

  lemma {:induction false} CacheMeaning(cs: seq<Container>, id: string, network: string)
    requires forall c :: c in cs ==> ProperNames(Attached(c))
    ensures Remembered(ObserveAll(map[], cs, network), id) == Join(LastFlagged(cs, id, network), ",")
    ensures ProperNames(LastFlagged(cs, id, network))
  {
    if cs == [] {
    } else {
      var before, c := cs[..|cs| - 1], cs[|cs| - 1];
      assert c in cs && forall c' :: c' in before ==> c' in cs;
      CacheMeaning(before, id, network);
    }
  }

  /** In any interleaving of observations of any number of containers, a container is warned about exactly when it is flagged with a different network list than when it was last flagged since it was last healthy. */
  lemma {:induction false} WarnsIff(cs: seq<Container>, c: Container, network: string)
    requires forall c' :: c' in cs ==> ProperNames(Attached(c'))
    requires ProperNames(Attached(c))
    ensures Observe(ObserveAll(map[], cs, network), c, network).1 <==>
            MissingNetwork(c, network) && Attached(c) != LastFlagged(cs, c.id, network)
  {
    CacheMeaning(cs, c.id, network);
    JoinInjective(Attached(c), LastFlagged(cs, c.id, network));
  }

  /** A container flagged while attached to nothing, with no earlier flag, goes unreported: its fingerprint is the map's default. */
  lemma DetachedIsSilent(cs: seq<Container>, c: Container, network: string)
    requires forall c' :: c' in cs ==> ProperNames(Attached(c')) && c'.id != c.id
    requires MissingNetwork(c, network) && Attached(c) == []
    ensures !Observe(ObserveAll(map[], cs, network), c, network).1
  {
    WarnsIff(cs, c, network);
    NeverSeen(cs, c.id, network);
  }

  lemma {:induction false} NeverSeen(cs: seq<Container>, id: string, network: string)
    requires forall c :: c in cs ==> c.id != id
    ensures LastFlagged(cs, id, network) == []
  {
    if cs == [] {
    } else {
      NeverSeen(cs[..|cs| - 1], id, network);
    }
  }
}
