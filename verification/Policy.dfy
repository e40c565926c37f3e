/**
 internal/policy/policy.go: which addresses to answer with, given the outcomes received so far, and
 what to report when there are none.  The methods are the loops of that file; the functions they are
 proved against are then related to the selection rules that the repository documents.
 */
module Policy {
  import opened Netip

  datatype Option<+T> = None | Some(value: T)
  type U32 = n: nat | n < TWO_32

  datatype SOA = SOA(ttl: U32, minttl: U32)

  datatype State = Failure | NoData | NXDomain | Answer

  /** One upstream's outcome for one question. */
  datatype Result = Result(server: Addr, serverChina: bool, addrs: seq<Addr>, state: State,
                           soa: Option<SOA>, minTTL: U32, errCategory: string)

  /** What the chase guarantees about an outcome: an answer carries addresses. */
  predicate WellFormed(rs: seq<Result>) {
    forall r :: r in rs ==> (r.state.Answer? ==> r.addrs != [])
  }

  datatype PolicyName = Override | PreferChina | AllNonChina | FallbackChina

  /** What is cached and served of a resolution. */
  datatype Payload = Payload(rcode: nat, addrs: seq<Addr>, soa: Option<SOA>, policy: Option<PolicyName>)

  /** A resolution on its way into the cache: its payload, its TTL, and whether it may be stored. */
  datatype Converted = Converted(payload: Payload, ttl: U32, cacheable: bool)

  datatype SelectResult = SelectResult(policy: PolicyName, addrs: seq<Addr>)

  const RCODE_SUCCESS: nat := 0
  const RCODE_SERVFAIL: nat := 2
  const RCODE_NXDOMAIN: nat := 3

  // ----- filter, dedup and the three address lists

  function Filter(s: seq<Addr>, keep: Addr -> bool): seq<Addr> {
    if s == [] then []
    else Filter(s[..|s| - 1], keep) + (if keep(s[|s| - 1]) then [s[|s| - 1]] else [])
  }

  function Dedup(s: seq<Addr>): seq<Addr> {
    if s == [] then []
    else
      var init, a := s[..|s| - 1], s[|s| - 1];
      if a in init then Dedup(init) else Dedup(init) + [a]
  }

  datatype Side = Anyone | ChinaSide | ForeignSide

  predicate OnSide(side: Side, r: Result) {
    r.state.Answer? && (side.ChinaSide? ==> r.serverChina) && (side.ForeignSide? ==> !r.serverChina)
  }

  /** The addresses of the answers from one side, in order of arrival. */
  function Gather(rs: seq<Result>, side: Side): seq<Addr> {
    if rs == [] then []
    else Gather(rs[..|rs| - 1], side) + (if OnSide(side, rs[|rs| - 1]) then rs[|rs| - 1].addrs else [])
  }

  function Not(p: Addr -> bool): Addr -> bool {
    (a: Addr) => !p(a)
  }

  method FilterLoop(s: seq<Addr>, keep: Addr -> bool) returns (out: seq<Addr>)
    ensures out == Filter(s, keep)
  {
    out := [];
    for i := 0 to |s|
      invariant out == Filter(s[..i], keep)
    {
      assert s[..i + 1][..i] == s[..i];
      if keep(s[i]) {
        out := out + [s[i]];
      }
    }
    assert s[..|s|] == s;
  }

  method DedupLoop(s: seq<Addr>) returns (out: seq<Addr>)
    ensures out == Dedup(s)
  {
    var seen: set<Addr> := {};
    out := [];
    for i := 0 to |s|
      invariant out == Dedup(s[..i])
      invariant forall a :: a in seen <==> a in s[..i]
    {
      assert s[..i + 1][..i] == s[..i];
      assert s[..i + 1] == s[..i] + [s[i]];
      if s[i] !in seen {
        seen := seen + {s[i]};
        out := out + [s[i]];
      }
    }
    assert s[..|s|] == s;
  }

  // ----- Select

  function SelectSpec(qname: string, rs: seq<Result>, isChina: Addr -> bool, isOverride: string -> bool): SelectResult {
    var cnChina := Filter(Gather(rs, ChinaSide), isChina);
    var foreign := Gather(rs, ForeignSide);
    var foreignNonChina := Filter(foreign, Not(isChina));
    var all := Gather(rs, Anyone);
    var allChina := Filter(all, isChina);
    if cnChina != [] && foreignNonChina != [] then
      if isOverride(qname) then SelectResult(Override, Dedup(foreignNonChina)) else SelectResult(PreferChina, Dedup(cnChina))
    else if allChina == [] then
      SelectResult(AllNonChina, Dedup(if foreign != [] then foreign else all))
    else
      SelectResult(FallbackChina, Dedup(if cnChina != [] then cnChina else allChina))
  }

  method Select(qname: string, rs: seq<Result>, isChina: Addr -> bool, isOverride: string -> bool)
    returns (sel: SelectResult)
    ensures sel == SelectSpec(qname, rs, isChina, isOverride)
  {
    var cnIPs: seq<Addr>, nonCNIPs: seq<Addr>, allIPs: seq<Addr> := [], [], [];
    for i := 0 to |rs|
      invariant allIPs == Gather(rs[..i], Anyone)
      invariant cnIPs == Gather(rs[..i], ChinaSide)
      invariant nonCNIPs == Gather(rs[..i], ForeignSide)
    {
      var r := rs[i];
      assert rs[..i + 1][..i] == rs[..i];
      if r.state == Answer {
        allIPs := allIPs + r.addrs;
        if r.serverChina {
          cnIPs := cnIPs + r.addrs;
        } else {
          nonCNIPs := nonCNIPs + r.addrs;
        }
      }
    }
    assert rs[..|rs|] == rs;
    var cnIPsChina := FilterLoop(cnIPs, isChina);
    var nonCNIPsNonChina := FilterLoop(nonCNIPs, Not(isChina));
    var allChina := FilterLoop(allIPs, isChina);
    var chosen: seq<Addr>;
    if |cnIPsChina| > 0 && |nonCNIPsNonChina| > 0 {
      if isOverride(qname) {
        chosen := DedupLoop(nonCNIPsNonChina);
        return SelectResult(Override, chosen);
      }
      chosen := DedupLoop(cnIPsChina);
      return SelectResult(PreferChina, chosen);
    }
    if |allChina| == 0 {
      if |nonCNIPs| > 0 {
        chosen := DedupLoop(nonCNIPs);
        return SelectResult(AllNonChina, chosen);
      }
      chosen := DedupLoop(allIPs);
      return SelectResult(AllNonChina, chosen);
    }
    if |cnIPsChina| > 0 {
      chosen := DedupLoop(cnIPsChina);
      return SelectResult(FallbackChina, chosen);
    }
    chosen := DedupLoop(allChina);
    return SelectResult(FallbackChina, chosen);
  }

  // ----- membership in the lists

  lemma {:induction false} FilterMembers(s: seq<Addr>, keep: Addr -> bool, a: Addr)
    ensures a in Filter(s, keep) <==> a in s && keep(a)
  {
    if s != [] {
      FilterMembers(s[..|s| - 1], keep, a);
      assert s == s[..|s| - 1] + [s[|s| - 1]];
    }
  }

  ghost predicate NoDuplicates(s: seq<Addr>) {
    forall i, j :: 0 <= i < j < |s| ==> s[i] != s[j]
  }

  lemma {:induction false} DedupMembers(s: seq<Addr>)
    ensures NoDuplicates(Dedup(s))
    ensures forall a :: a in Dedup(s) <==> a in s
  {
    if s != [] {
      DedupMembers(s[..|s| - 1]);
      assert s == s[..|s| - 1] + [s[|s| - 1]];
    }
  }

  /** An answer of the given side lists the address. */
  predicate Listed(rs: seq<Result>, side: Side, a: Addr) {
    exists r :: r in rs && OnSide(side, r) && a in r.addrs
  }

  lemma {:induction false} GatherMembers(rs: seq<Result>, side: Side, a: Addr)
    ensures a in Gather(rs, side) <==> Listed(rs, side, a)
  {
    if rs != [] {
      GatherMembers(rs[..|rs| - 1], side, a);
      assert rs == rs[..|rs| - 1] + [rs[|rs| - 1]];
    }
  }

  /** Who lists an address: any answer, an answer of a China-side upstream, an answer of a foreign one. */
  lemma ListedMeans(rs: seq<Result>, a: Addr)
    ensures Listed(rs, Anyone, a) <==> exists r :: r in rs && r.state == Answer && a in r.addrs
    ensures Listed(rs, ChinaSide, a) <==> exists r :: r in rs && r.state == Answer && r.serverChina && a in r.addrs
    ensures Listed(rs, ForeignSide, a) <==> exists r :: r in rs && r.state == Answer && !r.serverChina && a in r.addrs
  {
  }

  // ----- the documented rules

  /** Some answer of that side lists an address of the class. */
  ghost predicate Seen(rs: seq<Result>, side: Side, among: Addr -> bool) {
    exists a :: Listed(rs, side, a) && among(a)
  }

  ghost predicate RuleOne(rs: seq<Result>, isChina: Addr -> bool) {
    Seen(rs, ChinaSide, isChina) && Seen(rs, ForeignSide, Not(isChina))
  }

  ghost function DocumentedPolicy(rs: seq<Result>, isChina: Addr -> bool, override: bool): PolicyName {
    if RuleOne(rs, isChina) then (if override then Override else PreferChina)
    else if !Seen(rs, Anyone, isChina) then AllNonChina
    else FallbackChina
  }

  /** The addresses that the documentation calls for under each policy. */
  ghost predicate Documented(policy: PolicyName, rs: seq<Result>, isChina: Addr -> bool, a: Addr) {
    match policy
    case Override => Listed(rs, ForeignSide, a) && !isChina(a)
    case PreferChina => Listed(rs, ChinaSide, a) && isChina(a)
    case AllNonChina =>
      if exists b :: Listed(rs, ForeignSide, b) then Listed(rs, ForeignSide, a) else Listed(rs, Anyone, a)
    case FallbackChina =>
      isChina(a) && (if Seen(rs, ChinaSide, isChina) then Listed(rs, ChinaSide, a) else Listed(rs, Anyone, a))
  }

  lemma ListNonEmpty(s: seq<Addr>)
    ensures s != [] <==> exists a :: a in s
  {
    if s != [] {
      assert s[0] in s;
    }
  }

  lemma FilteredSide(rs: seq<Result>, side: Side, keep: Addr -> bool)
    ensures forall a :: a in Filter(Gather(rs, side), keep) <==> Listed(rs, side, a) && keep(a)
    ensures Filter(Gather(rs, side), keep) != [] <==> Seen(rs, side, keep)
  {
    forall a
      ensures a in Filter(Gather(rs, side), keep) <==> Listed(rs, side, a) && keep(a)
    {
      FilterMembers(Gather(rs, side), keep, a);
      GatherMembers(rs, side, a);
    }
    ListNonEmpty(Filter(Gather(rs, side), keep));
  }

  lemma GatheredSide(rs: seq<Result>, side: Side)
    ensures forall a :: a in Gather(rs, side) <==> Listed(rs, side, a)
    ensures Gather(rs, side) != [] <==> exists a :: Listed(rs, side, a)
  {
    forall a
      ensures a in Gather(rs, side) <==> Listed(rs, side, a)
    {
      GatherMembers(rs, side, a);
    }
    ListNonEmpty(Gather(rs, side));
  }

  /** `Select` picks the documented policy and exactly the documented addresses, each once. */
  lemma SelectFollowsRules(qname: string, rs: seq<Result>, isChina: Addr -> bool, isOverride: string -> bool)
    ensures var sel := SelectSpec(qname, rs, isChina, isOverride);
            && sel.policy == DocumentedPolicy(rs, isChina, isOverride(qname))
            && NoDuplicates(sel.addrs)
            && forall a :: a in sel.addrs <==> Documented(sel.policy, rs, isChina, a)
  {
    hide Filter, Gather, Dedup, Listed, NoDuplicates;
    FilteredSide(rs, ChinaSide, isChina);
    FilteredSide(rs, ForeignSide, Not(isChina));
    FilteredSide(rs, Anyone, isChina);
    GatheredSide(rs, ForeignSide);
    GatheredSide(rs, Anyone);
    DedupMembers(Filter(Gather(rs, ChinaSide), isChina));
    DedupMembers(Filter(Gather(rs, ForeignSide), Not(isChina)));
    DedupMembers(Filter(Gather(rs, Anyone), isChina));
    DedupMembers(Gather(rs, ForeignSide));
    DedupMembers(Gather(rs, Anyone));
  }

  /** As soon as some answer carries an address, the choice is non-empty and of one class only. */
  lemma SelectOneClass(qname: string, rs: seq<Result>, isChina: Addr -> bool, isOverride: string -> bool)
    ensures var sel := SelectSpec(qname, rs, isChina, isOverride);
            && (forall a :: a in sel.addrs ==> Listed(rs, Anyone, a))
            && (sel.addrs != [] <==> exists a :: Listed(rs, Anyone, a))
            && (forall a, b :: a in sel.addrs && b in sel.addrs ==> isChina(a) == isChina(b))
  {
    SelectFollowsRules(qname, rs, isChina, isOverride);
    var sel := SelectSpec(qname, rs, isChina, isOverride);
    ListNonEmpty(sel.addrs);
    if exists a :: Listed(rs, Anyone, a) {
      var a :| Listed(rs, Anyone, a);
      match sel.policy {
        case Override => var b :| Listed(rs, ForeignSide, b) && Not(isChina)(b); a := b;
        case PreferChina => var b :| Listed(rs, ChinaSide, b) && isChina(b); a := b;
        case AllNonChina =>
          if exists b :: Listed(rs, ForeignSide, b) {
            a :| Listed(rs, ForeignSide, a);
          }
        case FallbackChina =>
          if Seen(rs, ChinaSide, isChina) {
            a :| Listed(rs, ChinaSide, a) && isChina(a);
          } else {
            a :| Listed(rs, Anyone, a) && isChina(a);
          }
      }
      assert Documented(sel.policy, rs, isChina, a);
    }
    forall a, side | Listed(rs, side, a)
      ensures Listed(rs, Anyone, a)
    {
    }
  }

  // ----- the order of the chosen addresses

  /** The address is first listed by that side in outcome i, at place k. */
  ghost predicate FirstPlace(rs: seq<Result>, side: Side, a: Addr, i: nat, k: nat) {
    && i < |rs| && OnSide(side, rs[i]) && k < |rs[i].addrs| && rs[i].addrs[k] == a
    && (forall j :: 0 <= j < k ==> rs[i].addrs[j] != a)
    && (forall h :: 0 <= h < i && OnSide(side, rs[h]) ==> a !in rs[h].addrs)
  }

  /** Every address that the side has listed has a first place. */
  lemma {:induction false} HasFirstPlace(rs: seq<Result>, side: Side, a: Addr) returns (i: nat, k: nat)
    requires Listed(rs, side, a)
    ensures FirstPlace(rs, side, a, i, k)
  {
    var init, last := rs[..|rs| - 1], rs[|rs| - 1];
    assert rs == init + [last];
    if Listed(init, side, a) {
      i, k := HasFirstPlace(init, side, a);
    } else {
      assert forall h :: 0 <= h < |init| ==> init[h] in init;
      i, k := |init|, PlaceIn(last.addrs, a);
    }
  }

  predicate Earlier(i: nat, k: nat, j: nat, l: nat) {
    i < j || (i == j && k < l)
  }

  /** The place of the first occurrence. */
  function PlaceIn(s: seq<Addr>, a: Addr): (k: nat)
    requires a in s
    ensures k < |s| && s[k] == a && forall j :: 0 <= j < k ==> s[j] != a
  {
    if s[0] == a then 0 else 1 + PlaceIn(s[1..], a)
  }

  lemma PlaceInPrefix(s: seq<Addr>, t: seq<Addr>, a: Addr)
    requires a in s
    ensures a in s + t && PlaceIn(s + t, a) == PlaceIn(s, a)
  {
    var k, l := PlaceIn(s, a), PlaceIn(s + t, a);
    assert (s + t)[k] == a && (l < |s| ==> (s + t)[l] == s[l]);
  }

  lemma PlaceInRest(s: seq<Addr>, t: seq<Addr>, a: Addr)
    requires a !in s && a in t
    ensures a in s + t && PlaceIn(s + t, a) == |s| + PlaceIn(t, a)
  {
    var k, l := PlaceIn(t, a), PlaceIn(s + t, a);
    assert forall j :: 0 <= j < |s| ==> (s + t)[j] == s[j];
    assert forall j :: 0 <= j < |t| ==> (s + t)[|s| + j] == t[j];
    assert (s + t)[|s| + k] == a;
  }

  /** Deduplication keeps the order of first occurrences. */
  lemma {:induction false} DedupOrder(s: seq<Addr>, p: nat, q: nat)
    requires p < q < |Dedup(s)|
    ensures Dedup(s)[p] in s && Dedup(s)[q] in s && PlaceIn(s, Dedup(s)[p]) < PlaceIn(s, Dedup(s)[q])
  {
    DedupMembers(s);
    assert Dedup(s)[p] in Dedup(s) && Dedup(s)[q] in Dedup(s);
    var init, last := s[..|s| - 1], s[|s| - 1];
    assert s == init + [last];
    DedupMembers(init);
    var a, b := Dedup(s)[p], Dedup(s)[q];
    assert a in Dedup(init) && a == Dedup(init)[p];
    PlaceInPrefix(init, [last], a);
    if q < |Dedup(init)| {
      DedupOrder(init, p, q);
      PlaceInPrefix(init, [last], b);
    } else {
      PlaceInRest(init, [last], b);
    }
  }

  lemma NotLast(f: seq<Addr>, tail: seq<Addr>, a: Addr, b: Addr)
    requires |tail| <= 1 && a in f + tail && b in f + tail && PlaceIn(f + tail, a) < PlaceIn(f + tail, b)
    ensures a in f
  {
    assert (f + tail)[PlaceIn(f + tail, a)] == f[PlaceIn(f + tail, a)];
  }

  /** Filtering keeps the order of first occurrences. */
  lemma {:induction false} FilterOrder(s: seq<Addr>, keep: Addr -> bool, a: Addr, b: Addr)
    requires a in Filter(s, keep) && b in Filter(s, keep) && PlaceIn(Filter(s, keep), a) < PlaceIn(Filter(s, keep), b)
    ensures a in s && b in s && PlaceIn(s, a) < PlaceIn(s, b)
  {
    var init, last := s[..|s| - 1], s[|s| - 1];
    assert s == init + [last];
    var f, tail := Filter(init, keep), if keep(last) then [last] else [];
    FilterMembers(s, keep, a);
    FilterMembers(s, keep, b);
    FilterMembers(init, keep, a);
    FilterMembers(init, keep, b);
    NotLast(f, tail, a, b);
    PlaceInPrefix(f, tail, a);
    PlaceInPrefix(init, [last], a);
    if b in f {
      PlaceInPrefix(f, tail, b);
      FilterOrder(init, keep, a, b);
      PlaceInPrefix(init, [last], b);
    } else {
      PlaceInRest(init, [last], b);
    }
  }

  lemma GatherStep(rs: seq<Result>, side: Side)
    requires rs != []
    ensures Gather(rs, side) == Gather(rs[..|rs| - 1], side) + (if OnSide(side, rs[|rs| - 1]) then rs[|rs| - 1].addrs else [])
  {
  }

  lemma FirstPlaceInit(rs: seq<Result>, side: Side, a: Addr, i: nat, k: nat)
    requires FirstPlace(rs, side, a, i, k) && i < |rs| - 1
    ensures FirstPlace(rs[..|rs| - 1], side, a, i, k) && a in Gather(rs[..|rs| - 1], side)
  {
    hide Gather;
    var init := rs[..|rs| - 1];
    assert init[i] in init && a in init[i].addrs;
    GatherMembers(init, side, a);
  }

  lemma FirstPlaceLast(rs: seq<Result>, side: Side, a: Addr, k: nat)
    requires rs != [] && FirstPlace(rs, side, a, |rs| - 1, k)
    ensures OnSide(side, rs[|rs| - 1]) && a in rs[|rs| - 1].addrs && PlaceIn(rs[|rs| - 1].addrs, a) == k
    ensures a !in Gather(rs[..|rs| - 1], side)
  {
    hide Gather;
    GatherMembers(rs[..|rs| - 1], side, a);
  }

  /** Addresses are gathered in the order in which the outcomes arrived and list them. */
  lemma {:induction false} GatherOrder(rs: seq<Result>, side: Side, a: Addr, b: Addr, i: nat, k: nat, j: nat, l: nat)
    requires FirstPlace(rs, side, a, i, k) && FirstPlace(rs, side, b, j, l)
    requires a in Gather(rs, side) && b in Gather(rs, side) && PlaceIn(Gather(rs, side), a) < PlaceIn(Gather(rs, side), b)
    ensures Earlier(i, k, j, l)
  {
    hide Gather, PlaceIn, OnSide;
    assert i < |rs| && j < |rs|;
    hide FirstPlace;
    var init, last := rs[..|rs| - 1], rs[|rs| - 1];
    var g, tail := Gather(init, side), if OnSide(side, last) then last.addrs else [];
    GatherStep(rs, side);
    if i < |init| && j < |init| {
      FirstPlaceInit(rs, side, a, i, k);
      FirstPlaceInit(rs, side, b, j, l);
      PlaceInPrefix(g, tail, a);
      PlaceInPrefix(g, tail, b);
      GatherOrder(init, side, a, b, i, k, j, l);
    } else if j < |init| {
      FirstPlaceInit(rs, side, b, j, l);
      FirstPlaceLast(rs, side, a, k);
      PlaceInPrefix(g, tail, b);
      PlaceInRest(g, tail, a);
    } else if i == |init| {
      FirstPlaceLast(rs, side, a, k);
      FirstPlaceLast(rs, side, b, l);
      PlaceInRest(g, tail, a);
      PlaceInRest(g, tail, b);
    }
  }

  /** The side whose answers a policy takes its addresses from. */
  ghost function SourceSide(policy: PolicyName, rs: seq<Result>, isChina: Addr -> bool): Side {
    match policy
    case Override => ForeignSide
    case PreferChina => ChinaSide
    case AllNonChina => if exists b :: Listed(rs, ForeignSide, b) then ForeignSide else Anyone
    case FallbackChina => if Seen(rs, ChinaSide, isChina) then ChinaSide else Anyone
  }

  /** The chosen addresses are in order of their first listing by that side: by outcome, then by place in it. */
  lemma SelectInOrder(qname: string, rs: seq<Result>, isChina: Addr -> bool, isOverride: string -> bool,
                      p: nat, q: nat, i: nat, k: nat, j: nat, l: nat)
    requires var sel := SelectSpec(qname, rs, isChina, isOverride); var side := SourceSide(sel.policy, rs, isChina);
             && p < q < |sel.addrs| && FirstPlace(rs, side, sel.addrs[p], i, k) && FirstPlace(rs, side, sel.addrs[q], j, l)
    ensures Earlier(i, k, j, l)
  {
    hide Filter, Gather, Dedup, Listed, FirstPlace, PlaceIn;
    var sel := SelectSpec(qname, rs, isChina, isOverride);
    var side := SourceSide(sel.policy, rs, isChina);
    var a, b := sel.addrs[p], sel.addrs[q];
    FilteredSide(rs, ChinaSide, isChina);
    FilteredSide(rs, ForeignSide, Not(isChina));
    FilteredSide(rs, Anyone, isChina);
    GatheredSide(rs, ForeignSide);
    GatheredSide(rs, Anyone);
    var keep := if sel.policy.Override? then Not(isChina) else isChina;
    if sel.policy.AllNonChina? {
      assert sel.addrs == Dedup(Gather(rs, side));
      DedupOrder(Gather(rs, side), p, q);
    } else {
      assert sel.addrs == Dedup(Filter(Gather(rs, side), keep));
      DedupOrder(Filter(Gather(rs, side), keep), p, q);
      FilterOrder(Gather(rs, side), keep, a, b);
    }
    GatherOrder(rs, side, a, b, i, k, j, l);
  }

  // ----- SelectTTL

  predicate ListsIt(r: Result, a: Addr) {
    r.state.Answer? && a in r.addrs
  }

  /** The TTL of the first answer that lists the address. */
  function OwnerTTL(rs: seq<Result>, a: Addr): Option<U32> {
    if rs == [] then None
    else
      var earlier := OwnerTTL(rs[..|rs| - 1], a);
      if earlier.Some? then earlier
      else if ListsIt(rs[|rs| - 1], a) then Some(rs[|rs| - 1].minTTL)
      else None
  }

  function MinOwned(addrs: seq<Addr>, rs: seq<Result>): Option<U32> {
    if addrs == [] then None
    else
      var sofar, t := MinOwned(addrs[..|addrs| - 1], rs), OwnerTTL(rs, addrs[|addrs| - 1]);
      if t.None? then sofar else if sofar.None? || t.value < sofar.value then t else sofar
  }

  method SelectTTL(addrs: seq<Addr>, rs: seq<Result>) returns (ttl: U32, found: bool)
    ensures (if found then Some(ttl) else None) == MinOwned(addrs, rs)
    ensures !found ==> ttl == 0
  {
    var owner: map<Addr, U32> := map[];
    for i := 0 to |rs|
      invariant forall a :: a in owner <==> OwnerTTL(rs[..i], a).Some?
      invariant forall a :: a in owner ==> OwnerTTL(rs[..i], a) == Some(owner[a])
    {
      var r := rs[i];
      assert rs[..i + 1][..i] == rs[..i];
      if r.state == Answer {
        owner := AddOwner(owner, r.addrs, r.minTTL);
      }
    }
    assert rs[..|rs|] == rs;
    ttl, found := 0, false;
    for i := 0 to |addrs|
      invariant (if found then Some(ttl) else None) == MinOwned(addrs[..i], rs)
      invariant !found ==> ttl == 0
    {
      assert addrs[..i + 1][..i] == addrs[..i];
      var a := addrs[i];
      if a in owner {
        var t := owner[a];
        if !found || t < ttl {
          ttl := t;
          found := true;
        }
      }
    }
    assert addrs[..|addrs|] == addrs;
  }

  /** The inner loop over one answer: addresses already owned keep their owner. */
  method AddOwner(owner: map<Addr, U32>, addrs: seq<Addr>, ttl: U32) returns (out: map<Addr, U32>)
    ensures out.Keys == owner.Keys + set a | a in addrs
    ensures forall a :: a in out ==> out[a] == if a in owner then owner[a] else ttl
  {
    out := owner;
    for i := 0 to |addrs|
      invariant out.Keys == owner.Keys + set a | a in addrs[..i]
      invariant forall a :: a in out ==> out[a] == if a in owner then owner[a] else ttl
    {
      assert addrs[..i + 1] == addrs[..i] + [addrs[i]];
      if addrs[i] !in out {
        out := out[addrs[i] := ttl];
      }
    }
    assert addrs[..|addrs|] == addrs;
  }

  lemma {:induction false} OwnedIffListed(rs: seq<Result>, a: Addr)
    ensures OwnerTTL(rs, a).Some? <==> Listed(rs, Anyone, a)
  {
    if rs != [] {
      OwnedIffListed(rs[..|rs| - 1], a);
      assert rs == rs[..|rs| - 1] + [rs[|rs| - 1]];
    }
  }

  /** First owner wins: the TTL comes from the earliest answer that lists the address. */
  lemma {:induction false} OwnerIsFirst(rs: seq<Result>, a: Addr) returns (i: nat)
    requires Listed(rs, Anyone, a)
    ensures i < |rs| && ListsIt(rs[i], a) && OwnerTTL(rs, a) == Some(rs[i].minTTL)
    ensures forall j :: 0 <= j < i ==> !ListsIt(rs[j], a)
  {
    var init := rs[..|rs| - 1];
    assert rs == init + [rs[|rs| - 1]];
    OwnedIffListed(init, a);
    if Listed(init, Anyone, a) {
      i := OwnerIsFirst(init, a);
    } else {
      i := |init|;
      assert forall j :: 0 <= j < |init| ==> init[j] in init;
    }
  }

  /** The chosen TTL is the least of the owners' TTLs. */
  lemma {:induction false} MinOwnedIsMin(addrs: seq<Addr>, rs: seq<Result>)
    ensures MinOwned(addrs, rs).Some? <==> exists a :: a in addrs && OwnerTTL(rs, a).Some?
    ensures MinOwned(addrs, rs).Some? ==>
              && (exists a :: a in addrs && OwnerTTL(rs, a) == MinOwned(addrs, rs))
              && forall a :: a in addrs && OwnerTTL(rs, a).Some? ==> MinOwned(addrs, rs).value <= OwnerTTL(rs, a).value
  {
    if addrs != [] {
      var init, a := addrs[..|addrs| - 1], addrs[|addrs| - 1];
      MinOwnedIsMin(init, rs);
      assert addrs == init + [a];
      assert a in addrs;
    }
  }

  // ----- FinalizeNegative

  function WithState(rs: seq<Result>, st: State): seq<Result> {
    if rs == [] then []
    else WithState(rs[..|rs| - 1], st) + (if rs[|rs| - 1].state == st then [rs[|rs| - 1]] else [])
  }

  function FirstSOA(rs: seq<Result>): Option<SOA> {
    if rs == [] then None else if rs[0].soa.Some? then rs[0].soa else FirstSOA(rs[1..])
  }

  datatype Negative = Negative(rcode: nat, soa: Option<SOA>, ok: bool)

  function NegativeSpec(rs: seq<Result>): Negative {
    var nx, nodata := WithState(rs, NXDomain), WithState(rs, NoData);
    if nx != [] && nodata == [] then Negative(RCODE_NXDOMAIN, FirstSOA(nx), true)
    else if nx == [] && nodata != [] then Negative(RCODE_SUCCESS, FirstSOA(nodata), true)
    else Negative(RCODE_SERVFAIL, None, false)
  }

  method FirstSOALoop(rs: seq<Result>) returns (soa: Option<SOA>)
    ensures soa == FirstSOA(rs)
  {
    for i := 0 to |rs|
      invariant FirstSOA(rs) == FirstSOA(rs[i..])
    {
      assert rs[i..][1..] == rs[i + 1..];
      if rs[i].soa.Some? {
        return rs[i].soa;
      }
    }
    return None;
  }

  method FinalizeNegative(rs: seq<Result>) returns (n: Negative)
    ensures n == NegativeSpec(rs)
  {
    var nx: seq<Result>, nodata: seq<Result> := [], [];
    for i := 0 to |rs|
      invariant nx == WithState(rs[..i], NXDomain) && nodata == WithState(rs[..i], NoData)
    {
      assert rs[..i + 1][..i] == rs[..i];
      match rs[i].state {
        case NXDomain => nx := nx + [rs[i]];
        case NoData => nodata := nodata + [rs[i]];
        case _ =>
      }
    }
    assert rs[..|rs|] == rs;
    var soa: Option<SOA>;
    if |nx| > 0 && |nodata| == 0 {
      soa := FirstSOALoop(nx);
      return Negative(RCODE_NXDOMAIN, soa, true);
    } else if |nx| == 0 && |nodata| > 0 {
      soa := FirstSOALoop(nodata);
      return Negative(RCODE_SUCCESS, soa, true);
    } else {
      return Negative(RCODE_SERVFAIL, None, false);
    }
  }

  predicate Reported(rs: seq<Result>, st: State) {
    exists r :: r in rs && r.state == st
  }

  lemma {:induction false} WithStateMembers(rs: seq<Result>, st: State)
    ensures forall r :: r in WithState(rs, st) <==> r in rs && r.state == st
    ensures WithState(rs, st) != [] <==> Reported(rs, st)
  {
    if rs != [] {
      var init, last := rs[..|rs| - 1], rs[|rs| - 1];
      WithStateMembers(init, st);
      assert rs == init + [last];
      if WithState(rs, st) != [] {
        assert WithState(rs, st)[0] in WithState(rs, st);
      }
    }
  }

  /** The SOA is that of the first outcome in the state that has one. */
  ghost predicate FirstWithSOA(rs: seq<Result>, st: State, soa: Option<SOA>) {
    exists i :: 0 <= i < |rs| && rs[i].state == st && soa.Some? && rs[i].soa == soa
                && forall j :: 0 <= j < i && rs[j].state == st ==> rs[j].soa == None
  }

  lemma FirstWithSOAStays(init: seq<Result>, last: Result, st: State, soa: Option<SOA>)
    requires FirstWithSOA(init, st, soa)
    ensures FirstWithSOA(init + [last], st, soa)
  {
    var i :| 0 <= i < |init| && init[i].state == st && soa.Some? && init[i].soa == soa
             && forall j :: 0 <= j < i && init[j].state == st ==> init[j].soa == None;
    var rs := init + [last];
    assert rs[i] == init[i] && forall j :: 0 <= j < i ==> rs[j] == init[j];
  }

  lemma FirstWithSOALast(init: seq<Result>, last: Result, st: State)
    requires last.state == st && last.soa.Some? && forall r :: r in init && r.state == st ==> r.soa == None
    ensures FirstWithSOA(init + [last], st, last.soa)
  {
    var rs := init + [last];
    assert rs[|init|] == last && forall j :: 0 <= j < |init| ==> rs[j] == init[j] && init[j] in init;
  }

  lemma {:induction false} FirstSOAOfState(rs: seq<Result>, st: State)
    ensures FirstSOA(WithState(rs, st)).Some? ==> FirstWithSOA(rs, st, FirstSOA(WithState(rs, st)))
  {
    hide FirstSOA, WithState, FirstWithSOA;
    FirstSOAStep(rs, st);
    if rs != [] {
      var init, last := rs[..|rs| - 1], rs[|rs| - 1];
      assert rs == init + [last];
      FirstSOAOfState(init, st);
      NoneWithSOA(init, st);
      if FirstSOA(WithState(init, st)).Some? {
        FirstWithSOAStays(init, last, st, FirstSOA(WithState(init, st)));
      } else if last.state == st && last.soa.Some? {
        FirstWithSOALast(init, last, st);
      }
    }
  }

  lemma FirstSOAStep(rs: seq<Result>, st: State)
    ensures rs == [] ==> FirstSOA(WithState(rs, st)) == None
    ensures rs != [] ==>
              var earlier, last := FirstSOA(WithState(rs[..|rs| - 1], st)), rs[|rs| - 1];
              FirstSOA(WithState(rs, st)) == if earlier.Some? then earlier else if last.state == st then last.soa else None
  {
    hide FirstSOA;
    if rs != [] {
      FirstSOAAppend(WithState(rs[..|rs| - 1], st), if rs[|rs| - 1].state == st then [rs[|rs| - 1]] else []);
    } else {
      FirstSOAMember([]);
    }
  }

  lemma NoneWithSOA(rs: seq<Result>, st: State)
    ensures FirstSOA(WithState(rs, st)) == None ==> forall r :: r in rs && r.state == st ==> r.soa == None
  {
    hide FirstSOA, WithState;
    WithStateMembers(rs, st);
    FirstSOAMember(WithState(rs, st));
  }

  lemma {:induction false} FirstSOAAppend(rs: seq<Result>, more: seq<Result>)
    requires |more| <= 1
    ensures FirstSOA(rs + more) == if FirstSOA(rs).Some? then FirstSOA(rs) else if more == [] then None else more[0].soa
  {
    if rs == [] {
      assert rs + more == more;
      assert more != [] ==> more[1..] == [];
    } else {
      assert (rs + more)[1..] == rs[1..] + more;
      FirstSOAAppend(rs[1..], more);
    }
  }

  lemma {:induction false} FirstSOAMember(rs: seq<Result>)
    ensures FirstSOA(rs).Some? <==> exists r :: r in rs && r.soa.Some?
    ensures FirstSOA(rs).Some? ==> exists r :: r in rs && r.soa == FirstSOA(rs)
  {
    if rs != [] {
      FirstSOAMember(rs[1..]);
      assert rs == [rs[0]] + rs[1..];
      assert rs[0] in rs;
    }
  }

  /** A negative is reported exactly when the upstreams that did not fail agree on one, and its SOA is one of theirs. */
  lemma NegativeIsUnanimous(rs: seq<Result>)
    ensures var n := NegativeSpec(rs);
            && (n.ok <==> (Reported(rs, NXDomain) != Reported(rs, NoData)))
            && (n.rcode == RCODE_SERVFAIL <==> !n.ok)
            && (n.rcode == RCODE_NXDOMAIN <==> n.ok && Reported(rs, NXDomain))
            && (n.soa.Some? <==> n.ok && exists r :: r in rs && r.state in {NXDomain, NoData} && r.soa.Some?)
            && (n.soa.Some? ==> exists r :: r in rs && r.state in {NXDomain, NoData} && r.soa == n.soa)
            && (n.soa.Some? ==> FirstWithSOA(rs, if n.rcode == RCODE_NXDOMAIN then NXDomain else NoData, n.soa))
            && (n.rcode == RCODE_SUCCESS <==> n.ok && Reported(rs, NoData))
  {
    hide FirstSOA, WithState;
    FirstSOAOfState(rs, NXDomain);
    FirstSOAOfState(rs, NoData);
    NoneWithSOA(rs, NXDomain);
    NoneWithSOA(rs, NoData);
    WithStateMembers(rs, NXDomain);
    WithStateMembers(rs, NoData);
    FirstSOAMember(WithState(rs, NXDomain));
    FirstSOAMember(WithState(rs, NoData));
  }

  // ----- later outcomes

  lemma {:induction false} FilterAppend(s: seq<Addr>, t: seq<Addr>, keep: Addr -> bool)
    ensures Filter(s + t, keep) == Filter(s, keep) + Filter(t, keep)
  {
    if t == [] {
      assert s + t == s;
    } else {
      assert (s + t)[..|s + t| - 1] == s + t[..|t| - 1];
      FilterAppend(s, t[..|t| - 1], keep);
    }
  }

  lemma {:induction false} GatherAppend(rs: seq<Result>, ext: seq<Result>, side: Side)
    ensures Gather(rs + ext, side) == Gather(rs, side) + Gather(ext, side)
  {
    if ext == [] {
      assert rs + ext == rs;
    } else {
      assert (rs + ext)[..|rs + ext| - 1] == rs + ext[..|ext| - 1];
      GatherAppend(rs, ext[..|ext| - 1], side);
    }
  }

  lemma {:induction false} DedupPrefix(s: seq<Addr>, t: seq<Addr>)
    ensures Dedup(s) <= Dedup(s + t)
  {
    if t == [] {
      assert s + t == s;
    } else {
      assert (s + t)[..|s + t| - 1] == s + t[..|t| - 1];
      DedupPrefix(s, t[..|t| - 1]);
    }
  }

  lemma {:induction false} OwnerKept(rs: seq<Result>, ext: seq<Result>, a: Addr)
    requires OwnerTTL(rs, a).Some?
    ensures OwnerTTL(rs + ext, a) == OwnerTTL(rs, a)
  {
    if ext == [] {
      assert rs + ext == rs;
    } else {
      assert (rs + ext)[..|rs + ext| - 1] == rs + ext[..|ext| - 1];
      OwnerKept(rs, ext[..|ext| - 1], a);
    }
  }

  /** A longer choice over more outcomes never has a larger TTL. */
  lemma TTLShrinks(addrs: seq<Addr>, more: seq<Addr>, rs: seq<Result>, ext: seq<Result>)
    requires addrs <= more && MinOwned(addrs, rs).Some?
    ensures MinOwned(more, rs + ext).Some? && MinOwned(more, rs + ext).value <= MinOwned(addrs, rs).value
  {
    MinOwnedIsMin(addrs, rs);
    MinOwnedIsMin(more, rs + ext);
    var a :| a in addrs && OwnerTTL(rs, a) == MinOwned(addrs, rs);
    OwnerKept(rs, ext, a);
    assert a in more;
  }
}
