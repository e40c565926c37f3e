/**
 internal/resolve/service.go: what an engine result becomes on its way into the cache, and which results
 may enter it.
 */
module Service {
  import opened Netip
  import opened Policy
  import opened Engine
  import Chase
  import Names

  /** The clamps of the configuration, which checks that each lower bound is at most its upper bound. */
  datatype Limits = Limits(minTTL: U32, maxTTL: U32, negMinTTL: U32, negMaxTTL: U32) {
    predicate Ok() { minTTL <= maxTTL && negMinTTL <= negMaxTTL }
  }

  function Clamp(v: U32, lo: U32, hi: U32): (r: U32)
    ensures lo <= hi ==> lo <= r <= hi
    ensures lo <= v <= hi ==> r == v
  {
    if v < lo then lo else if v > hi then hi else v
  }

  /** Clamping moves a value no further than it has to. */
  lemma ClampIsNearest(v: U32, lo: U32, hi: U32, x: U32)
    requires lo <= x <= hi
    ensures var r := Clamp(v, lo, hi);
            lo <= r <= hi && Apart(r, v) <= Apart(x, v)
  {
  }

  function Apart(a: int, b: int): int {
    if a >= b then a - b else b - a
  }

  function FromEngine(res: EngineResult): Payload {
    Payload(res.rcode, res.addrs, res.soa, res.policy)
  }

  /** The least of an SOA record's own TTL and its MINIMUM field (section 5 of RFC 2308). */
  function NegativeTTL(soa: SOA): (t: U32)
    ensures t <= soa.ttl && t <= soa.minttl && (t == soa.ttl || t == soa.minttl)
  {
    if soa.minttl < soa.ttl then soa.minttl else soa.ttl
  }

  /** `Service.resolve`, after the engine has run. */
  function Convert(res: EngineResult, limits: Limits): Converted {
    var p := FromEngine(res);
    if !res.complete || res.rcode == RCODE_SERVFAIL then Converted(p, res.ttl, false)
    else if |res.addrs| > 0 then Converted(p, Clamp(res.ttl, limits.minTTL, limits.maxTTL), true)
    else if res.soa.Some? then Converted(p, Clamp(NegativeTTL(res.soa.value), limits.negMinTTL, limits.negMaxTTL), true)
    else Converted(p, res.ttl, false)
  }

  /**
   Cacheable or not, complete or not, what is served is what the engine found, field by field; a value that may not
   be cached keeps the engine's TTL as well.
   */
  lemma ServedAsResolved(res: EngineResult, limits: Limits)
    ensures var c := Convert(res, limits);
            && c.payload.rcode == res.rcode && c.payload.addrs == res.addrs && c.payload.soa == res.soa && c.payload.policy == res.policy
            && (!c.cacheable ==> c.ttl == res.ttl)
  {
  }

  /** The upstreams that did not fail agree on NXDOMAIN, or agree on NODATA. */
  predicate Unanimous(rs: seq<Result>) {
    !HasAnswer(rs) && Reported(rs, NXDomain) != Reported(rs, NoData)
  }

  predicate SuppliesSOA(rs: seq<Result>) {
    exists r :: r in rs && r.state in {NXDomain, NoData} && r.soa.Some?
  }

  /** Exactly the complete runs with an answer, or with an agreed negative that carries an SOA, may be cached. */
  lemma CacheableExactly(assets: Assets, qname: string, rs: seq<Result>, complete: bool, limits: Limits)
    requires WellFormed(rs)
    ensures Convert(FinalizeSpec(assets, qname, rs, complete), limits).cacheable <==>
            complete && (HasAnswer(rs) || (Unanimous(rs) && SuppliesSOA(rs)))
  {
    var out := FinalizeSpec(assets, qname, rs, complete);
    if HasAnswer(rs) {
      AnswerWins(assets, qname, rs, complete);
    } else {
      ServfailExactly(assets, qname, rs, complete);
      NegativeIsUnanimous(rs);
    }
  }

  /** A positive value: addresses of one class from received answers, and the clamped least TTL of their first owners. */
  ghost predicate PositiveValue(assets: Assets, rs: seq<Result>, limits: Limits, c: Converted) {
    && c.payload.rcode == RCODE_SUCCESS && c.payload.addrs != [] && NoDuplicates(c.payload.addrs)
    && (forall a :: a in c.payload.addrs ==> Listed(rs, Anyone, a))
    && (forall a, b :: a in c.payload.addrs && b in c.payload.addrs ==> IsChina(assets)(a) == IsChina(assets)(b))
    && limits.minTTL <= c.ttl <= limits.maxTTL
    && (exists a :: a in c.payload.addrs && OwnerTTL(rs, a).Some?
                    && c.ttl == Clamp(OwnerTTL(rs, a).value, limits.minTTL, limits.maxTTL)
                    && forall b :: b in c.payload.addrs ==> OwnerTTL(rs, b).Some? && OwnerTTL(rs, a).value <= OwnerTTL(rs, b).value)
  }

  /** A negative value: NXDOMAIN or NODATA that every upstream which did not fail reported, with one of their SOAs. */
  ghost predicate NegativeValue(rs: seq<Result>, limits: Limits, c: Converted) {
    && Unanimous(rs) && c.payload.addrs == []
    && c.payload.rcode == (if Reported(rs, NXDomain) then RCODE_NXDOMAIN else RCODE_SUCCESS)
    && limits.negMinTTL <= c.ttl <= limits.negMaxTTL
    && c.payload.soa.Some? && c.ttl == Clamp(NegativeTTL(c.payload.soa.value), limits.negMinTTL, limits.negMaxTTL)
    && exists r :: r in rs && r.state in {NXDomain, NoData} && r.soa == c.payload.soa
  }

  /** What may enter the cache, spelled out. */
  lemma CacheableContent(assets: Assets, qname: string, rs: seq<Result>, complete: bool, limits: Limits)
    requires WellFormed(rs) && limits.Ok()
    ensures var c := Convert(FinalizeSpec(assets, qname, rs, complete), limits);
            c.cacheable ==> complete && c.payload.rcode != RCODE_SERVFAIL
                            && (PositiveValue(assets, rs, limits, c) || NegativeValue(rs, limits, c))
  {
    var out := FinalizeSpec(assets, qname, rs, complete);
    if HasAnswer(rs) {
      AnswerWins(assets, qname, rs, complete);
      var a :| a in out.addrs && OwnerTTL(rs, a) == Some(out.ttl);
    } else {
      ServfailExactly(assets, qname, rs, complete);
      NegativeIsUnanimous(rs);
    }
  }

  /** Whether a complete run may be cached does not depend on the order of arrival. */
  lemma CacheableOrderFree(assets: Assets, qname: string, rs: seq<Result>, ss: seq<Result>, complete: bool, limits: Limits)
    requires multiset(rs) == multiset(ss)
    ensures Convert(FinalizeSpec(assets, qname, rs, complete), limits).cacheable
         == Convert(FinalizeSpec(assets, qname, ss, complete), limits).cacheable
  {
    ArrivalOrderIrrelevant(assets, qname, rs, ss, complete);
  }

  // ----- sharing an answer between names

  /**
   Sharing a cache entry cannot change the answer: names with one cache key are chased alike against every
   upstream and resolved alike from the same outcomes, unless exactly one of them is the name "..".
   */
  lemma SameKeySameAnswer(a: string, b: string, env: Chase.Env, assets: Assets, rs: seq<Result>, complete: bool)
    requires Names.CacheKey(a) == Names.CacheKey(b) && (Names.Stem(a) == "." <==> Names.Stem(b) == ".")
    ensures Chase.ChaseRun(env, a) == Chase.ChaseRun(env, b)
    ensures FinalizeSpec(assets, a, rs, complete) == FinalizeSpec(assets, b, rs, complete)
  {
    hide Names.Matches;
    Names.KeyDecidesQuery(a, b);
    assert IsOverride(assets)(a) == Names.Matches(assets.overrides, a);
    assert IsOverride(assets)(b) == Names.Matches(assets.overrides, b);
  }

  // ----- TTLs that are not clamped

  /**
   The TTL served with a positive result lies within the configured bounds if and only if the run was
   complete, or its TTL lay there already: incomplete results are not clamped.
   */
  lemma PositiveTTLBoundedExactly(assets: Assets, qname: string, rs: seq<Result>, complete: bool, limits: Limits)
    requires WellFormed(rs) && HasAnswer(rs) && limits.Ok()
    ensures var out := FinalizeSpec(assets, qname, rs, complete);
            limits.minTTL <= Convert(out, limits).ttl <= limits.maxTTL
            <==> complete || limits.minTTL <= out.ttl <= limits.maxTTL
  {
    AnswerWins(assets, qname, rs, complete);
  }

  /** An answer from one upstream while others are outstanding is served with its own TTL, whatever the bounds. */
  lemma UnclampedServed(assets: Assets, qname: string, server: Addr, a: Addr, ttl: U32, limits: Limits)
    ensures var rs := [Result(server, true, [a], Answer, None, ttl, "")];
            WellFormed(rs) && Convert(FinalizeSpec(assets, qname, rs, false), limits).ttl == ttl
  {
    var r := Result(server, true, [a], Answer, None, ttl, "");
    var rs := [r];
    assert r in rs;
    AnswerWins(assets, qname, rs, false);
    var out := FinalizeSpec(assets, qname, rs, false);
    var b :| b in out.addrs && OwnerTTL(rs, b) == Some(out.ttl);
    OwnedIffListed(rs, b);
    var i := OwnerIsFirst(rs, b);
  }

  // ----- the TTL of a positive answer, down to the records

  /** An upstream: the environment of its chases, and its side. */
  datatype Upstream = Upstream(env: Chase.Env, inChina: bool)

  /** What the engine receives from an upstream for a question. */
  function OutcomeOf(u: Upstream, qname: string): Result {
    Chase.ChaseRun(u.env, qname).result.(server := u.env.server, serverChina := u.inChina)
  }

  /** The outcomes of upstreams, in the order in which they arrive. */
  function OutcomesOf(us: seq<Upstream>, qname: string): (rs: seq<Result>)
    ensures |rs| == |us| && forall i :: 0 <= i < |us| ==> rs[i] == OutcomeOf(us[i], qname)
  {
    seq(|us|, i requires 0 <= i < |us| => OutcomeOf(us[i], qname))
  }

  /** Whatever the upstreams reply, the outcomes of their chases are well formed. */
  lemma OutcomesWellFormed(us: seq<Upstream>, qname: string)
    ensures WellFormed(OutcomesOf(us, qname))
  {
    forall r | r in OutcomesOf(us, qname)
      ensures r.state.Answer? ==> r.addrs != []
    {
      var i :| 0 <= i < |us| && r == OutcomeOf(us[i], qname);
      Chase.ChaseIsSafe(us[i].env, qname);
    }
  }

  /** The upstream's chase ended in an answer that has a usable record of the wanted type with this address. */
  ghost predicate Answered(u: Upstream, qname: string, a: Addr) {
    && Chase.ChaseRun(u.env, qname).result.state.Answer?
    && exists rr :: rr in Chase.LastAnswer(u.env, qname) && rr.hdr.rrtype == u.env.qtype && Chase.UsableAddr(rr) == Some(a)
  }

  /** The upstream belongs to the side. */
  predicate OfSide(u: Upstream, side: Side) {
    side.Anyone? || (u.inChina <==> side.ChinaSide?)
  }

  /** Who lists an address, down to the records: some upstream of the side whose last reply has it. */
  lemma ListedInReplies(us: seq<Upstream>, qname: string, side: Side, a: Addr)
    ensures Listed(OutcomesOf(us, qname), side, a) <==> exists i :: 0 <= i < |us| && OfSide(us[i], side) && Answered(us[i], qname, a)
  {
    hide OfSide, Answered, OutcomeOf;
    var rs := OutcomesOf(us, qname);
    forall i | 0 <= i < |us|
      ensures OnSide(side, rs[i]) && a in rs[i].addrs <==> OfSide(us[i], side) && Answered(us[i], qname, a)
    {
      OutcomeLists(us[i], qname, side, a);
    }
    if Listed(rs, side, a) {
      var r :| r in rs && OnSide(side, r) && a in r.addrs;
      var i :| 0 <= i < |rs| && rs[i] == r;
    }
    if exists i :: 0 <= i < |us| && OfSide(us[i], side) && Answered(us[i], qname, a) {
      var i :| 0 <= i < |us| && OfSide(us[i], side) && Answered(us[i], qname, a);
      assert rs[i] in rs;
    }
  }

  lemma OutcomeLists(u: Upstream, qname: string, side: Side, a: Addr)
    ensures OnSide(side, OutcomeOf(u, qname)) && a in OutcomeOf(u, qname).addrs <==> OfSide(u, side) && Answered(u, qname, a)
  {
    hide Chase.ChaseRun, Chase.UsableAddr;
    if OutcomeOf(u, qname).state.Answer? {
      var rrs := Chase.LastAnswer(u.env, qname);
      Chase.AnswerFromLastReply(u.env, qname);
      DedupMembers(Chase.WantedAddrs(rrs, u.env.qtype));
      RecordsOf(rrs, u.env.qtype, a);
    }
  }

  lemma RecordsOf(rrs: seq<Chase.RR>, qtype: nat, a: Addr)
    ensures a in Chase.WantedAddrs(rrs, qtype) <==> exists rr :: rr in rrs && rr.hdr.rrtype == qtype && Chase.UsableAddr(rr) == Some(a)
  {
    Chase.WantedMembers(rrs, qtype);
    forall rr: Chase.RR
      ensures Chase.RRAddr(rr) == Chase.UsableAddr(rr)
    {
    }
  }

  /** The outcome of an upstream names that upstream, whatever its state. */
  lemma OutcomeServer(u: Upstream, qname: string)
    ensures OutcomeOf(u, qname).server == u.env.server && OutcomeOf(u, qname).serverChina == u.inChina
    ensures OutcomeOf(u, qname).state == Chase.ChaseRun(u.env, qname).result.state
    ensures OutcomeOf(u, qname).soa == Chase.ChaseRun(u.env, qname).result.soa
  {
  }

  /** The TTLs of the wanted records in the reply that ended the upstream's chase. */
  function RecordTTLs(u: Upstream, qname: string): seq<U32> {
    Chase.WantedTTLs(Chase.LastAnswer(u.env, qname), u.env.qtype)
  }

  /** No answering upstream sent a wanted record with TTL zero. */
  ghost predicate NoZeroTTL(us: seq<Upstream>, qname: string) {
    forall i :: 0 <= i < |us| && OutcomeOf(us[i], qname).state.Answer? ==> 0 !in RecordTTLs(us[i], qname)
  }

  ghost predicate FirstLister(rs: seq<Result>, a: Addr, i: nat) {
    i < |rs| && ListsIt(rs[i], a) && forall j :: 0 <= j < i ==> !ListsIt(rs[j], a)
  }

  /** The TTL of an answering upstream is the least of its records' TTLs. */
  lemma OutcomeTTL(u: Upstream, qname: string)
    requires OutcomeOf(u, qname).state.Answer? && 0 !in RecordTTLs(u, qname)
    ensures OutcomeOf(u, qname).minTTL in RecordTTLs(u, qname)
    ensures forall t :: t in RecordTTLs(u, qname) ==> OutcomeOf(u, qname).minTTL <= t
  {
    var rrs := Chase.LastAnswer(u.env, qname);
    Chase.AnswerFromLastReply(u.env, qname);
    Chase.WantedMembers(rrs, u.env.qtype);
    Chase.RunningTTLIsMinimum(Chase.WantedTTLs(rrs, u.env.qtype));
  }

  /**
   From the replies to the reply: the TTL of a positive answer is the least TTL of any wanted record in the
   upstream replies that first listed the chosen addresses, whatever the upstreams do, if none sent a zero.
   */
  lemma TTLIsLeastRecordTTL(assets: Assets, qname: string, us: seq<Upstream>, complete: bool)
    requires HasAnswer(OutcomesOf(us, qname)) && NoZeroTTL(us, qname)
    ensures var rs := OutcomesOf(us, qname); var out := FinalizeSpec(assets, qname, rs, complete);
            && (exists a, i: nat :: a in out.addrs && FirstLister(rs, a, i) && out.ttl in RecordTTLs(us[i], qname))
            && (forall a, i: nat, t :: a in out.addrs && FirstLister(rs, a, i) && t in RecordTTLs(us[i], qname) ==> out.ttl <= t)
  {
    hide RecordTTLs, FinalizeSpec, OutcomeOf, HasAnswer;
    var rs := OutcomesOf(us, qname);
    var out := FinalizeSpec(assets, qname, rs, complete);
    OutcomesWellFormed(us, qname);
    AnswerWins(assets, qname, rs, complete);
    forall a, i: nat, t | a in out.addrs && FirstLister(rs, a, i) && t in RecordTTLs(us[i], qname)
      ensures out.ttl <= t
    {
      OwnerAtFirst(rs, a, i);
      OutcomeTTL(us[i], qname);
    }
    var a :| a in out.addrs && OwnerTTL(rs, a) == Some(out.ttl);
    OwnedIffListed(rs, a);
    var i := OwnerIsFirst(rs, a);
    OutcomeTTL(us[i], qname);
    assert FirstLister(rs, a, i);
  }

  lemma OwnerAtFirst(rs: seq<Result>, a: Addr, i: nat)
    requires FirstLister(rs, a, i)
    ensures OwnerTTL(rs, a) == Some(rs[i].minTTL)
  {
    assert rs[i] in rs && OnSide(Anyone, rs[i]);
    var j := OwnerIsFirst(rs, a);
    assert i == j;
  }
}
