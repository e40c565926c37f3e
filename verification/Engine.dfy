/**
 internal/engine/engine.go: fan out, collect outcomes in order of arrival, stop early once the policy
 branch is stable, finalize.
 */
module Engine {
  import opened Netip
  import opened Policy
  import PrefixIndex
  import Names

  /** The reloadable inputs. */
  datatype Assets = Assets(china: PrefixIndex.Index, overrides: Names.OverrideSet)

  function IsChina(assets: Assets): Addr -> bool {
    (a: Addr) => PrefixIndex.Contains(assets.china, a)
  }

  function IsOverride(assets: Assets): string -> bool {
    (q: string) => Names.Matches(assets.overrides, q)
  }

  datatype Report = Report(server: Addr, state: State, errCategory: string)

  datatype EngineResult = EngineResult(policy: Option<PolicyName>, addrs: seq<Addr>, rcode: nat, soa: Option<SOA>,
                                       ttl: U32, complete: bool, reports: seq<Report>)

  function ReportOf(r: Result): Report {
    Report(r.server, r.state, r.errCategory)
  }

  function ReportsOf(rs: seq<Result>): seq<Report> {
    if rs == [] then [] else ReportsOf(rs[..|rs| - 1]) + [ReportOf(rs[|rs| - 1])]
  }

  // ----- earlyStable

  /** The prefix list that the index was built from, masked and without a prefix that ends in the mapped block. */
  ghost predicate ChinaList(assets: Assets, ps: seq<Prefix>) {
    PrefixIndex.AllMasked(ps) && PrefixIndex.NoneEndsMapped(ps) && PrefixIndex.IsIndexOf(assets.china, ps)
  }

  /** The class that a prefix list stands for: some prefix contains the unmapped address. */
  function ListClass(ps: seq<Prefix>): Addr -> bool {
    (a: Addr) => exists p :: p in ps && p.Contains(Unmap(a))
  }

  lemma ClassIsList(assets: Assets, ps: seq<Prefix>)
    requires ChinaList(assets, ps)
    ensures forall a :: IsChina(assets)(a) <==> ListClass(ps)(a)
  {
    PrefixIndex.IndexIsExact(assets.china, ps);
    forall a: Addr
      ensures IsChina(assets)(a) <==> ListClass(ps)(a)
    {
      assert PrefixIndex.Contains(assets.china, a) <==> PrefixIndex.Scan(ps, Unmap(a));
    }
  }

  /** The rules see a class only through its verdicts. */
  lemma SameClass(rs: seq<Result>, f: Addr -> bool, g: Addr -> bool, override: bool)
    requires forall a :: f(a) <==> g(a)
    ensures RuleOne(rs, f) <==> RuleOne(rs, g)
    ensures DocumentedPolicy(rs, f, override) == DocumentedPolicy(rs, g, override)
    ensures forall policy, a :: Documented(policy, rs, f, a) <==> Documented(policy, rs, g, a)
  {
    SeenAlike(rs, ChinaSide, f, g);
    SeenAlike(rs, Anyone, f, g);
    SeenAlike(rs, ForeignSide, Not(f), Not(g));
  }

  lemma SeenAlike(rs: seq<Result>, side: Side, f: Addr -> bool, g: Addr -> bool)
    requires forall a :: f(a) <==> g(a)
    ensures Seen(rs, side, f) <==> Seen(rs, side, g)
  {
  }

  lemma RuleOneByList(assets: Assets, ps: seq<Prefix>, rs: seq<Result>)
    requires ChinaList(assets, ps)
    ensures RuleOne(rs, IsChina(assets)) <==> RuleOne(rs, ListClass(ps))
  {
    ClassIsList(assets, ps);
    SameClass(rs, IsChina(assets), ListClass(ps), false);
  }

  /** `earlyStable`; its verdict is also stated on the prefix list that the assets were loaded from. */
  method EarlyStable(assets: Assets, rs: seq<Result>) returns (stable: bool)
    ensures stable <==> RuleOne(rs, IsChina(assets))
    ensures forall ps :: ChinaList(assets, ps) ==> (stable <==> RuleOne(rs, ListClass(ps)))
  {
    forall ps: seq<Prefix> | ChinaList(assets, ps)
      ensures RuleOne(rs, IsChina(assets)) <==> RuleOne(rs, ListClass(ps))
    {
      RuleOneByList(assets, ps, rs);
    }
    var isChina := IsChina(assets);
    var cnChina, ncNonChina := false, false;
    for i := 0 to |rs|
      invariant cnChina <==> Seen(rs[..i], ChinaSide, isChina)
      invariant ncNonChina <==> Seen(rs[..i], ForeignSide, Not(isChina))
    {
      var r := rs[i];
      SeenSplit(rs[..i], r, ChinaSide, isChina);
      SeenSplit(rs[..i], r, ForeignSide, Not(isChina));
      assert rs[..i + 1] == rs[..i] + [r];
      if r.state == Answer {
        var cn, foreign := ScanAnswer(isChina, r);
        cnChina, ncNonChina := cnChina || cn, ncNonChina || foreign;
      }
    }
    assert rs[..|rs|] == rs;
    stable := cnChina && ncNonChina;
  }

  /** The inner loop over one answer: the flags it raises. */
  method ScanAnswer(isChina: Addr -> bool, r: Result) returns (cnChina: bool, ncNonChina: bool)
    ensures cnChina <==> r.serverChina && exists k :: 0 <= k < |r.addrs| && isChina(r.addrs[k])
    ensures ncNonChina <==> !r.serverChina && exists k :: 0 <= k < |r.addrs| && !isChina(r.addrs[k])
  {
    cnChina, ncNonChina := false, false;
    for j := 0 to |r.addrs|
      invariant cnChina <==> r.serverChina && exists k :: 0 <= k < j && isChina(r.addrs[k])
      invariant ncNonChina <==> !r.serverChina && exists k :: 0 <= k < j && !isChina(r.addrs[k])
    {
      var isCN := isChina(r.addrs[j]);
      if r.serverChina && isCN {
        cnChina := true;
      }
      if !r.serverChina && !isCN {
        ncNonChina := true;
      }
    }
  }

  lemma SeenSplit(rs: seq<Result>, r: Result, side: Side, among: Addr -> bool)
    ensures Seen(rs + [r], side, among) <==>
            Seen(rs, side, among) || (OnSide(side, r) && exists k :: 0 <= k < |r.addrs| && among(r.addrs[k]))
  {
    if Seen(rs + [r], side, among) {
      var a :| Listed(rs + [r], side, a) && among(a);
      var s :| s in rs + [r] && OnSide(side, s) && a in s.addrs;
      if s in rs {
        assert Listed(rs, side, a);
      }
    }
    if Seen(rs, side, among) {
      var a :| Listed(rs, side, a) && among(a);
      var s :| s in rs && OnSide(side, s) && a in s.addrs;
      assert s in rs + [r];
      assert Listed(rs + [r], side, a);
    }
    if OnSide(side, r) && exists k :: 0 <= k < |r.addrs| && among(r.addrs[k]) {
      var k :| 0 <= k < |r.addrs| && among(r.addrs[k]);
      assert r in rs + [r];
      assert Listed(rs + [r], side, r.addrs[k]);
    }
  }

  // ----- finalize

  predicate HasAnswer(rs: seq<Result>) {
    exists r :: r in rs && r.state.Answer?
  }

  function FinalizeSpec(assets: Assets, qname: string, rs: seq<Result>, complete: bool): EngineResult {
    if HasAnswer(rs) then
      var sel := SelectSpec(qname, rs, IsChina(assets), IsOverride(assets));
      var ttl := MinOwned(sel.addrs, rs);
      EngineResult(Some(sel.policy), sel.addrs, RCODE_SUCCESS, None, if ttl.Some? then ttl.value else 0, complete, ReportsOf(rs))
    else
      var n := NegativeSpec(rs);
      EngineResult(None, [], if n.ok then n.rcode else RCODE_SERVFAIL, n.soa, 0, complete, ReportsOf(rs))
  }

  method Finalize(assets: Assets, qname: string, rs: seq<Result>, reports: seq<Report>, complete: bool)
    returns (out: EngineResult)
    requires reports == ReportsOf(rs)
    ensures out == FinalizeSpec(assets, qname, rs, complete)
  {
    var hasAnswer := false;
    for i := 0 to |rs|
      invariant hasAnswer <==> exists j :: 0 <= j < i && rs[j].state.Answer?
    {
      if rs[i].state == Answer {
        hasAnswer := true;
        break;
      }
    }
    assert hasAnswer <==> HasAnswer(rs);
    if hasAnswer {
      var sel := Select(qname, rs, IsChina(assets), IsOverride(assets));
      var ttl, _ := SelectTTL(sel.addrs, rs);
      return EngineResult(Some(sel.policy), sel.addrs, RCODE_SUCCESS, None, ttl, complete, reports);
    }
    var n := FinalizeNegative(rs);
    if n.ok {
      return EngineResult(None, [], n.rcode, n.soa, 0, complete, reports);
    } else {
      return EngineResult(None, [], RCODE_SERVFAIL, None, 0, complete, reports);
    }
  }

  // ----- Resolve

  /** The first `j` arrivals pass the test of `earlyStable`. */
  ghost predicate StableAt(assets: Assets, arrivals: seq<Result>, j: nat)
    requires j <= |arrivals|
  {
    0 < j && RuleOne(arrivals[..j], IsChina(assets))
  }

  /**
   When the receive loop stops.  `arrivals` is the order in which the upstreams' outcomes come through
   the channel, and the context ends once `deadline` of them have been received (never in time, if that
   is their number or more).  The loop takes `k` outcomes: no shorter list was stable, and it
   stopped because all were in, or the list was stable, or the context ended.
   */
  ghost predicate StoppedAfter(assets: Assets, arrivals: seq<Result>, deadline: nat, k: nat) {
    && k <= |arrivals| && k <= deadline
    && (forall j: nat :: j < k ==> !StableAt(assets, arrivals, j))
    && (k < |arrivals| ==> StableAt(assets, arrivals, k) || k == deadline)
  }

  lemma ReportsGrow(rs: seq<Result>, more: seq<Result>)
    requires |more| <= 1
    ensures ReportsOf(rs + more) == ReportsOf(rs) + (if more == [] then [] else [ReportOf(more[0])])
    ensures ReportsOf([]) == []
  {
    if more == [] {
      assert rs + more == rs;
    } else {
      assert (rs + more)[..|rs|] == rs;
    }
  }

  /** The receive loop of `Resolve`: the outcomes it hands to `finalize`, and whether they are all there are. */
  method Collect(assets: Assets, arrivals: seq<Result>, deadline: nat)
    returns (results: seq<Result>, reports: seq<Report>, complete: bool)
    ensures results <= arrivals && StoppedAfter(assets, arrivals, deadline, |results|)
    ensures reports == ReportsOf(results)
    ensures complete <==> |results| == |arrivals|
  {
    hide RuleOne, ListClass, ChinaList, IsChina, ReportsOf;
    var n := |arrivals|;
    results, reports := [], [];
    ReportsGrow([], []);
    var received := 0;
    while received < n
      invariant 0 <= received <= n && received <= deadline
      invariant results == arrivals[..received] && reports == ReportsOf(results)
      invariant forall j: nat :: j <= received ==> !StableAt(assets, arrivals, j)
      invariant received == n ==> n == 0
    {
      if received == deadline {
        return results, reports, false;
      }
      var outcome := arrivals[received];
      results := results + [outcome];
      reports := reports + [ReportOf(outcome)];
      assert results == arrivals[..received] + [outcome] == arrivals[..received + 1];
      ReportsGrow(arrivals[..received], [outcome]);
      if |results| == n {
        return results, reports, true;
      }
      var stable := EarlyStable(assets, results);
      if stable {
        return results, reports, false;
      }
      received := received + 1;
    }
    complete := true;
  }

  method Resolve(assets: Assets, qname: string, arrivals: seq<Result>, deadline: nat) returns (out: EngineResult)
    ensures exists k: nat :: StoppedAfter(assets, arrivals, deadline, k)
                             && out == FinalizeSpec(assets, qname, arrivals[..k], k == |arrivals|)
    ensures out.complete <==> |out.reports| == |arrivals|
    ensures |out.reports| <= |arrivals|
    ensures forall i :: 0 <= i < |out.reports| ==>
              out.reports[i] == Report(arrivals[i].server, arrivals[i].state, arrivals[i].errCategory)
  {
    var results, reports, complete := Collect(assets, arrivals, deadline);
    out := Finalize(assets, qname, results, reports, complete);
    assert results == arrivals[..|results|];
    ReportsCount(results);
  }

  lemma {:induction false} ReportsCount(rs: seq<Result>)
    ensures |ReportsOf(rs)| == |rs|
    ensures forall i :: 0 <= i < |rs| ==> ReportsOf(rs)[i] == Report(rs[i].server, rs[i].state, rs[i].errCategory)
  {
    if rs != [] {
      ReportsCount(rs[..|rs| - 1]);
    }
  }

  // ----- what a result means

  lemma AnswerLists(rs: seq<Result>)
    requires WellFormed(rs)
    ensures HasAnswer(rs) <==> exists a :: Listed(rs, Anyone, a)
  {
    if HasAnswer(rs) {
      var r :| r in rs && r.state.Answer?;
      assert Listed(rs, Anyone, r.addrs[0]);
    }
  }

  /** One answer among the received outcomes is enough for a NOERROR reply; failures never mask it. */
  lemma AnswerWins(assets: Assets, qname: string, rs: seq<Result>, complete: bool)
    requires WellFormed(rs) && HasAnswer(rs)
    ensures var out := FinalizeSpec(assets, qname, rs, complete);
            && out.rcode == RCODE_SUCCESS && out.addrs != [] && NoDuplicates(out.addrs)
            && (forall a :: a in out.addrs ==> Listed(rs, Anyone, a))
            && (forall a, b :: a in out.addrs && b in out.addrs ==> IsChina(assets)(a) == IsChina(assets)(b))
            && (exists a :: a in out.addrs && OwnerTTL(rs, a) == Some(out.ttl))
            && (forall a :: a in out.addrs ==> OwnerTTL(rs, a).Some? && out.ttl <= OwnerTTL(rs, a).value)
  {
    var sel := SelectSpec(qname, rs, IsChina(assets), IsOverride(assets));
    SelectFollowsRules(qname, rs, IsChina(assets), IsOverride(assets));
    SelectOneClass(qname, rs, IsChina(assets), IsOverride(assets));
    AnswerLists(rs);
    MinOwnedIsMin(sel.addrs, rs);
    forall a | a in sel.addrs
      ensures OwnerTTL(rs, a).Some?
    {
      OwnedIffListed(rs, a);
    }
    assert sel.addrs[0] in sel.addrs;
  }

  /**
   The result, on the lists that the assets were loaded from: as soon as an answer has been received, it is
   NOERROR with the documented policy and exactly the documented addresses, each once, for the class "some
   prefix of the list contains the unmapped address" and the verdict of the override lists on the name.
   */
  lemma ResultFollowsLists(assets: Assets, ps: seq<Prefix>, exact: seq<string>, wildcard: seq<string>,
                           qname: string, rs: seq<Result>, complete: bool)
    requires ChinaList(assets, ps) && Names.BuiltFrom(assets.overrides, exact, wildcard) && HasAnswer(rs)
    ensures var out, cls := FinalizeSpec(assets, qname, rs, complete), ListClass(ps);
            && out.rcode == RCODE_SUCCESS && out.soa == None && out.complete == complete
            && out.policy == Some(DocumentedPolicy(rs, cls, Names.OnList(exact, wildcard, qname)))
            && NoDuplicates(out.addrs)
            && (forall a :: a in out.addrs <==> Documented(out.policy.value, rs, cls, a))
  {
    hide SelectSpec, ListClass;
    ClassIsList(assets, ps);
    Names.MatchesExactly(assets.overrides, exact, wildcard, qname);
    SameClass(rs, IsChina(assets), ListClass(ps), Names.OnList(exact, wildcard, qname));
    SelectFollowsRules(qname, rs, IsChina(assets), IsOverride(assets));
  }

  /**
   The whole of `Resolve` on the lists: the loop takes k outcomes, the least number at which all have arrived, or
   the context has ended, or a China upstream has listed an address on the list and a foreign one an address off
   it; with an answer among them the reply is what the rules call for on these k outcomes, and it is complete
   exactly if they are all there are.
   */
  lemma ResolveFollowsLists(assets: Assets, ps: seq<Prefix>, exact: seq<string>, wildcard: seq<string>,
                            qname: string, arrivals: seq<Result>, deadline: nat, k: nat)
    requires ChinaList(assets, ps) && Names.BuiltFrom(assets.overrides, exact, wildcard)
    requires StoppedAfter(assets, arrivals, deadline, k)
    ensures k <= |arrivals| && k <= deadline
    ensures k == |arrivals| || k == deadline || (0 < k && RuleOne(arrivals[..k], ListClass(ps)))
    ensures forall j: nat :: 0 < j < k ==> !RuleOne(arrivals[..j], ListClass(ps))
    ensures var out, rs, cls := FinalizeSpec(assets, qname, arrivals[..k], k == |arrivals|), arrivals[..k], ListClass(ps);
            && (out.complete <==> k == |arrivals|)
            && (HasAnswer(rs) ==>
                  && out.rcode == 0 && out.policy == Some(DocumentedPolicy(rs, cls, Names.OnList(exact, wildcard, qname)))
                  && forall a :: a in out.addrs <==> Documented(out.policy.value, rs, cls, a))
            && (!HasAnswer(rs) ==> out.addrs == [] && (out.rcode == 2 <==> Reported(rs, NXDomain) == Reported(rs, NoData)))
  {
    hide RuleOne, ListClass, ChinaList, Names.BuiltFrom, SelectSpec, NegativeSpec;
    var rs := arrivals[..k];
    forall j: nat | j <= k
      ensures RuleOne(arrivals[..j], IsChina(assets)) <==> RuleOne(arrivals[..j], ListClass(ps))
    {
      RuleOneByList(assets, ps, arrivals[..j]);
    }
    forall j: nat | 0 < j < k
      ensures !RuleOne(arrivals[..j], ListClass(ps))
    {
      assert !StableAt(assets, arrivals, j);
    }
    if HasAnswer(rs) {
      ResultFollowsLists(assets, ps, exact, wildcard, qname, rs, k == |arrivals|);
    } else {
      ServfailExactly(assets, qname, rs, k == |arrivals|);
    }
  }

  /** SERVFAIL is returned exactly when nothing was answered and the negatives are absent or disagree. */
  lemma ServfailExactly(assets: Assets, qname: string, rs: seq<Result>, complete: bool)
    ensures var out := FinalizeSpec(assets, qname, rs, complete);
            && (out.rcode == RCODE_SERVFAIL <==> !HasAnswer(rs) && Reported(rs, NXDomain) == Reported(rs, NoData))
            && (out.rcode == RCODE_NXDOMAIN <==> !HasAnswer(rs) && Reported(rs, NXDomain) && !Reported(rs, NoData))
            && (out.soa.Some? ==> out.addrs == [] && out.rcode != RCODE_SERVFAIL)
            && (!HasAnswer(rs) ==> out.addrs == [] && out.policy == None && out.ttl == 0 && out.rcode in {RCODE_SUCCESS, RCODE_SERVFAIL, RCODE_NXDOMAIN})
            && (!HasAnswer(rs) && out.rcode != RCODE_SERVFAIL && out.soa.Some? ==>
                  FirstWithSOA(rs, if out.rcode == RCODE_NXDOMAIN then NXDomain else NoData, out.soa))
            && (!HasAnswer(rs) && out.rcode != RCODE_SERVFAIL && out.soa == None ==>
                  forall r :: r in rs && r.state in {NXDomain, NoData} ==> r.soa == None)
  {
    NegativeIsUnanimous(rs);
  }

  // ----- early completion

  lemma SeenGrows(rs: seq<Result>, ext: seq<Result>, side: Side, among: Addr -> bool)
    requires Seen(rs, side, among)
    ensures Seen(rs + ext, side, among)
  {
    var a :| Listed(rs, side, a) && among(a);
    var r :| r in rs && OnSide(side, r) && a in r.addrs;
    assert r in rs + ext;
    assert Listed(rs + ext, side, a);
  }

  /** What later outcomes may change about a stable choice: they may extend it, nothing else. */
  lemma StableChoiceExtends(qname: string, rs: seq<Result>, ext: seq<Result>, isChina: Addr -> bool, isOverride: string -> bool)
    requires RuleOne(rs, isChina)
    ensures RuleOne(rs + ext, isChina)
    ensures var early, late := SelectSpec(qname, rs, isChina, isOverride), SelectSpec(qname, rs + ext, isChina, isOverride);
            early.policy == late.policy && early.addrs <= late.addrs && early.addrs != []
  {
    SeenGrows(rs, ext, ChinaSide, isChina);
    SeenGrows(rs, ext, ForeignSide, Not(isChina));
    FilteredSide(rs, ChinaSide, isChina);
    FilteredSide(rs, ForeignSide, Not(isChina));
    FilteredSide(rs + ext, ChinaSide, isChina);
    FilteredSide(rs + ext, ForeignSide, Not(isChina));
    GatherAppend(rs, ext, ChinaSide);
    GatherAppend(rs, ext, ForeignSide);
    FilterAppend(Gather(rs, ChinaSide), Gather(ext, ChinaSide), isChina);
    FilterAppend(Gather(rs, ForeignSide), Gather(ext, ForeignSide), Not(isChina));
    DedupPrefix(Filter(Gather(rs, ChinaSide), isChina), Filter(Gather(ext, ChinaSide), isChina));
    DedupPrefix(Filter(Gather(rs, ForeignSide), Not(isChina)), Filter(Gather(ext, ForeignSide), Not(isChina)));
    var early := SelectSpec(qname, rs, isChina, isOverride);
    SelectOneClass(qname, rs, isChina, isOverride);
    var a :| Listed(rs, ChinaSide, a) && isChina(a);
    assert Listed(rs, Anyone, a);
  }

  /**
   Early completion is sound: whatever the missing upstreams would have said, and in whatever order,
   the full reply has the same rcode and policy, starts with the addresses already served, and has no
   larger TTL.
   */
  lemma EarlyCompletionSound(assets: Assets, qname: string, rs: seq<Result>, ext: seq<Result>, complete: bool)
    requires RuleOne(rs, IsChina(assets))
    ensures var early, late := FinalizeSpec(assets, qname, rs, false), FinalizeSpec(assets, qname, rs + ext, complete);
            && early.rcode == late.rcode == RCODE_SUCCESS
            && early.policy == late.policy
            && early.addrs != [] && early.addrs <= late.addrs
            && late.ttl <= early.ttl
  {
    var isChina, isOverride := IsChina(assets), IsOverride(assets);
    StableChoiceExtends(qname, rs, ext, isChina, isOverride);
    RuleOneAnswers(rs, isChina);
    RuleOneAnswers(rs + ext, isChina);
    var early, late := SelectSpec(qname, rs, isChina, isOverride), SelectSpec(qname, rs + ext, isChina, isOverride);
    SelectOneClass(qname, rs, isChina, isOverride);
    MinOwnedIsMin(early.addrs, rs);
    assert early.addrs[0] in early.addrs;
    OwnedIffListed(rs, early.addrs[0]);
    TTLShrinks(early.addrs, late.addrs, rs, ext);
  }

  lemma RuleOneAnswers(rs: seq<Result>, isChina: Addr -> bool)
    requires RuleOne(rs, isChina)
    ensures HasAnswer(rs)
  {
    var a :| Listed(rs, ChinaSide, a) && isChina(a);
    var r :| r in rs && OnSide(ChinaSide, r) && a in r.addrs;
  }

  // ----- when the branch is decided

  /** Outcomes of the outstanding upstreams, whose sides are known: true for a China-side upstream. */
  predicate OfSides(ext: seq<Result>, sides: seq<bool>) {
    |ext| == |sides| && forall i :: 0 <= i < |ext| ==> ext[i].serverChina == sides[i]
  }

  /** Some outstanding upstream belongs to the side. */
  predicate Outstanding(sides: seq<bool>, side: Side) {
    match side
    case Anyone => sides != []
    case ChinaSide => true in sides
    case ForeignSide => false in sides
  }

  /** An address of the class has been listed by that side, or may still be. */
  ghost predicate MaySee(rs: seq<Result>, sides: seq<bool>, side: Side, among: Addr -> bool) {
    Seen(rs, side, among) || (Outstanding(sides, side) && exists a :: among(a))
  }

  /** No outcomes of the outstanding upstreams can change the policy. */
  ghost predicate Decided(qname: string, rs: seq<Result>, sides: seq<bool>, isChina: Addr -> bool, isOverride: string -> bool) {
    forall ext :: OfSides(ext, sides) ==>
      SelectSpec(qname, rs + ext, isChina, isOverride).policy == SelectSpec(qname, rs, isChina, isOverride).policy
  }

  /**
   When the policy is decided, in terms of what has been seen and which sides are outstanding: by rule 1,
   or when rule 1 is out of reach and no first China address can appear any more.
   */
  ghost predicate DecidedBySides(rs: seq<Result>, sides: seq<bool>, isChina: Addr -> bool) {
    || RuleOne(rs, isChina)
    || (&& !(MaySee(rs, sides, ChinaSide, isChina) && MaySee(rs, sides, ForeignSide, Not(isChina)))
        && (Seen(rs, Anyone, isChina) || !MaySee(rs, sides, Anyone, isChina)))
  }

  lemma SeenWhere(rs: seq<Result>, ext: seq<Result>, side: Side, among: Addr -> bool)
    ensures Seen(rs + ext, side, among) <==> Seen(rs, side, among) || Seen(ext, side, among)
  {
    if Seen(rs + ext, side, among) {
      var a :| Listed(rs + ext, side, a) && among(a);
      var r :| r in rs + ext && OnSide(side, r) && a in r.addrs;
      if r in rs {
        assert Listed(rs, side, a);
      } else {
        assert Listed(ext, side, a);
      }
    }
    if Seen(ext, side, among) {
      var a :| Listed(ext, side, a) && among(a);
      var r :| r in ext && OnSide(side, r) && a in r.addrs;
      assert r in rs + ext;
      assert Listed(rs + ext, side, a);
    }
    if Seen(rs, side, among) {
      SeenGrows(rs, ext, side, among);
    }
  }

  lemma SeenOnlyIfMay(rs: seq<Result>, ext: seq<Result>, sides: seq<bool>, side: Side, among: Addr -> bool)
    requires OfSides(ext, sides) && Seen(rs + ext, side, among)
    ensures MaySee(rs, sides, side, among)
  {
    SeenWhere(rs, ext, side, among);
    if Seen(ext, side, among) {
      var a :| Listed(ext, side, a) && among(a);
      var r :| r in ext && OnSide(side, r) && a in r.addrs;
      var i :| 0 <= i < |ext| && ext[i] == r;
      assert sides[i] in sides;
    }
  }

  /** The outcomes in which every outstanding upstream lists the address given for its side. */
  function Listing(sides: seq<bool>, cn: Addr, foreign: Addr): (ext: seq<Result>)
    ensures OfSides(ext, sides)
  {
    seq(|sides|, i requires 0 <= i < |sides| =>
      Result(cn, sides[i], [if sides[i] then cn else foreign], Answer, None, 0, ""))
  }

  lemma ListingSeen(rs: seq<Result>, sides: seq<bool>, china: bool, cn: Addr, foreign: Addr, side: Side, among: Addr -> bool)
    requires china in sides && among(if china then cn else foreign)
    requires side.ChinaSide? ==> china
    requires side.ForeignSide? ==> !china
    ensures Seen(rs + Listing(sides, cn, foreign), side, among)
  {
    var ext := Listing(sides, cn, foreign);
    var i :| 0 <= i < |sides| && sides[i] == china;
    assert ext[i] in ext && OnSide(side, ext[i]);
    assert Listed(ext, side, if china then cn else foreign);
    SeenWhere(rs, ext, side, among);
  }

  lemma DecidedIf(qname: string, rs: seq<Result>, sides: seq<bool>, ext: seq<Result>, isChina: Addr -> bool, isOverride: string -> bool)
    requires DecidedBySides(rs, sides, isChina) && OfSides(ext, sides)
    ensures SelectSpec(qname, rs + ext, isChina, isOverride).policy == SelectSpec(qname, rs, isChina, isOverride).policy
  {
    hide SelectSpec, Seen;
    SelectFollowsRules(qname, rs, isChina, isOverride);
    SelectFollowsRules(qname, rs + ext, isChina, isOverride);
    SeenWhere(rs, ext, ChinaSide, isChina);
    SeenWhere(rs, ext, ForeignSide, Not(isChina));
    SeenWhere(rs, ext, Anyone, isChina);
    if Seen(rs + ext, ChinaSide, isChina) {
      SeenOnlyIfMay(rs, ext, sides, ChinaSide, isChina);
    }
    if Seen(rs + ext, ForeignSide, Not(isChina)) {
      SeenOnlyIfMay(rs, ext, sides, ForeignSide, Not(isChina));
    }
    if Seen(rs + ext, Anyone, isChina) {
      SeenOnlyIfMay(rs, ext, sides, Anyone, isChina);
    }
  }

  /** If rule 1 is not met but within reach, some outcomes bring it about. */
  lemma RuleOneInReach(rs: seq<Result>, sides: seq<bool>, isChina: Addr -> bool) returns (ext: seq<Result>)
    requires MaySee(rs, sides, ChinaSide, isChina) && MaySee(rs, sides, ForeignSide, Not(isChina))
    ensures OfSides(ext, sides) && RuleOne(rs + ext, isChina)
  {
    var cn: Addr :| isChina(cn);
    var foreign: Addr :| Not(isChina)(foreign);
    ext := Listing(sides, cn, foreign);
    SeenWhere(rs, ext, ChinaSide, isChina);
    SeenWhere(rs, ext, ForeignSide, Not(isChina));
    if !Seen(rs, ChinaSide, isChina) {
      ListingSeen(rs, sides, true, cn, foreign, ChinaSide, isChina);
    }
    if !Seen(rs, ForeignSide, Not(isChina)) {
      ListingSeen(rs, sides, false, cn, foreign, ForeignSide, Not(isChina));
    }
  }

  /** A first China address can still appear: every outstanding upstream may list one. */
  lemma ChinaInReach(rs: seq<Result>, sides: seq<bool>, isChina: Addr -> bool) returns (ext: seq<Result>)
    requires !Seen(rs, Anyone, isChina) && MaySee(rs, sides, Anyone, isChina)
    ensures OfSides(ext, sides) && Seen(rs + ext, Anyone, isChina)
  {
    var cn :| isChina(cn);
    ext := Listing(sides, cn, cn);
    assert sides[0] in sides;
    ListingSeen(rs, sides, sides[0], cn, cn, Anyone, isChina);
  }

  /**
   Exactly when the outstanding upstreams, whose sides are fixed, can no longer change the policy.  The
   early exit tests rule 1 alone, so it is never too early, and it is late exactly in the other case.
   */
  lemma StableExactly(qname: string, rs: seq<Result>, sides: seq<bool>, isChina: Addr -> bool, isOverride: string -> bool)
    ensures Decided(qname, rs, sides, isChina, isOverride) <==> DecidedBySides(rs, sides, isChina)
  {
    hide SelectSpec;
    if DecidedBySides(rs, sides, isChina) {
      forall ext | OfSides(ext, sides)
        ensures SelectSpec(qname, rs + ext, isChina, isOverride).policy == SelectSpec(qname, rs, isChina, isOverride).policy
      {
        DecidedIf(qname, rs, sides, ext, isChina, isOverride);
      }
    } else {
      var ext := Undecided(rs, sides, isChina, isOverride(qname));
      SelectFollowsRules(qname, rs, isChina, isOverride);
      SelectFollowsRules(qname, rs + ext, isChina, isOverride);
    }
  }

  lemma Undecided(rs: seq<Result>, sides: seq<bool>, isChina: Addr -> bool, override: bool) returns (ext: seq<Result>)
    requires !DecidedBySides(rs, sides, isChina)
    ensures OfSides(ext, sides) && DocumentedPolicy(rs + ext, isChina, override) != DocumentedPolicy(rs, isChina, override)
  {
    hide Seen;
    if MaySee(rs, sides, ChinaSide, isChina) && MaySee(rs, sides, ForeignSide, Not(isChina)) {
      ext := RuleOneInReach(rs, sides, isChina);
    } else {
      ext := ChinaInReach(rs, sides, isChina);
    }
  }

  /** While upstreams of both sides are outstanding the early exit is exact: the policy is decided only by rule 1. */
  lemma EarlyExitExact(qname: string, rs: seq<Result>, sides: seq<bool>, isChina: Addr -> bool, isOverride: string -> bool, cn: Addr, foreign: Addr)
    requires true in sides && false in sides && isChina(cn) && !isChina(foreign)
    ensures Decided(qname, rs, sides, isChina, isOverride) <==> RuleOne(rs, isChina)
  {
    hide Decided;
    StableExactly(qname, rs, sides, isChina, isOverride);
    assert Not(isChina)(foreign);
  }

  /**
   The early exit can be late: once a foreign upstream has listed a China address and only China-side
   upstreams are outstanding, the policy is decided although the test fails.
   */
  lemma EarlyExitCanBeLate(qname: string, r: Result, sides: seq<bool>, isChina: Addr -> bool, isOverride: string -> bool)
    requires r.state.Answer? && !r.serverChina && r.addrs != [] && (forall a :: a in r.addrs ==> isChina(a))
    requires false !in sides
    ensures Decided(qname, [r], sides, isChina, isOverride) && !RuleOne([r], isChina)
  {
    hide Decided;
    StableExactly(qname, [r], sides, isChina, isOverride);
    assert r.addrs[0] in r.addrs && r in [r];
    assert Listed([r], Anyone, r.addrs[0]);
    forall a | Listed([r], ForeignSide, a)
      ensures isChina(a)
    {
    }
  }

  // ----- order of arrival

  lemma SameMembers(rs: seq<Result>, ss: seq<Result>)
    requires multiset(rs) == multiset(ss)
    ensures forall r :: r in rs <==> r in ss
  {
    forall r
      ensures r in rs <==> r in ss
    {
      assert r in rs <==> r in multiset(rs);
      assert r in ss <==> r in multiset(ss);
    }
  }

  lemma SelectOrderFree(qname: string, rs: seq<Result>, ss: seq<Result>, isChina: Addr -> bool, isOverride: string -> bool)
    requires forall r :: r in rs <==> r in ss
    ensures var x, y := SelectSpec(qname, rs, isChina, isOverride), SelectSpec(qname, ss, isChina, isOverride);
            x.policy == y.policy && (forall a :: a in x.addrs <==> a in y.addrs) && |x.addrs| == |y.addrs|
  {
    var x, y := SelectSpec(qname, rs, isChina, isOverride), SelectSpec(qname, ss, isChina, isOverride);
    SelectFollowsRules(qname, rs, isChina, isOverride);
    SelectFollowsRules(qname, ss, isChina, isOverride);
    forall side, a
      ensures Listed(rs, side, a) <==> Listed(ss, side, a)
    {
    }
    RulesOrderFree(rs, ss, isChina, isOverride(qname), x.policy);
    SameLength(x.addrs, y.addrs);
  }

  lemma RulesOrderFree(rs: seq<Result>, ss: seq<Result>, isChina: Addr -> bool, override: bool, policy: PolicyName)
    requires forall side, a :: Listed(rs, side, a) <==> Listed(ss, side, a)
    ensures DocumentedPolicy(rs, isChina, override) == DocumentedPolicy(ss, isChina, override)
    ensures forall a :: Documented(policy, rs, isChina, a) <==> Documented(policy, ss, isChina, a)
  {
    SeenOrderFree(rs, ss, ChinaSide, isChina);
    SeenOrderFree(rs, ss, ForeignSide, Not(isChina));
    SeenOrderFree(rs, ss, Anyone, isChina);
  }

  lemma SeenOrderFree(rs: seq<Result>, ss: seq<Result>, side: Side, among: Addr -> bool)
    requires forall a :: Listed(rs, side, a) <==> Listed(ss, side, a)
    ensures Seen(rs, side, among) <==> Seen(ss, side, among)
  {
  }

  /**
   For complete runs the order of arrival does not matter: the policy, the rcode, the set of addresses
   and the presence of an SOA depend only on which outcomes arrived.
   */
  lemma ArrivalOrderIrrelevant(assets: Assets, qname: string, rs: seq<Result>, ss: seq<Result>, complete: bool)
    requires multiset(rs) == multiset(ss)
    ensures var x, y := FinalizeSpec(assets, qname, rs, complete), FinalizeSpec(assets, qname, ss, complete);
            && x.policy == y.policy && x.rcode == y.rcode && x.complete == y.complete
            && (forall a :: a in x.addrs <==> a in y.addrs) && |x.addrs| == |y.addrs|
            && (x.soa.Some? <==> y.soa.Some?)
  {
    SameMembers(rs, ss);
    assert HasAnswer(rs) <==> HasAnswer(ss);
    if HasAnswer(rs) {
      SelectOrderFree(qname, rs, ss, IsChina(assets), IsOverride(assets));
    } else {
      assert forall st :: Reported(rs, st) <==> Reported(ss, st);
      NegativeIsUnanimous(rs);
      NegativeIsUnanimous(ss);
    }
  }

  /**
   Both results together: a run cut short by stability agrees with every complete run over the same
   upstream outcomes, in any order, on rcode and policy, and serves a subset of its addresses.
   */
  lemma EarlyAgreesWithCompleteRun(assets: Assets, qname: string, arrivals: seq<Result>, k: nat, ss: seq<Result>)
    requires k <= |arrivals| && StableAt(assets, arrivals, k)
    requires multiset(arrivals) == multiset(ss)
    ensures Agrees(FinalizeSpec(assets, qname, arrivals[..k], false), FinalizeSpec(assets, qname, ss, true))
  {
    assert arrivals[..k] + arrivals[k..] == arrivals;
    EarlyCompletionSound(assets, qname, arrivals[..k], arrivals[k..], true);
    ArrivalOrderIrrelevant(assets, qname, arrivals, ss, true);
    var early, full := FinalizeSpec(assets, qname, arrivals[..k], false), FinalizeSpec(assets, qname, arrivals, true);
    assert forall a :: a in early.addrs ==> a in full.addrs;
  }

  ghost predicate Agrees(early: EngineResult, full: EngineResult) {
    early.rcode == full.rcode && early.policy == full.policy && forall a :: a in early.addrs ==> a in full.addrs
  }

  lemma SameLength(s: seq<Addr>, t: seq<Addr>)
    requires NoDuplicates(s) && NoDuplicates(t)
    requires forall a :: a in s <==> a in t
    ensures |s| == |t|
  {
    Distinct(s);
    Distinct(t);
    assert (set a | a in s) == (set a | a in t);
  }

  lemma {:induction false} Distinct(s: seq<Addr>)
    requires NoDuplicates(s)
    ensures |set a | a in s| == |s|
  {
    if s != [] {
      var init, last := s[..|s| - 1], s[|s| - 1];
      Distinct(init);
      assert (set a | a in s) == (set a | a in init) + {last};
    }
  }
}
