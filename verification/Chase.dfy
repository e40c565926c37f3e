/**
 internal/upstream/chase.go: following CNAMEs breadth-first against one upstream, with a cycle guard
 and a hop cap.  The upstream and the clock are an arbitrary environment; for the results about what a
 chase computes the environment is a fixed zone.
 */
module Chase {
  import opened Netip
  import opened Policy
  import opened Names
  import opened Frontiers
  import opened ChaseLoop
  import ChaseOrder

  // ----- messages

  datatype Header = Header(name: string, rrtype: nat, ttl: U32)

  datatype RR =
    | A(hdr: Header, addr: Option<Addr>)      // None: an rdata that is not an address
    | AAAA(hdr: Header, addr: Option<Addr>)
    | CNAME(hdr: Header, target: string)
    | SOARecord(hdr: Header, minttl: U32)
    | OtherRR(hdr: Header)

  datatype Msg = Msg(rcode: nat, answer: seq<RR>, ns: seq<RR>)

  datatype Exchange = Reply(msg: Msg) | Error(category: string)

  function RRAddr(rr: RR): Option<Addr> {
    match rr
    case A(_, Some(ip)) => Some(Unmap(ip))
    case AAAA(_, Some(ip)) => Some(ip)
    case _ => None
  }

  /** A record whose type and rdata make it part of the wanted rrset. */
  predicate Wanted(rr: RR, qtype: nat) {
    rr.hdr.rrtype == qtype && RRAddr(rr).Some?
  }

  /** The addresses of the wanted records, and their TTLs. */
  function WantedAddrs(rrs: seq<RR>, qtype: nat): seq<Addr> {
    if rrs == [] then []
    else
      var rr := rrs[|rrs| - 1];
      WantedAddrs(rrs[..|rrs| - 1], qtype) + (if Wanted(rr, qtype) then [RRAddr(rr).value] else [])
  }

  function WantedTTLs(rrs: seq<RR>, qtype: nat): seq<U32> {
    if rrs == [] then []
    else
      var rr := rrs[|rrs| - 1];
      WantedTTLs(rrs[..|rrs| - 1], qtype) + (if Wanted(rr, qtype) then [rr.hdr.ttl] else [])
  }

  lemma {:induction false} WantedMembers(rrs: seq<RR>, qtype: nat)
    ensures |WantedAddrs(rrs, qtype)| == |WantedTTLs(rrs, qtype)|
    ensures forall a :: a in WantedAddrs(rrs, qtype) <==> exists rr :: rr in rrs && Wanted(rr, qtype) && RRAddr(rr) == Some(a)
    ensures forall t :: t in WantedTTLs(rrs, qtype) <==> exists rr :: rr in rrs && Wanted(rr, qtype) && rr.hdr.ttl == t
  {
    if rrs != [] {
      WantedMembers(rrs[..|rrs| - 1], qtype);
      assert rrs == rrs[..|rrs| - 1] + [rrs[|rrs| - 1]];
    }
  }

  /** The places of the wanted records: all of them, in order. */
  ghost predicate WantedPlaces(rrs: seq<RR>, qtype: nat, places: seq<nat>) {
    && (forall x :: 0 <= x < |places| ==> places[x] < |rrs| && Wanted(rrs[places[x]], qtype))
    && (forall x, y :: 0 <= x < y < |places| ==> places[x] < places[y])
    && (forall p :: 0 <= p < |rrs| && Wanted(rrs[p], qtype) ==> p in places)
  }

  /** The addresses and TTLs collected are those of the wanted records, one by one, in the order of the answer. */
  lemma {:induction false} WantedInOrder(rrs: seq<RR>, qtype: nat) returns (places: seq<nat>)
    ensures WantedPlaces(rrs, qtype, places)
    ensures |WantedAddrs(rrs, qtype)| == |WantedTTLs(rrs, qtype)| == |places|
    ensures forall x :: 0 <= x < |places| ==>
              Some(WantedAddrs(rrs, qtype)[x]) == UsableAddr(rrs[places[x]]) && WantedTTLs(rrs, qtype)[x] == rrs[places[x]].hdr.ttl
  {
    if rrs == [] {
      places := [];
    } else {
      var init, n := rrs[..|rrs| - 1], |rrs| - 1;
      var before := WantedInOrder(init, qtype);
      places := before + (if Wanted(rrs[n], qtype) then [n] else []);
      assert forall x :: 0 <= x < |before| ==> rrs[before[x]] == init[before[x]];
      forall p | 0 <= p < |rrs| && Wanted(rrs[p], qtype)
        ensures p in places
      {
        if p < n {
          assert init[p] == rrs[p];
        }
      }
    }
  }

  /** The address of an A record is unmapped, that of an AAAA record is taken as it is, and no other record has one. */
  ghost function UsableAddr(rr: RR): Option<Addr> {
    if rr.A? && rr.addr.Some? then
      Some(if rr.addr.value.V6? && InMappedBlock(rr.addr.value.v) then V4(rr.addr.value.v - MAPPED_BASE) else rr.addr.value)
    else if rr.AAAA? then rr.addr
    else None
  }

  /** The running value of `minTTL` after some TTLs: zero stands for "none yet" as well as for a TTL of zero. */
  function RunningTTL(ttls: seq<U32>): U32 {
    if ttls == [] then 0
    else
      var before, t := RunningTTL(ttls[..|ttls| - 1]), ttls[|ttls| - 1];
      if before == 0 || t < before then t else before
  }

  lemma RunningStep(ttls: seq<U32>, t: U32)
    ensures RunningTTL(ttls + [t]) == if RunningTTL(ttls) == 0 || t < RunningTTL(ttls) then t else RunningTTL(ttls)
  {
    assert (ttls + [t])[..|ttls|] == ttls;
  }

  ghost predicate IsMinimum(m: U32, ttls: seq<U32>) {
    m in ttls && forall t :: t in ttls ==> m <= t
  }

  /** The running value is one of the TTLs, zero exactly if the last one is, and below every other if none is zero. */
  lemma {:induction false} RunningTTLBounds(ttls: seq<U32>)
    requires ttls != []
    ensures RunningTTL(ttls) in ttls
    ensures RunningTTL(ttls) == 0 <==> ttls[|ttls| - 1] == 0
    ensures 0 !in ttls ==> forall i :: 0 <= i < |ttls| ==> RunningTTL(ttls) <= ttls[i]
  {
    var init, t := ttls[..|ttls| - 1], ttls[|ttls| - 1];
    assert ttls == init + [t];
    if init != [] {
      RunningTTLBounds(init);
    }
  }

  /** The running value is the minimum exactly when no TTL is zero, or the last one is. */
  lemma RunningTTLIsMinimum(ttls: seq<U32>)
    requires ttls != []
    ensures IsMinimum(RunningTTL(ttls), ttls) <==> 0 !in ttls || ttls[|ttls| - 1] == 0
    ensures RunningTTL(ttls) in ttls
  {
    hide RunningTTL;
    RunningTTLBounds(ttls);
  }

  /** What the running value is after a zero TTL: that of the TTLs that follow it. */
  lemma {:induction false} RunningTTLRestarts(ttls: seq<U32>, z: nat)
    requires z < |ttls| && ttls[z] == 0
    ensures RunningTTL(ttls) == RunningTTL(ttls[z + 1..])
  {
    var init := ttls[..|ttls| - 1];
    if z < |init| {
      RunningTTLRestarts(init, z);
      assert ttls[z + 1..][..|ttls[z + 1..]| - 1] == init[z + 1..];
    } else {
      assert ttls[z + 1..] == [];
    }
  }

  /** A zero TTL followed by a positive one is forgotten. */
  lemma ZeroTTLForgotten()
    ensures RunningTTL([0, 300]) == 300 && !IsMinimum(RunningTTL([0, 300]), [0, 300])
  {
    assert [0, 300][..1] == [0] && [0][..0] == [];
    RunningTTLIsMinimum([0, 300]);
  }

  method CollectAddrs(rrs: seq<RR>, qtype: nat) returns (addrs: seq<Addr>, minTTL: U32)
    ensures addrs == WantedAddrs(rrs, qtype)
    ensures minTTL == RunningTTL(WantedTTLs(rrs, qtype))
  {
    addrs, minTTL := [], 0;
    ghost var ttls: seq<U32> := [];
    for i := 0 to |rrs|
      invariant addrs == WantedAddrs(rrs[..i], qtype)
      invariant ttls == WantedTTLs(rrs[..i], qtype)
      invariant minTTL == RunningTTL(ttls)
    {
      assert rrs[..i + 1][..i] == rrs[..i];
      var rr := rrs[i];
      var ip := RRAddr(rr);
      if rr.hdr.rrtype == qtype && ip.Some? {
        addrs := addrs + [ip.value];
        RunningStep(ttls, rr.hdr.ttl);
        ttls := ttls + [rr.hdr.ttl];
        if minTTL == 0 || rr.hdr.ttl < minTTL {
          minTTL := rr.hdr.ttl;
        }
      }
    }
    assert rrs[..|rrs|] == rrs;
  }

  /** The targets of the CNAMEs owned by `cur`, normalised, each once, in order. */
  function TargetsOf(rrs: seq<RR>, cur: string): seq<string> {
    if rrs == [] then []
    else
      var before, rr := TargetsOf(rrs[..|rrs| - 1], cur), rrs[|rrs| - 1];
      if rr.CNAME? && EqualFold(rr.hdr.name, cur) && QueryName(rr.target) !in before
      then before + [QueryName(rr.target)] else before
  }

  /** A CNAME owned by the name, up to case. */
  predicate OwnedCNAME(rr: RR, cur: string) {
    rr.CNAME? && ToLower(rr.hdr.name) == ToLower(cur)
  }

  /** The first CNAME of the name that leads to the target. */
  ghost predicate FirstTo(rrs: seq<RR>, cur: string, t: string, p: nat) {
    && p < |rrs| && OwnedCNAME(rrs[p], cur) && QueryName(rrs[p].target) == t
    && forall q :: 0 <= q < p && OwnedCNAME(rrs[q], cur) ==> QueryName(rrs[q].target) != t
  }

  /** The places of the CNAMEs that first lead to the targets: in order, and one for every target there is. */
  ghost predicate TargetPlaces(rrs: seq<RR>, cur: string, targets: seq<string>, places: seq<nat>) {
    && |places| == |targets|
    && (forall x :: 0 <= x < |places| ==> FirstTo(rrs, cur, targets[x], places[x]))
    && (forall x, y :: 0 <= x < y < |places| ==> places[x] < places[y])
    && (forall p :: 0 <= p < |rrs| && OwnedCNAME(rrs[p], cur) ==> QueryName(rrs[p].target) in targets)
  }

  /** The targets followed are those of the CNAMEs owned by the name, each once, in order of first appearance. */
  lemma {:induction false} TargetsInOrder(rrs: seq<RR>, cur: string) returns (places: seq<nat>)
    ensures TargetPlaces(rrs, cur, TargetsOf(rrs, cur), places)
  {
    if rrs == [] {
      places := [];
    } else {
      var init, last := rrs[..|rrs| - 1], rrs[|rrs| - 1];
      var before := TargetsInOrder(init, cur);
      assert rrs == init + [last];
      TargetsStep(init, last, cur);
      var isNew := OwnedCNAME(last, cur) && QueryName(last.target) !in TargetsOf(init, cur);
      places := before + (if isNew then [|init|] else []);
      TargetPlacesGrow(init, last, cur, TargetsOf(init, cur), before);
    }
  }

  lemma TargetsStep(init: seq<RR>, last: RR, cur: string)
    ensures TargetsOf(init + [last], cur) == TargetsOf(init, cur)
              + (if OwnedCNAME(last, cur) && QueryName(last.target) !in TargetsOf(init, cur) then [QueryName(last.target)] else [])
  {
    assert (init + [last])[..|init|] == init;
  }

  lemma TargetPlacesGrow(init: seq<RR>, last: RR, cur: string, targets: seq<string>, places: seq<nat>)
    requires TargetPlaces(init, cur, targets, places)
    ensures var t := QueryName(if last.CNAME? then last.target else "");
            var isNew := OwnedCNAME(last, cur) && t !in targets;
            TargetPlaces(init + [last], cur, targets + (if isNew then [t] else []), places + (if isNew then [|init|] else []))
  {
    hide QueryName, ToLower;
    var rrs := init + [last];
    assert forall p :: 0 <= p < |init| ==> rrs[p] == init[p];
    assert rrs[|init|] == last;
    forall x | 0 <= x < |places|
      ensures FirstTo(rrs, cur, targets[x], places[x])
    {
      assert FirstTo(init, cur, targets[x], places[x]);
    }
  }

  method CollectTargets(rrs: seq<RR>, cur: string) returns (targets: seq<string>)
    ensures targets == TargetsOf(rrs, cur)
  {
    targets := [];
    var seenTarget: set<string> := {};
    for i := 0 to |rrs|
      invariant targets == TargetsOf(rrs[..i], cur)
      invariant forall t :: t in seenTarget <==> t in targets
    {
      assert rrs[..i + 1][..i] == rrs[..i];
      var rr := rrs[i];
      if rr.CNAME? && EqualFold(rr.hdr.name, cur) {
        var t := QueryName(rr.target);
        if t != "" && t !in seenTarget {
          seenTarget := seenTarget + {t};
          targets := targets + [t];
        }
      }
    }
    assert rrs[..|rrs|] == rrs;
  }

  function SOAOf(rrs: seq<RR>): Option<SOA> {
    if rrs == [] then None
    else if rrs[0].SOARecord? then Some(SOA(rrs[0].hdr.ttl, rrs[0].minttl))
    else SOAOf(rrs[1..])
  }

  /** The first SOA record of a section, by its place; or there is none. */
  ghost predicate IsFirstSOA(rrs: seq<RR>, soa: Option<SOA>) {
    if soa == None then forall p :: 0 <= p < |rrs| ==> !rrs[p].SOARecord?
    else exists p :: 0 <= p < |rrs| && rrs[p].SOARecord? && rrs[p].hdr.ttl == soa.value.ttl && rrs[p].minttl == soa.value.minttl
                     && forall q :: 0 <= q < p ==> !rrs[q].SOARecord?
  }

  lemma {:induction false} SOAIsFirst(rrs: seq<RR>)
    ensures IsFirstSOA(rrs, SOAOf(rrs))
  {
    if rrs != [] && !rrs[0].SOARecord? {
      SOAIsFirst(rrs[1..]);
      assert rrs == [rrs[0]] + rrs[1..];
      if SOAOf(rrs).Some? {
        var p :| 0 <= p < |rrs[1..]| && rrs[1..][p].SOARecord? && rrs[1..][p].hdr.ttl == SOAOf(rrs).value.ttl
                 && rrs[1..][p].minttl == SOAOf(rrs).value.minttl && forall q :: 0 <= q < p ==> !rrs[1..][q].SOARecord?;
        assert rrs[p + 1] == rrs[1..][p] && forall q :: 0 < q < p + 1 ==> rrs[q] == rrs[1..][q - 1];
      }
    }
  }

  method ExtractSOA(rrs: seq<RR>) returns (soa: Option<SOA>)
    ensures soa == SOAOf(rrs)
  {
    for i := 0 to |rrs|
      invariant SOAOf(rrs) == SOAOf(rrs[i..])
    {
      assert rrs[i..][1..] == rrs[i + 1..];
      if rrs[i].SOARecord? {
        return Some(SOA(rrs[i].hdr.ttl, rrs[i].minttl));
      }
    }
    return None;
  }

  // ----- the environment of a chase

  /** `hopBudget`: the attempt timeout, cut to what is left of the deadline, and never negative. */
  function HopBudget(remaining: Option<int>, attempt: int): (b: int)
    ensures b >= 0 && (b > 0 <==> attempt > 0 && (remaining.Some? ==> remaining.value > 0))
    ensures b > 0 ==> b <= attempt && (remaining.Some? ==> b <= remaining.value)
    ensures b > 0 ==> b == attempt || (remaining.Some? && b == remaining.value)
  {
    var cut := if remaining.Some? && remaining.value < attempt then remaining.value else attempt;
    if cut < 0 then 0 else cut
  }

  /**
   Everything outside the function: the context error seen at the i-th turn of the loop, the time left
   before the k-th lookup, and the upstream's reply to the k-th lookup, which may depend on k.
   */
  datatype Env = Env(server: Addr, qtype: nat, maxHops: int, attempt: int, rcodeName: nat -> string,
                     ctxErr: nat -> Option<string>, remaining: nat -> Option<int>, exchange: (nat, string) -> Exchange)

  // ----- one exchange

  function Judge(env: Env, x: Exchange, cur: string): Verdict {
    var server, qtype := env.server, env.qtype;
    match x
    case Error(category) => End(Fail(server, category))
    case Reply(m) =>
      if m.rcode == RCODE_NXDOMAIN then End(Outcome(server, NXDomain, [], SOAOf(m.ns), 0, ""))
      else if m.rcode != RCODE_SUCCESS then End(Fail(server, "rcode-" + env.rcodeName(m.rcode)))
      else
        var wanted := WantedAddrs(m.answer, qtype);
        if wanted != [] then End(Outcome(server, Answer, Dedup(wanted), None, RunningTTL(WantedTTLs(m.answer, qtype)), ""))
        else if TargetsOf(m.answer, cur) == [] then End(Outcome(server, NoData, [], SOAOf(m.ns), 0, ""))
        else Follow(TargetsOf(m.answer, cur))
  }

  method JudgeReply(env: Env, m: Msg, cur: string) returns (v: Verdict)
    ensures v == Judge(env, Reply(m), cur)
  {
    var server, qtype := env.server, env.qtype;
    if m.rcode == RCODE_NXDOMAIN {
      var soa := ExtractSOA(m.ns);
      return End(Outcome(server, NXDomain, [], soa, 0, ""));
    } else if m.rcode != RCODE_SUCCESS {
      return End(Fail(server, "rcode-" + env.rcodeName(m.rcode)));
    }
    var addrs, minTTL := CollectAddrs(m.answer, qtype);
    if |addrs| > 0 {
      var unique := DedupLoop(addrs);
      return End(Outcome(server, Answer, unique, None, minTTL, ""));
    }
    var targets := CollectTargets(m.answer, cur);
    if |targets| == 0 {
      var soa := ExtractSOA(m.ns);
      return End(Outcome(server, NoData, [], soa, 0, ""));
    }
    return Follow(targets);
  }

  /** Some record of the answer is wanted. */
  ghost predicate HasWanted(m: Msg, qtype: nat) {
    exists p :: 0 <= p < |m.answer| && m.answer[p].hdr.rrtype == qtype && UsableAddr(m.answer[p]).Some?
  }

  /** Some record of the answer is a CNAME owned by the name. */
  ghost predicate HasCNAME(m: Msg, cur: string) {
    exists p :: 0 <= p < |m.answer| && OwnedCNAME(m.answer[p], cur)
  }

  /** What a reply, or the lack of one, means; stated on the message. */
  ghost predicate Means(env: Env, x: Exchange, cur: string, v: Verdict) {
    if x.Error? then v == End(Outcome(env.server, Failure, [], None, 0, x.category))
    else if x.msg.rcode == RCODE_NXDOMAIN then
      v.End? && v.outcome == Outcome(env.server, NXDomain, [], v.outcome.soa, 0, "") && IsFirstSOA(x.msg.ns, v.outcome.soa)
    else if x.msg.rcode != RCODE_SUCCESS then
      v == End(Outcome(env.server, Failure, [], None, 0, "rcode-" + env.rcodeName(x.msg.rcode)))
    else if HasWanted(x.msg, env.qtype) then
      v.End? && v.outcome.state.Answer? && v.outcome.soa == None && v.outcome.server == env.server
    else if HasCNAME(x.msg, cur) then v.Follow?
    else v.End? && v.outcome == Outcome(env.server, NoData, [], v.outcome.soa, 0, "") && IsFirstSOA(x.msg.ns, v.outcome.soa)
  }

  lemma JudgeMeans(env: Env, x: Exchange, cur: string)
    ensures Means(env, x, cur, Judge(env, x, cur))
  {
    hide WantedAddrs, WantedTTLs, TargetsOf, SOAOf, IsFirstSOA, RunningTTL, OwnedCNAME, TargetPlaces;
    if x.Reply? {
      SOAIsFirst(x.msg.ns);
      SomeWanted(x.msg, env.qtype);
      SomeTarget(x.msg, cur);
    }
  }

  lemma SomeWanted(m: Msg, qtype: nat)
    ensures WantedAddrs(m.answer, qtype) != [] <==> HasWanted(m, qtype)
  {
    hide WantedAddrs, WantedTTLs;
    var places := WantedInOrder(m.answer, qtype);
    if places != [] {
      assert Wanted(m.answer[places[0]], qtype);
    }
    if HasWanted(m, qtype) {
      var p :| 0 <= p < |m.answer| && m.answer[p].hdr.rrtype == qtype && UsableAddr(m.answer[p]).Some?;
      assert Wanted(m.answer[p], qtype);
    }
  }

  lemma SomeTarget(m: Msg, cur: string)
    ensures TargetsOf(m.answer, cur) != [] <==> HasCNAME(m, cur)
  {
    hide TargetsOf, OwnedCNAME;
    var places := TargetsInOrder(m.answer, cur);
    if TargetsOf(m.answer, cur) != [] {
      assert FirstTo(m.answer, cur, TargetsOf(m.answer, cur)[0], places[0]);
    }
  }

  lemma JudgeWellFormed(env: Env, x: Exchange, cur: string)
    ensures WellFormedVerdict(Judge(env, x, cur))
  {
    if x.Reply? && x.msg.rcode == RCODE_SUCCESS && WantedAddrs(x.msg.answer, env.qtype) != [] {
      DedupKeepsSome(WantedAddrs(x.msg.answer, env.qtype));
    }
  }

  lemma DedupKeepsSome(addrs: seq<Addr>)
    requires addrs != []
    ensures Dedup(addrs) != [] && NoDuplicates(Dedup(addrs))
  {
    DedupMembers(addrs);
    assert addrs[0] in Dedup(addrs);
  }

  /** The environment as the loop sees it. */
  function ViewOf(env: Env): View {
    View(env.server, env.maxHops, env.ctxErr, (k: nat) => HopBudget(env.remaining(k), env.attempt),
         (k: nat, name: string) => Judge(env, env.exchange(k, name), name))
  }

  lemma ViewWellJudged(env: Env)
    ensures WellJudged(ViewOf(env))
  {
    forall k: nat, name
      ensures WellFormedVerdict(ViewOf(env).ask(k, name))
    {
      JudgeWellFormed(env, env.exchange(k, name), name);
    }
  }

  method AppendUnseen(pending: seq<string>, targets: seq<string>, seen: set<string>) returns (out: seq<string>)
    ensures out == pending + Unseen(targets, seen)
  {
    out := pending;
    for i := 0 to |targets|
      invariant out == pending + Unseen(targets[..i], seen)
    {
      assert targets[..i + 1][..i] == targets[..i];
      if targets[i] !in seen {
        out := out + [targets[i]];
      }
    }
    assert targets[..|targets|] == targets;
  }

  /** One exchange and what the loop body makes of the reply. */
  method LookUp(env: Env, k: nat, cur: string) returns (v: Verdict)
    ensures v == ViewOf(env).ask(k, cur)
  {
    var x := env.exchange(k, cur);
    if x.Error? {
      return End(Fail(env.server, x.category));
    }
    v := JudgeReply(env, x.msg, cur);
  }

  /** `Chase`; `asked` lists the lookups it made. */
  method Chase(env: Env, qname: string) returns (res: Result, asked: seq<string>)
    ensures res == Loop(ViewOf(env), [QueryName(qname)], {}, [], 0).result
    ensures asked == Loop(ViewOf(env), [QueryName(qname)], {}, [], 0).asked
  {
    var name := QueryName(qname);
    var seen: set<string> := {};
    var pending := [name];
    var lookups := 0;
    asked := [];
    var turn := 0;
    while |pending| > 0
      invariant lookups == |asked|
      invariant Loop(ViewOf(env), pending, seen, asked, turn) == Loop(ViewOf(env), [name], {}, [], 0)
      decreases env.maxHops - lookups, |pending|
    {
      var err := env.ctxErr(turn);
      if err.Some? {
        return Fail(env.server, err.value), asked;
      }
      turn := turn + 1;
      var cur := pending[0];
      pending := pending[1..];
      if cur !in seen {
        seen := seen + {cur};
        lookups := lookups + 1;
        if lookups > env.maxHops {
          return Fail(env.server, "cname-maxdepth"), asked;
        }
        var budget := HopBudget(env.remaining(lookups), env.attempt);
        if budget <= 0 {
          return Fail(env.server, "timeout"), asked;
        }
        var v := LookUp(env, lookups, cur);
        asked := asked + [cur];
        if v.End? {
          return v.outcome, asked;
        }
        pending := AppendUnseen(pending, v.targets, seen);
      }
    }
    res := Outcome(env.server, NoData, [], None, 0, "");
  }

  // ----- what a chase guarantees

  function ChaseRun(env: Env, qname: string): Run {
    Loop(ViewOf(env), [QueryName(qname)], {}, [], 0)
  }

  /**
   Against any upstream, even one that invents new targets forever, a chase makes at most maxHops
   lookups, never asks for a name twice, asks only for names that CNAMEs led it to, and an answer
   carries at least one address and none twice.
   */
  lemma ChaseIsSafe(env: Env, qname: string)
    ensures var run := ChaseRun(env, qname);
            && Traceable(ViewOf(env), QueryName(qname), run.asked)
            && (run.asked == [] || |run.asked| <= env.maxHops)
            && (run.result.state.Answer? <==> run.result.addrs != []) && NoDuplicates(run.result.addrs)
  {
    ViewWellJudged(env);
    LoopIsSafe(ViewOf(env), QueryName(qname), [QueryName(qname)], {}, [], 0);
    LoopWellFormed(ViewOf(env), [QueryName(qname)], {}, [], 0);
  }

  /**
   Against any upstream the names are asked for in the order in which CNAMEs first led to them: by the number of
   the lookup, then by the place among the targets of its reply.
   */
  lemma ChaseInOrder(env: Env, qname: string) returns (first: seq<ChaseOrder.Place>)
    ensures ChaseOrder.InOrderOfDiscovery(ViewOf(env), ChaseRun(env, qname).asked, first)
  {
    first := ChaseOrder.StartInOrder(ViewOf(env), QueryName(qname));
  }

  /** The answer section of the reply to the last lookup of a chase, or nothing. */
  function LastAnswer(env: Env, qname: string): seq<RR> {
    var asked := ChaseRun(env, qname).asked;
    if asked == [] then []
    else
      var x := env.exchange(|asked|, asked[|asked| - 1]);
      if x.Reply? then x.msg.answer else []
  }

  /**
   Where an answer comes from, against any upstream: from the reply to the last lookup made, a NOERROR reply
   whose wanted records it lists once each, with their running TTL.
   */
  lemma AnswerFromLastReply(env: Env, qname: string)
    requires ChaseRun(env, qname).result.state.Answer?
    ensures var run := ChaseRun(env, qname);
            && run.asked != []
            && var x := env.exchange(|run.asked|, run.asked[|run.asked| - 1]);
               && x.Reply? && x.msg.rcode == RCODE_SUCCESS
               && WantedAddrs(x.msg.answer, env.qtype) != []
               && run.result.addrs == Dedup(WantedAddrs(x.msg.answer, env.qtype))
               && run.result.minTTL == RunningTTL(WantedTTLs(x.msg.answer, env.qtype))
  {
    hide WantedAddrs, WantedTTLs, RunningTTL, Dedup, SOAOf, TargetsOf;
    LoopEndsAtLast(ViewOf(env), [QueryName(qname)], {}, [], 0);
  }

  /**
   Against any upstream: every lookup is made with time left, by its attempt timeout and by the deadline, and a
   chase whose context ends at its n-th turn makes at most n lookups.
   */
  lemma ChaseInTime(env: Env, qname: string, n: nat)
    ensures var run := ChaseRun(env, qname);
            && (run.asked != [] ==> env.attempt > 0)
            && (forall k: nat :: 1 <= k <= |run.asked| ==> env.remaining(k).Some? ==> env.remaining(k).value > 0)
            && ((forall t: nat :: n <= t ==> env.ctxErr(t).Some?) ==> |run.asked| <= n)
  {
    hide Loop;
    LoopInTime(ViewOf(env), [QueryName(qname)], {}, [], 0, n);
    var run := ChaseRun(env, qname);
    forall k: nat | 1 <= k <= |run.asked|
      ensures env.attempt > 0 && (env.remaining(k).Some? ==> env.remaining(k).value > 0)
    {
      assert HopBudget(env.remaining(k), env.attempt) == ViewOf(env).budget(k) > 0;
    }
    if run.asked != [] {
      assert HopBudget(env.remaining(1), env.attempt) == ViewOf(env).budget(1) > 0;
    }
  }

  /** The outcome of the last exchange of a chase, if it made any. */
  function LastExchange(env: Env, qname: string): Option<Exchange> {
    var asked := ChaseRun(env, qname).asked;
    if asked == [] then None else Some(env.exchange(|asked|, asked[|asked| - 1]))
  }

  /** The last reply is a NOERROR reply with no wanted record that names no CNAME of the name asked: the end of a chain. */
  ghost predicate EndsEmpty(env: Env, m: Msg, cur: string) {
    m.rcode == RCODE_SUCCESS && !HasWanted(m, env.qtype) && !HasCNAME(m, cur)
  }

  /**
   How a chase ends, against any upstream, told by its last exchange: NXDOMAIN exactly on rcode 3, an answer exactly
   on a NOERROR reply with a wanted record, a failure exactly when it was given up or the exchange failed or had any
   other rcode; otherwise NODATA, with the SOA of a reply that ends the chain, or without one if every name that
   the CNAMEs led to had been asked for.
   */
  lemma ChaseEnds(env: Env, qname: string)
    ensures var run, last := ChaseRun(env, qname), LastExchange(env, qname);
            var replied := last.Some? && last.value.Reply?;
            && run.result.server == env.server
            && (!run.result.state.Answer? ==> run.result.addrs == [] && run.result.minTTL == 0)
            && (run.cut ==> GivenUp(ViewOf(env), run))
            && (run.result.state.NXDomain? <==> replied && last.value.msg.rcode == 3)
            && (run.result.state.Answer? <==> replied && last.value.msg.rcode == 0 && HasWanted(last.value.msg, env.qtype))
            && (run.result.state.Failure? <==> run.cut || (last.Some? && (last.value.Error? || last.value.msg.rcode !in {0, 3})))
            && (!run.cut && last.Some? && last.value.Error? ==> run.result.errCategory == last.value.category)
            && (replied && last.value.msg.rcode !in {0, 3} ==> run.result.errCategory == "rcode-" + env.rcodeName(last.value.msg.rcode))
            && (run.result.state.NXDomain? ==> IsFirstSOA(last.value.msg.ns, run.result.soa))
            && (replied && EndsEmpty(env, last.value.msg, run.asked[|run.asked| - 1]) ==>
                  run.result.state.NoData? && IsFirstSOA(last.value.msg.ns, run.result.soa))
            && (run.result.state.NoData? && !(replied && EndsEmpty(env, last.value.msg, run.asked[|run.asked| - 1])) ==>
                  run.result.soa == None)
  {
    hide Loop, Judge, IsFirstSOA, HasWanted, HasCNAME;
    var run := ChaseRun(env, qname);
    LoopEnds(ViewOf(env), [QueryName(qname)], {}, [], 0);
    if run.asked != [] {
      JudgeMeans(env, env.exchange(|run.asked|, run.asked[|run.asked| - 1]), run.asked[|run.asked| - 1]);
    }
  }

  /** A zone: replies depend on the name alone. */
  ghost predicate FixedZone(env: Env) {
    forall k, name :: env.exchange(k, name) == env.exchange(0, name)
  }

  /** No context error occurs, and every lookup has a positive budget. */
  ghost predicate Unhurried(env: Env) {
    && (forall i :: env.ctxErr(i).None?)
    && env.attempt > 0 && (forall k :: env.remaining(k).Some? ==> env.remaining(k).value > 0)
  }

  lemma ZoneView(env: Env)
    requires FixedZone(env)
    ensures IsZone(ViewOf(env)) && WellJudged(ViewOf(env)) && (Unhurried(env) ==> InTime(ViewOf(env)))
  {
    ViewWellJudged(env);
    forall k: nat, name
      ensures ViewOf(env).ask(k, name) == ViewOf(env).ask(0, name)
    {
      assert env.exchange(k, name) == env.exchange(0, name);
    }
  }

  /**
   Against a zone with any number of CNAMEs per name, cycles included, a chase that is not given up at
   the hop cap or for want of time asks for names in order of their CNAME distance and returns the outcome of an ending name
   at the least distance, or NODATA without an SOA if no ending name can be reached.
   */
  lemma ChaseFindsNearest(env: Env, qname: string) returns (far: nat)
    requires FixedZone(env)
    ensures var run := ChaseRun(env, qname);
            NearestOutcome(ViewOf(env), QueryName(qname), run) && Sorted(ViewOf(env), QueryName(qname), run.asked, far)
  {
    var start, view := QueryName(qname), ViewOf(env);
    ZoneView(env);
    ExploredAtStart(Next(view), start);
    assert ByDistance(view, start, [], [], 0);
    far := LoopFindsNearest(view, start, [start], {}, [], 0, 0);
  }

  /** With at most one CNAME per name (section 3.6.2 of RFC 1034) the breadth-first chase is the chain walk. */
  lemma ChaseIsWalk(env: Env, qname: string)
    requires FixedZone(env) && Unhurried(env) && forall n :: |Next(ViewOf(env))(n)| <= 1
    ensures ChaseRun(env, qname).result == Walk(ViewOf(env), QueryName(qname), {}, 0)
  {
    ZoneView(env);
    LoopIsWalk(ViewOf(env), QueryName(qname), {}, [], 0);
  }
}
