/**
 What the machine of Flights guarantees about its contents: what the cache holds, that waiters can always
 still be answered, and what an asset reload (handleReloads of cmd/chn-resolver/main.go) leaves behind.
 */
module Reloads {
  import opened Netip
  import opened Policy
  import opened Engine
  import opened Service
  import opened Flights
  import C = CacheModel
  import Names
  import Chase

  /**
   The machine is the service's: keys are normalised names, and what a resolution yields is what the engine
   and the service make of its outcomes under the assets of its version.
   */
  ghost predicate Faithful(cfg: Config, limits: Limits, assets: nat -> Assets) {
    && cfg.capacity >= 1 && cfg.upstreams >= 1 && limits.Ok()
    && (forall qname, qtype :: cfg.key(qname, qtype) == C.Key(Names.CacheKey(qname), qtype))
    && (forall o :: cfg.value(o) == Convert(FinalizeSpec(assets(o.version), o.qname, o.rs, o.complete), limits))
  }

  // ----- cache contents

  /**
   In every reachable state each cached value is what the engine and the service made of the run of its own
   flight: a flight for the entry's key, led for that question, in which all upstreams reported.  It is never
   SERVFAIL, and is a positive or a unanimous negative value with its TTL within the configured bounds.
   */
  lemma CacheContent(cfg: Config, limits: Limits, assets: nat -> Assets, s: World, e: C.Entry<Tagged>)
    requires Faithful(cfg, limits, assets) && Reachable(cfg, s) && e in s.entries
    ensures e.value.payload.flight in s.flights
    ensures var f := s.flights[e.value.payload.flight];
            && Finished(f) && f.key == e.key && e.key.name == Names.CacheKey(f.qname)
            && var o, c := f.phase.origin, Converted(e.value.payload.payload, e.value.ttl, true);
               && o.complete && |o.rs| == cfg.upstreams && o.version <= s.version && o.qname == f.qname
               && c == Convert(FinalizeSpec(assets(o.version), o.qname, o.rs, true), limits)
               && c.payload.rcode != RCODE_SERVFAIL
               && (PositiveValue(assets(o.version), o.rs, limits, c) || NegativeValue(o.rs, limits, c))
  {
    hide Step, PositiveValue, NegativeValue, FinalizeSpec, Convert, FlightsOk, ServedOk, CoalescedOk;
    InvariantHolds(cfg, s);
    assert EntryOk(cfg, s, e);
    var f := s.flights[e.value.payload.flight];
    var o := f.phase.origin;
    assert LoadOk(s, f) && FlightAsks(cfg, s, e.value.payload.flight);
    CacheableContent(assets(o.version), o.qname, o.rs, o.complete, limits);
    assert cfg.value(o) == Converted(e.value.payload.payload, e.value.ttl, true);
  }

  // ----- answers are answers to the question

  /** The flight that a caller leads, waits for, or was answered with. */
  function FlightOf(pc: Pc): Option<FlightId> {
    match pc
    case Leading(f) => Some(f)
    case Waiting(f) => Some(f)
    case Returned(f, _) => Some(f)
    case Served(_, cached) => Some(cached.payload.flight)
    case _ => None
  }

  /**
   Whoever shares a flight or an entry shares it for its own question: the flight has the caller's key, and
   (unless exactly one of the two names is "..") its name is chased, and its outcomes are resolved, exactly as
   the caller's own name would have been.
   */
  lemma AnswersTheQuestion(cfg: Config, limits: Limits, assets: nat -> Assets, s: World, c: Caller,
                           env: Chase.Env, bundle: Assets, rs: seq<Result>, complete: bool)
    requires Faithful(cfg, limits, assets) && Reachable(cfg, s) && c in s.callers && FlightOf(s.callers[c]).Some?
    ensures c in s.questions && FlightOf(s.callers[c]).value in s.flights
    ensures var q, f := s.questions[c], s.flights[FlightOf(s.callers[c]).value];
            && f.key == C.Key(Names.CacheKey(q.qname), q.qtype) && Names.CacheKey(f.qname) == Names.CacheKey(q.qname)
            && ((Names.Stem(q.qname) == "." <==> Names.Stem(f.qname) == ".") ==>
                  && Chase.ChaseRun(env, q.qname) == Chase.ChaseRun(env, f.qname)
                  && FinalizeSpec(bundle, q.qname, rs, complete) == FinalizeSpec(bundle, f.qname, rs, complete))
  {
    hide Step, FinalizeSpec, Convert, Chase.ChaseRun;
    ReachableAsked(cfg, s);
    assert AsksFor(cfg, s, c);
    var id := FlightOf(s.callers[c]).value;
    assert FlightAsks(cfg, s, id);
    var a, b := s.questions[c].qname, s.flights[id].qname;
    if Names.Stem(a) == "." <==> Names.Stem(b) == "." {
      SameKeySameAnswer(a, b, env, bundle, rs, complete);
    }
  }

  /** What a caller has been answered with, by a flight or from the cache. */
  function AnswerTo(pc: Pc): Option<Payload> {
    match pc
    case Returned(_, v) => Some(v.payload)
    case Served(_, cached) => Some(cached.payload.payload)
    case _ => None
  }

  /** An answer is what the engine made of the outcomes that its flight had received, complete or not. */
  lemma AnswerIsResult(cfg: Config, limits: Limits, assets: nat -> Assets, s: World, c: Caller)
    requires Faithful(cfg, limits, assets) && Reachable(cfg, s) && c in s.callers && AnswerTo(s.callers[c]).Some?
    ensures var id := FlightOf(s.callers[c]).value;
            && id in s.flights && Finished(s.flights[id])
            && var o, p := s.flights[id].phase.origin, AnswerTo(s.callers[c]).value;
               var out := FinalizeSpec(assets(o.version), o.qname, o.rs, o.complete);
               p.rcode == out.rcode && p.addrs == out.addrs && p.soa == out.soa && p.policy == out.policy
  {
    hide Step, FinalizeSpec, Convert, TicksOk, EntriesOk, CoalescedOk, AskedOk;
    InvariantHolds(cfg, s);
    assert CallerOk(cfg, s, s.callers[c], c);
    var id := FlightOf(s.callers[c]).value;
    var o := s.flights[id].phase.origin;
    ServedAsResolved(FinalizeSpec(assets(o.version), o.qname, o.rs, o.complete), limits);
  }

  /**
   What every answered caller gets, told by the outcomes its flight had received, the run being complete or cut
   short: with an answer among them, NOERROR and exactly the addresses that the rules call for on the prefix and
   override lists of that flight's assets; without one, NXDOMAIN or NODATA if that is all that the upstreams
   reported, and SERVFAIL otherwise.
   */
  lemma CallerIsAnswered(cfg: Config, limits: Limits, assets: nat -> Assets, s: World, c: Caller,
                         ps: seq<Prefix>, exact: seq<string>, wildcard: seq<string>)
    requires Faithful(cfg, limits, assets) && Reachable(cfg, s) && c in s.callers && AnswerTo(s.callers[c]).Some?
    ensures var id := FlightOf(s.callers[c]).value;
            && id in s.flights && Finished(s.flights[id])
            && var o, p := s.flights[id].phase.origin, AnswerTo(s.callers[c]).value;
               && (HasAnswer(o.rs) && ChinaList(assets(o.version), ps) && Names.BuiltFrom(assets(o.version).overrides, exact, wildcard) ==>
                     && p.rcode == 0 && p.soa == None && p.policy == Some(DocumentedPolicy(o.rs, ListClass(ps), Names.OnList(exact, wildcard, o.qname)))
                     && NoDuplicates(p.addrs) && forall a :: a in p.addrs <==> Documented(p.policy.value, o.rs, ListClass(ps), a))
               && (!HasAnswer(o.rs) ==>
                     && p.addrs == [] && p.policy == None
                     && (p.rcode == 2 <==> Reported(o.rs, NXDomain) == Reported(o.rs, NoData))
                     && (p.rcode == 3 <==> Reported(o.rs, NXDomain) && !Reported(o.rs, NoData))
                     && (p.rcode == 0 <==> Reported(o.rs, NoData) && !Reported(o.rs, NXDomain)))
  {
    hide Step, FinalizeSpec, Convert, Reachable, ListClass, ChinaList, Names.BuiltFrom;
    AnswerIsResult(cfg, limits, assets, s, c);
    var o := s.flights[FlightOf(s.callers[c]).value].phase.origin;
    if !HasAnswer(o.rs) {
      ServfailExactly(assets(o.version), o.qname, o.rs, o.complete);
    } else if ChinaList(assets(o.version), ps) && Names.BuiltFrom(assets(o.version).overrides, exact, wildcard) {
      ResultFollowsLists(assets(o.version), ps, exact, wildcard, o.qname, o.rs, o.complete);
    }
  }

  // ----- reload

  function VersionIn(s: World, e: C.Entry<Tagged>): nat
    requires e.value.payload.flight in s.flights && Finished(s.flights[e.value.payload.flight])
  {
    s.flights[e.value.payload.flight].phase.origin.version
  }

  /**
   Outside a reload, an entry made with replaced assets comes from a flight that straddled the reload: it
   loaded its assets before they were replaced, and stored its value after the flush that followed.
   */
  lemma StaleEntryStraddled(cfg: Config, s: World, e: C.Entry<Tagged>)
    requires Reachable(cfg, s) && !s.reloading && e in s.entries
    ensures EntryOk(cfg, s, e) && |s.swaps| == s.version
    ensures var w := VersionIn(s, e); var f := s.flights[e.value.payload.flight];
            w < s.version ==> f.loadTick < s.swaps[w] < s.lastFlush < f.putTick
  {
    ReachableEntries(cfg, s);
    ReachableTicks(cfg, s);
    assert EntryOk(cfg, s, e);
    assert LoadOk(s, s.flights[e.value.payload.flight]);
  }

  ghost predicate AtLeast(s: World, e: C.Entry<Tagged>, v: nat) {
    && e.value.payload.flight in s.flights && Finished(s.flights[e.value.payload.flight])
    && VersionIn(s, e) >= v
  }

  ghost predicate NoStaleEntry(s: World, v: nat) {
    forall e :: e in s.entries ==> AtLeast(s, e, v)
  }

  /** Nothing older than version v is cached, or being worked with. */
  ghost predicate NothingOlder(s: World, v: nat) {
    && s.version >= v
    && NoStaleEntry(s, v)
    && (forall f :: f in s.flights && s.flights[f].phase.Loaded? ==> s.flights[f].phase.version >= v)
  }

  lemma EntriesNotOlder(cfg: Config, s: World, m: Move, s': World, v: nat)
    requires Reachable(cfg, s) && NothingOlder(s, v) && Step(cfg, s, m) == Some(s')
    ensures NoStaleEntry(s', v)
  {
    hide Step;
    forall e | e in s'.entries
      ensures AtLeast(s', e, v)
    {
      EntryNotOlder(cfg, s, m, s', v, e);
    }
  }

  lemma EntryNotOlder(cfg: Config, s: World, m: Move, s': World, v: nat, e: C.Entry<Tagged>)
    requires Reachable(cfg, s) && NothingOlder(s, v) && Step(cfg, s, m) == Some(s') && e in s'.entries
    ensures AtLeast(s', e, v)
  {
    hide Step;
    ReachableEntries(cfg, s);
    EntrySource(cfg, s, m, s', e);
    if e in s.entries {
      assert AtLeast(s, e, v);
      OriginStays(cfg, s, m, s', e.value.payload.flight);
    }
  }

  lemma LoadsNotOlder(cfg: Config, s: World, m: Move, s': World, v: nat)
    requires NothingOlder(s, v) && Step(cfg, s, m) == Some(s')
    ensures s'.version >= v
    ensures forall f :: f in s'.flights && s'.flights[f].phase.Loaded? ==> s'.flights[f].phase.version >= v
  {
  }

  // ----- answers given after a reload

  /** The flight has not loaded assets older than version v. */
  ghost predicate YoungFlight(s: World, id: FlightId, v: nat) {
    id in s.flights && (VersionOf(s.flights[id]).Some? ==> VersionOf(s.flights[id]).value >= v)
  }

  /** Nothing older than version v is what the caller leads, waits for, or was answered with. */
  ghost predicate YoungCaller(s: World, pc: Pc, v: nat) {
    match pc
    case Leading(f) => YoungFlight(s, f, v)
    case Waiting(f) => YoungFlight(s, f, v)
    case Served(_, cached) => YoungFlight(s, cached.payload.flight, v)
    case Returned(f, _) => YoungFlight(s, f, v)
    case _ => true
  }

  ghost predicate NewcomersYoung(s: World, before: set<Caller>, v: nat) {
    forall c :: c in s.callers && c !in before ==> YoungCaller(s, s.callers[c], v)
  }

  lemma FlightStaysYoung(cfg: Config, s: World, m: Move, s': World, v: nat, f: FlightId)
    requires s.version >= v && Step(cfg, s, m) == Some(s') && YoungFlight(s, f, v)
    ensures YoungFlight(s', f, v)
  {
    hide C.Puts, C.GetEntries, C.GetResult, C.LiveOnes, WellFormed;
  }

  lemma RegisteredIsYoung(cfg: Config, s: World, k: C.Key, v: nat)
    requires Reachable(cfg, s) && NothingOlder(s, v) && k in s.registered
    ensures YoungFlight(s, s.registered[k], v)
  {
    hide Step;
    ReachableFlights(cfg, s);
    assert SlotOk(s, k);
  }

  lemma HitIsYoung(cfg: Config, s: World, key: C.Key, at: C.Time, v: nat)
    requires NothingOlder(s, v) && C.GetResult(s.entries, key, at).Some?
    ensures YoungFlight(s, C.GetResult(s.entries, key, at).value.payload.flight, v)
  {
    var i := C.Position(s.entries, key);
    assert AtLeast(s, s.entries[i], v);
  }

  lemma CallerStaysYoung(cfg: Config, s: World, m: Move, s': World, v: nat, c: Caller)
    requires Reachable(cfg, s) && NothingOlder(s, v) && Step(cfg, s, m) == Some(s') && c in s'.callers
    requires c in s.callers ==> YoungCaller(s, s.callers[c], v)
    ensures YoungCaller(s', s'.callers[c], v)
  {
    hide Step, C.GetResult, NoStaleEntry;
    CallerTurns(cfg, s, m, s', c);
    var pc := s'.callers[c];
    match pc
    case Served(_, cached) =>
      if !(c in s.callers && s.callers[c] == pc) {
        HitIsYoung(cfg, s, pc.key, m.at, v);
      }
      FlightStaysYoung(cfg, s, m, s', v, cached.payload.flight);
    case Leading(f) =>
      if c in s.callers && s.callers[c] == pc {
        FlightStaysYoung(cfg, s, m, s', v, f);
      }
    case Waiting(f) =>
      if !(c in s.callers && s.callers[c] == pc) {
        RegisteredIsYoung(cfg, s, s.callers[c].key, v);
      }
      FlightStaysYoung(cfg, s, m, s', v, f);
    case Returned(f, _) =>
      if m == Close(f) && f in s.flights && s.flights[f].leader == c && s.flights[f].phase.Published? {
        ReachableFlights(cfg, s);
        assert LedOk(cfg, s, f);
      }
      FlightStaysYoung(cfg, s, m, s', v, f);
    case _ =>
  }

  lemma NewcomersStayYoung(cfg: Config, s: World, m: Move, s': World, v: nat, before: set<Caller>)
    requires Reachable(cfg, s) && NothingOlder(s, v) && Step(cfg, s, m) == Some(s')
    requires NewcomersYoung(s, before, v)
    ensures NewcomersYoung(s', before, v)
  {
    hide Step, NothingOlder;
    forall c | c in s'.callers && c !in before
      ensures YoungCaller(s', s'.callers[c], v)
    {
      CallerStaysYoung(cfg, s, m, s', v, c);
    }
  }

  /**
   In no later state of any run is an entry cached, or a caller that arrived later answered or about to be
   answered, from assets older than those in force now.
   */
  ghost predicate CleanForever(cfg: Config, s: World) {
    forall states, moves :: IsRun(cfg, states, moves) && states[0] == s ==>
      NoStaleEntry(states[|moves|], s.version) && NewcomersYoung(states[|moves|], s.callers.Keys, s.version)
  }

  /** No flight in progress works with replaced assets. */
  ghost predicate NoStraddler(s: World) {
    forall f :: f in s.flights && s.flights[f].phase.Loaded? ==> s.flights[f].phase.version == s.version
  }

  lemma {:induction false} CleanRun(cfg: Config, states: seq<World>, moves: seq<Move>, v: nat, n: nat)
    requires IsRun(cfg, states, moves) && n <= |moves| && Reachable(cfg, states[0]) && NothingOlder(states[0], v)
    ensures Reachable(cfg, states[n]) && NothingOlder(states[n], v) && NewcomersYoung(states[n], states[0].callers.Keys, v)
  {
    hide Step;
    if n > 0 {
      CleanRun(cfg, states, moves, v, n - 1);
      assert Step(cfg, states[n - 1], moves[n - 1]) == Some(states[n - 1 + 1]);
      EntriesNotOlder(cfg, states[n - 1], moves[n - 1], states[n], v);
      LoadsNotOlder(cfg, states[n - 1], moves[n - 1], states[n], v);
      NewcomersStayYoung(cfg, states[n - 1], moves[n - 1], states[n], v, states[0].callers.Keys);
      ReachableNext(cfg, states[n - 1], moves[n - 1], states[n]);
    }
  }

  // ----- the flight that spoils a reload

  function Sample(ttl: U32): Result {
    Result(V4(0), true, [V4(0)], Answer, None, ttl, "")
  }

  function Samples(n: nat, ttl: U32): (rs: seq<Result>)
    ensures |rs| == n && forall r :: r in rs ==> r == Sample(ttl)
  {
    seq(n, i => Sample(ttl))
  }

  /** When every upstream answers with TTL maxTTL, the value is cacheable with that TTL. */
  lemma SamplesCacheable(cfg: Config, limits: Limits, assets: nat -> Assets, o: Origin)
    requires Faithful(cfg, limits, assets) && o.complete && o.rs == Samples(cfg.upstreams, limits.maxTTL)
    ensures WellFormed(o.rs) && cfg.value(o).cacheable && cfg.value(o).ttl == limits.maxTTL
  {
    var bundle := assets(o.version);
    assert o.rs[0] in o.rs;
    AnswerWins(bundle, o.qname, o.rs, true);
    CacheableExactly(bundle, o.qname, o.rs, true, limits);
    var out := FinalizeSpec(bundle, o.qname, o.rs, true);
    var a :| a in out.addrs && OwnerTTL(o.rs, a) == Some(out.ttl);
    OwnedIffListed(o.rs, a);
    var i := OwnerIsFirst(o.rs, a);
    assert o.rs[i] in o.rs;
  }

  /** What a flight in progress does when it publishes a cacheable value at once. */
  lemma PublishCacheable(cfg: Config, s: World, id: FlightId, rs: seq<Result>, es: seq<C.Entry<Tagged>>) returns (m: Move, s': World)
    requires id in s.flights && s.flights[id].phase.Loaded?
    requires WellFormed(rs) && |rs| == cfg.upstreams
    requires var o := Origin(s.flights[id].phase.version, s.flights[id].qname, rs, true);
             && cfg.value(o).cacheable
             && C.Puts(cfg.capacity, s.entries, NewEntry(cfg, id, s.flights[id].key, o, s.clock), es, s.clock, s.clock)
    ensures Step(cfg, s, m) == Some(s')
    ensures s' == AfterPublish(cfg, s, id, s.flights[id], Origin(s.flights[id].phase.version, s.flights[id].qname, rs, true), s.clock, es).(tick := s.tick + 1)
  {
    hide C.Puts, WellFormed;
    var f := s.flights[id];
    var o := Origin(f.phase.version, f.qname, rs, true);
    m := Publish(id, rs, true, s.clock, s.clock, es);
    s' := AfterPublish(cfg, s, id, f, o, s.clock, es).(tick := s.tick + 1);
    assert StoresWell(cfg, s, id, f.key, o, s.clock, s.clock, es);
  }

  /** A flight in progress with loaded assets can publish and store at once. */
  lemma CanStore(cfg: Config, limits: Limits, assets: nat -> Assets, s: World, id: FlightId) returns (m: Move, s': World)
    requires Faithful(cfg, limits, assets) && limits.maxTTL >= 1 && Reachable(cfg, s)
    requires id in s.flights && s.flights[id].phase.Loaded?
    ensures exists e :: e in s'.entries && e.key == s.flights[id].key && e.value.payload.flight == id && C.Live(e, s'.clock)
    ensures id in s'.flights && s'.flights == s.flights[id := s'.flights[id]] && s'.flights[id].key == s.flights[id].key
    ensures s'.flights[id].phase.Published? && s'.flights[id].phase.origin.version == s.flights[id].phase.version
    ensures s'.registered == s.registered - {s.flights[id].key} && s'.callers == s.callers
    ensures Step(cfg, s, m) == Some(s')
  {
    hide Step, FinalizeSpec;
    ReachableEntries(cfg, s);
    var f := s.flights[id];
    var o := Origin(f.phase.version, f.qname, Samples(cfg.upstreams, limits.maxTTL), true);
    SamplesCacheable(cfg, limits, assets, o);
    var e := NewEntry(cfg, id, f.key, o, s.clock);
    var es := C.PutExists(cfg.capacity, s.entries, e, s.clock);
    m, s' := PublishCacheable(cfg, s, id, o.rs, es);
    assert e in s'.entries && C.Live(e, s'.clock);
  }

  /**
   When a reload is safe: right after its flush, no entry made with replaced assets will ever be cached
   again, and no later caller answered from them, if and only if no flight in progress has loaded replaced assets.
   */
  lemma ReloadCleanExactly(cfg: Config, limits: Limits, assets: nat -> Assets, s: World)
    requires Faithful(cfg, limits, assets) && limits.maxTTL >= 1 && Reachable(cfg, s) && s.entries == []
    ensures CleanForever(cfg, s) <==> NoStraddler(s)
  {
    hide Step;
    if NoStraddler(s) {
      forall states, moves | IsRun(cfg, states, moves) && states[0] == s
        ensures NoStaleEntry(states[|moves|], s.version) && NewcomersYoung(states[|moves|], s.callers.Keys, s.version)
      {
        CleanRun(cfg, states, moves, s.version, |moves|);
      }
    } else {
      StraddlerSpoils(cfg, limits, assets, s);
    }
  }

  lemma StraddlerSpoils(cfg: Config, limits: Limits, assets: nat -> Assets, s: World)
    requires Faithful(cfg, limits, assets) && limits.maxTTL >= 1 && Reachable(cfg, s) && !NoStraddler(s)
    ensures !CleanForever(cfg, s)
  {
    hide Step;
    var id :| id in s.flights && s.flights[id].phase.Loaded? && s.flights[id].phase.version != s.version;
    assert s.flights[id].phase.version < s.version by {
      ReachableTicks(cfg, s);
      assert LoadOk(s, s.flights[id]);
    }
    var m, s' := CanStore(cfg, limits, assets, s, id);
    var e :| e in s'.entries && e.value.payload.flight == id;
    assert !AtLeast(s', e, s.version);
    OneMoveRun(cfg, s, m, s');
    assert [s, s'][|[m]|] == s';
  }

  lemma OneMoveRun(cfg: Config, s: World, m: Move, s': World)
    requires Step(cfg, s, m) == Some(s')
    ensures IsRun(cfg, [s, s'], [m])
  {
    hide Step;
  }

  // ----- waiters can be answered

  function MovesLeft(f: Flight): nat {
    match f.phase
    case Running => 3
    case Loaded(_) => 2
    case Published(_) => 1
    case Closed(_) => 0
  }

  lemma LoadMove(cfg: Config, s: World, id: FlightId) returns (m: Move, s': World)
    requires id in s.flights && s.flights[id].phase.Running?
    ensures Step(cfg, s, m) == Some(s') && s'.callers == s.callers && s'.registered == s.registered
    ensures s'.flights == s.flights[id := s.flights[id].(phase := Loaded(s.version), loadTick := s.tick)]
  {
    m := Load(id);
    s' := s.(flights := s.flights[id := s.flights[id].(phase := Loaded(s.version), loadTick := s.tick)], tick := s.tick + 1);
  }

  /** A flight can publish although no upstream has reported: its deadline has passed, and nothing is stored. */
  lemma GiveUpMove(cfg: Config, s: World, id: FlightId) returns (m: Move, s': World)
    requires id in s.flights && s.flights[id].phase.Loaded? && cfg.upstreams >= 1
    requires !cfg.value(Origin(s.flights[id].phase.version, s.flights[id].qname, [], false)).cacheable
    ensures Step(cfg, s, m) == Some(s') && id in s'.flights && s'.flights[id].phase.Published? && s'.callers == s.callers
  {
    hide C.Puts;
    var f := s.flights[id];
    var o := Origin(f.phase.version, f.qname, [], false);
    m := Publish(id, [], false, s.clock, s.clock, s.entries);
    s' := AfterPublish(cfg, s, id, f, o, s.clock, s.entries).(tick := s.tick + 1);
    assert StoresWell(cfg, s, id, f.key, o, s.clock, s.clock, s.entries);
  }

  lemma CloseMove(cfg: Config, s: World, id: FlightId) returns (m: Move, s': World)
    requires id in s.flights && s.flights[id].phase.Published?
    ensures Step(cfg, s, m) == Some(s') && id in s'.flights && s'.flights[id].phase.Closed?
    ensures forall c :: c in s.callers && c != s.flights[id].leader ==> c in s'.callers && s'.callers[c] == s.callers[c]
  {
    var f := s.flights[id];
    m := Close(id);
    s' := s.(flights := s.flights[id := f.(phase := Closed(f.phase.origin))],
             callers := s.callers[f.leader := Returned(id, cfg.value(f.phase.origin))], tick := s.tick + 1);
  }

  lemma WakeMove(cfg: Config, s: World, c: Caller) returns (m: Move, s': World)
    requires c in s.callers && s.callers[c].Waiting? && s.callers[c].flight in s.flights
    requires s.flights[s.callers[c].flight].phase.Closed?
    ensures Step(cfg, s, m) == Some(s') && c in s'.callers && s'.callers[c].Returned? && s'.callers[c].flight == s.callers[c].flight
  {
    var id := s.callers[c].flight;
    m := Wake(c);
    s' := s.(callers := s.callers[c := Returned(id, cfg.value(s.flights[id].phase.origin))], tick := s.tick + 1);
  }

  /** A flight that is not closed can make its next move, and a caller waiting for it goes on waiting. */
  lemma CanAdvance(cfg: Config, limits: Limits, assets: nat -> Assets, s: World, id: FlightId, c: Caller) returns (m: Move, s': World)
    requires Faithful(cfg, limits, assets) && Reachable(cfg, s) && id in s.flights && !s.flights[id].phase.Closed?
    requires c in s.callers && s.callers[c] == Waiting(id)
    ensures Step(cfg, s, m) == Some(s') && id in s'.flights && MovesLeft(s'.flights[id]) + 1 == MovesLeft(s.flights[id])
    ensures c in s'.callers && s'.callers[c] == Waiting(id)
  {
    hide Step, FinalizeSpec, Convert;
    ReachableFlights(cfg, s);
    assert LedOk(cfg, s, id);
    match s.flights[id].phase
    case Running =>
      m, s' := LoadMove(cfg, s, id);
    case Loaded(v) =>
      CacheableExactly(assets(v), s.flights[id].qname, [], false, limits);
      m, s' := GiveUpMove(cfg, s, id);
    case Published(_) =>
      m, s' := CloseMove(cfg, s, id);
  }

  /** From every reachable state a waiting caller can still be answered by its flight, within four moves. */
  lemma {:induction false} WaiterCanReturn(cfg: Config, limits: Limits, assets: nat -> Assets, s: World, c: Caller, id: FlightId) returns (states: seq<World>, moves: seq<Move>)
    requires Faithful(cfg, limits, assets) && Reachable(cfg, s) && c in s.callers && s.callers[c] == Waiting(id) && id in s.flights
    ensures IsRun(cfg, states, moves) && states[0] == s && |moves| == MovesLeft(s.flights[id]) + 1
    ensures var t := states[|moves|]; c in t.callers && t.callers[c].Returned? && t.callers[c].flight == id
    decreases MovesLeft(s.flights[id])
  {
    hide Step;
    if s.flights[id].phase.Closed? {
      var m, s' := WakeMove(cfg, s, c);
      states, moves := [s, s'], [m];
      OneMoveRun(cfg, s, m, s');
    } else {
      var m, s' := CanAdvance(cfg, limits, assets, s, id, c);
      ReachableNext(cfg, s, m, s');
      var rest, more := WaiterCanReturn(cfg, limits, assets, s', c, id);
      states, moves := [s] + rest, [m] + more;
      PrependMove(cfg, s, m, rest, more);
    }
  }

  lemma PrependMove(cfg: Config, s: World, m: Move, rest: seq<World>, more: seq<Move>)
    requires IsRun(cfg, rest, more) && Step(cfg, s, m) == Some(rest[0])
    ensures IsRun(cfg, [s] + rest, [m] + more)
  {
    hide Step;
    var states, moves := [s] + rest, [m] + more;
    forall i | 0 <= i < |moves|
      ensures Step(cfg, states[i], moves[i]) == Some(states[i + 1])
    {
      if i > 0 {
        assert Step(cfg, rest[i - 1], more[i - 1]) == Some(rest[i - 1 + 1]);
      }
    }
  }

  // ----- coalescing is not "once per name"

  /** A lookup on an empty cache misses. */
  lemma MissMove(cfg: Config, s: World, c: Caller, qname: string, qtype: nat) returns (s': World)
    requires Reachable(cfg, s) && s.entries == [] && c !in s.callers
    ensures Reachable(cfg, s')
    ensures s' == s.(callers := s.callers[c := Missed(cfg.key(qname, qtype), qname)],
                     questions := s.questions[c := Question(qname, qtype, s.tick)], tick := s.tick + 1)
  {
    s' := AfterLookUp(cfg, s, c, qname, qtype, s.clock).(tick := s.tick + 1);
    ReachableNext(cfg, s, LookUp(c, qname, qtype, s.clock), s');
  }

  /** Two lookups of one name have both missed; the first leads flight 0, whose engine has loaded the assets. */
  lemma BothCanMiss(cfg: Config, qname: string, qtype: nat, clock: C.Time) returns (s: World)
    ensures var key := cfg.key(qname, qtype);
            && Reachable(cfg, s) && s.registered == map[key := 0] && s.flights.Keys == {0}
            && s.flights[0].key == key && s.flights[0].phase.Loaded? && 1 in s.callers && s.callers[1] == Missed(key, qname)
  {
    hide Step;
    StartReachable(cfg, clock);
    var s1 := MissMove(cfg, Start(clock), 0, qname, qtype);
    var s2 := MissMove(cfg, s1, 1, qname, qtype);
    var s3 := LeadMove(cfg, s2, 0, 0);
    var m;
    m, s := LoadMove(cfg, s3, 0);
    ReachableNext(cfg, s3, m, s);
  }

  /**
   Coalescing does not mean one resolution per miss: two lookups of one name that both miss before either
   of them leads can both resolve it, one after the other, although the first has left a live entry.
   */
  lemma TwoResolutionsPossible(cfg: Config, limits: Limits, assets: nat -> Assets, qname: string, qtype: nat, clock: C.Time) returns (t: World)
    requires Faithful(cfg, limits, assets) && limits.maxTTL >= 1
    ensures Reachable(cfg, t)
    ensures var key := cfg.key(qname, qtype);
            && key in t.registered && t.registered[key] == 1 && HasKey(t, 0, key) && Finished(t.flights[0])
            && exists e :: e in t.entries && e.key == key && e.value.payload.flight == 0 && C.Live(e, t.clock)
  {
    hide Step;
    var s := BothCanMiss(cfg, qname, qtype, clock);
    var m, s' := CanStore(cfg, limits, assets, s, 0);
    ReachableNext(cfg, s, m, s');
    t := LeadMove(cfg, s', 1, 1);
  }
}
