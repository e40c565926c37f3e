/**
 Lookups, coalesced flights, the cache and asset reloads together, as a state machine of atomic steps:
 internal/resolve/service.go (Lookup), internal/cache/flight.go (Do), the asset pointer of
 internal/engine/engine.go, and handleReloads of cmd/chn-resolver/main.go.  Every critical section
 under the cache's mutex is one step, and so is every load or store of the asset pointer and every
 operation on a flight's channel.  All interleavings of any number of callers are runs of this machine.
 */
module Flights {
  import opened Policy
  import opened CacheModel

  type Caller = nat
  type FlightId = nat

  /** How a flight's value came about: the asset version loaded, the leader's question, the outcomes received. */
  datatype Origin = Origin(version: nat, qname: string, rs: seq<Result>, complete: bool)

  /** The fixed part: capacity, number of upstreams, the cache key of a question, and what a resolution yields. */
  datatype Config = Config(capacity: nat, upstreams: nat, key: (string, nat) -> Key, value: Origin -> Converted)

  datatype Phase =
    | Running                        // registered; fn has not loaded the assets yet
    | Loaded(version: nat)           // the engine works with the assets of this version
    | Published(origin: Origin)      // value written, unregistered, stored if cacheable; done not closed yet
    | Closed(origin: Origin)         // done closed

  /** A flight; the ticks say when its leader loaded the assets and when it published. */
  datatype Flight = Flight(key: Key, leader: Caller, qname: string, phase: Phase, loadTick: nat, putTick: nat)

  datatype Pc =
    | Missed(key: Key, qname: string)                  // past Get, before Do
    | Leading(flight: FlightId)
    | Waiting(flight: FlightId)
    | Served(key: Key, cached: Value<Tagged>)          // answered from the cache
    | Returned(flight: FlightId, value: Converted)     // answered by a flight
    | GaveUp                                           // its own context ended

  /** What a caller asked for, and the tick of its `Get`. */
  datatype Question = Question(qname: string, qtype: nat, tick: nat)

  /** A cached payload with the flight that stored it. */
  datatype Tagged = Tagged(payload: Payload, flight: FlightId)

  datatype World = World(
    registered: map<Key, FlightId>,       // Cache.flights
    flights: map<FlightId, Flight>,
    callers: map<Caller, Pc>,
    questions: map<Caller, Question>,
    entries: seq<Entry<Tagged>>,          // Cache.ll
    clock: Time,
    version: nat,                         // Engine.assets
    reloading: bool,                      // between UpdateAssets and Flush
    tick: nat,                            // number of steps so far
    swaps: seq<nat>,                      // swaps[v] = tick at which version v was replaced
    lastFlush: nat)

  function Start(clock: Time): World {
    World(map[], map[], map[], map[], [], clock, 0, false, 1, [], 0)
  }

  predicate Active(f: Flight) {
    f.phase.Running? || f.phase.Loaded?
  }

  predicate Finished(f: Flight) {
    f.phase.Published? || f.phase.Closed?
  }

  // ----- steps

  datatype Move =
    | LookUp(caller: Caller, qname: string, qtype: nat, at: Time)
    | Join(caller: Caller)
    | Lead(caller: Caller, flight: FlightId)
    | Load(flight: FlightId)
    | Publish(flight: FlightId, rs: seq<Result>, complete: bool, at: Time, end: Time, entries: seq<Entry<Tagged>>)
    | Close(flight: FlightId)
    | Wake(caller: Caller)
    | Cancel(caller: Caller)
    | SwapAssets
    | FlushCache
    | SweepCache(at: Time)

  /** `Lookup` up to and including `Cache.Get`: a cached value is served only if its remaining TTL is at least two. */
  function AfterLookUp(cfg: Config, s: World, c: Caller, qname: string, qtype: nat, at: Time): World {
    var key := cfg.key(qname, qtype);
    var hit := GetResult(s.entries, key, at);
    s.(entries := GetEntries(s.entries, key, at), clock := at, questions := s.questions[c := Question(qname, qtype, s.tick)],
       callers := s.callers[c := if hit.Some? && hit.value.ttl > 1 then Served(key, hit.value) else Missed(key, qname)])
  }

  function AfterLead(s: World, c: Caller, id: FlightId, key: Key, qname: string): World {
    s.(registered := s.registered[key := id], callers := s.callers[c := Leading(id)],
       flights := s.flights[id := Flight(key, c, qname, Running, 0, 0)])
  }

  function NewEntry(cfg: Config, id: FlightId, key: Key, o: Origin, at: Time): Entry<Tagged> {
    var c := cfg.value(o);
    Entry(key, Value(Tagged(c.payload, id), c.ttl, Expiry(at, c.ttl)))
  }

  /** Whether the list after publishing is what `setLocked` may leave, or is unchanged if the value is not cacheable. */
  ghost predicate StoresWell(cfg: Config, s: World, id: FlightId, key: Key, o: Origin, at: Time, end: Time, es: seq<Entry<Tagged>>) {
    if cfg.value(o).cacheable then Puts(cfg.capacity, s.entries, NewEntry(cfg, id, key, o, at), es, at, end)
    else es == s.entries
  }

  /** The second critical section of `Do`: write the value, unregister, store it if cacheable. */
  function AfterPublish(cfg: Config, s: World, id: FlightId, f: Flight, o: Origin, end: Time, es: seq<Entry<Tagged>>): World {
    s.(entries := es, clock := end, registered := s.registered - {f.key},
       flights := s.flights[id := f.(phase := Published(o), putTick := s.tick)])
  }

  /** The world after a move, if the move is possible. */
  ghost function Perform(cfg: Config, s: World, m: Move): Option<World> {
    match m
    case LookUp(c, qname, qtype, at) =>
      if c !in s.callers && s.clock <= at then Some(AfterLookUp(cfg, s, c, qname, qtype, at)) else None
    case Join(c) =>
      if c in s.callers && s.callers[c].Missed? && s.callers[c].key in s.registered
      then Some(s.(callers := s.callers[c := Waiting(s.registered[s.callers[c].key])])) else None
    case Lead(c, id) =>
      if c in s.callers && s.callers[c].Missed? && s.callers[c].key !in s.registered && id !in s.flights
      then Some(AfterLead(s, c, id, s.callers[c].key, s.callers[c].qname)) else None
    case Load(id) =>
      if id in s.flights && s.flights[id].phase.Running?
      then Some(s.(flights := s.flights[id := s.flights[id].(phase := Loaded(s.version), loadTick := s.tick)])) else None
    case Publish(id, rs, complete, at, end, es) =>
      if id in s.flights && s.flights[id].phase.Loaded? && s.clock <= at <= end
         && WellFormed(rs) && |rs| <= cfg.upstreams && (complete <==> |rs| == cfg.upstreams)
      then
        var f := s.flights[id];
        var o := Origin(f.phase.version, f.qname, rs, complete);
        if StoresWell(cfg, s, id, f.key, o, at, end, es) then Some(AfterPublish(cfg, s, id, f, o, end, es)) else None
      else None
    case Close(id) =>
      if id in s.flights && s.flights[id].phase.Published?
      then
        var f := s.flights[id];
        Some(s.(flights := s.flights[id := f.(phase := Closed(f.phase.origin))],
                callers := s.callers[f.leader := Returned(id, cfg.value(f.phase.origin))]))
      else None
    case Wake(c) =>
      if c in s.callers && s.callers[c].Waiting? && s.callers[c].flight in s.flights && s.flights[s.callers[c].flight].phase.Closed?
      then
        var id := s.callers[c].flight;
        Some(s.(callers := s.callers[c := Returned(id, cfg.value(s.flights[id].phase.origin))]))
      else None
    case Cancel(c) =>
      if c in s.callers && s.callers[c].Waiting? then Some(s.(callers := s.callers[c := GaveUp])) else None
    case SwapAssets =>
      if s.reloading then None else Some(s.(version := s.version + 1, reloading := true, swaps := s.swaps + [s.tick]))
    case FlushCache =>
      if s.reloading then Some(s.(entries := [], reloading := false, lastFlush := s.tick)) else None
    case SweepCache(at) =>
      if s.clock <= at then Some(s.(entries := LiveOnes(s.entries, at), clock := at)) else None
  }

  /** One step: a possible move, and the tick of the step counter. */
  ghost function Step(cfg: Config, s: World, m: Move): Option<World> {
    var r := Perform(cfg, s, m);
    if r.Some? then Some(r.value.(tick := s.tick + 1)) else None
  }

  ghost predicate IsRun(cfg: Config, states: seq<World>, moves: seq<Move>) {
    |states| == |moves| + 1 && forall i :: 0 <= i < |moves| ==> Step(cfg, states[i], moves[i]) == Some(states[i + 1])
  }

  // ----- singleflight

  /** What is registered under a key is an active flight for that key. */
  ghost predicate SlotOk(s: World, k: Key)
    requires k in s.registered
  {
    s.registered[k] in s.flights && s.flights[s.registered[k]].key == k && Active(s.flights[s.registered[k]])
  }

  /** An active flight is the one registered under its key. */
  ghost predicate ActiveOk(s: World, f: FlightId)
    requires f in s.flights
  {
    Active(s.flights[f]) ==> s.flights[f].key in s.registered && s.registered[s.flights[f].key] == f
  }

  ghost predicate RegistryOk(s: World) {
    && (forall k :: k in s.registered ==> SlotOk(s, k))
    && (forall f :: f in s.flights ==> ActiveOk(s, f))
  }

  /** A flight that is not closed has its leader still leading it; a closed one has returned its value to the leader. */
  ghost predicate LedOk(cfg: Config, s: World, id: FlightId)
    requires id in s.flights
  {
    var f := s.flights[id];
    && f.leader in s.callers
    && s.callers[f.leader] == if f.phase.Closed? then Returned(id, cfg.value(f.phase.origin)) else Leading(id)
  }

  ghost predicate LeadersOk(cfg: Config, s: World) {
    forall f :: f in s.flights ==> LedOk(cfg, s, f)
  }

  /** Who leads, leads its own flight; who waits, waits for a flight that exists; who was answered, got a closed flight's value. */
  ghost predicate CallerOk(cfg: Config, s: World, pc: Pc, c: Caller) {
    match pc
    case Leading(f) => f in s.flights && s.flights[f].leader == c
    case Waiting(f) => f in s.flights
    case Returned(f, v) => f in s.flights && s.flights[f].phase.Closed? && v == cfg.value(s.flights[f].phase.origin)
    case _ => true
  }

  ghost predicate CallersOk(cfg: Config, s: World) {
    forall c :: c in s.callers ==> CallerOk(cfg, s, s.callers[c], c)
  }

  ghost predicate FlightsOk(cfg: Config, s: World) {
    RegistryOk(s) && LeadersOk(cfg, s) && CallersOk(cfg, s)
  }

  lemma SlotKept(cfg: Config, s: World, m: Move, s': World, k: Key)
    requires RegistryOk(s) && Step(cfg, s, m) == Some(s') && k in s'.registered
    ensures SlotOk(s', k)
  {
    hide Puts, GetEntries, GetResult, LiveOnes, WellFormed;
    assert k in s.registered ==> SlotOk(s, k);
  }

  lemma ActiveKept(cfg: Config, s: World, m: Move, s': World, f: FlightId)
    requires RegistryOk(s) && Step(cfg, s, m) == Some(s') && f in s'.flights
    ensures ActiveOk(s', f)
  {
    hide Puts, GetEntries, GetResult, LiveOnes, WellFormed;
    assert f in s.flights ==> ActiveOk(s, f);
    if m.Publish? {
      assert ActiveOk(s, m.flight);
    }
  }

  lemma LedKept(cfg: Config, s: World, m: Move, s': World, f: FlightId)
    requires f in s.flights ==> LedOk(cfg, s, f)
    requires m.Close? && m.flight in s.flights ==> LedOk(cfg, s, m.flight)
    requires Step(cfg, s, m) == Some(s') && f in s'.flights
    ensures LedOk(cfg, s', f)
  {
    hide Puts, GetEntries, GetResult, LiveOnes, WellFormed;
  }

  lemma CallerKept(cfg: Config, s: World, m: Move, s': World, c: Caller)
    requires forall k :: k in s.registered ==> SlotOk(s, k)
    requires c in s.callers ==> CallerOk(cfg, s, s.callers[c], c)
    requires Step(cfg, s, m) == Some(s') && c in s'.callers
    ensures CallerOk(cfg, s', s'.callers[c], c)
  {
    hide Puts, GetEntries, GetResult, LiveOnes, WellFormed;
  }

  lemma FlightsKept(cfg: Config, s: World, m: Move, s': World)
    requires FlightsOk(cfg, s) && Step(cfg, s, m) == Some(s')
    ensures FlightsOk(cfg, s')
  {
    hide Step;
    forall k | k in s'.registered
      ensures SlotOk(s', k)
    {
      SlotKept(cfg, s, m, s', k);
    }
    forall f | f in s'.flights
      ensures ActiveOk(s', f)
    {
      ActiveKept(cfg, s, m, s', f);
    }
    forall f | f in s'.flights
      ensures LedOk(cfg, s', f)
    {
      LedKept(cfg, s, m, s', f);
    }
    forall c | c in s'.callers
      ensures CallerOk(cfg, s', s'.callers[c], c)
    {
      CallerKept(cfg, s, m, s', c);
    }
  }

  // ----- what the cache holds

  /** The asset version a flight works with or has worked with. */
  function VersionOf(f: Flight): Option<nat> {
    match f.phase
    case Running => None
    case Loaded(v) => Some(v)
    case Published(o) => Some(o.version)
    case Closed(o) => Some(o.version)
  }

  /**
   An entry holds the value of a finished, cacheable, complete flight for its key that published after the
   last flush, and has at most its TTL left to live.
   */
  ghost predicate EntryOk(cfg: Config, s: World, e: Entry<Tagged>) {
    && e.value.payload.flight in s.flights
    && var f := s.flights[e.value.payload.flight];
       && Finished(f) && f.key == e.key && f.putTick > s.lastFlush && f.phase.origin.qname == f.qname
       && WellFormed(f.phase.origin.rs) && |f.phase.origin.rs| <= cfg.upstreams
       && (f.phase.origin.complete <==> |f.phase.origin.rs| == cfg.upstreams)
       && cfg.value(f.phase.origin).cacheable
       && e.value.payload.payload == cfg.value(f.phase.origin).payload
       && e.value.ttl == cfg.value(f.phase.origin).ttl && e.value.expires <= s.clock + e.value.ttl * SECOND
  }

  ghost predicate EntriesOk(cfg: Config, s: World) {
    && DistinctKeys(s.entries) && |s.entries| <= cfg.capacity
    && forall e :: e in s.entries ==> EntryOk(cfg, s, e)
  }

  /** Assets were replaced once per version, and the cache was flushed after every replacement but one in progress. */
  ghost predicate SwapsOk(s: World) {
    && s.lastFlush < s.tick && |s.swaps| == s.version
    && forall v :: 0 <= v < |s.swaps| ==> s.swaps[v] < s.tick && ((s.reloading && v == s.version - 1) || s.swaps[v] < s.lastFlush)
  }

  /** A flight with old assets loaded them before they were replaced. */
  ghost predicate LoadOk(s: World, f: Flight)
    requires |s.swaps| == s.version
  {
    && (VersionOf(f).Some? ==>
          var v := VersionOf(f).value;
          v <= s.version && f.loadTick < s.tick && (v < s.version ==> f.loadTick < s.swaps[v]))
    && (Finished(f) ==> f.putTick < s.tick)
  }

  ghost predicate TicksOk(s: World) {
    SwapsOk(s) && forall f :: f in s.flights ==> LoadOk(s, s.flights[f])
  }

  lemma SwapsKept(cfg: Config, s: World, m: Move, s': World)
    requires SwapsOk(s) && Step(cfg, s, m) == Some(s')
    ensures SwapsOk(s') && s.tick < s'.tick && s.swaps <= s'.swaps && s.lastFlush <= s'.lastFlush
  {
    hide Puts, GetEntries, GetResult, LiveOnes, WellFormed;
  }

  lemma LoadKept(cfg: Config, s: World, m: Move, s': World, f: FlightId)
    requires SwapsOk(s) && SwapsOk(s') && s.swaps <= s'.swaps && Step(cfg, s, m) == Some(s') && f in s'.flights
    requires f in s.flights ==> LoadOk(s, s.flights[f])
    ensures LoadOk(s', s'.flights[f])
  {
    hide Puts, GetEntries, GetResult, LiveOnes, WellFormed;
  }

  lemma TicksKept(cfg: Config, s: World, m: Move, s': World)
    requires TicksOk(s) && Step(cfg, s, m) == Some(s')
    ensures TicksOk(s')
  {
    hide Step;
    SwapsKept(cfg, s, m, s');
    forall f | f in s'.flights
      ensures LoadOk(s', s'.flights[f])
    {
      LoadKept(cfg, s, m, s', f);
    }
  }

  /** An entry stays accounted for: finished flights never change their origin. */
  lemma EntryStays(cfg: Config, s: World, m: Move, s': World, e: Entry<Tagged>)
    requires EntryOk(cfg, s, e) && Step(cfg, s, m) == Some(s') && e in s'.entries
    ensures EntryOk(cfg, s', e)
  {
    hide Puts, GetEntries, GetResult, LiveOnes, WellFormed;
  }

  lemma PublishedEntryOk(cfg: Config, s: World, m: Move, s': World)
    requires TicksOk(s) && m.Publish? && Step(cfg, s, m) == Some(s')
    ensures var f := s.flights[m.flight]; var o := Origin(f.phase.version, f.qname, m.rs, m.complete);
            cfg.value(o).cacheable ==> EntryOk(cfg, s', NewEntry(cfg, m.flight, f.key, o, m.at))
  {
  }

  lemma EntriesKept(cfg: Config, s: World, m: Move, s': World)
    requires EntriesOk(cfg, s) && TicksOk(s) && Step(cfg, s, m) == Some(s')
    ensures EntriesOk(cfg, s')
  {
    hide Step;
    var added := NewlyStored(cfg, s, m, s');
    forall e | e in s'.entries
      ensures EntryOk(cfg, s', e)
    {
      if e in s.entries {
        EntryStays(cfg, s, m, s', e);
      }
    }
  }

  /** The only entry a step can add is that of a publishing flight. */
  lemma NewlyStored(cfg: Config, s: World, m: Move, s': World) returns (added: set<Entry<Tagged>>)
    requires EntriesOk(cfg, s) && TicksOk(s) && Step(cfg, s, m) == Some(s')
    ensures forall e :: e in s'.entries ==> e in s.entries || e in added
    ensures forall e :: e in added ==> EntryOk(cfg, s', e)
    ensures DistinctKeys(s'.entries) && |s'.entries| <= cfg.capacity
  {
    added := {};
    match m
    case LookUp(_, qname, qtype, at) => GetMembers(s.entries, cfg.key(qname, qtype), at);
    case SweepCache(at) => LiveOnesMembers(s.entries, at);
    case Publish(id, rs, complete, at, end, es) =>
      var f := s.flights[id];
      var o := Origin(f.phase.version, f.qname, rs, complete);
      if cfg.value(o).cacheable {
        added := {NewEntry(cfg, id, f.key, o, at)};
        PublishedEntryOk(cfg, s, m, s');
        PutMembers(cfg.capacity, s.entries, NewEntry(cfg, id, f.key, o, at), es, at, end);
      }
    case _ =>
  }

  /** What was served from the cache: a value with at least two seconds left, made by a cacheable flight for the key. */
  ghost predicate ServedWell(cfg: Config, s: World, key: Key, cached: Value<Tagged>) {
    && cached.ttl >= 2
    && cached.payload.flight in s.flights
    && var f := s.flights[cached.payload.flight];
       && Finished(f) && f.key == key && cfg.value(f.phase.origin).cacheable
       && cached.payload.payload == cfg.value(f.phase.origin).payload
  }

  ghost predicate ServedOk(cfg: Config, s: World) {
    forall c :: c in s.callers && s.callers[c].Served? ==> ServedWell(cfg, s, s.callers[c].key, s.callers[c].cached)
  }

  /** A hit of at least two seconds serves what a cacheable flight has stored. */
  lemma HitServes(cfg: Config, s: World, key: Key, at: Time)
    requires EntriesOk(cfg, s) && GetResult(s.entries, key, at).Some? && GetResult(s.entries, key, at).value.ttl > 1
    ensures ServedWell(cfg, s, key, GetResult(s.entries, key, at).value)
  {
    var i := Position(s.entries, key);
    assert s.entries[i] in s.entries;
    assert EntryOk(cfg, s, s.entries[i]);
  }

  lemma ServedStays(cfg: Config, s: World, m: Move, s': World, key: Key, cached: Value<Tagged>)
    requires ServedWell(cfg, s, key, cached) && Step(cfg, s, m) == Some(s')
    ensures ServedWell(cfg, s', key, cached)
  {
    hide Step;
    OriginStays(cfg, s, m, s', cached.payload.flight);
  }

  lemma ServedKept(cfg: Config, s: World, m: Move, s': World)
    requires ServedOk(cfg, s) && EntriesOk(cfg, s) && Step(cfg, s, m) == Some(s')
    ensures ServedOk(cfg, s')
  {
    hide Step, GetResult;
    forall c | c in s'.callers && s'.callers[c].Served?
      ensures ServedWell(cfg, s', s'.callers[c].key, s'.callers[c].cached)
    {
      CallerTurns(cfg, s, m, s', c);
      if c in s.callers && s.callers[c] == s'.callers[c] {
        ServedStays(cfg, s, m, s', s'.callers[c].key, s'.callers[c].cached);
      } else {
        HitServes(cfg, s, s'.callers[c].key, m.at);
      }
    }
  }

  // ----- who asked for what

  function KeyOf(cfg: Config, q: Question): Key {
    cfg.key(q.qname, q.qtype)
  }

  /** A caller's state is about its own question: every flight it deals with has the key it asked for. */
  ghost predicate AsksFor(cfg: Config, s: World, c: Caller)
    requires c in s.callers
  {
    && c in s.questions && s.questions[c].tick < s.tick
    && var key := KeyOf(cfg, s.questions[c]);
       match s.callers[c]
       case Missed(k, qname) => k == key && qname == s.questions[c].qname
       case Leading(f) => HasKey(s, f, key)
       case Waiting(f) => HasKey(s, f, key)
       case Returned(f, _) => HasKey(s, f, key)
       case Served(k, cached) =>
         k == key && HasKey(s, cached.payload.flight, key) && s.flights[cached.payload.flight].putTick < s.questions[c].tick
                  && Finished(s.flights[cached.payload.flight])
       case GaveUp => true
  }

  predicate HasKey(s: World, f: FlightId, key: Key) {
    f in s.flights && s.flights[f].key == key
  }

  /** A flight resolves its leader's question. */
  ghost predicate FlightAsks(cfg: Config, s: World, f: FlightId)
    requires f in s.flights
  {
    && s.flights[f].leader in s.questions
    && var q := s.questions[s.flights[f].leader];
       s.flights[f].qname == q.qname && s.flights[f].key == KeyOf(cfg, q)
  }

  ghost predicate AskedOk(cfg: Config, s: World) {
    && s.questions.Keys == s.callers.Keys
    && (forall c :: c in s.callers ==> AsksFor(cfg, s, c))
    && (forall f :: f in s.flights ==> FlightAsks(cfg, s, f))
  }

  /** Questions are asked once, by a lookup, and stay. */
  lemma QuestionsKept(cfg: Config, s: World, m: Move, s': World)
    requires s.questions.Keys == s.callers.Keys && LeadersOk(cfg, s) && Step(cfg, s, m) == Some(s')
    ensures s'.questions.Keys == s'.callers.Keys
    ensures forall c :: c in s.callers ==> c in s'.callers && s'.questions[c] == s.questions[c]
    ensures forall c :: c in s'.callers && c !in s.callers ==>
              m.LookUp? && c == m.caller && s'.questions[c] == Question(m.qname, m.qtype, s.tick)
  {
    hide Puts, GetEntries, GetResult, LiveOnes, WellFormed;
    if m.Close? {
      assert LedOk(cfg, s, m.flight);
    }
  }

  /** What a caller turns to in one step: nothing new, a cached value, a registered or new flight, or its own flight's value. */
  ghost predicate TurnedTo(cfg: Config, s: World, m: Move, s': World, c: Caller)
    requires c in s'.callers
  {
    match s'.callers[c]
    case Missed(k, qname) => m.LookUp? && c == m.caller && c !in s.callers && k == cfg.key(m.qname, m.qtype) && qname == m.qname
    case Served(k, cached) =>
      && m.LookUp? && c == m.caller && c !in s.callers && k == cfg.key(m.qname, m.qtype) && s'.flights == s.flights && s'.clock == m.at
      && var hit := GetResult(s.entries, k, m.at); hit.Some? && hit.value.ttl > 1 && cached == hit.value
    case Leading(f) =>
      && c in s.callers && s.callers[c].Missed? && f !in s.flights && f in s'.flights
      && s'.flights[f] == Flight(s.callers[c].key, c, s.callers[c].qname, Running, 0, 0)
    case Waiting(f) =>
      c in s.callers && s.callers[c].Missed? && s.callers[c].key in s.registered && s.registered[s.callers[c].key] == f
    case Returned(f, _) =>
      || (c in s.callers && s.callers[c] == Waiting(f))
      || (m == Close(f) && f in s.flights && s.flights[f].phase.Published? && s.flights[f].leader == c)
    case GaveUp => c in s.callers && s.callers[c].Waiting?
  }

  lemma CallerTurns(cfg: Config, s: World, m: Move, s': World, c: Caller)
    requires Step(cfg, s, m) == Some(s') && c in s'.callers
    ensures (c in s.callers && s'.callers[c] == s.callers[c]) || TurnedTo(cfg, s, m, s', c)
  {
    hide Puts, GetEntries, GetResult, LiveOnes, WellFormed;
  }

  /** A flight keeps its key, leader and question, and new flights are led. */
  lemma FlightTurns(cfg: Config, s: World, m: Move, s': World, f: FlightId)
    requires Step(cfg, s, m) == Some(s') && f in s'.flights
    ensures f in s.flights ==>
              s'.flights[f].key == s.flights[f].key && s'.flights[f].leader == s.flights[f].leader && s'.flights[f].qname == s.flights[f].qname
    ensures f !in s.flights ==>
              && m.Lead? && f == m.flight && m.caller in s.callers && s.callers[m.caller].Missed?
              && s'.flights[f] == Flight(s.callers[m.caller].key, m.caller, s.callers[m.caller].qname, Running, 0, 0)
  {
    hide Puts, GetEntries, GetResult, LiveOnes, WellFormed;
  }

  lemma FlightsStay(cfg: Config, s: World, m: Move, s': World, f: FlightId)
    requires Step(cfg, s, m) == Some(s') && f in s.flights
    ensures f in s'.flights && s'.flights[f].key == s.flights[f].key && s.tick < s'.tick
    ensures Finished(s.flights[f]) ==> Finished(s'.flights[f]) && s'.flights[f].putTick == s.flights[f].putTick
  {
    hide Puts, GetEntries, GetResult, LiveOnes, WellFormed;
  }

  /** A hit of at least two seconds serves what a cacheable flight has stored. */
  lemma HitFlight(cfg: Config, s: World, key: Key, at: Time)
    requires EntriesOk(cfg, s) && TicksOk(s) && GetResult(s.entries, key, at).Some?
    ensures var id := GetResult(s.entries, key, at).value.payload.flight;
            HasKey(s, id, key) && Finished(s.flights[id]) && s.flights[id].putTick < s.tick
  {
    var i := Position(s.entries, key);
    assert s.entries[i] in s.entries;
    assert EntryOk(cfg, s, s.entries[i]);
    assert LoadOk(s, s.flights[s.entries[i].value.payload.flight]);
  }

  lemma AsksStay(cfg: Config, s: World, m: Move, s': World, c: Caller)
    requires Step(cfg, s, m) == Some(s') && c in s.callers && AsksFor(cfg, s, c)
    requires c in s'.callers && s'.callers[c] == s.callers[c] && c in s'.questions && s'.questions[c] == s.questions[c]
    ensures AsksFor(cfg, s', c)
  {
    hide Step, KeyOf;
    StepTicks(cfg, s, m, s');
    match s.callers[c]
    case Leading(f) => FlightsStay(cfg, s, m, s', f);
    case Waiting(f) => FlightsStay(cfg, s, m, s', f);
    case Returned(f, _) => FlightsStay(cfg, s, m, s', f);
    case Served(_, cached) => FlightsStay(cfg, s, m, s', cached.payload.flight);
    case _ =>
  }

  lemma AsksTurn(cfg: Config, s: World, m: Move, s': World, c: Caller)
    requires FlightsOk(cfg, s) && TicksOk(s) && EntriesOk(cfg, s) && Step(cfg, s, m) == Some(s')
    requires c in s'.callers && TurnedTo(cfg, s, m, s', c) && c in s'.questions
    requires c in s.callers ==> AsksFor(cfg, s, c) && s'.questions[c] == s.questions[c]
    requires c !in s.callers ==> m.LookUp? && c == m.caller && s'.questions[c] == Question(m.qname, m.qtype, s.tick)
    ensures AsksFor(cfg, s', c)
  {
    hide Step, GetResult, TicksOk, EntriesOk, CallersOk;
    StepTicks(cfg, s, m, s');
    match s'.callers[c]
    case Served(k, _) => HitFlight(cfg, s, k, m.at);
    case Waiting(f) =>
      assert SlotOk(s, s.callers[c].key);
      FlightsStay(cfg, s, m, s', f);
    case Returned(f, _) =>
      if m == Close(f) && f in s.flights && s.flights[f].phase.Published? && s.flights[f].leader == c {
        assert LedOk(cfg, s, f);
      }
      FlightsStay(cfg, s, m, s', f);
    case _ =>
  }

  lemma StepTicks(cfg: Config, s: World, m: Move, s': World)
    requires Step(cfg, s, m) == Some(s')
    ensures s'.tick == s.tick + 1 && s.clock <= s'.clock
  {
    hide Puts, GetEntries, GetResult, LiveOnes, WellFormed;
  }

  lemma AskedKept(cfg: Config, s: World, m: Move, s': World)
    requires FlightsOk(cfg, s) && TicksOk(s) && EntriesOk(cfg, s) && AskedOk(cfg, s) && Step(cfg, s, m) == Some(s')
    ensures AskedOk(cfg, s')
  {
    hide Step, TicksOk, EntriesOk;
    QuestionsKept(cfg, s, m, s');
    forall c | c in s'.callers
      ensures AsksFor(cfg, s', c)
    {
      CallerTurns(cfg, s, m, s', c);
      assert c in s.callers ==> AsksFor(cfg, s, c);
      if c in s.callers && s'.callers[c] == s.callers[c] {
        AsksStay(cfg, s, m, s', c);
      } else {
        AsksTurn(cfg, s, m, s', c);
      }
    }
    forall f | f in s'.flights
      ensures FlightAsks(cfg, s', f)
    {
      FlightTurns(cfg, s, m, s', f);
      if f in s.flights {
        assert FlightAsks(cfg, s, f);
      } else {
        assert AsksFor(cfg, s, m.caller);
      }
    }
  }

  // ----- a stored answer serves every later lookup

  /** A `Get` at this time would serve the entry: more than one second is left. */
  predicate Servable(e: Entry<Tagged>, at: Time) {
    e.value.expires - at > SECOND
  }

  predicate ServedBy(s: World, c: Caller, f: FlightId) {
    c in s.callers && s.callers[c].Served? && s.callers[c].cached.payload.flight == f
  }

  /** An entry for the caller's key was stored after its `Get`, or can no longer be served, or has served it. */
  ghost predicate Accounted(cfg: Config, s: World, c: Caller, e: Entry<Tagged>)
    requires c in s.questions && e.value.payload.flight in s.flights
  {
    e.key == KeyOf(cfg, s.questions[c]) ==>
      || s.questions[c].tick < s.flights[e.value.payload.flight].putTick
      || !Servable(e, s.clock)
      || ServedBy(s, c, e.value.payload.flight)
  }

  ghost predicate CoalescedOk(cfg: Config, s: World) {
    forall c, e :: c in s.callers && e in s.entries ==>
      c in s.questions && e.value.payload.flight in s.flights && Accounted(cfg, s, c, e)
  }

  /** `Get` serves exactly the servable entries. */
  lemma ServableIsServed(cfg: Config, s: World, e: Entry<Tagged>, at: Time)
    requires EntriesOk(cfg, s) && e in s.entries && s.clock <= at
    ensures var hit := GetResult(s.entries, e.key, at);
            && (hit.Some? && hit.value.ttl > 1 <==> Servable(e, at))
            && (hit.Some? ==> hit.value.payload == e.value.payload)
  {
    var i :| 0 <= i < |s.entries| && s.entries[i] == e;
    assert Position(s.entries, e.key) == i;
    assert EntryOk(cfg, s, e);
    if e.value.expires > at {
      ServedTTLIsCeiling(e.value.expires, at, e.value.ttl);
    }
  }

  lemma AccountedKept(cfg: Config, s: World, m: Move, s': World, c: Caller, e: Entry<Tagged>)
    requires FlightsOk(cfg, s) && TicksOk(s) && EntriesOk(cfg, s) && AskedOk(cfg, s) && CoalescedOk(cfg, s)
    requires Step(cfg, s, m) == Some(s') && c in s'.callers && e in s'.entries
    ensures c in s'.questions && e.value.payload.flight in s'.flights && Accounted(cfg, s', c, e)
  {
    hide Step, GetResult, TicksOk, EntriesOk, FlightsOk, Servable;
    var f := e.value.payload.flight;
    assert LeadersOk(cfg, s) by { FlightsParts(cfg, s); }
    QuestionsKept(cfg, s, m, s');
    StepTicks(cfg, s, m, s');
    EntrySource(cfg, s, m, s', e);
    if e in s.entries {
      EntryFlight(cfg, s, e);
      FlightsStay(cfg, s, m, s', f);
      if c in s.callers {
        assert Accounted(cfg, s, c, e);
        ServableEarlier(e, s.clock, s'.clock);
        if s.callers[c].Served? {
          ServedStaysServed(cfg, s, m, s', c);
        }
      } else {
        if e.key == KeyOf(cfg, s'.questions[c]) {
          NewCallerServed(cfg, s, m, s', c, e);
        }
      }
    } else if c in s.callers {
      assert AsksFor(cfg, s, c);
    }
  }

  lemma FlightsParts(cfg: Config, s: World)
    requires FlightsOk(cfg, s)
    ensures RegistryOk(s) && LeadersOk(cfg, s) && CallersOk(cfg, s)
  {
  }

  lemma ServableEarlier(e: Entry<Tagged>, at: Time, later: Time)
    requires at <= later
    ensures Servable(e, later) ==> Servable(e, at)
  {
  }

  lemma EntryFlight(cfg: Config, s: World, e: Entry<Tagged>)
    requires EntriesOk(cfg, s) && e in s.entries
    ensures HasKey(s, e.value.payload.flight, e.key) && Finished(s.flights[e.value.payload.flight])
  {
    assert EntryOk(cfg, s, e);
  }

  lemma ServedStaysServed(cfg: Config, s: World, m: Move, s': World, c: Caller)
    requires LeadersOk(cfg, s) && Step(cfg, s, m) == Some(s') && c in s.callers && s.callers[c].Served?
    ensures c in s'.callers && s'.callers[c] == s.callers[c]
  {
    hide Puts, GetEntries, GetResult, LiveOnes, WellFormed;
    if m.Close? {
      assert LedOk(cfg, s, m.flight);
    }
  }

  /** A new caller is served by a servable entry for its key. */
  lemma NewCallerServed(cfg: Config, s: World, m: Move, s': World, c: Caller, e: Entry<Tagged>)
    requires EntriesOk(cfg, s) && Step(cfg, s, m) == Some(s') && e in s.entries
    requires m.LookUp? && c == m.caller && c !in s.callers && e.key == cfg.key(m.qname, m.qtype)
    ensures !Servable(e, s'.clock) || ServedBy(s', c, e.value.payload.flight)
  {
    hide Puts, GetEntries, LiveOnes, WellFormed, GetResult, EntriesOk, Servable;
    ServableIsServed(cfg, s, e, m.at);
  }

  lemma CoalescedKept(cfg: Config, s: World, m: Move, s': World)
    requires FlightsOk(cfg, s) && TicksOk(s) && EntriesOk(cfg, s) && AskedOk(cfg, s) && CoalescedOk(cfg, s)
    requires Step(cfg, s, m) == Some(s')
    ensures CoalescedOk(cfg, s')
  {
    hide Step, FlightsOk, TicksOk, EntriesOk, AskedOk;
    forall c, e | c in s'.callers && e in s'.entries
      ensures c in s'.questions && e.value.payload.flight in s'.flights && Accounted(cfg, s', c, e)
    {
      AccountedKept(cfg, s, m, s', c, e);
    }
  }

  /** An entry found after a step was there before it, or was stored by the flight that published in it. */
  lemma EntrySource(cfg: Config, s: World, m: Move, s': World, e: Entry<Tagged>)
    requires EntriesOk(cfg, s) && Step(cfg, s, m) == Some(s') && e in s'.entries
    ensures var id := e.value.payload.flight;
            || e in s.entries
            || (&& m.Publish? && m.flight == id && s'.callers == s.callers
                && id in s.flights && s.flights[id].phase.Loaded? && id in s'.flights && Finished(s'.flights[id])
                && s'.flights[id].phase.origin.version == s.flights[id].phase.version && s'.flights[id].putTick == s.tick)
  {
    match m
    case LookUp(_, qname, qtype, at) => GetMembers(s.entries, cfg.key(qname, qtype), at);
    case SweepCache(at) => LiveOnesMembers(s.entries, at);
    case Publish(id, rs, complete, at, end, es) =>
      var f := s.flights[id];
      var o := Origin(f.phase.version, f.qname, rs, complete);
      if cfg.value(o).cacheable {
        PutMembers(cfg.capacity, s.entries, NewEntry(cfg, id, f.key, o, at), es, at, end);
      }
    case _ =>
  }

  // ----- all reachable states

  ghost predicate ReachableIn(cfg: Config, s: World, n: nat)
    decreases n
  {
    if n == 0 then exists clock :: s == Start(clock)
    else exists r, m :: ReachableIn(cfg, r, n - 1) && Step(cfg, r, m) == Some(s)
  }

  ghost predicate Reachable(cfg: Config, s: World) {
    exists n: nat :: ReachableIn(cfg, s, n)
  }

  /** What every step keeps. */
  ghost predicate Invariant(cfg: Config, s: World) {
    FlightsOk(cfg, s) && TicksOk(s) && EntriesOk(cfg, s) && ServedOk(cfg, s) && AskedOk(cfg, s) && CoalescedOk(cfg, s)
  }

  lemma InvariantKept(cfg: Config, s: World, m: Move, s': World)
    requires Invariant(cfg, s) && Step(cfg, s, m) == Some(s')
    ensures Invariant(cfg, s')
  {
    hide Step, FlightsOk, TicksOk, EntriesOk, ServedOk, AskedOk, CoalescedOk;
    FlightsKept(cfg, s, m, s');
    TicksKept(cfg, s, m, s');
    EntriesKept(cfg, s, m, s');
    ServedKept(cfg, s, m, s');
    AskedKept(cfg, s, m, s');
    CoalescedKept(cfg, s, m, s');
  }

  lemma {:induction false} ReachableInvariant(cfg: Config, s: World, n: nat)
    requires ReachableIn(cfg, s, n)
    ensures Invariant(cfg, s)
    decreases n
  {
    hide Step;
    if n > 0 {
      var r, m :| ReachableIn(cfg, r, n - 1) && Step(cfg, r, m) == Some(s);
      ReachableInvariant(cfg, r, n - 1);
      InvariantKept(cfg, r, m, s);
    }
  }

  lemma InvariantHolds(cfg: Config, s: World)
    requires Reachable(cfg, s)
    ensures Invariant(cfg, s)
  {
    var n: nat :| ReachableIn(cfg, s, n);
    ReachableInvariant(cfg, s, n);
  }

  lemma ReachableFlights(cfg: Config, s: World)
    requires Reachable(cfg, s)
    ensures FlightsOk(cfg, s)
  {
    InvariantHolds(cfg, s);
  }

  lemma ReachableTicks(cfg: Config, s: World)
    requires Reachable(cfg, s)
    ensures TicksOk(s)
  {
    InvariantHolds(cfg, s);
  }

  lemma ReachableEntries(cfg: Config, s: World)
    requires Reachable(cfg, s)
    ensures EntriesOk(cfg, s)
  {
    InvariantHolds(cfg, s);
  }

  lemma ReachableServed(cfg: Config, s: World)
    requires Reachable(cfg, s)
    ensures ServedOk(cfg, s)
  {
    InvariantHolds(cfg, s);
  }

  lemma ReachableAsked(cfg: Config, s: World)
    requires Reachable(cfg, s)
    ensures AskedOk(cfg, s)
  {
    InvariantHolds(cfg, s);
  }

  lemma StartReachable(cfg: Config, clock: Time)
    ensures Reachable(cfg, Start(clock))
  {
    assert ReachableIn(cfg, Start(clock), 0);
  }

  lemma ReachableNext(cfg: Config, s: World, m: Move, s': World)
    requires Reachable(cfg, s) && Step(cfg, s, m) == Some(s')
    ensures Reachable(cfg, s')
  {
    hide Step;
    var n: nat :| ReachableIn(cfg, s, n);
    assert ReachableIn(cfg, s', n + 1);
  }

  lemma LeadMove(cfg: Config, s: World, c: Caller, id: FlightId) returns (s': World)
    requires Reachable(cfg, s) && c in s.callers && s.callers[c].Missed? && s.callers[c].key !in s.registered && id !in s.flights
    ensures Step(cfg, s, Lead(c, id)) == Some(s') && Reachable(cfg, s')
    ensures s' == AfterLead(s, c, id, s.callers[c].key, s.callers[c].qname).(tick := s.tick + 1)
  {
    s' := AfterLead(s, c, id, s.callers[c].key, s.callers[c].qname).(tick := s.tick + 1);
    ReachableNext(cfg, s, Lead(c, id), s');
  }

  /** The states of a run from a reachable state are reachable. */
  lemma {:induction false} RunReachable(cfg: Config, states: seq<World>, moves: seq<Move>, n: nat)
    requires IsRun(cfg, states, moves) && Reachable(cfg, states[0]) && n <= |moves|
    ensures Reachable(cfg, states[n])
  {
    hide Step;
    if n > 0 {
      RunReachable(cfg, states, moves, n - 1);
      assert Step(cfg, states[n - 1], moves[n - 1]) == Some(states[n - 1 + 1]);
      ReachableNext(cfg, states[n - 1], moves[n - 1], states[n]);
    }
  }

  // ----- when a lookup goes to the upstreams

  /**
   A servable entry for a caller's key has served that caller if and only if it was stored before the caller's
   `Get`: lookups that come after the store hit no upstream while the entry can be served.
   */
  lemma StoredAnswerServes(cfg: Config, s: World, c: Caller, e: Entry<Tagged>)
    requires Reachable(cfg, s) && c in s.callers && e in s.entries
    ensures c in s.questions && e.value.payload.flight in s.flights
    ensures e.key == KeyOf(cfg, s.questions[c]) && Servable(e, s.clock) ==>
              && s.questions[c].tick != s.flights[e.value.payload.flight].putTick
              && (ServedBy(s, c, e.value.payload.flight) <==> s.flights[e.value.payload.flight].putTick < s.questions[c].tick)
  {
    hide Servable, TicksOk, FlightsOk, ServedOk;
    InvariantHolds(cfg, s);
    assert AsksFor(cfg, s, c);
    assert Accounted(cfg, s, c, e);
  }

  /** The caller can become the leader of a new flight. */
  ghost predicate CanLead(cfg: Config, s: World, c: Caller) {
    exists id :: Step(cfg, s, Lead(c, id)).Some?
  }

  lemma {:induction false} Bound(ids: set<FlightId>) returns (n: nat)
    ensures forall id :: id in ids ==> id < n
  {
    if ids == {} {
      n := 0;
    } else {
      var id :| id in ids;
      var m := Bound(ids - {id});
      n := if id < m then m else id + 1;
      assert forall x :: x in ids ==> x == id || x in ids - {id};
    }
  }

  lemma LeadsIfUnregistered(cfg: Config, s: World, c: Caller)
    requires c in s.callers && s.callers[c].Missed?
    ensures CanLead(cfg, s, c) <==> s.callers[c].key !in s.registered
  {
    var n := Bound(s.flights.Keys);
    assert s.callers[c].key !in s.registered ==> Step(cfg, s, Lead(c, n)).Some?;
  }

  /**
   Exactly when identical queries hit the upstreams more than once: a lookup can lead although an entry for
   its key could be served, if and only if its `Get` came before that entry was stored and no flight for the
   key is registered.
   */
  lemma LeadsBesideEntryExactly(cfg: Config, s: World, c: Caller, e: Entry<Tagged>)
    requires Reachable(cfg, s) && c in s.callers && s.callers[c].Missed?
    requires e in s.entries && e.key == s.callers[c].key && Servable(e, s.clock)
    ensures c in s.questions && e.value.payload.flight in s.flights
    ensures CanLead(cfg, s, c) <==>
            s.questions[c].tick < s.flights[e.value.payload.flight].putTick && s.callers[c].key !in s.registered
    ensures s.questions[c].tick < s.flights[e.value.payload.flight].putTick
  {
    hide Step, Servable;
    ReachableAsked(cfg, s);
    assert AsksFor(cfg, s, c);
    StoredAnswerServes(cfg, s, c, e);
    LeadsIfUnregistered(cfg, s, c);
  }

  // ----- singleflight safety

  /** At any time at most one caller leads an unfinished flight for a key. */
  lemma OneLeaderPerKey(cfg: Config, s: World, c: Caller, d: Caller)
    requires Reachable(cfg, s) && c in s.callers && d in s.callers && s.callers[c].Leading? && s.callers[d].Leading?
    requires var f, g := s.callers[c].flight, s.callers[d].flight;
             f in s.flights && g in s.flights && Active(s.flights[f]) && Active(s.flights[g]) && s.flights[f].key == s.flights[g].key
    ensures c == d
  {
    ReachableFlights(cfg, s);
    assert CallerOk(cfg, s, s.callers[c], c) && CallerOk(cfg, s, s.callers[d], d);
  }

  /** No waiter is orphaned: its flight is closed, or another caller still leads it. */
  lemma NoOrphans(cfg: Config, s: World, c: Caller)
    requires Reachable(cfg, s) && c in s.callers && s.callers[c].Waiting?
    ensures s.callers[c].flight in s.flights
    ensures var f := s.flights[s.callers[c].flight];
            f.phase.Closed? || (f.leader != c && f.leader in s.callers && s.callers[f.leader] == Leading(s.callers[c].flight))
  {
    ReachableFlights(cfg, s);
    assert CallerOk(cfg, s, s.callers[c], c);
    assert LedOk(cfg, s, s.callers[c].flight);
  }

  /** While a caller waits it stays with its flight; it leaves with that flight's value, or because it gave up. */
  lemma WaiterStep(cfg: Config, s: World, m: Move, s': World, c: Caller)
    requires LeadersOk(cfg, s) && Step(cfg, s, m) == Some(s') && c in s.callers && s.callers[c].Waiting?
    ensures c in s'.callers
    ensures var f := s.callers[c].flight;
            || s'.callers[c] == s.callers[c]
            || s'.callers[c].GaveUp?
            || (f in s'.flights && s'.flights[f].phase.Closed? && s'.callers[c] == Returned(f, cfg.value(s'.flights[f].phase.origin)))
  {
    if m.Close? {
      assert LedOk(cfg, s, m.flight);
    }
  }

  /** The value of a finished flight never changes. */
  lemma OriginStays(cfg: Config, s: World, m: Move, s': World, f: FlightId)
    requires Step(cfg, s, m) == Some(s') && f in s.flights && Finished(s.flights[f])
    ensures f in s'.flights && Finished(s'.flights[f]) && s'.flights[f].phase.origin == s.flights[f].phase.origin
    ensures s'.flights[f].key == s.flights[f].key
    ensures s.flights[f].phase.Closed? ==> s'.flights[f] == s.flights[f]
  {
  }

  /** An answered caller keeps its answer. */
  lemma AnswerStays(cfg: Config, s: World, m: Move, s': World, c: Caller)
    requires LeadersOk(cfg, s) && Step(cfg, s, m) == Some(s') && c in s.callers && (s.callers[c].Returned? || s.callers[c].GaveUp?)
    ensures c in s'.callers && s'.callers[c] == s.callers[c]
  {
    if m.Close? {
      assert LedOk(cfg, s, m.flight);
    }
  }

  /** The flight f is for the caller's key, and the caller still waits for it, or gave up, or was answered with its value. */
  ghost predicate OwnFlight(cfg: Config, s: World, c: Caller, f: FlightId) {
    && c in s.callers && c in s.questions && HasKey(s, f, KeyOf(cfg, s.questions[c]))
    && (|| s.callers[c] == Waiting(f)
        || s.callers[c].GaveUp?
        || (s.flights[f].phase.Closed? && s.callers[c] == Returned(f, cfg.value(s.flights[f].phase.origin))))
  }

  lemma OwnFlightStep(cfg: Config, s: World, m: Move, s': World, c: Caller, f: FlightId)
    requires Reachable(cfg, s) && Step(cfg, s, m) == Some(s') && OwnFlight(cfg, s, c, f)
    ensures OwnFlight(cfg, s', c, f)
  {
    hide Step;
    ReachableFlights(cfg, s);
    ReachableAsked(cfg, s);
    QuestionsKept(cfg, s, m, s');
    FlightsStay(cfg, s, m, s', f);
    if s.callers[c].Waiting? {
      WaiterStep(cfg, s, m, s', c);
    } else {
      AnswerStays(cfg, s, m, s', c);
      if s.callers[c].Returned? {
        OriginStays(cfg, s, m, s', f);
      }
    }
  }

  /**
   Over every run: a caller that waits for flight f at some point, and is later found answered, was
   answered with the value of f and of no other flight, and f is a flight for the key it asked for.
   */
  lemma {:induction false} WaiterGetsOwnFlight(cfg: Config, states: seq<World>, moves: seq<Move>, i: nat, j: nat, c: Caller, f: FlightId)
    requires IsRun(cfg, states, moves) && Reachable(cfg, states[0]) && i <= j <= |moves|
    requires c in states[i].callers && states[i].callers[c] == Waiting(f)
    ensures OwnFlight(cfg, states[j], c, f)
    decreases j
  {
    hide Step;
    if i == j {
      RunReachable(cfg, states, moves, i);
      ReachableAsked(cfg, states[i]);
      assert AsksFor(cfg, states[i], c);
    } else {
      WaiterGetsOwnFlight(cfg, states, moves, i, j - 1, c, f);
      RunReachable(cfg, states, moves, j - 1);
      assert Step(cfg, states[j - 1], moves[j - 1]) == Some(states[j - 1 + 1]);
      OwnFlightStep(cfg, states[j - 1], moves[j - 1], states[j], c, f);
    }
  }
}
