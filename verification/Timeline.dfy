/**
 Runs of the machine of Flights as runs of the cache of CacheModel: every move takes one step on the list of
 entries, so what holds over every run of the cache holds for lookups, flights and reloads together.
 */
module Timeline {
  import opened Policy
  import opened Flights
  import C = CacheModel

  // ----- projection

  /** What a move does to the list of entries. */
  function OpOf(cfg: Config, s: World, m: Move): C.Op<Tagged> {
    match m
    case LookUp(_, qname, qtype, at) => C.Get(cfg.key(qname, qtype), at)
    case Publish(id, rs, complete, at, _, _) =>
      if id in s.flights && s.flights[id].phase.Loaded? && ValueOf(cfg, s, id, rs, complete).cacheable then
        var v := ValueOf(cfg, s, id, rs, complete);
        C.Put(s.flights[id].key, Tagged(v.payload, id), v.ttl, at)
      else C.Idle
    case SweepCache(at) => C.Sweep(at)
    case FlushCache => C.Flush
    case _ => C.Idle
  }

  /** What a flight yields from the outcomes it received. */
  function ValueOf(cfg: Config, s: World, id: FlightId, rs: seq<Result>, complete: bool): Converted
    requires id in s.flights && s.flights[id].phase.Loaded?
  {
    cfg.value(Origin(s.flights[id].phase.version, s.flights[id].qname, rs, complete))
  }

  function StepOf(cfg: Config, s: World, m: Move, s': World): C.Step<Tagged> {
    C.Step(OpOf(cfg, s, m), s.clock, s'.clock)
  }

  lemma MoveIsStep(cfg: Config, s: World, m: Move, s': World)
    requires Step(cfg, s, m) == Some(s')
    ensures C.StepOk(cfg.capacity, s.entries, StepOf(cfg, s, m, s'), s'.entries)
  {
    hide C.Puts, C.GetEntries, C.GetResult, C.LiveOnes, WellFormed;
  }

  function Lists(states: seq<World>): seq<seq<C.Entry<Tagged>>> {
    seq(|states|, i requires 0 <= i < |states| => states[i].entries)
  }

  function Steps(cfg: Config, states: seq<World>, moves: seq<Move>): (steps: seq<C.Step<Tagged>>)
    requires |states| == |moves| + 1
    ensures |steps| == |moves|
  {
    seq(|moves|, i requires 0 <= i < |moves| => StepOf(cfg, states[i], moves[i], states[i + 1]))
  }

  /** A run of the machine from its start. */
  ghost predicate History(cfg: Config, states: seq<World>, moves: seq<Move>) {
    IsRun(cfg, states, moves) && exists clock :: states[0] == Start(clock)
  }

  lemma {:induction false} ClockGrows(cfg: Config, states: seq<World>, moves: seq<Move>, i: nat, j: nat)
    requires IsRun(cfg, states, moves) && i <= j <= |moves|
    ensures states[i].clock <= states[j].clock
    decreases j
  {
    hide Step;
    if i < j {
      ClockGrows(cfg, states, moves, i, j - 1);
      assert Step(cfg, states[j - 1], moves[j - 1]) == Some(states[j - 1 + 1]);
      StepTicks(cfg, states[j - 1], moves[j - 1], states[j]);
    }
  }

  /** Every history of the machine is, entry for entry, a run of the cache. */
  lemma HistoryIsCacheRun(cfg: Config, states: seq<World>, moves: seq<Move>)
    requires History(cfg, states, moves)
    ensures C.IsRun(cfg.capacity, Lists(states), Steps(cfg, states, moves))
  {
    hide Step, C.StepOk, OpOf;
    var lists, steps := Lists(states), Steps(cfg, states, moves);
    forall i | 0 <= i < |steps|
      ensures C.StepOk(cfg.capacity, lists[i], steps[i], lists[i + 1])
    {
      assert Step(cfg, states[i], moves[i]) == Some(states[i + 1]);
      MoveIsStep(cfg, states[i], moves[i], states[i + 1]);
    }
    forall i, j | 0 <= i < j < |steps|
      ensures steps[i].end <= steps[j].begin
    {
      ClockGrows(cfg, states, moves, i + 1, j);
    }
  }

  lemma HistoryReachable(cfg: Config, states: seq<World>, moves: seq<Move>, n: nat)
    requires History(cfg, states, moves) && n <= |moves|
    ensures Reachable(cfg, states[n])
  {
    hide Step;
    var clock :| states[0] == Start(clock);
    StartReachable(cfg, clock);
    RunReachable(cfg, states, moves, n);
  }

  // ----- what a lookup is served

  /** The move stores a value for the key. */
  predicate Stores(cfg: Config, s: World, m: Move, key: C.Key) {
    OpOf(cfg, s, m).Put? && OpOf(cfg, s, m).key == key
  }

  /**
   A lookup answered from the cache is answered with the value of the last flight that stored one for its key
   since the last flush, before that value's expiry, and with a TTL in 2 .. stored TTL that overstates the
   remaining life by less than a second.
   */
  lemma ServedIsLatest(cfg: Config, states: seq<World>, moves: seq<Move>, n: nat) returns (i: nat)
    requires History(cfg, states, moves) && n < |moves| && moves[n].LookUp?
    requires moves[n].caller in states[n + 1].callers && states[n + 1].callers[moves[n].caller].Served?
    ensures i < n && moves[i].Publish?
    ensures var pc := states[n + 1].callers[moves[n].caller];
            && Stores(cfg, states[i], moves[i], pc.key) && pc.cached.payload == OpOf(cfg, states[i], moves[i]).payload
            && pc.cached.payload.flight == moves[i].flight && pc.key == cfg.key(moves[n].qname, moves[n].qtype)
            && (forall j :: i < j < n ==> !moves[j].FlushCache? && !Stores(cfg, states[j], moves[j], pc.key))
            && 2 <= pc.cached.ttl <= OpOf(cfg, states[i], moves[i]).ttl
            && (pc.cached.ttl - 1) * C.SECOND < pc.cached.expires - moves[n].at <= pc.cached.ttl * C.SECOND
  {
    hide Step, C.GetResult, C.Ideal, OpOf;
    HistoryIsCacheRun(cfg, states, moves);
    var lists, steps := Lists(states), Steps(cfg, states, moves);
    var key := ServedIsHit(cfg, states, moves, n);
    C.HitIsLatest(cfg.capacity, lists, steps, n);
    C.HitTTL(cfg.capacity, lists, steps, n);
    i := C.IdealIsLastWrite(steps, n, key);
    PutsArePublished(cfg, states[i], moves[i]);
    forall j | i < j < n
      ensures !moves[j].FlushCache? && !Stores(cfg, states[j], moves[j], key)
    {
      assert !steps[j].op.Flush? && !(steps[j].op.Put? && steps[j].op.key == key);
      PutsArePublished(cfg, states[j], moves[j]);
    }
  }

  /** What a lookup was served is the hit of its step on the list. */
  lemma ServedIsHit(cfg: Config, states: seq<World>, moves: seq<Move>, n: nat) returns (key: C.Key)
    requires IsRun(cfg, states, moves) && n < |moves| && moves[n].LookUp?
    requires moves[n].caller in states[n + 1].callers && states[n + 1].callers[moves[n].caller].Served?
    ensures key == cfg.key(moves[n].qname, moves[n].qtype) && Steps(cfg, states, moves)[n].op == C.Get(key, moves[n].at)
    ensures var pc, hit := states[n + 1].callers[moves[n].caller], C.GetResult(states[n].entries, key, moves[n].at);
            pc.key == key && hit.Some? && hit.value == pc.cached && hit.value.ttl > 1
  {
    hide C.GetResult;
    key := cfg.key(moves[n].qname, moves[n].qtype);
    assert Step(cfg, states[n], moves[n]) == Some(states[n + 1]);
    CallerTurns(cfg, states[n], moves[n], states[n + 1], moves[n].caller);
  }

  lemma PutsArePublished(cfg: Config, s: World, m: Move)
    ensures OpOf(cfg, s, m).Put? ==> m.Publish? && OpOf(cfg, s, m).payload.flight == m.flight
    ensures OpOf(cfg, s, m).Flush? <==> m.FlushCache?
  {
  }

  /**
   How long a stored answer serves: after a flight has stored a value for a key at time `at` with TTL ttl, with no
   flush, no other store for the key and fewer other keys used than the cache has room for, a lookup of the key
   at time u is served from the cache if and only if more than one second of the ttl seconds is left.  It gets the
   stored value, with the remaining time rounded up to whole seconds.
   */
  lemma LookUpServedExactly(cfg: Config, states: seq<World>, moves: seq<Move>, i: nat, n: nat)
    requires History(cfg, states, moves) && i < n < |moves| && moves[n].LookUp?
    requires Stores(cfg, states[i], moves[i], cfg.key(moves[n].qname, moves[n].qtype))
    requires forall j :: i < j < n ==> !Disturbs(cfg, states[j], moves[j], cfg.key(moves[n].qname, moves[n].qtype))
    requires |OtherKeys(cfg, states, moves, i + 1, n, cfg.key(moves[n].qname, moves[n].qtype))| < cfg.capacity
    ensures moves[n].caller in states[n + 1].callers
    ensures var pc, op := states[n + 1].callers[moves[n].caller], OpOf(cfg, states[i], moves[i]);
            var life := op.at + op.ttl * 1_000_000_000 - moves[n].at;
            && (pc.Served? <==> life > 1_000_000_000)
            && (pc.Served? ==> pc.cached.payload == op.payload && pc.cached.ttl == (life + 999_999_999) / 1_000_000_000)
  {
    hide Step, OpOf, C.GetResult, C.TouchedKeys;
    var key := cfg.key(moves[n].qname, moves[n].qtype);
    var op := OpOf(cfg, states[i], moves[i]);
    var lists, steps := Lists(states), Steps(cfg, states, moves);
    HistoryIsCacheRun(cfg, states, moves);
    LookUpTurns(cfg, states[n], moves[n], states[n + 1]);
    forall j | i < j < n
      ensures !steps[j].op.Flush? && !(steps[j].op.Put? && steps[j].op.key == key)
    {
      assert !Disturbs(cfg, states[j], moves[j], key);
      PutsArePublished(cfg, states[j], moves[j]);
    }
    C.ExactLife(cfg.capacity, lists, steps, i, n, key, op.payload, op.ttl, op.at);
  }

  /** The move flushes, or stores for the key. */
  predicate Disturbs(cfg: Config, s: World, m: Move, key: C.Key) {
    m.FlushCache? || Stores(cfg, s, m, key)
  }

  lemma LookUpTurns(cfg: Config, s: World, m: Move, s': World)
    requires m.LookUp? && Step(cfg, s, m) == Some(s')
    ensures m.caller in s'.callers && OpOf(cfg, s, m) == C.Get(cfg.key(m.qname, m.qtype), m.at)
    ensures var hit, pc := C.GetResult(s.entries, cfg.key(m.qname, m.qtype), m.at), s'.callers[m.caller];
            (pc.Served? <==> hit.Some? && hit.value.ttl > 1) && (pc.Served? ==> pc.cached == hit.value)
  {
    hide C.GetResult, C.GetEntries;
  }

  // ----- a value is in the cache before anyone sees its flight done

  /** The entry that a storing move writes. */
  function StoredEntry(cfg: Config, s: World, m: Move): C.Entry<Tagged>
    requires OpOf(cfg, s, m).Put?
  {
    var op := OpOf(cfg, s, m);
    C.Entry(op.key, C.Value(op.payload, op.ttl, C.Expiry(op.at, op.ttl)))
  }

  /** A flight that publishes a cacheable value leaves it at the front of the cache, unless it is dead on arrival. */
  lemma PublishStores(cfg: Config, s: World, m: Move, s': World)
    requires Reachable(cfg, s) && Step(cfg, s, m) == Some(s') && OpOf(cfg, s, m).Put?
    requires cfg.capacity >= 1 && C.Live(StoredEntry(cfg, s, m), s'.clock)
    ensures s'.entries != [] && s'.entries[0] == StoredEntry(cfg, s, m)
  {
    hide Step, OpOf;
    ReachableEntries(cfg, s);
    MoveIsStep(cfg, s, m, s');
    var st, e := StepOf(cfg, s, m, s'), StoredEntry(cfg, s, m);
    C.TouchedIsFirst(cfg.capacity, s.entries, st, s'.entries, e.key);
    C.PutMembers(cfg.capacity, s.entries, e, s'.entries, st.op.at, st.end);
    assert s'.entries[0] in s'.entries;
  }

  /** The move flushes nothing and stores nothing for the entry's key, and the entry is live after it. */
  predicate Spares(cfg: Config, s: World, m: Move, s': World, e: C.Entry<Tagged>) {
    !m.FlushCache? && !Stores(cfg, s, m, e.key) && C.Live(e, s'.clock)
  }

  ghost predicate Spared(cfg: Config, states: seq<World>, moves: seq<Move>, a: nat, b: nat, e: C.Entry<Tagged>)
    requires a <= b <= |moves| && |states| == |moves| + 1
  {
    forall j :: a <= j < b ==> Spares(cfg, states[j], moves[j], states[j + 1], e)
  }

  lemma SparedIsUndisturbed(cfg: Config, states: seq<World>, moves: seq<Move>, a: nat, b: nat, e: C.Entry<Tagged>)
    requires a <= b <= |moves| && |states| == |moves| + 1 && Spared(cfg, states, moves, a, b, e)
    ensures C.Undisturbed(Steps(cfg, states, moves), a, b, e)
  {
    hide OpOf, C.Live, Steps;
    var steps := Steps(cfg, states, moves);
    forall j | a <= j < b
      ensures !steps[j].op.Flush? && !(steps[j].op.Put? && steps[j].op.key == e.key) && C.Live(e, steps[j].end)
    {
      assert Spares(cfg, states[j], moves[j], states[j + 1], e);
      PutsArePublished(cfg, states[j], moves[j]);
      StepAt(cfg, states, moves, j);
    }
  }

  lemma StepAt(cfg: Config, states: seq<World>, moves: seq<Move>, j: nat)
    requires |states| == |moves| + 1 && j < |moves|
    ensures Steps(cfg, states, moves)[j] == C.Step(OpOf(cfg, states[j], moves[j]), states[j].clock, states[j + 1].clock)
  {
    hide OpOf;
  }

  /** The keys stored or found in the moves a, ..., b-1, other than the given one. */
  function OtherKeys(cfg: Config, states: seq<World>, moves: seq<Move>, a: nat, b: nat, key: C.Key): set<C.Key>
    requires a <= b <= |moves| && |states| == |moves| + 1
  {
    C.TouchedKeys(Lists(states), Steps(cfg, states, moves), a, b) - {key}
  }

  /**
   What a flight stores stays in the cache until a flush, another store for the key, its expiry, or until as
   many other keys have been used as the cache has room for.
   */
  lemma StoredStays(cfg: Config, states: seq<World>, moves: seq<Move>, i: nat, b: nat)
    requires History(cfg, states, moves) && i < b <= |moves| && OpOf(cfg, states[i], moves[i]).Put?
    requires C.Live(StoredEntry(cfg, states[i], moves[i]), states[i + 1].clock)
    requires Spared(cfg, states, moves, i + 1, b, StoredEntry(cfg, states[i], moves[i]))
    requires |OtherKeys(cfg, states, moves, i + 1, b, OpOf(cfg, states[i], moves[i]).key)| < cfg.capacity
    ensures StoredEntry(cfg, states[i], moves[i]) in states[b].entries
  {
    hide Step, OpOf, C.TouchedKeys, C.IsRun, C.Live, C.Undisturbed, Spared;
    var lists, steps, e := Lists(states), Steps(cfg, states, moves), StoredEntry(cfg, states[i], moves[i]);
    HistoryIsCacheRun(cfg, states, moves);
    HistoryReachable(cfg, states, moves, i);
    assert Step(cfg, states[i], moves[i]) == Some(states[i + 1]);
    PublishStores(cfg, states[i], moves[i], states[i + 1]);
    SparedIsUndisturbed(cfg, states, moves, i + 1, b, e);
    C.Retention(cfg.capacity, lists, steps, i + 1, b, e);
    assert lists[b] == states[b].entries;
  }

  /** A flight becomes finished by publishing. */
  lemma FinishesByPublishing(cfg: Config, s: World, m: Move, s': World, f: FlightId)
    requires Step(cfg, s, m) == Some(s') && f in s'.flights && Finished(s'.flights[f]) && !(f in s.flights && Finished(s.flights[f]))
    ensures m.Publish? && m.flight == f && f in s.flights && s.flights[f].phase.Loaded? && s'.flights[f].phase.Published?
    ensures cfg.value(s'.flights[f].phase.origin) == ValueOf(cfg, s, f, m.rs, m.complete)
  {
    hide C.Puts, C.GetEntries, C.GetResult, C.LiveOnes, WellFormed;
  }

  lemma {:induction false} FinishedWasPublished(cfg: Config, states: seq<World>, moves: seq<Move>, n: nat, f: FlightId) returns (i: nat)
    requires History(cfg, states, moves) && n <= |moves| && f in states[n].flights && Finished(states[n].flights[f])
    ensures i < n && moves[i].Publish? && moves[i].flight == f && f in states[i].flights && states[i].flights[f].phase.Loaded?
    ensures f in states[i + 1].flights && states[i + 1].flights[f].phase.Published?
    ensures cfg.value(states[n].flights[f].phase.origin) == ValueOf(cfg, states[i], f, moves[i].rs, moves[i].complete)
  {
    hide Step, ValueOf;
    assert Step(cfg, states[n - 1], moves[n - 1]) == Some(states[n - 1 + 1]);
    if f in states[n - 1].flights && Finished(states[n - 1].flights[f]) {
      i := FinishedWasPublished(cfg, states, moves, n - 1, f);
      OriginStays(cfg, states[n - 1], moves[n - 1], states[n], f);
    } else {
      i := n - 1;
      FinishesByPublishing(cfg, states[n - 1], moves[n - 1], states[n], f);
    }
  }

  /**
   Stored before seen: if a caller was answered by a flight with a cacheable value, then at an earlier move i that
   flight published this very value, the value was then at the front of the cache (unless dead on arrival), and
   no caller had been answered by the flight yet.  `StoredStays` says how long it remains there.
   */
  lemma StoredBeforeSeen(cfg: Config, states: seq<World>, moves: seq<Move>, n: nat, c: Caller) returns (i: nat)
    requires History(cfg, states, moves) && n <= |moves| && cfg.capacity >= 1
    requires c in states[n].callers && states[n].callers[c].Returned? && states[n].callers[c].value.cacheable
    ensures var pc := states[n].callers[c];
            && i < n && moves[i].Publish? && moves[i].flight == pc.flight && OpOf(cfg, states[i], moves[i]).Put?
            && var e := StoredEntry(cfg, states[i], moves[i]);
               && e.value.payload == Tagged(pc.value.payload, pc.flight) && e.value.ttl == pc.value.ttl
               && c in states[n].questions && e.key == KeyOf(cfg, states[n].questions[c])
               && (C.Live(e, states[i + 1].clock) ==> states[i + 1].entries != [] && states[i + 1].entries[0] == e)
               && NobodyAnswered(states[i + 1], pc.flight)
  {
    hide Step, C.Live;
    var pc := states[n].callers[c];
    HistoryReachable(cfg, states, moves, n);
    AnsweredByFlight(cfg, states[n], c);
    i := FinishedWasPublished(cfg, states, moves, n, pc.flight);
    HistoryReachable(cfg, states, moves, i);
    assert Step(cfg, states[i], moves[i]) == Some(states[i + 1]);
    KeyStays(cfg, states, moves, i, n, pc.flight);
    if C.Live(StoredEntry(cfg, states[i], moves[i]), states[i + 1].clock) {
      PublishStores(cfg, states[i], moves[i], states[i + 1]);
    }
    ReachableNext(cfg, states[i], moves[i], states[i + 1]);
    var s := states[i + 1];
    forall d | d in s.callers && s.callers[d].Returned?
      ensures s.callers[d].flight != pc.flight
    {
      AnsweredByFlight(cfg, s, d);
    }
  }

  /** No caller has been answered by the flight. */
  ghost predicate NobodyAnswered(s: World, f: FlightId) {
    forall d :: d in s.callers && s.callers[d].Returned? ==> s.callers[d].flight != f
  }

  lemma AnsweredByFlight(cfg: Config, s: World, c: Caller)
    requires Reachable(cfg, s) && c in s.callers && s.callers[c].Returned?
    ensures var pc := s.callers[c];
            && pc.flight in s.flights && s.flights[pc.flight].phase.Closed? && pc.value == cfg.value(s.flights[pc.flight].phase.origin)
            && c in s.questions && s.flights[pc.flight].key == KeyOf(cfg, s.questions[c])
  {
    hide Step, TicksOk, EntriesOk, ServedOk, CoalescedOk;
    InvariantHolds(cfg, s);
    assert CallerOk(cfg, s, s.callers[c], c) && AsksFor(cfg, s, c);
  }

  lemma {:induction false} KeyStays(cfg: Config, states: seq<World>, moves: seq<Move>, i: nat, n: nat, f: FlightId)
    requires IsRun(cfg, states, moves) && i <= n <= |moves| && f in states[i].flights
    ensures f in states[n].flights && states[n].flights[f].key == states[i].flights[f].key
    decreases n
  {
    hide Step;
    if i < n {
      KeyStays(cfg, states, moves, i, n - 1, f);
      assert Step(cfg, states[n - 1], moves[n - 1]) == Some(states[n - 1 + 1]);
      FlightsStay(cfg, states[n - 1], moves[n - 1], states[n], f);
    }
  }
}
