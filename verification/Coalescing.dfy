/**
 The cache object of LruCache takes the moves of the machine of Flights: `Lookup` up to `Get`, the two critical
 sections of `Do`, `Flush` and `sweep`, run on the real list and maps, are proved to be possible moves.
 */
module Coalescing {
  import opened Policy
  import opened Flights
  import C = CacheModel
  import L = LruCache

  // ----- the moves that concern the cache

  lemma LookUpMove(cfg: Config, s: World, c: Caller, qname: string, qtype: nat, at: C.Time) returns (s': World)
    requires Reachable(cfg, s) && c !in s.callers && s.clock <= at
    ensures Step(cfg, s, LookUp(c, qname, qtype, at)) == Some(s') && Reachable(cfg, s')
    ensures s'.entries == C.GetEntries(s.entries, cfg.key(qname, qtype), at) && s'.clock == at
    ensures s'.registered == s.registered && s'.flights == s.flights && c in s'.callers
    ensures var key := cfg.key(qname, qtype); var hit := C.GetResult(s.entries, key, at);
            s'.callers[c] == if hit.Some? && hit.value.ttl > 1 then Served(key, hit.value) else Missed(key, qname)
  {
    hide C.GetEntries, C.GetResult, Reachable;
    s' := AfterLookUp(cfg, s, c, qname, qtype, at).(tick := s.tick + 1);
    ReachableNext(cfg, s, LookUp(c, qname, qtype, at), s');
  }

  lemma JoinMove(cfg: Config, s: World, c: Caller) returns (s': World)
    requires Reachable(cfg, s) && c in s.callers && s.callers[c].Missed? && s.callers[c].key in s.registered
    ensures Step(cfg, s, Join(c)) == Some(s') && Reachable(cfg, s')
    ensures s' == s.(callers := s.callers[c := Waiting(s.registered[s.callers[c].key])], tick := s.tick + 1)
  {
    hide Reachable;
    s' := s.(callers := s.callers[c := Waiting(s.registered[s.callers[c].key])], tick := s.tick + 1);
    ReachableNext(cfg, s, Join(c), s');
  }

  lemma PublishMove(cfg: Config, s: World, id: FlightId, rs: seq<Result>, complete: bool, at: C.Time, end: C.Time, es: seq<C.Entry<Tagged>>)
    returns (s': World)
    requires Reachable(cfg, s) && id in s.flights && s.flights[id].phase.Loaded? && s.clock <= at <= end
    requires WellFormed(rs) && |rs| <= cfg.upstreams && (complete <==> |rs| == cfg.upstreams)
    requires StoresWell(cfg, s, id, s.flights[id].key, Origin(s.flights[id].phase.version, s.flights[id].qname, rs, complete), at, end, es)
    ensures Step(cfg, s, Publish(id, rs, complete, at, end, es)) == Some(s') && Reachable(cfg, s')
    ensures s'.entries == es && s'.clock == end
    ensures s'.registered == s.registered - {s.flights[id].key} && s'.flights.Keys == s.flights.Keys
  {
    hide Reachable, StoresWell, WellFormed;
    var o := Origin(s.flights[id].phase.version, s.flights[id].qname, rs, complete);
    s' := AfterPublish(cfg, s, id, s.flights[id], o, end, es).(tick := s.tick + 1);
    ReachableNext(cfg, s, Publish(id, rs, complete, at, end, es), s');
  }

  // ----- the object and the machine

  /** What the object keeps: its list, its clock, its map of flights, and the next unused flight identity. */
  datatype Image = Image(ll: seq<C.Entry<Tagged>>, clock: C.Time, flights: map<C.Key, L.Flight<Tagged>>, next: FlightId)

  /** The same keys are registered, each for the flight whose cell the map of the cache holds. */
  ghost predicate Agree(cells: map<FlightId, L.Flight<Tagged>>, registered: map<C.Key, FlightId>, flights: map<C.Key, L.Flight<Tagged>>) {
    && flights.Keys == registered.Keys
    && forall k :: k in flights ==> registered[k] in cells && cells[registered[k]] == flights[k]
  }

  /** The object shows a reachable world: same entries, same clock, and a registered flight's cell in the map. */
  ghost predicate Mirrors(cfg: Config, w: World, cells: map<FlightId, L.Flight<Tagged>>, im: Image) {
    && Reachable(cfg, w) && im.ll == w.entries && im.clock == w.clock
    && cells.Keys == w.flights.Keys && (forall id :: id in cells ==> id < im.next)
    && Agree(cells, w.registered, im.flights)
  }

  lemma LookUpMirrors(cfg: Config, w: World, cells: map<FlightId, L.Flight<Tagged>>, im: Image,
                      c: Caller, qname: string, qtype: nat, ll: seq<C.Entry<Tagged>>, at: C.Time) returns (w': World)
    requires Mirrors(cfg, w, cells, im) && c !in w.callers && im.clock <= at && ll == C.GetEntries(im.ll, cfg.key(qname, qtype), at)
    ensures Step(cfg, w, LookUp(c, qname, qtype, at)) == Some(w') && w'.clock == at
    ensures Mirrors(cfg, w', cells, im.(ll := ll, clock := at))
    ensures var key := cfg.key(qname, qtype); var hit := C.GetResult(im.ll, key, at);
            c in w'.callers && w'.callers[c] == if hit.Some? && hit.value.ttl > 1 then Served(key, hit.value) else Missed(key, qname)
  {
    hide Step, Reachable, C.GetEntries, C.GetResult;
    w' := LookUpMove(cfg, w, c, qname, qtype, at);
  }

  lemma LeadMirrors(cfg: Config, w: World, cells: map<FlightId, L.Flight<Tagged>>, im: Image, c: Caller, f: L.Flight<Tagged>) returns (w': World)
    requires Mirrors(cfg, w, cells, im) && c in w.callers && w.callers[c].Missed? && w.callers[c].key !in im.flights
    ensures Step(cfg, w, Lead(c, im.next)) == Some(w') && c in w'.callers && w'.callers[c] == Leading(im.next)
    ensures Mirrors(cfg, w', cells[im.next := f], im.(flights := im.flights[w.callers[c].key := f], next := im.next + 1))
  {
    hide Step, Reachable;
    assert im.next !in cells;
    w' := LeadMove(cfg, w, c, im.next);
  }

  lemma JoinMirrors(cfg: Config, w: World, cells: map<FlightId, L.Flight<Tagged>>, im: Image, c: Caller) returns (w': World, g: FlightId)
    requires Mirrors(cfg, w, cells, im) && c in w.callers && w.callers[c].Missed? && w.callers[c].key in im.flights
    ensures Step(cfg, w, Join(c)) == Some(w') && c in w'.callers && w'.callers[c] == Waiting(g)
    ensures g in cells && cells[g] == im.flights[w.callers[c].key] && Mirrors(cfg, w', cells, im)
  {
    hide Step, Reachable;
    g := w.registered[w.callers[c].key];
    w' := JoinMove(cfg, w, c);
  }

  /** A flight in progress is the one whose cell is registered under its key. */
  lemma RegisteredCell(cfg: Config, w: World, cells: map<FlightId, L.Flight<Tagged>>, im: Image, id: FlightId)
    requires Mirrors(cfg, w, cells, im) && id in w.flights && Active(w.flights[id])
    ensures id in cells && w.flights[id].key in im.flights && im.flights[w.flights[id].key] == cells[id]
  {
    hide Step;
    ReachableFlights(cfg, w);
    assert ActiveOk(w, id);
  }

  lemma PublishMirrors(cfg: Config, w: World, cells: map<FlightId, L.Flight<Tagged>>, im: Image, id: FlightId, rs: seq<Result>,
                       complete: bool, at: C.Time, end: C.Time, es: seq<C.Entry<Tagged>>) returns (w': World)
    requires Mirrors(cfg, w, cells, im) && id in w.flights && w.flights[id].phase.Loaded? && im.clock <= at <= end
    requires WellFormed(rs) && |rs| <= cfg.upstreams && (complete <==> |rs| == cfg.upstreams)
    requires StoresWell(cfg, w, id, w.flights[id].key, Origin(w.flights[id].phase.version, w.flights[id].qname, rs, complete), at, end, es)
    ensures Step(cfg, w, Publish(id, rs, complete, at, end, es)) == Some(w') && w'.entries == es && w'.clock == end
    ensures Mirrors(cfg, w', cells, im.(ll := es, clock := end, flights := im.flights - {w.flights[id].key}))
  {
    hide Step, Reachable, StoresWell, WellFormed;
    w' := PublishMove(cfg, w, id, rs, complete, at, end, es);
  }

  class Frontend {
    const cfg: Config
    const cache: L.Cache<Tagged>
    var next: FlightId                              // not yet used for a flight
    ghost var world: World
    ghost var cells: map<FlightId, L.Flight<Tagged>>

    ghost function View(): Image
      reads this, cache
    {
      Image(cache.ll, cache.clock, cache.flights, next)
    }

    ghost predicate Valid()
      reads this, cache
    {
      cache.Valid() && cache.maxEntries == cfg.capacity && Mirrors(cfg, world, cells, View())
    }

    constructor (cfg: Config, start: C.Time)
      ensures Valid() && world == Start(start) && this.cfg == cfg && fresh(cache)
    {
      this.cfg := cfg;
      cache := new L.Cache(cfg.capacity, start);
      next, world, cells := 0, Start(start), map[];
      new;
      StartReachable(cfg, start);
    }

    /**
     `Lookup` up to and including `Get`: takes the move of the same name, and serves what it serves.  Every lookup
     that is not served counts exactly one miss.
     */
    method LookUp(ghost c: Caller, qname: string, qtype: nat) returns (v: Option<C.Value<Tagged>>)
      requires Valid() && c !in world.callers
      modifies this`world, cache
      ensures Valid()
      ensures Step(cfg, old(world), Move.LookUp(c, qname, qtype, world.clock)) == Some(world)
      ensures cache.misses == old(cache.misses) + (if v.Some? then 0 else 1)
      ensures c in world.callers
              && world.callers[c] == if v.Some? then Served(cfg.key(qname, qtype), v.value) else Missed(cfg.key(qname, qtype), qname)
    {
      hide Mirrors, Step, C.GetResult, C.GetEntries, L.InStep;
      ghost var im := View();
      v := cache.Get(cfg.key(qname, qtype));
      world := LookUpMirrors(cfg, world, cells, im, c, qname, qtype, cache.ll, cache.clock);
      if v.Some? && v.value.ttl <= 1 {
        cache.CountMiss();
        v := None;
      }
    }

    /** The first critical section of `Do`: takes the move Lead or Join, for the flight g whose cell it returns. */
    method Enter(ghost c: Caller, key: C.Key) returns (f: L.Flight<Tagged>, leads: bool, id: FlightId, ghost g: FlightId)
      requires Valid() && c in world.callers && world.callers[c].Missed? && world.callers[c].key == key
      modifies this`world, this`cells, this`next, cache`flights
      ensures Valid() && g in cells && cells[g] == f
      ensures Step(cfg, old(world), if leads then Lead(c, g) else Join(c)) == Some(world)
      ensures c in world.callers && world.callers[c] == if leads then Leading(g) else Waiting(g)
      ensures leads ==> id == g && fresh(f)
    {
      hide Mirrors, Step, L.InStep;
      ghost var im := View();
      id := next;
      f, leads := cache.Enter(key);
      if leads {
        world := LeadMirrors(cfg, world, cells, im, c, f);
        cells, next, g := cells[id := f], next + 1, id;
      } else {
        world, g := JoinMirrors(cfg, world, cells, im, c);
      }
    }

    /** The second critical section of `Do`: takes the move Publish, whose flight is the one registered for the key. */
    method Leave(id: FlightId, key: C.Key, f: L.Flight<Tagged>, v: Converted, ghost rs: seq<Result>, ghost complete: bool)
      returns (ghost at: C.Time)
      requires Valid() && id in world.flights && world.flights[id].phase.Loaded? && world.flights[id].key == key
      requires id in cells && cells[id] == f
      requires WellFormed(rs) && |rs| <= cfg.upstreams && (complete <==> |rs| == cfg.upstreams)
      requires v == cfg.value(Origin(world.flights[id].phase.version, world.flights[id].qname, rs, complete))
      modifies this`world, cache, f`v
      ensures Valid() && key in old(cache.flights) && old(cache.flights)[key] == f
      ensures f.v.Some? && f.v.value.payload == Tagged(v.payload, id) && f.v.value.ttl == v.ttl
      ensures Step(cfg, old(world), Publish(id, rs, complete, at, world.clock, world.entries)) == Some(world)
    {
      hide Mirrors, Step, L.InStep, C.Puts, WellFormed;
      ghost var im := View();
      RegisteredCell(cfg, world, cells, im, id);
      at := cache.Leave(key, f, C.Value(Tagged(v.payload, id), v.ttl, 0), v.cacheable);
      assert im.ll == world.entries by { SameEntries(cfg, world, cells, im); }
      world := PublishMirrors(cfg, world, cells, im, id, rs, complete, at, cache.clock, cache.ll);
    }

    /** The flush of a reload. */
    method Flush()
      requires Valid() && world.reloading
      modifies this`world, cache
      ensures Valid() && Step(cfg, old(world), FlushCache) == Some(world)
    {
      hide Reachable, L.InStep, Agree;
      ghost var s := world;
      cache.FlushAll();
      world := s.(entries := [], reloading := false, lastFlush := s.tick, tick := s.tick + 1);
      ReachableNext(cfg, s, FlushCache, world);
    }

    /** One turn of the janitor. */
    method Sweep()
      requires Valid()
      modifies this`world, cache
      ensures Valid() && Step(cfg, old(world), SweepCache(world.clock)) == Some(world)
    {
      hide C.LiveOnes, Reachable, L.InStep, Agree;
      ghost var s := world;
      cache.SweepExpired();
      world := s.(entries := cache.ll, clock := cache.clock, tick := s.tick + 1);
      ReachableNext(cfg, s, SweepCache(cache.clock), world);
    }
  }

  lemma SameEntries(cfg: Config, w: World, cells: map<FlightId, L.Flight<Tagged>>, im: Image)
    requires Mirrors(cfg, w, cells, im)
    ensures im.ll == w.entries && im.clock == w.clock
  {
  }
}
