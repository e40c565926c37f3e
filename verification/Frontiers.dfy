/**
 Breadth-first search over an arbitrary graph, as the chase of internal/upstream/chase.go performs it:
 a queue that may hold a name several times, and a set of names already taken from it.
 */
module Frontiers {

  type Graph = string -> seq<string>

  /** `name` is `n` edges away from `start` along some path. */
  ghost predicate Reach(next: Graph, start: string, name: string, n: nat)
    decreases n
  {
    if n == 0 then name == start
    else exists prev :: Reach(next, start, prev, n - 1) && name in next(prev)
  }

  ghost predicate Distance(next: Graph, start: string, name: string, n: nat) {
    Reach(next, start, name, n) && forall m: nat :: m < n ==> !Reach(next, start, name, m)
  }

  /** The queue in mid-search: its first `near` names wait at depth `level`, the others one deeper. */
  datatype Queue = Queue(names: seq<string>, near: nat, level: nat) {
    function Depth(i: nat): nat {
      if i < near then level else level + 1
    }

    ghost predicate Holds(name: string, atMost: nat) {
      exists i :: 0 <= i < |names| && names[i] == name && Depth(i) <= atMost
    }

    /** The queue without its first name. */
    function Rest(): Queue
      requires names != []
    {
      if near > 0 then Queue(names[1..], near - 1, level) else Queue(names[1..], |names| - 1, level + 1)
    }

    /** The queue after its first name's successors have been appended. */
    function Step(added: seq<string>): Queue
      requires names != []
    {
      Rest().(names := names[1..] + added)
    }
  }

  /** The names taken so far, with their distances; none of them was a dead end. */
  ghost predicate Taken(next: Graph, start: string, dist: map<string, nat>, level: nat) {
    forall u :: u in dist ==> Distance(next, start, u, dist[u]) && next(u) != [] && dist[u] <= level
  }

  ghost predicate Reachable(next: Graph, start: string, q: Queue) {
    forall i :: 0 <= i < |q.names| ==> Reach(next, start, q.names[i], q.Depth(i))
  }

  /** Every successor of a taken name has been taken, or waits at a depth one larger at most. */
  ghost predicate Complete(next: Graph, q: Queue, dist: map<string, nat>) {
    forall u, t :: u in dist && t in next(u) ==> t in dist || q.Holds(t, dist[u] + 1)
  }

  ghost predicate Frontier(next: Graph, start: string, q: Queue, dist: map<string, nat>) {
    && q.near <= |q.names|
    && Reachable(next, start, q)
    && Taken(next, start, dist, if q.names == [] then q.level + 1 else q.Depth(0))
    && (start in dist || q.Holds(start, 0))
    && Complete(next, q, dist)
  }

  /** A path to a name not yet taken passes through the queue, at a depth no larger than its length. */
  lemma {:induction false} PathMeetsQueue(next: Graph, start: string, q: Queue, dist: map<string, nat>, name: string, n: nat)
    requires Frontier(next, start, q, dist)
    requires Reach(next, start, name, n) && name !in dist
    ensures q.names != [] && q.Depth(0) <= n
    decreases n
  {
    if n > 0 {
      var prev :| Reach(next, start, prev, n - 1) && name in next(prev);
      if prev in dist {
        assert Distance(next, start, prev, dist[prev]);
        assert q.Holds(name, dist[prev] + 1);
      } else {
        PathMeetsQueue(next, start, q, dist, prev, n - 1);
      }
    }
  }

  /** The first name of the queue, if not yet taken, is at its depth exactly. */
  lemma HeadDistance(next: Graph, start: string, q: Queue, dist: map<string, nat>)
    requires Frontier(next, start, q, dist) && q.names != [] && q.names[0] !in dist
    ensures Distance(next, start, q.names[0], q.Depth(0))
  {
    forall m: nat | m < q.Depth(0)
      ensures !Reach(next, start, q.names[0], m)
    {
      if Reach(next, start, q.names[0], m) {
        PathMeetsQueue(next, start, q, dist, q.names[0], m);
      }
    }
  }

  /** Dropping the first name, and appending others, keeps what waits behind it where it was. */
  lemma StepHolds(q: Queue, added: seq<string>, name: string, n: nat)
    requires q.names != [] && q.near <= |q.names|
    ensures q.Holds(name, n) && name != q.names[0] ==> q.Step(added).Holds(name, n)
    ensures name in added && q.Depth(0) + 1 <= n ==> q.Step(added).Holds(name, n)
  {
    var r := q.Step(added);
    if q.Holds(name, n) && name != q.names[0] {
      var i :| 0 <= i < |q.names| && q.names[i] == name && q.Depth(i) <= n;
      assert r.names[i - 1] == name && r.Depth(i - 1) == q.Depth(i);
    }
    if name in added && q.Depth(0) + 1 <= n {
      var i :| 0 <= i < |added| && added[i] == name;
      assert r.names[|q.names| - 1 + i] == name && r.Depth(|q.names| - 1 + i) == q.Depth(0) + 1;
    }
  }

  lemma StepReachable(next: Graph, start: string, q: Queue, added: seq<string>)
    requires q.names != [] && q.near <= |q.names| && Reachable(next, start, q)
    requires forall t :: t in added ==> t in next(q.names[0])
    ensures Reachable(next, start, q.Step(added))
  {
    var r := q.Step(added);
    forall i | 0 <= i < |r.names|
      ensures Reach(next, start, r.names[i], r.Depth(i))
    {
      if i < |q.names| - 1 {
        assert r.names[i] == q.names[i + 1] && r.Depth(i) == q.Depth(i + 1);
      } else {
        assert r.names[i] in added && r.Depth(i) == q.Depth(0) + 1;
        assert Reach(next, start, q.names[0], q.Depth(0));
      }
    }
  }

  lemma StepComplete(next: Graph, q: Queue, dist: map<string, nat>, dist': map<string, nat>, added: seq<string>)
    requires q.names != [] && q.near <= |q.names| && Complete(next, q, dist)
    requires q.names[0] in dist' && (q.names[0] !in dist ==> dist' == dist[q.names[0] := q.Depth(0)])
    requires q.names[0] in dist ==> dist' == dist && added == []
    requires q.names[0] !in dist ==> forall t :: t in added <==> t in next(q.names[0]) && t !in dist'
    ensures Complete(next, q.Step(added), dist')
  {
    forall u, t | u in dist' && t in next(u) && t !in dist'
      ensures q.Step(added).Holds(t, dist'[u] + 1)
    {
      StepHolds(q, added, t, dist'[u] + 1);
    }
  }

  lemma StartTaken(next: Graph, start: string, q: Queue, dist: map<string, nat>)
    requires Frontier(next, start, q, dist) && q.names != []
    ensures start in dist || start == q.names[0]
  {
    if start !in dist {
      assert q.Depth(0) == 0;
      assert Reach(next, start, q.names[0], 0);
    }
  }

  lemma SkipKeepsFrontier(next: Graph, start: string, q: Queue, dist: map<string, nat>)
    requires Frontier(next, start, q, dist) && q.names != [] && q.names[0] in dist
    ensures Frontier(next, start, q.Step([]), dist)
  {
    StepReachable(next, start, q, []);
    StepComplete(next, q, dist, dist, []);
    StartTaken(next, start, q, dist);
  }

  /** Taking the first name and queueing its successors one level deeper keeps the frontier. */
  lemma StepKeepsFrontier(next: Graph, start: string, q: Queue, dist: map<string, nat>, added: seq<string>)
    requires Frontier(next, start, q, dist) && q.names != [] && q.names[0] !in dist && next(q.names[0]) != []
    requires forall t :: t in added <==> t in next(q.names[0]) && t !in dist && t != q.names[0]
    ensures Frontier(next, start, q.Step(added), dist[q.names[0] := q.Depth(0)])
  {
    var dist' := dist[q.names[0] := q.Depth(0)];
    HeadDistance(next, start, q, dist);
    StepReachable(next, start, q, added);
    StepComplete(next, q, dist, dist', added);
    StartTaken(next, start, q, dist);
  }

  // ----- the search state without its depths

  /** Nothing in the queue is nearer than `level`, where the search has got to. */
  ghost predicate Explored(next: Graph, start: string, pending: seq<string>, seen: set<string>, level: nat) {
    exists q: Queue, dist: map<string, nat> ::
      q.names == pending && dist.Keys == seen && Frontier(next, start, q, dist) && (pending != [] ==> level <= q.Depth(0))
  }

  lemma ExploredAtStart(next: Graph, start: string)
    ensures Explored(next, start, [start], {}, 0)
  {
    var none: map<string, nat> := map[];
    var q := Queue([start], 1, 0);
    assert none.Keys == {} && q.names[0] == start;
    assert Frontier(next, start, q, none);
  }

  lemma ExploredSkips(next: Graph, start: string, pending: seq<string>, seen: set<string>, level: nat)
    requires Explored(next, start, pending, seen, level) && pending != [] && pending[0] in seen
    ensures Explored(next, start, pending[1..], seen, level)
  {
    var q: Queue, dist: map<string, nat> :|
      q.names == pending && dist.Keys == seen && Frontier(next, start, q, dist) && (pending != [] ==> level <= q.Depth(0));
    SkipKeepsFrontier(next, start, q, dist);
    assert q.Step([]).names == pending[1..];
  }

  /** The next name is at a distance `d` not below the level, and every dead end is at least as far. */
  lemma ExploredHead(next: Graph, start: string, pending: seq<string>, seen: set<string>, level: nat) returns (d: nat)
    requires Explored(next, start, pending, seen, level) && pending != [] && pending[0] !in seen
    ensures level <= d && Distance(next, start, pending[0], d)
    ensures forall other, m: nat :: next(other) == [] && Reach(next, start, other, m) ==> d <= m
  {
    var q: Queue, dist: map<string, nat> :|
      q.names == pending && dist.Keys == seen && Frontier(next, start, q, dist) && (pending != [] ==> level <= q.Depth(0));
    d := q.Depth(0);
    HeadDistance(next, start, q, dist);
    forall other, m: nat | next(other) == [] && Reach(next, start, other, m)
      ensures d <= m
    {
      PathMeetsQueue(next, start, q, dist, other, m);
    }
  }

  lemma FrontierSteps(next: Graph, start: string, q: Queue, dist: map<string, nat>, added: seq<string>)
    requires Frontier(next, start, q, dist) && q.names != [] && q.names[0] !in dist && next(q.names[0]) != []
    requires forall t :: t in added <==> t in next(q.names[0]) && t !in dist && t != q.names[0]
    ensures Distance(next, start, q.names[0], q.Depth(0))
    ensures Explored(next, start, q.names[1..] + added, dist.Keys + {q.names[0]}, q.Depth(0))
  {
    HeadDistance(next, start, q, dist);
    StepKeepsFrontier(next, start, q, dist, added);
    assert dist[q.names[0] := q.Depth(0)].Keys == dist.Keys + {q.names[0]};
  }

  lemma ExploredSteps(next: Graph, start: string, pending: seq<string>, seen: set<string>, level: nat, added: seq<string>) returns (d: nat)
    requires Explored(next, start, pending, seen, level) && pending != [] && pending[0] !in seen && next(pending[0]) != []
    requires forall t :: t in added <==> t in next(pending[0]) && t !in seen && t != pending[0]
    ensures level <= d && Distance(next, start, pending[0], d)
    ensures Explored(next, start, pending[1..] + added, seen + {pending[0]}, d)
  {
    var q: Queue, dist: map<string, nat> :|
      q.names == pending && dist.Keys == seen && Frontier(next, start, q, dist) && (pending != [] ==> level <= q.Depth(0));
    d := q.Depth(0);
    FrontierSteps(next, start, q, dist, added);
  }

  /** An empty queue: every name that can be reached has been taken, and none was a dead end. */
  lemma ExploredAll(next: Graph, start: string, seen: set<string>, level: nat)
    requires Explored(next, start, [], seen, level)
    ensures forall other, m: nat :: Reach(next, start, other, m) ==> next(other) != []
  {
    var q: Queue, dist: map<string, nat> :| q.names == [] && dist.Keys == seen && Frontier(next, start, q, dist);
    forall other, m: nat | Reach(next, start, other, m)
      ensures next(other) != []
    {
      if other !in dist {
        PathMeetsQueue(next, start, q, dist, other, m);
      }
    }
  }
}
