/**
 The order in which the loop of ChaseLoop asks for names, against any upstream: the order in which they were
 first led to, by lookup and then by place in the reply.
 */
module ChaseOrder {
  import opened Policy
  import opened ChaseLoop

  /** A place where a name was led to: the number of the lookup, and the index among its targets. */
  datatype Place = Place(lookup: nat, index: nat)

  predicate Before(a: Place, b: Place) {
    Earlier(a.lookup, a.index, b.lookup, b.index)
  }

  ghost predicate LedAt(env: View, asked: seq<string>, name: string, at: Place) {
    && at.lookup < |asked|
    && var v := env.ask(at.lookup + 1, asked[at.lookup]);
       v.Follow? && at.index < |v.targets| && v.targets[at.index] == name
  }

  ghost predicate FirstLed(env: View, asked: seq<string>, name: string, at: Place) {
    LedAt(env, asked, name, at) && forall b :: LedAt(env, asked, name, b) ==> b == at || Before(at, b)
  }

  /** Every lookup after the first was first led to at the given place, and these places are in order. */
  ghost predicate InOrderOfDiscovery(env: View, asked: seq<string>, first: seq<Place>) {
    && |first| == |asked|
    && (forall i :: 0 < i < |asked| ==> FirstLed(env, asked[..i], asked[i], first[i]))
    && (forall i, j :: 0 < i < j < |asked| ==> Before(first[i], first[j]))
  }

  ghost predicate Ascending(places: seq<Place>) {
    forall x, y :: 0 <= x < y < |places| ==> Before(places[x], places[y])
  }

  /** The queue in mid-search: it holds, in order of discovery, every place that leads to a name not yet asked for. */
  ghost predicate Discovered(env: View, pending: seq<string>, places: seq<Place>, seen: set<string>, asked: seq<string>, first: seq<Place>) {
    && |places| == |pending| && Ascending(places) && InOrderOfDiscovery(env, asked, first)
    && (forall n :: n in seen <==> n in asked)
    && (forall x :: 0 <= x < |pending| ==> LedAt(env, asked, pending[x], places[x]))
    && (forall name, at :: LedAt(env, asked, name, at) ==> name in seen || at in places)
    && (forall i, x :: 0 < i < |asked| && 0 <= x < |places| ==> Before(first[i], places[x]))
  }

  /** The places of the targets that are not in the set: all of them, in order. */
  lemma {:induction false} UnseenInOrder(targets: seq<string>, seen: set<string>, lookup: nat) returns (places: seq<Place>)
    ensures |places| == |Unseen(targets, seen)| && Ascending(places)
    ensures forall x :: 0 <= x < |places| ==>
              places[x].lookup == lookup && places[x].index < |targets| && targets[places[x].index] == Unseen(targets, seen)[x]
    ensures forall k :: 0 <= k < |targets| && targets[k] !in seen ==> Place(lookup, k) in places
  {
    if targets == [] {
      places := [];
    } else {
      var init, n := targets[..|targets| - 1], |targets| - 1;
      var before := UnseenInOrder(init, seen, lookup);
      places := before + (if targets[n] in seen then [] else [Place(lookup, n)]);
      forall k | 0 <= k < |targets| && targets[k] !in seen
        ensures Place(lookup, k) in places
      {
        if k < n {
          assert init[k] == targets[k];
        }
      }
    }
  }

  lemma LedAtGrows(env: View, asked: seq<string>, cur: string, name: string, at: Place)
    ensures at.lookup < |asked| ==> (LedAt(env, asked + [cur], name, at) <==> LedAt(env, asked, name, at))
    ensures at.lookup > |asked| ==> !LedAt(env, asked + [cur], name, at)
  {
  }

  /** The first name of the queue, not yet asked for, has not been led to before its place. */
  lemma HeadIsFirst(env: View, pending: seq<string>, places: seq<Place>, seen: set<string>, asked: seq<string>, first: seq<Place>)
    requires Discovered(env, pending, places, seen, asked, first) && pending != [] && pending[0] !in seen
    ensures FirstLed(env, asked, pending[0], places[0])
  {
    hide LedAt;
    forall b | LedAt(env, asked, pending[0], b)
      ensures b == places[0] || Before(places[0], b)
    {
      assert b in places;
      var x :| 0 <= x < |places| && places[x] == b;
    }
  }

  lemma AskKeepsOrder(env: View, asked: seq<string>, first: seq<Place>, cur: string, at: Place)
    requires InOrderOfDiscovery(env, asked, first) && asked != [] && FirstLed(env, asked, cur, at)
    requires forall i :: 0 < i < |asked| ==> Before(first[i], at)
    ensures InOrderOfDiscovery(env, asked + [cur], first + [at])
  {
    hide FirstLed;
    var more := asked + [cur];
    forall i | 0 < i < |more|
      ensures FirstLed(env, more[..i], more[i], (first + [at])[i])
    {
      assert more[..i] == asked[..i];
      assert i == |asked| ==> asked[..i] == asked;
    }
  }

  lemma SkipKeepsDiscovered(env: View, pending: seq<string>, places: seq<Place>, seen: set<string>, asked: seq<string>, first: seq<Place>)
    requires Discovered(env, pending, places, seen, asked, first) && pending != [] && pending[0] in seen
    ensures Discovered(env, pending[1..], places[1..], seen, asked, first)
  {
    hide InOrderOfDiscovery;
    forall name, at | LedAt(env, asked, name, at) && name !in seen
      ensures at in places[1..]
    {
      var x :| 0 <= x < |places| && places[x] == at;
      assert LedAt(env, asked, pending[x], places[x]);
      assert pending[x] == name;
      assert places[1..][x - 1] == at;
    }
  }

  /** Asking for the first name and queueing its unseen targets. */
  lemma StepKeepsDiscovered(env: View, pending: seq<string>, places: seq<Place>, seen: set<string>, asked: seq<string>,
                            first: seq<Place>, targets: seq<string>) returns (places': seq<Place>)
    requires Discovered(env, pending, places, seen, asked, first) && asked != [] && pending != [] && pending[0] !in seen
    requires env.ask(|asked| + 1, pending[0]) == Follow(targets)
    ensures Discovered(env, pending[1..] + Unseen(targets, seen + {pending[0]}), places', seen + {pending[0]}, asked + [pending[0]], first + [places[0]])
  {
    var cur, seen' := pending[0], seen + {pending[0]};
    HeadIsFirst(env, pending, places, seen, asked, first);
    AskKeepsOrder(env, asked, first, cur, places[0]);
    var added := UnseenInOrder(targets, seen', |asked|);
    places' := places[1..] + added;
    QueueGrows(env, pending, places, asked, targets, Unseen(targets, seen'), added);
    AllPlaces(env, pending, places, seen, asked, targets, added);
    BeforeAll(first, places, added, |asked|);
  }

  lemma QueueGrows(env: View, pending: seq<string>, places: seq<Place>, asked: seq<string>, targets: seq<string>, unseen: seq<string>, added: seq<Place>)
    requires |places| == |pending| > 0 && Ascending(places) && Ascending(added) && |added| == |unseen|
    requires forall x :: 0 <= x < |pending| ==> LedAt(env, asked, pending[x], places[x])
    requires env.ask(|asked| + 1, pending[0]) == Follow(targets)
    requires forall x :: 0 <= x < |added| ==> added[x].lookup == |asked| && added[x].index < |targets| && targets[added[x].index] == unseen[x]
    ensures Ascending(places[1..] + added)
    ensures forall x :: 0 <= x < |pending[1..] + unseen| ==>
              LedAt(env, asked + [pending[0]], (pending[1..] + unseen)[x], (places[1..] + added)[x])
  {
    var rest, names, all := pending[1..], pending[1..] + unseen, places[1..] + added;
    forall x | 0 <= x < |names|
      ensures LedAt(env, asked + [pending[0]], names[x], all[x])
    {
      if x < |rest| {
        assert LedAt(env, asked, pending[x + 1], places[x + 1]);
        LedAtGrows(env, asked, pending[0], pending[x + 1], places[x + 1]);
      }
    }
    forall x, y | 0 <= x < y < |all|
      ensures Before(all[x], all[y])
    {
      if x < |rest| && |rest| <= y {
        assert LedAt(env, asked, pending[x + 1], places[x + 1]);
      }
    }
  }

  lemma AllPlaces(env: View, pending: seq<string>, places: seq<Place>, seen: set<string>, asked: seq<string>, targets: seq<string>, added: seq<Place>)
    requires |places| == |pending| > 0 && env.ask(|asked| + 1, pending[0]) == Follow(targets)
    requires forall x :: 0 <= x < |pending| ==> LedAt(env, asked, pending[x], places[x])
    requires forall name, at :: LedAt(env, asked, name, at) ==> name in seen || at in places
    requires forall k :: 0 <= k < |targets| && targets[k] !in seen + {pending[0]} ==> Place(|asked|, k) in added
    ensures forall name, at :: LedAt(env, asked + [pending[0]], name, at) ==> name in seen + {pending[0]} || at in places[1..] + added
  {
    forall name, at | LedAt(env, asked + [pending[0]], name, at) && name !in seen + {pending[0]}
      ensures at in places[1..] + added
    {
      LedAtGrows(env, asked, pending[0], name, at);
      if at.lookup < |asked| {
        var x :| 0 <= x < |places| && places[x] == at;
        assert LedAt(env, asked, pending[x], places[x]);
        assert places[1..][x - 1] == at;
      } else {
        assert at == Place(|asked|, at.index);
      }
    }
  }

  lemma BeforeAll(first: seq<Place>, places: seq<Place>, added: seq<Place>, n: nat)
    requires places != [] && Ascending(places) && places[0].lookup < n && |first| == n
    requires forall i, x :: 0 < i < n && 0 <= x < |places| ==> Before(first[i], places[x])
    requires forall x :: 0 <= x < |added| ==> added[x].lookup == n
    ensures forall i, x :: 0 < i < n + 1 && 0 <= x < |places[1..] + added| ==> Before((first + [places[0]])[i], (places[1..] + added)[x])
  {
    forall i, x | 0 < i < n + 1 && 0 <= x < |places[1..] + added|
      ensures Before((first + [places[0]])[i], (places[1..] + added)[x])
    {
      if i < n {
        assert Before(first[i], places[0]);
      }
    }
  }

  lemma AskNext(env: View, pending: seq<string>, places: seq<Place>, seen: set<string>, asked: seq<string>, first: seq<Place>)
    requires Discovered(env, pending, places, seen, asked, first) && asked != [] && pending != [] && pending[0] !in seen
    ensures places != [] && InOrderOfDiscovery(env, asked + [pending[0]], first + [places[0]])
  {
    HeadIsFirst(env, pending, places, seen, asked, first);
    AskKeepsOrder(env, asked, first, pending[0], places[0]);
  }

  lemma SoFarInOrder(env: View, pending: seq<string>, places: seq<Place>, seen: set<string>, asked: seq<string>, first: seq<Place>)
    requires Discovered(env, pending, places, seen, asked, first)
    ensures |places| == |pending| && InOrderOfDiscovery(env, asked, first)
  {
  }

  lemma {:induction false} LoopInOrder(env: View, pending: seq<string>, places: seq<Place>, seen: set<string>, asked: seq<string>,
                                       first: seq<Place>, turn: nat) returns (order: seq<Place>)
    requires Discovered(env, pending, places, seen, asked, first) && asked != []
    ensures InOrderOfDiscovery(env, Loop(env, pending, seen, asked, turn).asked, order)
    decreases env.maxHops - |asked|, |pending|
  {
    hide Discovered, InOrderOfDiscovery, Unseen;
    order := first;
    SoFarInOrder(env, pending, places, seen, asked, first);
    if pending != [] && env.ctxErr(turn).None? {
      var cur, k := pending[0], |asked| + 1;
      if cur in seen {
        SkipKeepsDiscovered(env, pending, places, seen, asked, first);
        order := LoopInOrder(env, pending[1..], places[1..], seen, asked, first, turn + 1);
      } else if k <= env.maxHops && env.budget(k) > 0 {
        AskNext(env, pending, places, seen, asked, first);
        order := first + [places[0]];
        if env.ask(k, cur).Follow? {
          var targets := env.ask(k, cur).targets;
          var places' := StepKeepsDiscovered(env, pending, places, seen, asked, first, targets);
          order := LoopInOrder(env, pending[1..] + Unseen(targets, seen + {cur}), places', seen + {cur}, asked + [cur], order, turn + 1);
        }
      }
    }
  }

  /** From the start: the first lookup is for the start itself, and its targets are the first places. */
  lemma StartInOrder(env: View, start: string) returns (order: seq<Place>)
    ensures InOrderOfDiscovery(env, Loop(env, [start], {}, [], 0).asked, order)
  {
    order := [];
    if env.ctxErr(0).None? && 1 <= env.maxHops && env.budget(1) > 0 {
      order := [Place(0, 0)];
      if env.ask(1, start).Follow? {
        var targets := env.ask(1, start).targets;
        var places := UnseenInOrder(targets, {} + {start}, 0);
        FirstDiscovered(env, start, targets, places);
        assert [start][1..] == [] && [] + [start] == [start] && [] + Unseen(targets, {} + {start}) == Unseen(targets, {} + {start});
        order := LoopInOrder(env, Unseen(targets, {} + {start}), places, {} + {start}, [start], order, 1);
      }
    }
  }

  lemma FirstDiscovered(env: View, start: string, targets: seq<string>, places: seq<Place>)
    requires env.ask(1, start) == Follow(targets)
    requires |places| == |Unseen(targets, {} + {start})| && Ascending(places)
    requires forall x :: 0 <= x < |places| ==>
               places[x].lookup == 0 && places[x].index < |targets| && targets[places[x].index] == Unseen(targets, {} + {start})[x]
    requires forall k :: 0 <= k < |targets| && targets[k] !in {} + {start} ==> Place(0, k) in places
    ensures Discovered(env, Unseen(targets, {} + {start}), places, {} + {start}, [start], [Place(0, 0)])
  {
    forall name, at | LedAt(env, [start], name, at) && name != start
      ensures at in places
    {
      assert at == Place(0, at.index);
    }
  }
}
