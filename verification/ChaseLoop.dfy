/**
 The loop of `Chase` in internal/upstream/chase.go: a queue of names, a set of names already asked for,
 and a hop cap, over an upstream that is any function from lookups to verdicts.
 */
module ChaseLoop {
  import opened Netip
  import opened Policy
  import opened Frontiers

  /** What one exchange means for the chase: it ends with an outcome, or it goes on to other names. */
  datatype Verdict = End(outcome: Result) | Follow(targets: seq<string>)

  function Outcome(server: Addr, state: State, addrs: seq<Addr>, soa: Option<SOA>, ttl: U32, err: string): Result {
    Result(server, false, addrs, state, soa, ttl, err)
  }

  function Fail(server: Addr, err: string): Result {
    Outcome(server, Failure, [], None, 0, err)
  }

  /**
   What the loop sees of the outside: the context error at the i-th turn, the time budget of the k-th
   lookup, and the verdict on the reply to the k-th lookup.
   */
  datatype View = View(server: Addr, maxHops: int, ctxErr: nat -> Option<string>, budget: nat -> int,
                       ask: (nat, string) -> Verdict)

  /** An answer carries at least one address and no duplicates, nothing else carries any, and a verdict to go on names a target. */
  ghost predicate WellFormedVerdict(v: Verdict) {
    match v
    case End(r) => (r.state.Answer? <==> r.addrs != []) && NoDuplicates(r.addrs)
    case Follow(targets) => targets != []
  }

  ghost predicate WellJudged(env: View) {
    forall k, name :: WellFormedVerdict(env.ask(k, name))
  }

  /** What a chase returned, the names it asked for in order, and whether it ended at the hop cap or out of time. */
  datatype Run = Run(result: Result, asked: seq<string>, cut: bool)

  function Unseen(targets: seq<string>, seen: set<string>): seq<string> {
    if targets == [] then []
    else Unseen(targets[..|targets| - 1], seen)
         + (if targets[|targets| - 1] in seen then [] else [targets[|targets| - 1]])
  }

  /** The loop of `Chase` from a given state; `turn` counts its turns and `asked` the lookups made. */
  function Loop(env: View, pending: seq<string>, seen: set<string>, asked: seq<string>, turn: nat): Run
    decreases env.maxHops - |asked|, |pending|
  {
    if pending == [] then Run(Outcome(env.server, NoData, [], None, 0, ""), asked, false)
    else if env.ctxErr(turn).Some? then Run(Fail(env.server, env.ctxErr(turn).value), asked, true)
    else
      var cur, rest := pending[0], pending[1..];
      var k := |asked| + 1;
      if cur in seen then Loop(env, rest, seen, asked, turn + 1)
      else if k > env.maxHops then Run(Fail(env.server, "cname-maxdepth"), asked, true)
      else if env.budget(k) <= 0 then Run(Fail(env.server, "timeout"), asked, true)
      else
        match env.ask(k, cur)
        case End(outcome) => Run(outcome, asked + [cur], false)
        case Follow(targets) =>
          Loop(env, rest + Unseen(targets, seen + {cur}), seen + {cur}, asked + [cur], turn + 1)
  }

  // ----- against any upstream

  /** Some earlier lookup returned a CNAME from its name to this one. */
  ghost predicate Grounded(env: View, asked: seq<string>, name: string) {
    exists j :: 0 <= j < |asked| && Leads(env, asked, j, name)
  }

  ghost predicate Leads(env: View, asked: seq<string>, j: nat, name: string)
    requires j < |asked|
  {
    env.ask(j + 1, asked[j]).Follow? && name in env.ask(j + 1, asked[j]).targets
  }

  ghost predicate Distinct(names: seq<string>) {
    forall i, j :: 0 <= i < j < |names| ==> names[i] != names[j]
  }

  /** The lookups of a chase for `start`: all different, and each after the first led to by an earlier one. */
  ghost predicate Traceable(env: View, start: string, asked: seq<string>) {
    && Distinct(asked)
    && (asked != [] ==> asked[0] == start)
    && forall i :: 0 < i < |asked| ==> Grounded(env, asked[..i], asked[i])
  }

  ghost predicate LoopState(env: View, start: string, pending: seq<string>, seen: set<string>, asked: seq<string>) {
    && Traceable(env, start, asked)
    && (forall n :: n in seen <==> n in asked)
    && (if asked == [] then pending == [start] else forall n :: n in pending ==> Grounded(env, asked, n))
    && (asked == [] || |asked| <= env.maxHops)
  }

  lemma {:induction false} UnseenMembers(targets: seq<string>, seen: set<string>)
    ensures forall t :: t in Unseen(targets, seen) <==> t in targets && t !in seen
  {
    if targets != [] {
      UnseenMembers(targets[..|targets| - 1], seen);
      assert targets == targets[..|targets| - 1] + [targets[|targets| - 1]];
    }
  }

  lemma GroundedGrows(env: View, asked: seq<string>, cur: string, name: string)
    requires Grounded(env, asked, name)
    ensures Grounded(env, asked + [cur], name)
  {
    var j :| 0 <= j < |asked| && Leads(env, asked, j, name);
    assert Leads(env, asked + [cur], j, name);
  }

  lemma TraceGrows(env: View, start: string, asked: seq<string>, cur: string)
    requires Traceable(env, start, asked) && cur !in asked
    requires if asked == [] then cur == start else Grounded(env, asked, cur)
    ensures Traceable(env, start, asked + [cur])
  {
    var more := asked + [cur];
    forall i | 0 < i < |more|
      ensures Grounded(env, more[..i], more[i])
    {
      assert more[..i] == asked[..i];
      assert i == |asked| ==> asked[..i] == asked;
    }
  }

  lemma StateGrows(env: View, start: string, pending: seq<string>, seen: set<string>, asked: seq<string>)
    requires LoopState(env, start, pending, seen, asked) && pending != []
    requires pending[0] !in seen && |asked| + 1 <= env.maxHops && env.ask(|asked| + 1, pending[0]).Follow?
    ensures var cur := pending[0]; var targets := env.ask(|asked| + 1, cur).targets;
            LoopState(env, start, pending[1..] + Unseen(targets, seen + {cur}), seen + {cur}, asked + [cur])
  {
    var cur, more := pending[0], asked + [pending[0]];
    var targets := env.ask(|asked| + 1, cur).targets;
    assert cur in pending;
    TraceGrows(env, start, asked, cur);
    UnseenMembers(targets, seen + {cur});
    forall n | n in pending[1..]
      ensures Grounded(env, more, n)
    {
      assert n in pending;
      GroundedGrows(env, asked, cur, n);
    }
    forall n | n in targets
      ensures Grounded(env, more, n)
    {
      assert Leads(env, more, |asked|, n);
    }
  }

  lemma {:induction false} LoopIsSafe(env: View, start: string, pending: seq<string>, seen: set<string>, asked: seq<string>, turn: nat)
    requires LoopState(env, start, pending, seen, asked)
    ensures var run := Loop(env, pending, seen, asked, turn);
            Traceable(env, start, run.asked) && (run.asked == [] || |run.asked| <= env.maxHops)
    decreases env.maxHops - |asked|, |pending|
  {
    if pending != [] && env.ctxErr(turn).None? {
      var cur, k := pending[0], |asked| + 1;
      if cur in seen {
        SkipKeepsState(env, start, pending, seen, asked);
        LoopIsSafe(env, start, pending[1..], seen, asked, turn + 1);
      } else if k <= env.maxHops && env.budget(k) > 0 {
        if env.ask(k, cur).Follow? {
          var targets := env.ask(k, cur).targets;
          StateGrows(env, start, pending, seen, asked);
          LoopIsSafe(env, start, pending[1..] + Unseen(targets, seen + {cur}), seen + {cur}, asked + [cur], turn + 1);
        } else {
          assert cur in pending;
          TraceGrows(env, start, asked, cur);
        }
      }
    }
  }

  lemma SkipKeepsState(env: View, start: string, pending: seq<string>, seen: set<string>, asked: seq<string>)
    requires LoopState(env, start, pending, seen, asked) && pending != [] && pending[0] in seen
    ensures LoopState(env, start, pending[1..], seen, asked)
  {
    assert forall n :: n in pending[1..] ==> n in pending;
  }

  /** The result of the loop is well formed whatever the upstream does. */
  lemma {:induction false} LoopWellFormed(env: View, pending: seq<string>, seen: set<string>, asked: seq<string>, turn: nat)
    requires WellJudged(env)
    ensures WellFormedVerdict(End(Loop(env, pending, seen, asked, turn).result))
    decreases env.maxHops - |asked|, |pending|
  {
    if pending != [] && env.ctxErr(turn).None? {
      var cur, k := pending[0], |asked| + 1;
      if cur in seen {
        LoopWellFormed(env, pending[1..], seen, asked, turn + 1);
      } else if k <= env.maxHops && env.budget(k) > 0 {
        assert WellFormedVerdict(env.ask(k, cur));
        if env.ask(k, cur).Follow? {
          LoopWellFormed(env, pending[1..] + Unseen(env.ask(k, cur).targets, seen + {cur}), seen + {cur}, asked + [cur], turn + 1);
        }
      }
    }
  }

  /** A positive or NXDOMAIN outcome is the verdict on the last lookup made. */
  lemma {:induction false} LoopEndsAtLast(env: View, pending: seq<string>, seen: set<string>, asked: seq<string>, turn: nat)
    requires Loop(env, pending, seen, asked, turn).result.state in {Answer, NXDomain}
    ensures var run := Loop(env, pending, seen, asked, turn);
            run.asked != [] && env.ask(|run.asked|, run.asked[|run.asked| - 1]) == End(run.result)
    decreases env.maxHops - |asked|, |pending|
  {
    var cur, k := pending[0], |asked| + 1;
    if cur in seen {
      LoopEndsAtLast(env, pending[1..], seen, asked, turn + 1);
    } else if env.ask(k, cur).Follow? {
      LoopEndsAtLast(env, pending[1..] + Unseen(env.ask(k, cur).targets, seen + {cur}), seen + {cur}, asked + [cur], turn + 1);
    }
  }

  /** The chase was given up: on an error of its context, at the hop cap, or with no time left for the next lookup. */
  ghost predicate GivenUp(env: View, run: Run) {
    || (exists i :: env.ctxErr(i).Some? && run.result == Fail(env.server, env.ctxErr(i).value))
    || (|run.asked| >= env.maxHops && run.result == Fail(env.server, "cname-maxdepth"))
    || (|run.asked| < env.maxHops && env.budget(|run.asked| + 1) <= 0 && run.result == Fail(env.server, "timeout"))
  }

  /** Every lookup is made in time and within the cap, and none once the context has ended. */
  lemma {:induction false} LoopInTime(env: View, pending: seq<string>, seen: set<string>, asked: seq<string>, turn: nat, stop: nat)
    requires turn <= stop && forall k: nat :: 1 <= k <= |asked| ==> env.budget(k) > 0
    ensures var run := Loop(env, pending, seen, asked, turn);
            && (forall k: nat :: 1 <= k <= |run.asked| ==> env.budget(k) > 0)
            && ((forall t: nat :: stop <= t ==> env.ctxErr(t).Some?) ==> |run.asked| + turn <= |asked| + stop)
    decreases env.maxHops - |asked|, |pending|
  {
    hide Unseen;
    if pending != [] && env.ctxErr(turn).None? {
      var cur, k := pending[0], |asked| + 1;
      if turn < stop {
        if cur in seen {
          LoopInTime(env, pending[1..], seen, asked, turn + 1, stop);
        } else if k <= env.maxHops && env.budget(k) > 0 && env.ask(k, cur).Follow? {
          LoopInTime(env, pending[1..] + Unseen(env.ask(k, cur).targets, seen + {cur}), seen + {cur}, asked + [cur], turn + 1, stop);
        }
      } else {
        if cur in seen {
          LoopInTime(env, pending[1..], seen, asked, turn + 1, turn + 1);
        } else if k <= env.maxHops && env.budget(k) > 0 && env.ask(k, cur).Follow? {
          LoopInTime(env, pending[1..] + Unseen(env.ask(k, cur).targets, seen + {cur}), seen + {cur}, asked + [cur], turn + 1, turn + 1);
        }
      }
    }
  }

  /** The last lookup of the run, if any, was followed. */
  ghost predicate Followed(env: View, asked: seq<string>) {
    asked == [] || env.ask(|asked|, asked[|asked| - 1]).Follow?
  }

  /** The loop is given up, or ends with the verdict on the last lookup, or has followed everything to no end. */
  lemma {:induction false} LoopEnds(env: View, pending: seq<string>, seen: set<string>, asked: seq<string>, turn: nat)
    requires Followed(env, asked)
    ensures var run := Loop(env, pending, seen, asked, turn);
            if run.cut then GivenUp(env, run) && Followed(env, run.asked)
            else if Followed(env, run.asked) then run.result == Outcome(env.server, NoData, [], None, 0, "")
            else env.ask(|run.asked|, run.asked[|run.asked| - 1]) == End(run.result)
    decreases env.maxHops - |asked|, |pending|
  {
    hide Unseen;
    if pending != [] && env.ctxErr(turn).None? {
      var cur, k := pending[0], |asked| + 1;
      if cur in seen {
        LoopEnds(env, pending[1..], seen, asked, turn + 1);
      } else if k <= env.maxHops && env.budget(k) > 0 && env.ask(k, cur).Follow? {
        LoopEnds(env, pending[1..] + Unseen(env.ask(k, cur).targets, seen + {cur}), seen + {cur}, asked + [cur], turn + 1);
      }
    }
  }

  // ----- against a fixed zone

  /** Replies do not depend on when a name is asked for. */
  ghost predicate IsZone(env: View) {
    forall k, name :: env.ask(k, name) == env.ask(0, name)
  }

  /** There is always time for one more lookup. */
  ghost predicate InTime(env: View) {
    (forall i :: env.ctxErr(i).None?) && (forall k :: env.budget(k) > 0)
  }

  /** The CNAME graph of a zone: no targets at the names where a chase ends. */
  function Next(env: View): string -> seq<string> {
    (name: string) => match env.ask(0, name) case End(_) => [] case Follow(targets) => targets
  }

  lemma NextIsAsk(env: View, k: nat, name: string)
    requires IsZone(env) && WellJudged(env)
    ensures env.ask(k, name) == env.ask(0, name)
    ensures env.ask(k, name).End? <==> Next(env)(name) == []
    ensures env.ask(k, name).Follow? ==> Next(env)(name) == env.ask(k, name).targets
  {
    assert env.ask(k, name) == env.ask(0, name);
    assert WellFormedVerdict(env.ask(0, name));
  }

  /** What a chase of a zone may conclude. */
  ghost predicate NearestOutcome(env: View, start: string, run: Run) {
    var next := Next(env);
    || (run.cut && GivenUp(env, run))
    || (exists name, n: nat :: Distance(next, start, name, n) && next(name) == [] && env.ask(0, name) == End(run.result)
                               && forall other, m: nat :: next(other) == [] && Reach(next, start, other, m) ==> n <= m)
    || (run.result == Outcome(env.server, NoData, [], None, 0, "")
        && forall other, m: nat :: Reach(next, start, other, m) ==> next(other) != [])
  }

  /** The lookups are in order of distance, and none is beyond `level`. */
  ghost predicate ByDistance(env: View, start: string, asked: seq<string>, ds: seq<nat>, level: nat) {
    && |ds| == |asked|
    && (forall i :: 0 <= i < |asked| ==> Distance(Next(env), start, asked[i], ds[i]) && ds[i] <= level)
    && (forall i, j :: 0 <= i < j < |ds| ==> ds[i] <= ds[j])
  }

  ghost predicate Sorted(env: View, start: string, asked: seq<string>, level: nat) {
    exists ds :: ByDistance(env, start, asked, ds, level)
  }

  lemma SortedGrows(env: View, start: string, asked: seq<string>, level: nat, cur: string, d: nat)
    requires Sorted(env, start, asked, level) && level <= d && Distance(Next(env), start, cur, d)
    ensures Sorted(env, start, asked + [cur], d)
  {
    var ds :| ByDistance(env, start, asked, ds, level);
    assert ByDistance(env, start, asked + [cur], ds + [d], d);
  }

  lemma {:induction false} LoopFindsNearest(env: View, start: string, pending: seq<string>, seen: set<string>, asked: seq<string>,
                                            turn: nat, level: nat) returns (far: nat)
    requires IsZone(env) && WellJudged(env)
    requires Explored(Next(env), start, pending, seen, level) && Sorted(env, start, asked, level)
    ensures NearestOutcome(env, start, Loop(env, pending, seen, asked, turn))
    ensures Sorted(env, start, Loop(env, pending, seen, asked, turn).asked, far)
    decreases env.maxHops - |asked|, |pending|
  {
    hide Explored, Sorted, Unseen, IsZone, WellJudged, Distance, Reach;
    far := level;
    if pending == [] {
      ExploredAll(Next(env), start, seen, level);
    } else if env.ctxErr(turn).None? {
      var cur, k := pending[0], |asked| + 1;
      if cur in seen {
        ExploredSkips(Next(env), start, pending, seen, level);
        far := LoopFindsNearest(env, start, pending[1..], seen, asked, turn + 1, level);
      } else if k <= env.maxHops && env.budget(k) > 0 {
        NextIsAsk(env, k, cur);
        if Next(env)(cur) == [] {
          far := ExploredHead(Next(env), start, pending, seen, level);
          SortedGrows(env, start, asked, level, cur, far);
        } else {
          var added := Unseen(Next(env)(cur), seen + {cur});
          UnseenMembers(Next(env)(cur), seen + {cur});
          var d := ExploredSteps(Next(env), start, pending, seen, level, added);
          SortedGrows(env, start, asked, level, cur, d);
          far := LoopFindsNearest(env, start, pending[1..] + added, seen + {cur}, asked + [cur], turn + 1, d);
        }
      }
    }
  }

  lemma LoopFollows(env: View, pending: seq<string>, seen: set<string>, asked: seq<string>, turn: nat)
    requires IsZone(env) && InTime(env) && WellJudged(env)
    requires pending != [] && pending[0] !in seen && |asked| + 1 <= env.maxHops && Next(env)(pending[0]) != []
    ensures Loop(env, pending, seen, asked, turn)
         == Loop(env, pending[1..] + Unseen(Next(env)(pending[0]), seen + {pending[0]}), seen + {pending[0]}, asked + [pending[0]], turn + 1)
  {
    NextIsAsk(env, |asked| + 1, pending[0]);
    assert env.budget(|asked| + 1) > 0;
  }

  // ----- one CNAME per name

  /** The plain chain walk: follow the one target until the chain ends, repeats, or is too long. */
  function Walk(env: View, name: string, seen: set<string>, hops: nat): Result
    decreases env.maxHops - hops
  {
    if name in seen then Outcome(env.server, NoData, [], None, 0, "")
    else if hops + 1 > env.maxHops then Fail(env.server, "cname-maxdepth")
    else
      match env.ask(0, name)
      case End(outcome) => outcome
      case Follow(targets) =>
        if targets == [] then Outcome(env.server, NoData, [], None, 0, "")
        else Walk(env, targets[0], seen + {name}, hops + 1)
  }

  lemma {:induction false} LoopIsWalk(env: View, name: string, seen: set<string>, asked: seq<string>, turn: nat)
    requires IsZone(env) && InTime(env) && WellJudged(env) && forall n :: |Next(env)(n)| <= 1
    ensures Loop(env, [name], seen, asked, turn).result == Walk(env, name, seen, |asked|)
    decreases env.maxHops - |asked|
  {
    hide Unseen, IsZone, WellJudged;
    var k := |asked| + 1;
    assert [name][1..] == [];
    if name !in seen && k <= env.maxHops {
      NextIsAsk(env, k, name);
      var targets := Next(env)(name);
      if targets == [] {
        assert env.budget(k) > 0;
      } else {
        var t := targets[0];
        OneTarget(targets, seen + {name});
        LoopFollows(env, [name], seen, asked, turn);
        if t !in seen + {name} {
          LoopIsWalk(env, t, seen + {name}, asked + [name], turn + 1);
        }
      }
    }
  }

  lemma OneTarget(targets: seq<string>, seen: set<string>)
    requires |targets| == 1
    ensures [] + Unseen(targets, seen) == if targets[0] in seen then [] else [targets[0]]
  {
    assert targets[..0] == [];
  }
}
