/**
 The cache of internal/cache/cache.go as a list of entries, most recently used first, and the steps that
 its critical sections take on that list.  A step knows the clock when it took the lock and when it
 released it; every reading of the clock lies between the two.
 */
module CacheModel {
  import opened Policy

  type Time = int                          // nanoseconds
  const SECOND: Time := 1_000_000_000

  datatype Key = Key(name: string, qtype: nat)
  datatype Value<P> = Value(payload: P, ttl: U32, expires: Time)
  datatype Entry<P> = Entry(key: Key, value: Value<P>)

  // ----- lists of entries

  /** The position of a key, or the length of the list. */
  function Position<P>(es: seq<Entry<P>>, key: Key): (i: nat)
    ensures i <= |es| && (i < |es| ==> es[i].key == key)
    ensures forall j :: 0 <= j < i ==> es[j].key != key
  {
    if es == [] || es[0].key == key then 0 else 1 + Position(es[1..], key)
  }

  function RemoveAt<P>(es: seq<Entry<P>>, i: nat): seq<Entry<P>>
    requires i < |es|
  {
    es[..i] + es[i + 1..]
  }

  function MoveToFront<P>(es: seq<Entry<P>>, i: nat): seq<Entry<P>>
    requires i < |es|
  {
    [es[i]] + RemoveAt(es, i)
  }

  predicate DistinctKeys<P>(es: seq<Entry<P>>) {
    forall i, j :: 0 <= i < j < |es| ==> es[i].key != es[j].key
  }

  /** `Expires.After(t)` */
  predicate Live<P>(e: Entry<P>, t: Time) {
    e.value.expires > t
  }

  // ----- Get

  /** `time.Duration` addition: 64-bit two's complement, for a sum that leaves the range by at most one lap. */
  function Int64(x: int): int {
    if x > 0x7FFF_FFFF_FFFF_FFFF then x - 0x1_0000_0000_0000_0000
    else if x < -0x8000_0000_0000_0000 then x + 0x1_0000_0000_0000_0000
    else x
  }

  /** `Time.Sub` saturates. */
  function Sub(a: Time, b: Time): int {
    var d := a - b;
    if d > 0x7FFF_FFFF_FFFF_FFFF then 0x7FFF_FFFF_FFFF_FFFF
    else if d < -0x8000_0000_0000_0000 then -0x8000_0000_0000_0000
    else d
  }

  /** The two kinds of 64-bit arithmetic: addition wraps around, subtraction of times saturates. */
  lemma DurationArithmetic(x: int, a: Time, b: Time)
    requires -0x1_0000_0000_0000_0000 <= x <= 0x1_0000_0000_0000_0000
    ensures -0x8000_0000_0000_0000 <= Int64(x) < 0x8000_0000_0000_0000
    ensures Int64(x) in {x - 0x1_0000_0000_0000_0000, x, x + 0x1_0000_0000_0000_0000}
    ensures -0x8000_0000_0000_0000 <= Sub(a, b) < 0x8000_0000_0000_0000
    ensures -0x8000_0000_0000_0000 <= a - b < 0x8000_0000_0000_0000 ==> Sub(a, b) == a - b
    ensures a - b >= 0x8000_0000_0000_0000 ==> Sub(a, b) == 0x7FFF_FFFF_FFFF_FFFF
    ensures a - b < -0x8000_0000_0000_0000 ==> Sub(a, b) == -0x8000_0000_0000_0000
  {
  }

  /** Go's integer division truncates toward zero. */
  function Quotient(a: int, b: int): int
    requires b > 0
  {
    if a >= 0 then a / b else -(-a / b)
  }

  /** `uint32((remaining + time.Second - 1) / time.Second)` for a positive remaining time. */
  function ServedTTL(remaining: int): U32
    requires remaining > 0
  {
    Quotient(Int64(remaining + SECOND - 1), SECOND) % 0x1_0000_0000
  }

  function GetResult<P>(es: seq<Entry<P>>, key: Key, at: Time): Option<Value<P>> {
    var i := Position(es, key);
    if i == |es| then None
    else
      var remaining := Sub(es[i].value.expires, at);
      if remaining <= 0 then None else Some(es[i].value.(ttl := ServedTTL(remaining)))
  }

  function GetEntries<P>(es: seq<Entry<P>>, key: Key, at: Time): seq<Entry<P>> {
    var i := Position(es, key);
    if i == |es| then es
    else if Sub(es[i].value.expires, at) <= 0 then RemoveAt(es, i)
    else MoveToFront(es, i)
  }

  // ----- setLocked and evictLocked

  /**
   The choice of a victim, with the clock moving from t0 to t1 during the scan from the back: the first
   entry found expired, or the last one if every entry was live when it was looked at.
   */
  ghost predicate IsVictim<P>(es: seq<Entry<P>>, j: nat, t0: Time, t1: Time) {
    && j < |es|
    && (|| (!Live(es[j], t1) && forall i :: j < i < |es| ==> Live(es[i], t0))
        || (j == |es| - 1 && forall i :: 0 <= i < |es| ==> Live(es[i], t0)))
  }

  /** n victims leave a list that was too long each time. */
  ghost predicate Drops<P(!new)>(capacity: nat, es: seq<Entry<P>>, n: nat, es': seq<Entry<P>>, t0: Time, t1: Time)
    decreases n
  {
    if n == 0 then es' == es
    else exists mid: seq<Entry<P>>, j: nat :: Drops(capacity, es, n - 1, mid, t0, t1) && DropsOne(capacity, mid, j, es', t0, t1)
  }

  ghost predicate DropsOne<P(!new)>(capacity: nat, es: seq<Entry<P>>, j: nat, es': seq<Entry<P>>, t0: Time, t1: Time) {
    |es| > capacity && IsVictim(es, j, t0, t1) && es' == RemoveAt(es, j)
  }

  ghost predicate Evicts<P(!new)>(capacity: nat, es: seq<Entry<P>>, es': seq<Entry<P>>, t0: Time, t1: Time) {
    |es'| <= capacity && exists n: nat :: Drops(capacity, es, n, es', t0, t1)
  }

  /** A wider clock interval allows the same choices. */
  lemma {:induction false} DropsWiden<P(!new)>(capacity: nat, es: seq<Entry<P>>, n: nat, es': seq<Entry<P>>, t0: Time, t1: Time, t: Time)
    requires Drops(capacity, es, n, es', t0, t1) && t1 <= t
    ensures Drops(capacity, es, n, es', t0, t)
  {
    if n > 0 {
      var mid: seq<Entry<P>>, j: nat :| Drops(capacity, es, n - 1, mid, t0, t1) && DropsOne(capacity, mid, j, es', t0, t1);
      DropsWiden(capacity, es, n - 1, mid, t0, t1, t);
      assert DropsOne(capacity, mid, j, es', t0, t);
    }
  }

  /** One more victim, chosen later. */
  lemma DropsMore<P(!new)>(capacity: nat, es: seq<Entry<P>>, n: nat, mid: seq<Entry<P>>, j: nat, es': seq<Entry<P>>, t0: Time, t: Time, t1: Time)
    requires Drops(capacity, es, n, mid, t0, t) && t0 <= t <= t1 && DropsOne(capacity, mid, j, es', t, t1)
    ensures Drops(capacity, es, n + 1, es', t0, t1)
  {
    DropsWiden(capacity, es, n, mid, t0, t, t1);
    assert DropsOne(capacity, mid, j, es', t0, t1);
  }

  ghost predicate Puts<P(!new)>(capacity: nat, es: seq<Entry<P>>, e: Entry<P>, es': seq<Entry<P>>, t0: Time, t1: Time) {
    var i := Position(es, e.key);
    if i < |es| then es' == [e] + RemoveAt(es, i) else Evicts(capacity, [e] + es, es', t0, t1)
  }

  function Expiry(at: Time, ttl: U32): Time {
    at + ttl * SECOND
  }

  // ----- sweep

  function LiveOnes<P>(es: seq<Entry<P>>, t: Time): seq<Entry<P>> {
    if es == [] then [] else LiveOnes(es[..|es| - 1], t) + (if Live(es[|es| - 1], t) then [es[|es| - 1]] else [])
  }

  // ----- steps and runs

  datatype Op<P> =
    | Get(key: Key, at: Time)
    | Put(key: Key, payload: P, ttl: U32, at: Time)
    | Sweep(at: Time)
    | Flush
    | Idle                                 // a critical section that leaves the list alone, as in `Do`

  datatype Step<P> = Step(op: Op<P>, begin: Time, end: Time)

  ghost predicate StepOk<P(!new)>(capacity: nat, es: seq<Entry<P>>, st: Step<P>, es': seq<Entry<P>>) {
    && st.begin <= st.end
    && (st.op.Flush? || st.op.Idle? || st.begin <= st.op.at <= st.end)
    && match st.op
       case Get(key, at) => es' == GetEntries(es, key, at)
       case Put(key, payload, ttl, at) =>
         Puts(capacity, es, Entry(key, Value(payload, ttl, Expiry(at, ttl))), es', at, st.end)
       case Sweep(at) => es' == LiveOnes(es, at)
       case Flush => es' == []
       case Idle => es' == es
  }

  /** A run from the empty cache. */
  ghost predicate IsRun<P(!new)>(capacity: nat, states: seq<seq<Entry<P>>>, steps: seq<Step<P>>) {
    && |states| == |steps| + 1 && states[0] == []
    && (forall i :: 0 <= i < |steps| ==> StepOk(capacity, states[i], steps[i], states[i + 1]))
    && (forall i, j :: 0 <= i < j < |steps| ==> steps[i].end <= steps[j].begin)
  }

  // ----- what one step may do to an entry

  lemma RemoveAtMembers<P>(es: seq<Entry<P>>, i: nat)
    requires i < |es|
    ensures forall e :: e in RemoveAt(es, i) ==> e in es
    ensures DistinctKeys(es) ==> DistinctKeys(RemoveAt(es, i))
    ensures DistinctKeys(es) ==> forall e :: e in RemoveAt(es, i) ==> e.key != es[i].key
    ensures forall e :: e in es && e != es[i] ==> e in RemoveAt(es, i)
  {
    var r := RemoveAt(es, i);
    assert forall j :: 0 <= j < |r| ==> r[j] == es[if j < i then j else j + 1];
    forall e | e in es && e != es[i]
      ensures e in r
    {
      var j :| 0 <= j < |es| && es[j] == e;
      assert r[if j < i then j else j - 1] == e;
    }
  }

  lemma {:induction false} DropsMembers<P(!new)>(capacity: nat, es: seq<Entry<P>>, n: nat, es': seq<Entry<P>>, t0: Time, t1: Time)
    requires Drops(capacity, es, n, es', t0, t1)
    ensures forall e :: e in es' ==> e in es
    ensures DistinctKeys(es) ==> DistinctKeys(es')
  {
    if n > 0 {
      var mid: seq<Entry<P>>, j: nat :| Drops(capacity, es, n - 1, mid, t0, t1) && DropsOne(capacity, mid, j, es', t0, t1);
      DropsMembers(capacity, es, n - 1, mid, t0, t1);
      RemoveAtMembers(mid, j);
    }
  }

  lemma {:induction false} LiveOneAt<P>(es: seq<Entry<P>>, t: Time, i: nat) returns (j: nat)
    requires i < |LiveOnes(es, t)|
    ensures j < |es| && es[j] == LiveOnes(es, t)[i]
  {
    var init := es[..|es| - 1];
    if i < |LiveOnes(init, t)| {
      j := LiveOneAt(init, t, i);
    } else {
      j := |es| - 1;
    }
  }

  lemma {:induction false} LiveOnesMembers<P>(es: seq<Entry<P>>, t: Time)
    ensures forall e :: e in LiveOnes(es, t) ==> e in es && Live(e, t)
    ensures forall e :: e in es && Live(e, t) ==> e in LiveOnes(es, t)
    ensures |LiveOnes(es, t)| <= |es|
    ensures DistinctKeys(es) ==> DistinctKeys(LiveOnes(es, t))
  {
    if es != [] {
      var init, last := es[..|es| - 1], es[|es| - 1];
      LiveOnesMembers(init, t);
      assert es == init + [last];
      if DistinctKeys(es) {
        assert DistinctKeys(init);
        forall i | 0 <= i < |LiveOnes(init, t)|
          ensures LiveOnes(init, t)[i].key != last.key
        {
          var j := LiveOneAt(init, t, i);
        }
      }
    }
  }

  lemma FrontDistinct<P>(e: Entry<P>, es: seq<Entry<P>>)
    requires DistinctKeys(es) && forall x :: x in es ==> x.key != e.key
    ensures DistinctKeys([e] + es)
  {
    var all := [e] + es;
    forall i, j | 0 <= i < j < |all|
      ensures all[i].key != all[j].key
    {
      assert all[j] == es[j - 1] && es[j - 1] in es;
    }
  }

  /** The entry that a step writes, if it writes one. */
  function Written<P>(st: Step<P>): Option<Entry<P>> {
    match st.op
    case Put(key, payload, ttl, at) => Some(Entry(key, Value(payload, ttl, Expiry(at, ttl))))
    case _ => None
  }

  lemma GetMembers<P>(es: seq<Entry<P>>, key: Key, at: Time)
    ensures forall e :: e in GetEntries(es, key, at) ==> e in es
    ensures |GetEntries(es, key, at)| <= |es|
    ensures DistinctKeys(es) ==> DistinctKeys(GetEntries(es, key, at))
  {
    var i := Position(es, key);
    if i < |es| {
      RemoveAtMembers(es, i);
      if DistinctKeys(es) {
        FrontDistinct(es[i], RemoveAt(es, i));
      }
    }
  }

  lemma PutMembers<P(!new)>(capacity: nat, es: seq<Entry<P>>, e: Entry<P>, es': seq<Entry<P>>, t0: Time, t1: Time)
    requires Puts(capacity, es, e, es', t0, t1) && DistinctKeys(es) && |es| <= capacity
    ensures forall x :: x in es' ==> x == e || (x in es && x.key != e.key)
    ensures DistinctKeys(es') && |es'| <= capacity
  {
    var i := Position(es, e.key);
    if i < |es| {
      RemoveAtMembers(es, i);
      FrontDistinct(e, RemoveAt(es, i));
    } else {
      forall x | x in es
        ensures x.key != e.key
      {
        var j :| 0 <= j < |es| && es[j] == x;
      }
      FrontDistinct(e, es);
      var n: nat :| Drops(capacity, [e] + es, n, es', t0, t1);
      DropsMembers(capacity, [e] + es, n, es', t0, t1);
    }
  }

  /**
   What every step keeps: keys stay distinct and the capacity is respected; an entry is either the one
   just written, or was there before and is not superseded.
   */
  lemma StepKeeps<P(!new)>(capacity: nat, es: seq<Entry<P>>, st: Step<P>, es': seq<Entry<P>>)
    requires StepOk(capacity, es, st, es') && DistinctKeys(es) && |es| <= capacity
    ensures DistinctKeys(es') && |es'| <= capacity
    ensures forall x :: x in es' ==> Written(st) == Some(x) || (x in es && (st.op.Put? ==> x.key != st.op.key))
    ensures st.op.Flush? ==> es' == []
  {
    match st.op
    case Get(key, at) => GetMembers(es, key, at);
    case Put(_, _, _, at) => PutMembers(capacity, es, Written(st).value, es', at, st.end);
    case Sweep(at) => LiveOnesMembers(es, at);
    case _ =>
  }

  // ----- what stays and what leaves, exactly

  /** `Get` drops the entry of its key if that has expired, and nothing else. */
  lemma GetExactly<P>(es: seq<Entry<P>>, key: Key, at: Time)
    requires DistinctKeys(es)
    ensures forall x :: x in GetEntries(es, key, at) <==> x in es && (x.key != key || x.value.expires > at)
    ensures GetResult(es, key, at).Some? <==> exists x :: x in es && x.key == key && x.value.expires > at
  {
    var i := Position(es, key);
    forall x | x in es && x.key == key
      ensures i < |es| && x == es[i]
    {
      var j :| 0 <= j < |es| && es[j] == x;
    }
    if i < |es| {
      RemoveAtMembers(es, i);
      assert es[i] in es;
    }
  }

  lemma {:induction false} DropsCount<P(!new)>(capacity: nat, es: seq<Entry<P>>, n: nat, es': seq<Entry<P>>, t0: Time, t1: Time)
    requires Drops(capacity, es, n, es', t0, t1)
    ensures |es'| + n == |es| && (n > 0 ==> |es'| >= capacity)
  {
    if n > 0 {
      var mid: seq<Entry<P>>, j: nat :| Drops(capacity, es, n - 1, mid, t0, t1) && DropsOne(capacity, mid, j, es', t0, t1);
      DropsCount(capacity, es, n - 1, mid, t0, t1);
    }
  }

  /** Writing a listed key replaces its entry and drops no other. */
  lemma ReplaceExactly<P(!new)>(capacity: nat, es: seq<Entry<P>>, e: Entry<P>, es': seq<Entry<P>>, t0: Time, t1: Time)
    requires Puts(capacity, es, e, es', t0, t1) && DistinctKeys(es) && exists x :: x in es && x.key == e.key
    ensures forall x :: x in es' <==> x == e || (x in es && x.key != e.key)
  {
    var x :| x in es && x.key == e.key;
    var j :| 0 <= j < |es| && es[j] == x;
    var i := Position(es, e.key);
    assert i <= j;
    RemoveAtMembers(es, i);
  }

  /** With room left, a new key drops nothing. */
  lemma NoNeedlessEviction<P(!new)>(capacity: nat, es: seq<Entry<P>>, e: Entry<P>, es': seq<Entry<P>>, t0: Time, t1: Time)
    requires Puts(capacity, es, e, es', t0, t1) && (forall x :: x in es ==> x.key != e.key) && |es| < capacity
    ensures es' == [e] + es
  {
    assert Position(es, e.key) == |es|;
    var n: nat :| Drops(capacity, [e] + es, n, es', t0, t1);
    DropsCount(capacity, [e] + es, n, es', t0, t1);
  }

  /**
   In a full cache a new key drops exactly one entry: one that has expired if any had expired when the write
   began, and it is live only if all were, and then it is the least recently used.
   */
  lemma EvictsExpiredFirst<P(!new)>(capacity: nat, es: seq<Entry<P>>, e: Entry<P>, es': seq<Entry<P>>, t0: Time, t1: Time) returns (j: nat)
    requires Puts(capacity, es, e, es', t0, t1) && (forall x :: x in es ==> x.key != e.key) && |es| == capacity && t0 <= t1
    ensures j <= |es| && es' == RemoveAt([e] + es, j)
    ensures var gone := ([e] + es)[j];
            && (gone.value.expires > t1 ==> j == |es| && forall x :: x in [e] + es ==> x.value.expires > t0)
            && ((exists x :: x in [e] + es && x.value.expires <= t0) ==> gone.value.expires <= t1)
            && (gone.value.expires <= t0 ==> forall k :: j < k <= |es| ==> ([e] + es)[k].value.expires > t0)
  {
    var all := [e] + es;
    assert Position(es, e.key) == |es|;
    var n: nat :| Drops(capacity, all, n, es', t0, t1);
    DropsCount(capacity, all, n, es', t0, t1);
    assert n == 1;
    var mid: seq<Entry<P>>, i: nat :| Drops(capacity, all, n - 1, mid, t0, t1) && DropsOne(capacity, mid, i, es', t0, t1);
    assert mid == all;
    j := i;
    if all[j].value.expires > t1 {
      forall x | x in all
        ensures x.value.expires > t0
      {
        var k :| 0 <= k < |all| && all[k] == x;
        assert Live(all[k], t0);
      }
    }
    forall k | j < k <= |es|
      ensures all[j].value.expires <= t0 ==> all[k].value.expires > t0
    {
      assert !Live(all[j], t0) ==> Live(all[k], t0);
    }
  }

  // ----- the ideal cache

  /** An unbounded map that forgets nothing but on Flush: the last write of every key since then. */
  function Ideal<P>(steps: seq<Step<P>>): map<Key, Value<P>> {
    if steps == [] then map[]
    else
      var before, st := Ideal(steps[..|steps| - 1]), steps[|steps| - 1];
      match st.op
      case Put(key, payload, ttl, at) => before[key := Value(payload, ttl, Expiry(at, ttl))]
      case Flush => map[]
      case _ => before
  }

  /** Over every run: the list has distinct keys, fits the capacity, and holds only what the ideal cache holds. */
  lemma {:induction false} RunRefinesIdeal<P(!new)>(capacity: nat, states: seq<seq<Entry<P>>>, steps: seq<Step<P>>, n: nat)
    requires IsRun(capacity, states, steps) && n <= |steps|
    ensures DistinctKeys(states[n]) && |states[n]| <= capacity
    ensures forall e :: e in states[n] ==> e.key in Ideal(steps[..n]) && Ideal(steps[..n])[e.key] == e.value
  {
    if n > 0 {
      RunRefinesIdeal(capacity, states, steps, n - 1);
      assert StepOk(capacity, states[n - 1], steps[n - 1], states[n - 1 + 1]);
      StepKeeps(capacity, states[n - 1], steps[n - 1], states[n]);
      assert steps[..n][..n - 1] == steps[..n - 1];
    }
  }

  /** What the ideal cache holds for a key was written by the last write of that key, and nothing was flushed since. */
  lemma {:induction false} IdealIsLastWrite<P>(steps: seq<Step<P>>, n: nat, key: Key) returns (i: nat)
    requires n <= |steps| && key in Ideal(steps[..n])
    ensures i < n && steps[i].op.Put? && Written(steps[i]) == Some(Entry(key, Ideal(steps[..n])[key]))
    ensures forall j :: i < j < n ==> !steps[j].op.Flush? && !(steps[j].op.Put? && steps[j].op.key == key)
  {
    assert steps[..n][..n - 1] == steps[..n - 1];
    if steps[n - 1].op.Put? && steps[n - 1].op.key == key {
      i := n - 1;
    } else {
      i := IdealIsLastWrite(steps, n - 1, key);
    }
  }

  /** Over every run, a hit returns the payload last stored for the key since the last Flush, strictly before its expiry. */
  lemma HitIsLatest<P(!new)>(capacity: nat, states: seq<seq<Entry<P>>>, steps: seq<Step<P>>, n: nat)
    requires IsRun(capacity, states, steps) && n < |steps| && steps[n].op.Get?
    requires GetResult(states[n], steps[n].op.key, steps[n].op.at).Some?
    ensures var key := steps[n].op.key; var v := GetResult(states[n], key, steps[n].op.at).value; var ideal := Ideal(steps[..n]);
            key in ideal && v.payload == ideal[key].payload && v.expires == ideal[key].expires && steps[n].op.at < v.expires
  {
    RunRefinesIdeal(capacity, states, steps, n);
    var i := Position(states[n], steps[n].op.key);
    assert states[n][i] in states[n];
  }

  // ----- recency

  /** A step touches a key when it writes it or finds it. */
  predicate Touches<P>(es: seq<Entry<P>>, op: Op<P>, key: Key) {
    || (op.Put? && op.key == key)
    || (op.Get? && op.key == key && GetResult(es, key, op.at).Some?)
  }

  /** One more than the number of the last step, before the n-th, that touched the key. */
  function LastTouch<P>(states: seq<seq<Entry<P>>>, steps: seq<Step<P>>, n: nat, key: Key): (i: nat)
    requires n <= |steps| <= |states|
    ensures i <= n
  {
    if n == 0 then 0
    else if Touches(states[n - 1], steps[n - 1].op, key) then n
    else LastTouch(states, steps, n - 1, key)
  }

  /** The list is in descending order of a rank of its keys. */
  ghost predicate Descending<P>(es: seq<Entry<P>>, rank: Key -> nat) {
    forall i, j :: 0 <= i < j < |es| ==> rank(es[i].key) > rank(es[j].key)
  }

  lemma RemoveAtDescending<P>(es: seq<Entry<P>>, i: nat, rank: Key -> nat)
    requires i < |es| && Descending(es, rank)
    ensures Descending(RemoveAt(es, i), rank)
  {
    var r := RemoveAt(es, i);
    assert forall j :: 0 <= j < |r| ==> r[j] == es[if j < i then j else j + 1];
  }

  lemma {:induction false} DropsDescending<P(!new)>(capacity: nat, es: seq<Entry<P>>, n: nat, es': seq<Entry<P>>, t0: Time, t1: Time, rank: Key -> nat)
    requires Drops(capacity, es, n, es', t0, t1) && Descending(es, rank)
    ensures Descending(es', rank)
  {
    if n > 0 {
      var mid: seq<Entry<P>>, j: nat :| Drops(capacity, es, n - 1, mid, t0, t1) && DropsOne(capacity, mid, j, es', t0, t1);
      DropsDescending(capacity, es, n - 1, mid, t0, t1, rank);
      RemoveAtDescending(mid, j, rank);
    }
  }

  lemma {:induction false} LiveOnesDescending<P>(es: seq<Entry<P>>, t: Time, rank: Key -> nat)
    requires Descending(es, rank)
    ensures Descending(LiveOnes(es, t), rank)
  {
    if es != [] {
      var init, last := es[..|es| - 1], es[|es| - 1];
      LiveOnesDescending(init, t, rank);
      forall i | 0 <= i < |LiveOnes(init, t)|
        ensures rank(LiveOnes(init, t)[i].key) > rank(last.key)
      {
        var j := LiveOneAt(init, t, i);
      }
    }
  }

  lemma FrontDescending<P>(e: Entry<P>, es: seq<Entry<P>>, rank: Key -> nat)
    requires Descending(es, rank) && forall x :: x in es ==> rank(x.key) < rank(e.key)
    ensures Descending([e] + es, rank)
  {
    var all := [e] + es;
    forall i, j | 0 <= i < j < |all|
      ensures rank(all[i].key) > rank(all[j].key)
    {
      assert all[j] == es[j - 1] && es[j - 1] in es;
    }
  }

  /** A step keeps the order of the untouched entries and puts the touched one first. */
  lemma StepDescending<P(!new)>(capacity: nat, es: seq<Entry<P>>, st: Step<P>, es': seq<Entry<P>>, rank: Key -> nat)
    requires StepOk(capacity, es, st, es') && DistinctKeys(es)
    requires forall key, x :: Touches(es, st.op, key) && x in es && x.key != key ==> rank(x.key) < rank(key)
    requires forall i, j :: 0 <= i < j < |es| && !Touches(es, st.op, es[i].key) && !Touches(es, st.op, es[j].key) ==> rank(es[i].key) > rank(es[j].key)
    ensures Descending(es', rank)
  {
    hide Puts, LiveOnes, ServedTTL;
    match st.op
    case Get(key, at) =>
      var i := Position(es, key);
      if i < |es| {
        RemoveAtMembers(es, i);
        RestDescending(es, i, st.op, rank);
        if GetResult(es, key, at).Some? {
          assert Touches(es, st.op, key);
          FrontDescending(es[i], RemoveAt(es, i), rank);
        }
      }
    case Put(key, _, _, _) => PutDescending(capacity, es, st, es', rank);
    case Sweep(at) => LiveOnesDescending(es, at, rank);
    case _ =>
  }

  lemma PutDescending<P(!new)>(capacity: nat, es: seq<Entry<P>>, st: Step<P>, es': seq<Entry<P>>, rank: Key -> nat)
    requires StepOk(capacity, es, st, es') && DistinctKeys(es) && st.op.Put?
    requires forall x :: x in es && x.key != st.op.key ==> rank(x.key) < rank(st.op.key)
    requires forall i, j :: 0 <= i < j < |es| && es[i].key != st.op.key && es[j].key != st.op.key ==> rank(es[i].key) > rank(es[j].key)
    ensures Descending(es', rank)
  {
    var key, at, e := st.op.key, st.op.at, Written(st).value;
    var i := Position(es, key);
    if i < |es| {
      RemoveAtMembers(es, i);
      RestDescending(es, i, st.op, rank);
      FrontDescending(e, RemoveAt(es, i), rank);
    } else {
      forall x | x in es
        ensures x.key != key
      {
        var j :| 0 <= j < |es| && es[j] == x;
      }
      FrontDescending(e, es, rank);
      var n: nat :| Drops(capacity, [e] + es, n, es', at, st.end);
      DropsDescending(capacity, [e] + es, n, es', at, st.end, rank);
    }
  }

  lemma RestDescending<P>(es: seq<Entry<P>>, i: nat, op: Op<P>, rank: Key -> nat)
    requires i < |es| && DistinctKeys(es) && forall key :: Touches(es, op, key) ==> key == es[i].key
    requires forall j, k :: 0 <= j < k < |es| && !Touches(es, op, es[j].key) && !Touches(es, op, es[k].key) ==> rank(es[j].key) > rank(es[k].key)
    ensures Descending(RemoveAt(es, i), rank)
  {
    var r := RemoveAt(es, i);
    forall j, k | 0 <= j < k < |r|
      ensures rank(r[j].key) > rank(r[k].key)
    {
      var j', k' := if j < i then j else j + 1, if k < i then k else k + 1;
      assert r[j] == es[j'] && r[k] == es[k'];
      assert es[j'].key != es[i].key && es[k'].key != es[i].key;
    }
  }

  function TouchRank<P>(states: seq<seq<Entry<P>>>, steps: seq<Step<P>>, n: nat): Key -> nat
    requires n <= |steps| <= |states|
  {
    (key: Key) => LastTouch(states, steps, n, key)
  }

  /** The rank after a step orders what it has touched before everything else, and the rest as before. */
  lemma RanksMove<P(!new)>(states: seq<seq<Entry<P>>>, steps: seq<Step<P>>, n: nat, key: Key)
    requires 1 <= n <= |steps| <= |states|
    ensures TouchRank(states, steps, n - 1)(key) < n
    ensures TouchRank(states, steps, n)(key)
         == if Touches(states[n - 1], steps[n - 1].op, key) then n else TouchRank(states, steps, n - 1)(key)
  {
    hide Touches;
  }

  /** A step touches at most one key. */
  lemma OneTouched<P>(es: seq<Entry<P>>, op: Op<P>, key: Key, other: Key)
    requires Touches(es, op, key) && Touches(es, op, other)
    ensures key == other
  {
  }

  /** Over every run the list is in order of last touch, most recent first. */
  lemma {:induction false} ListIsRecency<P(!new)>(capacity: nat, states: seq<seq<Entry<P>>>, steps: seq<Step<P>>, n: nat)
    requires IsRun(capacity, states, steps) && n <= |steps|
    ensures Descending(states[n], TouchRank(states, steps, n))
  {
    hide StepOk, DistinctKeys, Touches, TouchRank, Ideal;
    if n > 0 {
      ListIsRecency(capacity, states, steps, n - 1);
      RunRefinesIdeal(capacity, states, steps, n - 1);
      var es, op, after := states[n - 1], steps[n - 1].op, TouchRank(states, steps, n);
      assert StepOk(capacity, states[n - 1], steps[n - 1], states[n - 1 + 1]);
      forall key
        ensures Touches(es, op, key) ==> after(key) == n && forall other :: other != key ==> !Touches(es, op, other)
        ensures !Touches(es, op, key) ==> after(key) == TouchRank(states, steps, n - 1)(key) < n
      {
        RanksMove(states, steps, n, key);
        forall other | Touches(es, op, key) && Touches(es, op, other) ensures key == other {
          OneTouched(es, op, key, other);
        }
      }
      StepDescending(capacity, es, steps[n - 1], states[n], after);
    }
  }

  // ----- retention

  /** The entry is in the list, and everything before it has a key in `others`. */
  ghost predicate KeptBehind<P>(es: seq<Entry<P>>, e: Entry<P>, others: set<Key>) {
    exists p :: 0 <= p < |es| && es[p] == e && forall i :: 0 <= i < p ==> es[i].key in others
  }

  lemma {:induction false} DistinctFit<P>(es: seq<Entry<P>>, p: nat, others: set<Key>)
    requires DistinctKeys(es) && p <= |es| && forall i :: 0 <= i < p ==> es[i].key in others
    ensures p <= |others|
  {
    if p > 0 {
      var last := es[p - 1].key;
      forall i | 0 <= i < p - 1
        ensures es[i].key in others - {last}
      {
      }
      DistinctFit(es, p - 1, others - {last});
    }
  }

  lemma RemoveAtKeeps<P>(es: seq<Entry<P>>, j: nat, e: Entry<P>, others: set<Key>)
    requires j < |es| && KeptBehind(es, e, others) && es[j].key != e.key
    ensures KeptBehind(RemoveAt(es, j), e, others)
  {
    var p :| 0 <= p < |es| && es[p] == e && forall i :: 0 <= i < p ==> es[i].key in others;
    var r, q := RemoveAt(es, j), if j < p then p - 1 else p;
    assert r[q] == e;
    forall i | 0 <= i < q
      ensures r[i].key in others
    {
      assert r[i] == es[if i < j then i else i + 1];
    }
  }

  /** The victim is never an entry that is live and behind fewer other keys than the capacity. */
  lemma {:induction false} DropsKeeps<P(!new)>(capacity: nat, es: seq<Entry<P>>, n: nat, es': seq<Entry<P>>, t0: Time, t1: Time, e: Entry<P>, others: set<Key>)
    requires Drops(capacity, es, n, es', t0, t1) && DistinctKeys(es)
    requires KeptBehind(es, e, others) && Live(e, t1) && |others| < capacity
    ensures KeptBehind(es', e, others)
  {
    if n > 0 {
      var mid: seq<Entry<P>>, j: nat :| Drops(capacity, es, n - 1, mid, t0, t1) && DropsOne(capacity, mid, j, es', t0, t1);
      DropsKeeps(capacity, es, n - 1, mid, t0, t1, e, others);
      DropsMembers(capacity, es, n - 1, mid, t0, t1);
      var p :| 0 <= p < |mid| && mid[p] == e && forall i :: 0 <= i < p ==> mid[i].key in others;
      DistinctFit(mid, p, others);
      assert j != p;
      RemoveAtKeeps(mid, j, e, others);
    }
  }

  lemma {:induction false} LiveOnesKeeps<P>(es: seq<Entry<P>>, t: Time, p: nat, others: set<Key>) returns (q: nat)
    requires p < |es| && Live(es[p], t) && forall i :: 0 <= i < p ==> es[i].key in others
    ensures q < |LiveOnes(es, t)| && LiveOnes(es, t)[q] == es[p]
    ensures forall i :: 0 <= i < q ==> LiveOnes(es, t)[i].key in others
  {
    var init := es[..|es| - 1];
    if p < |init| {
      q := LiveOnesKeeps(init, t, p, others);
    } else {
      q := |LiveOnes(init, t)|;
      forall i | 0 <= i < q
        ensures LiveOnes(es, t)[i].key in others
      {
        var j := LiveOneAt(init, t, i);
      }
    }
  }

  lemma FrontKeeps<P>(x: Entry<P>, es: seq<Entry<P>>, e: Entry<P>, others: set<Key>)
    requires KeptBehind(es, e, others)
    ensures KeptBehind([x] + es, e, others + {x.key})
  {
    var p :| 0 <= p < |es| && es[p] == e && forall i :: 0 <= i < p ==> es[i].key in others;
    var all := [x] + es;
    assert all[p + 1] == e;
    assert forall i :: 0 <= i < p + 1 ==> all[i] == if i == 0 then x else es[i - 1];
  }

  function TouchedKey<P>(es: seq<Entry<P>>, op: Op<P>): set<Key> {
    if (op.Put? || op.Get?) && Touches(es, op, op.key) then {op.key} else {}
  }

  lemma KeptMore<P>(es: seq<Entry<P>>, e: Entry<P>, others: set<Key>, more: set<Key>)
    requires KeptBehind(es, e, others) && others <= more
    ensures KeptBehind(es, e, more)
  {
  }

  /** One step keeps an entry that it does not touch, that stays live, and that fewer than `capacity` other keys have passed. */
  lemma StepRetains<P(!new)>(capacity: nat, es: seq<Entry<P>>, st: Step<P>, es': seq<Entry<P>>, e: Entry<P>, others: set<Key>)
    requires StepOk(capacity, es, st, es') && DistinctKeys(es) && KeptBehind(es, e, others)
    requires !st.op.Flush? && !Touches(es, st.op, e.key) && Live(e, st.end)
    requires |others + TouchedKey(es, st.op)| < capacity
    ensures KeptBehind(es', e, others + TouchedKey(es, st.op))
  {
    var all := others + TouchedKey(es, st.op);
    match st.op
    case Get(key, at) =>
      var i := Position(es, key);
      if i < |es| {
        var p :| 0 <= p < |es| && es[p] == e && forall i :: 0 <= i < p ==> es[i].key in others;
        assert i == p || es[i].key != e.key;
        RemoveAtKeeps(es, i, e, others);
        if GetResult(es, key, at).Some? {
          FrontKeeps(es[i], RemoveAt(es, i), e, others);
        } else {
          KeptMore(RemoveAt(es, i), e, others, all);
        }
      } else {
        KeptMore(es, e, others, all);
      }
    case Put(key, payload, ttl, at) =>
      var x := Written(st).value;
      var i := Position(es, key);
      if i < |es| {
        RemoveAtKeeps(es, i, e, others);
        FrontKeeps(x, RemoveAt(es, i), e, others);
      } else {
        FrontKeeps(x, es, e, others);
        forall y | y in es
          ensures y.key != key
        {
          var j :| 0 <= j < |es| && es[j] == y;
        }
        FrontDistinct(x, es);
        var n: nat :| Drops(capacity, [x] + es, n, es', at, st.end);
        DropsKeeps(capacity, [x] + es, n, es', at, st.end, e, all);
      }
    case Sweep(at) =>
      var p :| 0 <= p < |es| && es[p] == e && forall i :: 0 <= i < p ==> es[i].key in others;
      var q := LiveOnesKeeps(es, at, p, others);
    case Idle => KeptMore(es, e, others, all);
  }

  /** A touched key goes to the front, unless what was written is already dead when the step ends. */
  lemma TouchedIsFirst<P(!new)>(capacity: nat, es: seq<Entry<P>>, st: Step<P>, es': seq<Entry<P>>, key: Key)
    requires StepOk(capacity, es, st, es') && DistinctKeys(es) && Touches(es, st.op, key) && capacity >= 1
    requires st.op.Put? ==> Live(Written(st).value, st.end)
    ensures es' != [] && es'[0].key == key
  {
    if st.op.Put? && Position(es, key) == |es| {
      var e := Written(st).value;
      assert KeptBehind([e] + es, e, {}) by {
        assert ([e] + es)[0] == e;
      }
      forall x | x in es
        ensures x.key != key
      {
        var j :| 0 <= j < |es| && es[j] == x;
      }
      FrontDistinct(e, es);
      var n: nat :| Drops(capacity, [e] + es, n, es', st.op.at, st.end);
      DropsKeeps(capacity, [e] + es, n, es', st.op.at, st.end, e, {});
    }
  }

  /** The keys touched by the steps a, ..., b-1. */
  function TouchedKeys<P>(states: seq<seq<Entry<P>>>, steps: seq<Step<P>>, a: nat, b: nat): set<Key>
    requires a <= b <= |steps| <= |states|
  {
    if a == b then {} else TouchedKeys(states, steps, a, b - 1) + TouchedKey(states[b - 1], steps[b - 1].op)
  }

  /** From a to b nothing is flushed, the entry's key is not written again, and the entry does not expire. */
  ghost predicate Undisturbed<P>(steps: seq<Step<P>>, a: nat, b: nat, e: Entry<P>)
    requires a <= b <= |steps|
  {
    forall i :: a <= i < b ==> !steps[i].op.Flush? && !(steps[i].op.Put? && steps[i].op.key == e.key) && Live(e, steps[i].end)
  }

  /**
   Retention: an entry at the front after step a is still there after step b if, in between, nothing
   was flushed, the key was not written again, its expiry did not pass, and fewer than `capacity` other keys
   were touched.
   */
  lemma {:induction false} Retention<P(!new)>(capacity: nat, states: seq<seq<Entry<P>>>, steps: seq<Step<P>>, a: nat, b: nat, e: Entry<P>)
    requires IsRun(capacity, states, steps) && a <= b <= |steps|
    requires states[a] != [] && states[a][0] == e && Undisturbed(steps, a, b, e)
    requires |TouchedKeys(states, steps, a, b) - {e.key}| < capacity
    ensures KeptBehind(states[b], e, TouchedKeys(states, steps, a, b) - {e.key})
  {
    hide Touches, TouchedKey, KeptBehind, StepOk, Live;
    if a == b {
      FrontIsKept(states[a]);
      KeptMore(states[a], e, {}, TouchedKeys(states, steps, a, b) - {e.key});
    } else {
      var n, before := b - 1, TouchedKeys(states, steps, a, b - 1) - {e.key};
      var all := TouchedKeys(states, steps, a, b) - {e.key};
      FewerKeys(before, all);
      Retention(capacity, states, steps, a, n, e);
      if Touches(states[n], steps[n].op, e.key) {
        HitMovesFront(capacity, states, steps, n, e, before);
        KeptMore(states[b], e, {}, all);
      } else {
        UntouchedElsewhere(states[n], steps[n].op, e.key);
        assert all == before + TouchedKey(states[n], steps[n].op);
        RetentionStep(capacity, states, steps, n, e, before);
      }
    }
  }

  lemma UntouchedElsewhere<P>(es: seq<Entry<P>>, op: Op<P>, key: Key)
    requires !Touches(es, op, key)
    ensures key !in TouchedKey(es, op)
  {
  }

  /** A hit moves the entry that was found to the front. */
  lemma HitMovesFront<P(!new)>(capacity: nat, states: seq<seq<Entry<P>>>, steps: seq<Step<P>>, n: nat, e: Entry<P>, others: set<Key>)
    requires IsRun(capacity, states, steps) && n < |steps| && KeptBehind(states[n], e, others)
    requires Touches(states[n], steps[n].op, e.key) && !(steps[n].op.Put? && steps[n].op.key == e.key)
    ensures KeptBehind(states[n + 1], e, {})
  {
    RunRefinesIdeal(capacity, states, steps, n);
    assert StepOk(capacity, states[n], steps[n], states[n + 1]);
    var p :| 0 <= p < |states[n]| && states[n][p] == e && forall i :: 0 <= i < p ==> states[n][i].key in others;
    assert Position(states[n], e.key) == p;
    FrontIsKept(states[n + 1]);
  }

  lemma FrontIsKept<P>(es: seq<Entry<P>>)
    requires es != []
    ensures KeptBehind(es, es[0], {})
  {
  }

  lemma RetentionStep<P(!new)>(capacity: nat, states: seq<seq<Entry<P>>>, steps: seq<Step<P>>, n: nat, e: Entry<P>, others: set<Key>)
    requires IsRun(capacity, states, steps) && n < |steps| && KeptBehind(states[n], e, others)
    requires !steps[n].op.Flush? && !Touches(states[n], steps[n].op, e.key) && Live(e, steps[n].end)
    requires |others + TouchedKey(states[n], steps[n].op)| < capacity
    ensures KeptBehind(states[n + 1], e, others + TouchedKey(states[n], steps[n].op))
  {
    RunRefinesIdeal(capacity, states, steps, n);
    assert StepOk(capacity, states[n], steps[n], states[n + 1]);
    StepRetains(capacity, states[n], steps[n], states[n + 1], e, others);
  }

  lemma {:induction false} FewerKeys(a: set<Key>, b: set<Key>)
    requires a <= b
    ensures |a| <= |b|
  {
    assert b == a + (b - a);
  }

  // ----- TTL countdown

  /** The stored value's expiry never exceeds the clock by more than its TTL. */
  ghost predicate Timely<P>(es: seq<Entry<P>>, now: Time) {
    forall e :: e in es ==> e.value.expires <= now + e.value.ttl * SECOND
  }

  lemma {:induction false} RunTimely<P(!new)>(capacity: nat, states: seq<seq<Entry<P>>>, steps: seq<Step<P>>, n: nat, now: Time)
    requires IsRun(capacity, states, steps) && n <= |steps| && (n > 0 ==> steps[n - 1].end <= now)
    ensures Timely(states[n], now)
  {
    if n > 0 {
      assert StepOk(capacity, states[n - 1], steps[n - 1], states[n - 1 + 1]);
      RunTimely(capacity, states, steps, n - 1, steps[n - 1].begin);
      RunRefinesIdeal(capacity, states, steps, n - 1);
      StepKeeps(capacity, states[n - 1], steps[n - 1], states[n]);
    }
  }

  /**
   Within the life that a 32-bit TTL allows, the served TTL is the remaining time rounded up to whole
   seconds: at least 1, at most the stored TTL, and too large by less than a second.
   */
  lemma ServedTTLIsCeiling(expires: Time, at: Time, ttl: U32)
    requires at < expires <= at + ttl * SECOND
    ensures Sub(expires, at) == expires - at
    ensures var t := ServedTTL(expires - at);
            1 <= t <= ttl && (t - 1) * SECOND < expires - at <= t * SECOND
  {
    var r := expires - at;
    assert ttl * SECOND <= 0xFFFF_FFFF * SECOND;
    assert Int64(r + SECOND - 1) == r + SECOND - 1;
    var q := (r + SECOND - 1) / SECOND;
    assert q <= ttl;
  }

  /** Over every run, a hit carries a TTL in 1 .. stored TTL that overstates the remaining life by less than a second. */
  lemma HitTTL<P(!new)>(capacity: nat, states: seq<seq<Entry<P>>>, steps: seq<Step<P>>, n: nat)
    requires IsRun(capacity, states, steps) && n < |steps| && steps[n].op.Get?
    requires GetResult(states[n], steps[n].op.key, steps[n].op.at).Some?
    ensures var key, at := steps[n].op.key, steps[n].op.at;
            var v, stored := GetResult(states[n], key, at).value, Ideal(steps[..n]);
            && key in stored && 1 <= v.ttl <= stored[key].ttl
            && (v.ttl - 1) * SECOND < stored[key].expires - at <= v.ttl * SECOND
  {
    HitIsLatest(capacity, states, steps, n);
    RunRefinesIdeal(capacity, states, steps, n);
    assert StepOk(capacity, states[n], steps[n], states[n + 1]);
    RunTimely(capacity, states, steps, n, steps[n].begin);
    var e := states[n][Position(states[n], steps[n].op.key)];
    assert e in states[n];
    ServedTTLIsCeiling(e.value.expires, steps[n].op.at, e.value.ttl);
  }

  /** Between two writes of a key its value stays what it was. */
  lemma {:induction false} IdealUnchanged<P>(steps: seq<Step<P>>, m: nat, n: nat, key: Key)
    requires m <= n <= |steps| && forall i :: m <= i < n ==> !(steps[i].op.Put? && steps[i].op.key == key)
    requires key in Ideal(steps[..n])
    ensures key in Ideal(steps[..m]) && Ideal(steps[..m])[key] == Ideal(steps[..n])[key]
  {
    if m < n {
      assert steps[..n][..n - 1] == steps[..n - 1];
      IdealUnchanged(steps, m, n - 1, key);
    }
  }

  /** Between two writes of a key the TTLs served for it never increase. */
  lemma ServedTTLNeverIncreases<P(!new)>(capacity: nat, states: seq<seq<Entry<P>>>, steps: seq<Step<P>>, m: nat, n: nat, key: Key)
    requires IsRun(capacity, states, steps) && m < n < |steps|
    requires steps[m].op.Get? && steps[n].op.Get? && steps[m].op.key == steps[n].op.key == key
    requires GetResult(states[m], key, steps[m].op.at).Some? && GetResult(states[n], key, steps[n].op.at).Some?
    requires forall i :: m <= i < n ==> !(steps[i].op.Put? && steps[i].op.key == key)
    ensures GetResult(states[n], key, steps[n].op.at).value.ttl <= GetResult(states[m], key, steps[m].op.at).value.ttl
  {
    HitTTL(capacity, states, steps, m);
    HitTTL(capacity, states, steps, n);
    IdealUnchanged(steps, m, n, key);
    assert StepOk(capacity, states[m], steps[m], states[m + 1]) && StepOk(capacity, states[n], steps[n], states[n + 1]);
    assert steps[m].op.at <= steps[m].end <= steps[n].begin <= steps[n].op.at;
  }

  // ----- the exact life of an entry

  /** What a step writes is at the front afterwards, if it is still live then. */
  lemma WrittenIsFirst<P(!new)>(capacity: nat, es: seq<Entry<P>>, st: Step<P>, es': seq<Entry<P>>)
    requires StepOk(capacity, es, st, es') && DistinctKeys(es) && |es| <= capacity && capacity >= 1
    requires st.op.Put? && Live(Written(st).value, st.end)
    ensures es' != [] && es'[0] == Written(st).value
  {
    TouchedIsFirst(capacity, es, st, es', st.op.key);
    PutMembers(capacity, es, Written(st).value, es', st.op.at, st.end);
    assert es'[0] in es';
  }

  /** An entry written by step i, whose expiry lies ahead of step n, is still listed there. */
  lemma ListedWhileLive<P(!new)>(capacity: nat, states: seq<seq<Entry<P>>>, steps: seq<Step<P>>, i: nat, n: nat, e: Entry<P>)
    requires IsRun(capacity, states, steps) && i < n <= |steps| && Written(steps[i]) == Some(e)
    requires forall j :: i < j < n ==> !steps[j].op.Flush? && !(steps[j].op.Put? && steps[j].op.key == e.key)
    requires forall j :: i <= j < n ==> Live(e, steps[j].end)
    requires |TouchedKeys(states, steps, i + 1, n) - {e.key}| < capacity
    ensures e in states[n]
  {
    hide Puts, Touches;
    RunRefinesIdeal(capacity, states, steps, i);
    assert StepOk(capacity, states[i], steps[i], states[i + 1]);
    WrittenIsFirst(capacity, states[i], steps[i], states[i + 1]);
    assert Undisturbed(steps, i + 1, n, e);
    Retention(capacity, states, steps, i + 1, n, e);
  }

  lemma EndsBefore<P(!new)>(capacity: nat, states: seq<seq<Entry<P>>>, steps: seq<Step<P>>, j: nat, n: nat)
    requires IsRun(capacity, states, steps) && j < n < |steps| && !steps[n].op.Flush? && !steps[n].op.Idle?
    ensures steps[j].end <= steps[n].op.at
    ensures steps[j].op.Put? ==> steps[j].op.at <= steps[j].end
  {
    hide Puts;
    assert StepOk(capacity, states[n], steps[n], states[n + 1]) && StepOk(capacity, states[j], steps[j], states[j + 1]);
  }

  /** A hit after the last write of the key finds what that wrote. */
  lemma HitFindsLastWrite<P(!new)>(capacity: nat, states: seq<seq<Entry<P>>>, steps: seq<Step<P>>, i: nat, n: nat, e: Entry<P>)
    requires IsRun(capacity, states, steps) && i < n < |steps| && Written(steps[i]) == Some(e)
    requires steps[n].op.Get? && steps[n].op.key == e.key
    requires forall j :: i < j < n ==> !steps[j].op.Flush? && !(steps[j].op.Put? && steps[j].op.key == e.key)
    ensures var hit := GetResult(states[n], e.key, steps[n].op.at);
            hit.Some? ==> hit.value.payload == e.value.payload && steps[n].op.at < e.value.expires
  {
    hide GetResult, Ideal;
    if GetResult(states[n], e.key, steps[n].op.at).Some? {
      HitIsLatest(capacity, states, steps, n);
      var k := IdealIsLastWrite(steps, n, e.key);
      assert k == i;
    }
  }

  /** A listed entry is hit until it expires, with the remaining time rounded up to whole seconds. */
  lemma ListedIsHit<P>(es: seq<Entry<P>>, e: Entry<P>, u: Time)
    requires DistinctKeys(es) && e in es && u < e.value.expires <= u + e.value.ttl * SECOND
    ensures var hit, life := GetResult(es, e.key, u), e.value.expires - u;
            hit.Some? && hit.value.payload == e.value.payload && hit.value.ttl == (life + 999_999_999) / 1_000_000_000
  {
    var p :| 0 <= p < |es| && es[p] == e;
    assert Position(es, e.key) == p;
    ServedTTLIsCeiling(e.value.expires, u, e.value.ttl);
  }

  /**
   The exact life of an entry, over every run: after a write of a key at time `at` with TTL `ttl`, with no flush,
   no other write of the key and fewer than `capacity` other keys touched, a `Get` of the key at time u is a hit if
   and only if u comes before `at` plus ttl seconds; and it then serves what was written, with the remaining
   time rounded up to whole seconds as its TTL.
   */
  lemma ExactLife<P(!new)>(capacity: nat, states: seq<seq<Entry<P>>>, steps: seq<Step<P>>, i: nat, n: nat, key: Key, payload: P, ttl: U32, at: Time)
    requires IsRun(capacity, states, steps) && i < n < |steps| && steps[i].op == Put(key, payload, ttl, at)
    requires steps[n].op.Get? && steps[n].op.key == key
    requires forall j :: i < j < n ==> !steps[j].op.Flush? && !(steps[j].op.Put? && steps[j].op.key == key)
    requires |TouchedKeys(states, steps, i + 1, n) - {key}| < capacity
    ensures var hit := GetResult(states[n], key, steps[n].op.at);
            var life := at + ttl * 1_000_000_000 - steps[n].op.at;
            && (hit.Some? <==> life > 0)
            && (hit.Some? ==> hit.value.payload == payload && hit.value.ttl == (life + 999_999_999) / 1_000_000_000)
  {
    hide GetResult, IsRun, TouchedKeys;
    var e, u := Written(steps[i]).value, steps[n].op.at;
    assert |states| == |steps| + 1 by { RunSize(capacity, states, steps); }
    HitFindsLastWrite(capacity, states, steps, i, n, e);
    EndsBefore(capacity, states, steps, i, n);
    if u < e.value.expires {
      forall j | i <= j < n
        ensures Live(e, steps[j].end)
      {
        EndsBefore(capacity, states, steps, j, n);
      }
      ListedWhileLive(capacity, states, steps, i, n, e);
      RunRefinesIdeal(capacity, states, steps, n);
      ListedIsHit(states[n], e, u);
    }
  }

  lemma RunSize<P(!new)>(capacity: nat, states: seq<seq<Entry<P>>>, steps: seq<Step<P>>)
    requires IsRun(capacity, states, steps)
    ensures |states| == |steps| + 1
  {
  }

  // ----- a write can always be carried out

  lemma {:induction false} VictimExists<P>(es: seq<Entry<P>>, t: Time, n: nat) returns (j: nat)
    requires es != [] && n <= |es| && forall i :: n <= i < |es| ==> Live(es[i], t)
    ensures IsVictim(es, j, t, t) && (j == |es| - 1 || !Live(es[j], t))
  {
    if n == 0 {
      j := |es| - 1;
    } else if !Live(es[n - 1], t) {
      j := n - 1;
    } else {
      j := VictimExists(es, t, n - 1);
    }
  }

  /** A live value finds room whatever the cache holds. */
  lemma PutExists<P(!new)>(capacity: nat, es: seq<Entry<P>>, e: Entry<P>, t: Time) returns (es': seq<Entry<P>>)
    requires 1 <= capacity && |es| <= capacity && Live(e, t)
    ensures Puts(capacity, es, e, es', t, t) && e in es'
  {
    var i := Position(es, e.key);
    if i < |es| {
      es' := [e] + RemoveAt(es, i);
    } else {
      var all := [e] + es;
      assert Drops(capacity, all, 0, all, t, t);
      if |all| <= capacity {
        es' := all;
      } else {
        var j := VictimExists(all, t, |all|);
        es' := RemoveAt(all, j);
        assert DropsOne(capacity, all, j, es', t, t);
        assert Drops(capacity, all, 1, es', t, t);
        assert es'[0] == e;
      }
    }
  }
}
