/**
 internal/china/index.go: an arbitrary list of prefixes becomes sorted disjoint spans, and a lookup
 becomes a binary search.  The reference meaning is the linear scan `exists p :: p.Contains(ip)`.
 */
module PrefixIndex {
  import opened Netip

  datatype Span = Span(lo: Addr, hi: Addr)

  datatype Index = Index(v4: seq<Span>, v6: seq<Span>, v4Input: nat, v6Input: nat)

  function SpanOf(p: Prefix): Span {
    Span(p.addr, LastOf(p))
  }

  predicate InSpan(s: Span, ip: Addr) {
    Rank(s.lo) <= Rank(ip) <= Rank(s.hi)
  }

  predicate Covers(spans: seq<Span>, ip: Addr) {
    exists s :: s in spans && InSpan(s, ip)
  }

  /** The linear scan over the input prefixes. */
  predicate Scan(ps: seq<Prefix>, ip: Addr) {
    exists p :: p in ps && p.Contains(ip)
  }

  // ----- lookup

  /** `sort.Search` for the first span whose end is not below ip, with its own choice of midpoints. */
  function Search(spans: seq<Span>, ip: Addr, i: nat, j: nat): (k: nat)
    requires i <= j <= |spans|
    ensures i <= k <= j
    decreases j - i
  {
    if i == j then i
    else
      var h := (i + j) / 2;
      if Compare(spans[h].hi, ip) >= 0 then Search(spans, ip, i, h) else Search(spans, ip, h + 1, j)
  }

  predicate Find(spans: seq<Span>, ip: Addr) {
    var i := Search(spans, ip, 0, |spans|);
    i < |spans| && Compare(spans[i].lo, ip) <= 0
  }

  /** `Index.Contains` */
  predicate Contains(ix: Index, ip: Addr) {
    var u := Unmap(ip);
    if u.V4? then Find(ix.v4, u) else Find(ix.v6, u)
  }

  // ----- merge

  predicate Joins(cur: Span, s: Span) {
    Compare(s.lo, cur.hi) <= 0 || Compare(NextOf(cur.hi), s.lo) == 0
  }

  function Absorb(cur: Span, s: Span): Span {
    if Compare(s.hi, cur.hi) > 0 then cur.(hi := s.hi) else cur
  }

  /** The spans that one pass over sorted input leaves, starting with the open span `cur`. */
  function Coalesce(cur: Span, rest: seq<Span>): (out: seq<Span>)
    ensures out != []
    decreases |rest|
  {
    if rest == [] then [cur]
    else if Joins(cur, rest[0]) then Coalesce(Absorb(cur, rest[0]), rest[1..])
    else [cur] + Coalesce(rest[0], rest[1..])
  }

  function MergeSorted(spans: seq<Span>): seq<Span> {
    if spans == [] then [] else Coalesce(spans[0], spans[1..])
  }

  predicate SortedByLo(spans: seq<Span>) {
    forall i, j :: 0 <= i < j < |spans| ==> Rank(spans[i].lo) <= Rank(spans[j].lo)
  }

  /** `sort.Slice` is not stable, so any sorted rearrangement may be the one that gets merged. */
  ghost predicate IsMergeOf(out: seq<Span>, spans: seq<Span>) {
    exists t :: multiset(t) == multiset(spans) && SortedByLo(t) && out == MergeSorted(t)
  }

  function SpansOf(ps: seq<Prefix>, bitLen: nat): seq<Span> {
    if ps == [] then []
    else
      var p := ps[|ps| - 1];
      SpansOf(ps[..|ps| - 1], bitLen) + (if BitLen(p.addr) == bitLen then [SpanOf(p)] else [])
  }

  /** The indexes that `Build` may return for a list of prefixes. */
  ghost predicate IsIndexOf(ix: Index, ps: seq<Prefix>) {
    && IsMergeOf(ix.v4, SpansOf(ps, 32))
    && IsMergeOf(ix.v6, SpansOf(ps, 128))
    && ix.v4Input == |SpansOf(ps, 32)| && ix.v6Input == |SpansOf(ps, 128)|
  }

  /** Stands for `sort.Slice` by span start. */
  method SortByLo(a: array<Span>)
    modifies a
    ensures SortedByLo(a[..])
    ensures multiset(a[..]) == multiset(old(a[..]))
  {
    for i := 0 to a.Length
      invariant SortedByLo(a[..i])
      invariant multiset(a[..]) == multiset(old(a[..]))
    {
      InsertLast(a, i);
    }
    assert a[..a.Length] == a[..];
  }

  method InsertLast(a: array<Span>, n: nat)
    requires n < a.Length && SortedByLo(a[..n])
    modifies a
    ensures SortedByLo(a[..n + 1])
    ensures multiset(a[..]) == multiset(old(a[..]))
  {
    var j := n;
    while j > 0 && Compare(a[j].lo, a[j - 1].lo) < 0
      invariant 0 <= j <= n
      invariant forall k, l :: 0 <= k < l <= n && l != j ==> Rank(a[k].lo) <= Rank(a[l].lo)
      invariant multiset(a[..]) == multiset(old(a[..]))
    {
      Swap(a, j - 1, j);
      j := j - 1;
    }
  }

  method Swap(a: array<Span>, i: nat, j: nat)
    requires i < j < a.Length
    modifies a
    ensures a[..] == old(a[..][i := a[j]][j := a[i]])
    ensures multiset(a[..]) == multiset(old(a[..]))
  {
    a[i], a[j] := a[j], a[i];
  }

  /** `merge`: sorts, then compacts into the front of the same array; `a[..n]` is the returned slice. */
  method Merge(a: array<Span>) returns (n: nat)
    modifies a
    ensures n <= a.Length
    ensures IsMergeOf(a[..n], old(a[..]))
  {
    if a.Length <= 1 {
      assert a[..a.Length] == a[..] == MergeSorted(a[..]);
      return a.Length;
    }
    SortByLo(a);
    ghost var t := a[..];
    n := Compact(a);
    assert IsMergeOf(a[..n], old(a[..]));
  }

  /** The test of `merge`: does the next span overlap the open one, or start right after it? */
  method Touching(cur: Span, s: Span) returns (b: bool)
    ensures b == Joins(cur, s)
  {
    if Compare(s.lo, cur.hi) <= 0 {
      return true;
    }
    var next := NextAddr(cur.hi);
    return Compare(next, s.lo) == 0;
  }

  /** The pass of `merge` over the sorted array; it writes only at positions it has already read. */
  method Compact(a: array<Span>) returns (n: nat)
    requires a.Length > 0
    modifies a
    ensures n <= a.Length && a[..n] == MergeSorted(old(a[..]))
  {
    hide Joins, Absorb;
    ghost var t := a[..];
    n := 0;
    var cur := a[0];
    var i := 1;
    while i < a.Length
      invariant 1 <= i <= a.Length
      invariant n < i
      invariant a[i..] == t[i..]
      invariant a[..n] + Coalesce(cur, t[i..]) == MergeSorted(t)
    {
      var s := a[i];
      assert s == t[i..][0] && t[i..][1..] == t[i + 1..];
      var joined := Touching(cur, s);
      if joined {
        cur := Absorb(cur, s);
      } else {
        ghost var out := a[..n];
        a[n] := cur;
        n := n + 1;
        assert a[..n] == out + [cur];
        cur := s;
      }
      i := i + 1;
    }
    ghost var out := a[..n];
    a[n] := cur;
    n := n + 1;
    assert a[..n] == out + [cur];
  }

  method Build(ps: seq<Prefix>) returns (ix: Index)
    ensures IsIndexOf(ix, ps)
  {
    var v4: seq<Span>, v6: seq<Span> := [], [];
    var v4n, v6n := 0, 0;
    for i := 0 to |ps|
      invariant v4 == SpansOf(ps[..i], 32) && v6 == SpansOf(ps[..i], 128)
      invariant v4n == |v4| && v6n == |v6|
    {
      var p := ps[i];
      assert ps[..i + 1][..i] == ps[..i];
      var last := LastAddr(p);
      if p.addr.V4? {
        v4n := v4n + 1;
        v4 := v4 + [Span(p.addr, last)];
      } else {
        v6n := v6n + 1;
        v6 := v6 + [Span(p.addr, last)];
      }
    }
    assert ps[..|ps|] == ps;
    var a4 := new Span[|v4|](i requires 0 <= i < |v4| => v4[i]);
    var a6 := new Span[|v6|](i requires 0 <= i < |v6| => v6[i]);
    assert a4[..] == v4 && a6[..] == v6;
    var n4 := Merge(a4);
    var n6 := Merge(a6);
    ix := Index(a4[..n4], a6[..n6], v4n, v6n);
  }

  /** Every list has an index: sorting and merging always succeed. */
  lemma SomeIndex(ps: seq<Prefix>) returns (ix: Index)
    ensures IsIndexOf(ix, ps)
  {
    var t4 := Arranged(SpansOf(ps, 32));
    var t6 := Arranged(SpansOf(ps, 128));
    ix := Index(MergeSorted(t4), MergeSorted(t6), |SpansOf(ps, 32)|, |SpansOf(ps, 128)|);
  }

  lemma {:induction false} Arranged(spans: seq<Span>) returns (t: seq<Span>)
    ensures multiset(t) == multiset(spans) && SortedByLo(t)
  {
    if spans == [] {
      t := [];
    } else {
      var init, s := spans[..|spans| - 1], spans[|spans| - 1];
      assert spans == init + [s];
      var u := Arranged(init);
      t := Inserted(u, s);
    }
  }

  lemma {:induction false} Inserted(u: seq<Span>, s: Span) returns (t: seq<Span>)
    requires SortedByLo(u)
    ensures multiset(t) == multiset(u) + multiset{s} && SortedByLo(t)
    ensures forall x :: x in t ==> x in u || x == s
  {
    if u == [] || Rank(u[|u| - 1].lo) <= Rank(s.lo) {
      t := u + [s];
    } else {
      var init, last := u[..|u| - 1], u[|u| - 1];
      assert u == init + [last];
      var v := Inserted(init, s);
      t := v + [last];
      forall i | 0 <= i < |v|
        ensures Rank(v[i].lo) <= Rank(last.lo)
      {
        assert v[i] in v;
      }
    }
  }

  /** Which prefixes belong to a family. */
  function InFamily(ps: seq<Prefix>, v4: bool): set<int> {
    set i | 0 <= i < |ps| && ps[i].addr.V4? == v4
  }

  /** The counts kept for logging are the numbers of prefixes of each family. */
  lemma InputsCounted(ix: Index, ps: seq<Prefix>)
    requires IsIndexOf(ix, ps)
    ensures ix.v4Input == |InFamily(ps, true)| && ix.v6Input == |InFamily(ps, false)|
  {
    SpansCounted(ps, true);
    SpansCounted(ps, false);
  }

  lemma {:induction false} SpansCounted(ps: seq<Prefix>, v4: bool)
    ensures |SpansOf(ps, if v4 then 32 else 128)| == |InFamily(ps, v4)|
  {
    hide InFamily;
    OneMoreInFamily(ps, v4);
    if ps != [] {
      SpansCounted(ps[..|ps| - 1], v4);
    }
  }

  lemma OneMoreInFamily(ps: seq<Prefix>, v4: bool)
    ensures ps == [] ==> InFamily(ps, v4) == {}
    ensures ps != [] ==>
              |InFamily(ps, v4)| == |InFamily(ps[..|ps| - 1], v4)| + (if ps[|ps| - 1].addr.V4? == v4 then 1 else 0)
  {
    if ps != [] {
      var init, n := ps[..|ps| - 1], |ps| - 1;
      assert InFamily(ps, v4) == InFamily(init, v4) + (if ps[n].addr.V4? == v4 then {n} else {});
    }
  }

  // ----- exactness of one span

  /**
   An IPv6 prefix shorter than /128 whose last address lies in ::ffff:0:0/96.  `lastAddr` turns that
   address into an IPv4 one, so the span ends before it starts.
   */
  predicate EndsMapped(p: Prefix) {
    p.addr.V6? && p.HostBits() > 0 && InMappedBlock(p.addr.v + Pow2(p.HostBits()) - 1)
  }

  /** A span is exactly its prefix's address set if and only if the prefix does not end in the mapped block. */
  lemma SpanIsPrefix(p: Prefix)
    requires p.Masked()
    ensures !EndsMapped(p) <==> forall ip :: InSpan(SpanOf(p), ip) <==> p.Contains(ip)
  {
    LastOfMasked(p);
    if EndsMapped(p) {
      assert p.Contains(p.addr) && !InSpan(SpanOf(p), p.addr);
    } else {
      forall ip: Addr
        ensures InSpan(SpanOf(p), ip) <==> p.Contains(ip)
      {
        SameBlock(ip.v, p.addr.v, p.HostBits());
      }
    }
  }

  // ----- the merged spans

  /** A span of one family that starts no later than it ends. */
  predicate ProperSpan(s: Span, bitLen: nat) {
    BitLen(s.lo) == bitLen && BitLen(s.hi) == bitLen && s.lo.v <= s.hi.v
  }

  predicate Proper(spans: seq<Span>, bitLen: nat) {
    forall i :: 0 <= i < |spans| ==> ProperSpan(spans[i], bitLen)
  }

  predicate Disjoint(spans: seq<Span>) {
    forall i, j :: 0 <= i < j < |spans| ==> Rank(spans[i].hi) < Rank(spans[j].lo)
  }

  /** Disjoint, and with a gap of at least one address between any two spans. */
  predicate Apart(spans: seq<Span>) {
    forall i, j :: 0 <= i < j < |spans| ==> spans[i].hi.v + 1 < spans[j].lo.v
  }

  /** Apart, except where an IPv6 span starts in ::ffff:0:0/96. */
  predicate NearlyApart(spans: seq<Span>) {
    forall i, j :: 0 <= i < j < |spans| ==>
      spans[i].hi.v + 1 < spans[j].lo.v || (spans[j].lo.V6? && InMappedBlock(spans[j].lo.v))
  }

  /** One of the spans contains both x - 1 and x. */
  predicate Bridged(spans: seq<Span>, x: nat) {
    exists s :: s in spans && s.lo.v < x <= s.hi.v
  }

  /** The state of the merge pass: the open span and the sorted rest. */
  predicate Ready(cur: Span, rest: seq<Span>, bitLen: nat) {
    && ProperSpan(cur, bitLen) && Proper(rest, bitLen) && SortedByLo(rest)
    && (rest != [] ==> Rank(cur.lo) <= Rank(rest[0].lo))
  }

  lemma ReadyNext(cur: Span, rest: seq<Span>, bitLen: nat)
    requires Ready(cur, rest, bitLen) && rest != []
    ensures Ready(Absorb(cur, rest[0]), rest[1..], bitLen)
    ensures Ready(rest[0], rest[1..], bitLen)
  {
    assert ProperSpan(rest[0], bitLen);
    assert |rest| > 1 ==> Rank(rest[0].lo) <= Rank(rest[1].lo);
  }

  /**
   What the join test of `merge` means on sorted spans of one family: overlap, or adjacency whose upper
   address is not in ::ffff:0:0/96.  The wrap of `nextAddr` at the top of IPv6 never joins anything new.
   */
  lemma JoinsExactly(cur: Span, s: Span, bitLen: nat)
    requires ProperSpan(cur, bitLen) && ProperSpan(s, bitLen) && Rank(cur.lo) <= Rank(s.lo)
    ensures Joins(cur, s) <==>
            || s.lo.v <= cur.hi.v
            || (s.lo.v == cur.hi.v + 1 && (s.lo.V6? ==> !InMappedBlock(s.lo.v)))
  {
    NextOfSeesNeighbours(cur.hi, s.lo);
  }

  lemma {:induction false} CoalesceProper(cur: Span, rest: seq<Span>, bitLen: nat)
    requires Ready(cur, rest, bitLen)
    ensures Proper(Coalesce(cur, rest), bitLen)
    ensures Coalesce(cur, rest)[0].lo == cur.lo
    ensures Disjoint(Coalesce(cur, rest))
    ensures NearlyApart(Coalesce(cur, rest))
    decreases |rest|
  {
    if rest != [] {
      var s, tail := rest[0], rest[1..];
      ReadyNext(cur, rest, bitLen);
      if Joins(cur, s) {
        CoalesceProper(Absorb(cur, s), tail, bitLen);
      } else {
        CoalesceProper(s, tail, bitLen);
        JoinsExactly(cur, s, bitLen);
        GapCarries(cur, Coalesce(s, tail), bitLen);
      }
    }
  }

  /** The first gap of a merge separates `cur` from everything that follows. */
  lemma GapCarries(cur: Span, out: seq<Span>, bitLen: nat)
    requires out != [] && ProperSpan(cur, bitLen) && Proper(out, bitLen) && Disjoint(out)
    requires Rank(cur.hi) < Rank(out[0].lo)
    ensures Proper([cur] + out, bitLen) && Disjoint([cur] + out)
    ensures NearlyApart(out) && (cur.hi.v + 1 < out[0].lo.v || (out[0].lo.V6? && InMappedBlock(out[0].lo.v))) ==> NearlyApart([cur] + out)
  {
    forall j | 0 <= j < |out|
      ensures out[0].lo.v <= out[j].lo.v && BitLen(out[j].lo) == bitLen
    {
      assert ProperSpan(out[0], bitLen) && ProperSpan(out[j], bitLen);
    }
    var all := [cur] + out;
    assert forall i :: 1 <= i < |all| ==> all[i] == out[i - 1];
  }

  lemma {:induction false} CoalesceCovers(cur: Span, rest: seq<Span>, bitLen: nat, ip: Addr)
    requires Ready(cur, rest, bitLen)
    ensures Covers(Coalesce(cur, rest), ip) <==> InSpan(cur, ip) || Covers(rest, ip)
    decreases |rest|
  {
    if rest != [] {
      var s, tail := rest[0], rest[1..];
      ReadyNext(cur, rest, bitLen);
      if Joins(cur, s) {
        CoalesceCovers(Absorb(cur, s), tail, bitLen, ip);
        AbsorbCovers(cur, s, bitLen, ip);
      } else {
        CoalesceCovers(s, tail, bitLen, ip);
        ConsCovers(cur, Coalesce(s, tail), ip);
      }
      assert rest == [s] + tail;
      ConsCovers(s, tail, ip);
    }
  }

  lemma ConsCovers(s: Span, tail: seq<Span>, ip: Addr)
    ensures Covers([s] + tail, ip) <==> InSpan(s, ip) || Covers(tail, ip)
  {
    assert s in [s] + tail;
  }

  lemma AbsorbCovers(cur: Span, s: Span, bitLen: nat, ip: Addr)
    requires Joins(cur, s) && Rank(cur.lo) <= Rank(s.lo)
    requires ProperSpan(cur, bitLen) && ProperSpan(s, bitLen)
    ensures InSpan(Absorb(cur, s), ip) <==> InSpan(cur, ip) || InSpan(s, ip)
  {
    JoinsExactly(cur, s, bitLen);
  }

  lemma MergeSortedKeepsCover(t: seq<Span>, bitLen: nat)
    requires SortedByLo(t) && Proper(t, bitLen)
    ensures Proper(MergeSorted(t), bitLen) && Disjoint(MergeSorted(t))
    ensures forall ip :: Covers(MergeSorted(t), ip) <==> Covers(t, ip)
    ensures NearlyApart(MergeSorted(t))
    ensures forall x: nat :: InMappedBlock(x) && bitLen == 128 ==> (Bridged(MergeSorted(t), x) <==> Bridged(t, x))
  {
    if t != [] {
      var cur, rest := t[0], t[1..];
      assert Ready(cur, rest, bitLen);
      CoalesceProper(cur, rest, bitLen);
      assert t == [cur] + rest;
      forall ip: Addr
        ensures Covers(MergeSorted(t), ip) <==> Covers(t, ip)
      {
        CoalesceCovers(cur, rest, bitLen, ip);
        ConsCovers(cur, rest, ip);
      }
      forall x: nat | InMappedBlock(x) && bitLen == 128
        ensures Bridged(MergeSorted(t), x) <==> Bridged(t, x)
      {
        CoalesceBridges(cur, rest, x);
        ConsBridged(cur, rest, x);
      }
    }
  }

  lemma ConsBridged(s: Span, tail: seq<Span>, x: nat)
    ensures Bridged([s] + tail, x) <==> (s.lo.v < x <= s.hi.v) || Bridged(tail, x)
  {
    assert s in [s] + tail;
  }

  /** Merging never joins two spans at a start inside ::ffff:0:0/96, nor does it part one there. */
  lemma {:induction false} CoalesceBridges(cur: Span, rest: seq<Span>, x: nat)
    requires Ready(cur, rest, 128) && InMappedBlock(x)
    ensures Bridged(Coalesce(cur, rest), x) <==> (cur.lo.v < x <= cur.hi.v) || Bridged(rest, x)
    decreases |rest|
  {
    if rest != [] {
      var s, tail := rest[0], rest[1..];
      ReadyNext(cur, rest, 128);
      assert ProperSpan(s, 128);
      if Joins(cur, s) {
        CoalesceBridges(Absorb(cur, s), tail, x);
        AbsorbBridges(cur, s, x);
      } else {
        CoalesceBridges(s, tail, x);
        ConsBridged(cur, Coalesce(s, tail), x);
      }
      assert rest == [s] + tail;
      ConsBridged(s, tail, x);
    }
  }

  lemma AbsorbBridges(cur: Span, s: Span, x: nat)
    requires Joins(cur, s) && Rank(cur.lo) <= Rank(s.lo) && InMappedBlock(x)
    requires ProperSpan(cur, 128) && ProperSpan(s, 128)
    ensures var both := Absorb(cur, s);
            both.lo.v < x <= both.hi.v <==> cur.lo.v < x <= cur.hi.v || s.lo.v < x <= s.hi.v
  {
    JoinsExactly(cur, s, 128);
  }

  lemma PermutedSpans(t: seq<Span>, spans: seq<Span>, bitLen: nat)
    requires multiset(t) == multiset(spans) && Proper(spans, bitLen)
    ensures Proper(t, bitLen)
    ensures forall x: nat :: Bridged(t, x) <==> Bridged(spans, x)
    ensures forall ip :: Covers(t, ip) <==> Covers(spans, ip)
  {
    assert forall s :: s in t <==> s in multiset(t);
    assert forall s :: s in spans <==> s in multiset(spans);
    assert forall i :: 0 <= i < |t| ==> t[i] in spans;
  }

  /** Merging keeps the covered addresses and yields proper disjoint spans in order. */
  lemma MergeKeepsCover(out: seq<Span>, spans: seq<Span>, bitLen: nat)
    requires IsMergeOf(out, spans) && Proper(spans, bitLen)
    ensures Proper(out, bitLen) && Disjoint(out)
    ensures forall ip :: Covers(out, ip) <==> Covers(spans, ip)
    ensures NearlyApart(out)
    ensures forall x: nat :: InMappedBlock(x) && bitLen == 128 ==> (Bridged(out, x) <==> Bridged(spans, x))
  {
    var t :| multiset(t) == multiset(spans) && SortedByLo(t) && out == MergeSorted(t);
    PermutedSpans(t, spans, bitLen);
    MergeSortedKeepsCover(t, bitLen);
  }

  // ----- binary search refines the scan

  lemma EndsAscend(spans: seq<Span>, bitLen: nat)
    requires Proper(spans, bitLen) && Disjoint(spans)
    ensures EndsAscending(spans)
  {
    forall m, n | 0 <= m < n < |spans|
      ensures Rank(spans[m].hi) < Rank(spans[n].hi)
    {
      assert ProperSpan(spans[n], bitLen);
    }
  }

  predicate EndsAscending(spans: seq<Span>) {
    forall m, n :: 0 <= m < n < |spans| ==> Rank(spans[m].hi) < Rank(spans[n].hi)
  }

  /** On ascending ends the search returns the first span that does not end below ip. */
  lemma {:induction false} SearchFinds(spans: seq<Span>, ip: Addr, i: nat, j: nat, m: nat)
    requires i <= m < j <= |spans| && EndsAscending(spans)
    ensures m < Search(spans, ip, i, j) <==> Rank(spans[m].hi) < Rank(ip)
    decreases j - i
  {
    var h := (i + j) / 2;
    if Compare(spans[h].hi, ip) >= 0 {
      if m < h {
        SearchFinds(spans, ip, i, h, m);
      }
    } else if h < m {
      SearchFinds(spans, ip, h + 1, j, m);
    }
  }

  lemma FindIsCovers(spans: seq<Span>, ip: Addr, bitLen: nat)
    requires Proper(spans, bitLen) && Disjoint(spans) && BitLen(ip) == bitLen
    ensures Find(spans, ip) <==> Covers(spans, ip)
  {
    EndsAscend(spans, bitLen);
    var k := Search(spans, ip, 0, |spans|);
    if k < |spans| {
      SearchFinds(spans, ip, 0, |spans|, k);
      assert spans[k] in spans;
    }
    if Covers(spans, ip) {
      var s :| s in spans && InSpan(s, ip);
      var m :| 0 <= m < |spans| && spans[m] == s;
      SearchMeets(spans, ip, m);
    }
  }

  lemma SearchMeets(spans: seq<Span>, ip: Addr, m: nat)
    requires Disjoint(spans) && EndsAscending(spans) && m < |spans| && InSpan(spans[m], ip)
    ensures Search(spans, ip, 0, |spans|) == m
  {
    SearchFinds(spans, ip, 0, |spans|, m);
    if m > 0 {
      SearchFinds(spans, ip, 0, |spans|, m - 1);
      assert Rank(spans[m - 1].hi) < Rank(spans[m].lo);
    }
  }

  lemma {:induction false} SpansOfMembers(ps: seq<Prefix>, bitLen: nat, s: Span)
    ensures s in SpansOf(ps, bitLen) <==> exists p :: p in ps && BitLen(p.addr) == bitLen && s == SpanOf(p)
  {
    if ps == [] {
    } else {
      var init, p := ps[..|ps| - 1], ps[|ps| - 1];
      SpansOfMembers(init, bitLen, s);
      assert ps == init + [p];
    }
  }

  predicate AllMasked(ps: seq<Prefix>) {
    forall p :: p in ps ==> p.Masked()
  }

  predicate NoneEndsMapped(ps: seq<Prefix>) {
    forall p :: p in ps ==> !EndsMapped(p)
  }

  lemma SpansOfMeaning(ps: seq<Prefix>, bitLen: nat)
    requires AllMasked(ps) && NoneEndsMapped(ps)
    ensures Proper(SpansOf(ps, bitLen), bitLen)
    ensures forall ip: Addr :: BitLen(ip) == bitLen ==> (Covers(SpansOf(ps, bitLen), ip) <==> Scan(ps, ip))
  {
    forall i | 0 <= i < |SpansOf(ps, bitLen)|
      ensures ProperSpan(SpansOf(ps, bitLen)[i], bitLen)
    {
      var s := SpansOf(ps, bitLen)[i];
      SpansOfMembers(ps, bitLen, s);
      var p :| p in ps && BitLen(p.addr) == bitLen && s == SpanOf(p);
      LastOfMasked(p);
    }
    forall ip: Addr | BitLen(ip) == bitLen
      ensures Covers(SpansOf(ps, bitLen), ip) <==> Scan(ps, ip)
    {
      if Covers(SpansOf(ps, bitLen), ip) {
        var s :| s in SpansOf(ps, bitLen) && InSpan(s, ip);
        SpansOfMembers(ps, bitLen, s);
        var p :| p in ps && BitLen(p.addr) == bitLen && s == SpanOf(p);
        SpanIsPrefix(p);
        assert p.Contains(ip);
      }
      if Scan(ps, ip) {
        var p :| p in ps && p.Contains(ip);
        SpanIsPrefix(p);
        SpansOfMembers(ps, bitLen, SpanOf(p));
        assert SpanOf(p) in SpansOf(ps, bitLen) && InSpan(SpanOf(p), ip);
      }
    }
  }

  /** What the index promises: a lookup is the linear scan for the unmapped address. */
  ghost predicate Exact(ix: Index, ps: seq<Prefix>) {
    forall ip :: Contains(ix, ip) <==> Scan(ps, Unmap(ip))
  }

  /** Main result: sort, merge and binary search together compute the linear scan. */
  lemma IndexIsExact(ix: Index, ps: seq<Prefix>)
    requires IsIndexOf(ix, ps) && AllMasked(ps) && NoneEndsMapped(ps)
    ensures Exact(ix, ps)
  {
    SpansOfMeaning(ps, 32);
    SpansOfMeaning(ps, 128);
    MergeKeepsCover(ix.v4, SpansOf(ps, 32), 32);
    MergeKeepsCover(ix.v6, SpansOf(ps, 128), 128);
    forall ip: Addr
      ensures Contains(ix, ip) <==> Scan(ps, Unmap(ip))
    {
      var u := Unmap(ip);
      if u.V4? {
        FindIsCovers(ix.v4, u, 32);
      } else {
        FindIsCovers(ix.v6, u, 128);
      }
    }
  }

  // ----- how far the condition can be relaxed

  /** The prefix list {::/128, p} or {p} on which a prefix ending in the mapped block loses an address. */
  function Victim(p: Prefix): seq<Prefix> {
    if p.addr.v == 0 then [] else [Prefix(V6(0), 128)]
  }

  /** Merging leaves the spans of that list as they are, whatever the sort did, and the middle one ends in IPv4. */
  lemma VictimMerges(p: Prefix, t: seq<Span>)
    requires p.Masked() && EndsMapped(p)
    requires multiset(t) == multiset(SpansOf(Victim(p) + [p], 128)) && SortedByLo(t)
    ensures MergeSorted(t) == t && 1 <= |t| <= 2 && t[|t| / 2].hi.V4?
  {
    hide SpansOf, MergeSorted;
    VictimSpans(p);
    LastOfMasked(p);
    if p.addr.v == 0 {
      OnlySorted([SpanOf(p)], t);
      SingleIsMerged(SpanOf(p));
    } else {
      EvenStart(p);
      OnlySorted([Span(V6(0), V6(0)), SpanOf(p)], t);
      UnmergedPair(Span(V6(0), V6(0)), SpanOf(p));
    }
  }

  /** In every index of that list the search for :: runs past all spans. */
  lemma EndsMappedBreaks(p: Prefix, ix: Index)
    requires p.Masked() && EndsMapped(p) && IsIndexOf(ix, Victim(p) + [p])
    ensures AllMasked(Victim(p)) && NoneEndsMapped(Victim(p))
    ensures !Contains(ix, V6(0)) && Scan(Victim(p) + [p], V6(0))
  {
    assert p.addr.V6?;
    hide Contains, Scan, AllMasked, NoneEndsMapped, MergeSorted, SpansOf, SortedByLo, EndsMapped;
    var t :| multiset(t) == multiset(SpansOf(Victim(p) + [p], 128)) && SortedByLo(t) && ix.v6 == MergeSorted(t);
    VictimMerges(p, t);
    VictimCovers(p);
    BrokenIndex(ix, t);
  }

  /** One or two spans with different starts have one sorted arrangement. */
  lemma OnlySorted(u: seq<Span>, t: seq<Span>)
    requires multiset(t) == multiset(u) && SortedByLo(t) && 1 <= |u| <= 2
    requires |u| == 2 ==> Rank(u[0].lo) < Rank(u[1].lo)
    ensures t == u
  {
    assert |t| == |multiset(t)| == |multiset(u)| == |u|;
    if |u| == 1 {
      assert u == [u[0]] && t == [t[0]];
      assert t[0] in multiset(u);
    } else {
      assert u == [u[0], u[1]] && t == [t[0], t[1]];
      assert t[0] in multiset(u) && t[1] in multiset(u);
      assert u[0] in multiset(t) && u[1] in multiset(t);
    }
  }

  lemma SingleIsMerged(s: Span)
    ensures MergeSorted([s]) == [s]
  {
    assert [s][1..] == [];
  }

  /** With a span that ends in IPv4 at position |t| / 2, the search for :: goes right and falls off the end. */
  lemma BrokenIndex(ix: Index, t: seq<Span>)
    requires ix.v6 == t && 1 <= |t| <= 2 && t[|t| / 2].hi.V4?
    ensures !Contains(ix, V6(0))
  {
    hide Find;
    FallsOffTheEnd(t);
  }

  lemma FallsOffTheEnd(t: seq<Span>)
    requires 1 <= |t| <= 2 && t[|t| / 2].hi.V4?
    ensures !Find(t, V6(0))
  {
    assert Compare(t[|t| / 2].hi, V6(0)) < 0;
    assert Search(t, V6(0), |t|, |t|) == |t|;
  }

  lemma VictimCovers(p: Prefix)
    ensures AllMasked(Victim(p)) && NoneEndsMapped(Victim(p))
    ensures p.addr.V6? ==> Scan(Victim(p) + [p], V6(0))
  {
    var ps, zero: Prefix := Victim(p) + [p], Prefix(V6(0), 128);
    if p.addr.V6? && p.addr.v == 0 {
      assert p in ps && p.Contains(V6(0));
    } else if p.addr.V6? {
      assert zero in ps && zero.Contains(V6(0));
    }
  }

  lemma VictimSpans(p: Prefix)
    requires EndsMapped(p)
    ensures SpansOf(Victim(p) + [p], 32) == []
    ensures SpansOf(Victim(p) + [p], 128) == if p.addr.v == 0 then [SpanOf(p)] else [Span(V6(0), V6(0)), SpanOf(p)]
  {
    var ps := Victim(p) + [p];
    assert ps[..|ps| - 1] == Victim(p) && ps[|ps| - 1] == p;
    if p.addr.v != 0 {
      var zero: Prefix := Prefix(V6(0), 128);
      assert Victim(p) == [zero] && [zero][..0] == [];
      assert SpansOf([zero], 32) == SpansOf([], 32) + [];
      assert SpansOf([zero], 128) == SpansOf([], 128) + [SpanOf(zero)];
    }
  }

  lemma UnmergedPair(a: Span, b: Span)
    requires !Joins(a, b)
    ensures MergeSorted([a, b]) == [a, b]
  {
    assert [a, b][1..] == [b] && [b][1..] == [];
    assert Coalesce(a, [b]) == [a] + Coalesce(b, []);
  }

  lemma EvenStart(p: Prefix)
    requires p.Masked() && p.HostBits() > 0
    ensures p.addr.v != 1
  {
    HalfOfShifted(Shr(p.addr.v, p.HostBits()), 0, p.HostBits());
  }

  /**
   The condition on prefixes cannot be weakened: a prefix may be added to every list of admissible
   prefixes without spoiling any lookup if and only if it does not end in the mapped block.
   */
  lemma AdmissibleExactly(p: Prefix)
    requires p.Masked()
    ensures !EndsMapped(p) <==>
            forall ps, ix :: AllMasked(ps) && NoneEndsMapped(ps) && IsIndexOf(ix, ps + [p]) ==> Exact(ix, ps + [p])
  {
    if EndsMapped(p) {
      VictimCovers(p);
      var ix := SomeIndex(Victim(p) + [p]);
      EndsMappedBreaks(p, ix);
      assert !Exact(ix, Victim(p) + [p]);
    } else {
      forall ps: seq<Prefix>, ix | AllMasked(ps) && NoneEndsMapped(ps) && IsIndexOf(ix, ps + [p])
        ensures Exact(ix, ps + [p])
      {
        IndexIsExact(ix, ps + [p]);
      }
    }
  }

  /** The list { ::/128, ::ffff:1.2.3.0/120 }. */
  function LossyList(): seq<Prefix> {
    [Prefix(V6(0), 128), Prefix(V6(MAPPED_BASE + 0x0102_0300), 120)]
  }

  /** Every index of that list loses the address ::, which the list contains. */
  lemma MappedPrefixLosesAddress(ix: Index)
    requires IsIndexOf(ix, LossyList())
    ensures AllMasked(LossyList()) && Scan(LossyList(), V6(0)) && !Contains(ix, V6(0))
  {
    var p := LossyList()[1];
    LossyPrefix(p);
    assert LossyList() == Victim(p) + [p];
    EndsMappedBreaks(p, ix);
  }

  lemma LossyPrefix(p: Prefix)
    requires p == Prefix(V6(MAPPED_BASE + 0x0102_0300), 120)
    ensures p.Masked() && EndsMapped(p)
  {
    var n := 7;
    assert Pow2(n + 1) == 256 by { Pow2Of8(); }
    BlockOf(p.addr.v, 8);
    assert Shr(p.addr.v, 8) == 0xFF_FF01_0203;
  }

  // ----- canonical form

  /** One prefix contains both x - 1 and x. */
  predicate Spanned(ps: seq<Prefix>, x: nat)
    requires InMappedBlock(x)
  {
    exists p :: p in ps && p.Contains(V6(x - 1)) && p.Contains(V6(x))
  }

  /** Two neighbours of which the upper lies in ::ffff:0:0/96 are both in the list, but no one prefix has both. */
  ghost predicate Seamed(ps: seq<Prefix>) {
    exists x: nat :: InMappedBlock(x) && Scan(ps, V6(x - 1)) && Scan(ps, V6(x)) && !Spanned(ps, x)
  }

  /** No IPv6 prefix of any length, /128 included, ends in the mapped block. */
  predicate AvoidsMapped(ps: seq<Prefix>) {
    forall p :: p in ps && p.addr.V6? ==> !InMappedBlock(p.addr.v + Pow2(p.HostBits()) - 1)
  }

  /** A masked prefix that starts in the mapped block also ends there. */
  lemma StartsMappedEndsMapped(p: Prefix)
    requires p.Masked() && p.addr.V6? && InMappedBlock(p.addr.v)
    ensures InMappedBlock(p.addr.v + Pow2(p.HostBits()) - 1)
  {
    var v, h := p.addr.v, p.HostBits();
    if h <= 32 {
      BlockOf(v, h);
      MappedFills(v, h);
    } else {
      CoarserMultiple(Shr(v, h), h, 33);
      NoMultipleMapped(Shr(v, h) * Pow2(h - 33));
    }
  }

  /** Filling up to 32 low bits stays inside ::ffff:0:0/96. */
  lemma MappedFills(v: nat, h: nat)
    requires InMappedBlock(v) && h <= 32
    ensures InMappedBlock(FillLow(v, h))
  {
    Pow2Of32();
    FillLowBelow(0xFFFF, v - MAPPED_BASE, 32, h);
    FillLowBound(v - MAPPED_BASE, h, 32);
  }

  /** ::ffff:0:0/96 holds no multiple of 2^33. */
  lemma NoMultipleMapped(m: nat)
    ensures !InMappedBlock(m * Pow2(33))
  {
    Pow2Of32();
    assert Pow2(33) == 2 * TWO_32;
    assert m * Pow2(33) == 0x2_0000_0000 * m;
  }

  lemma {:induction false} CoarserMultiple(w: nat, h: nat, k: nat)
    requires k <= h
    ensures w * Pow2(h) == (w * Pow2(h - k)) * Pow2(k)
  {
    if k > 0 {
      CoarserMultiple(w, h - 1, k - 1);
      HalfOfShifted(w, 0, h);
      HalfOfShifted(w * Pow2(h - k), 0, k);
    }
  }

  /** Ranks covered by a span list; between two addresses of one family every rank is an address of it. */
  predicate CoversRank(spans: seq<Span>, x: nat) {
    exists i :: 0 <= i < |spans| && Rank(spans[i].lo) <= x <= Rank(spans[i].hi)
  }

  lemma CoversAsRank(spans: seq<Span>, bitLen: nat, ip: Addr)
    requires Proper(spans, bitLen)
    ensures Covers(spans, ip) <==> CoversRank(spans, Rank(ip))
  {
    if CoversRank(spans, Rank(ip)) {
      var i :| 0 <= i < |spans| && Rank(spans[i].lo) <= Rank(ip) <= Rank(spans[i].hi);
      assert spans[i] in spans && InSpan(spans[i], ip);
    }
  }

  function AddrAt(x: nat): Addr
    requires x < TWO_32 + TWO_128
  {
    if x < TWO_32 then V4(x) else V6(x - TWO_32)
  }

  lemma SameCoverSameRanks(a: seq<Span>, b: seq<Span>, bitLen: nat)
    requires Proper(a, bitLen) && Proper(b, bitLen)
    requires forall ip: Addr :: Covers(a, ip) <==> Covers(b, ip)
    ensures forall x: nat :: CoversRank(a, x) <==> CoversRank(b, x)
  {
    forall x: nat
      ensures CoversRank(a, x) <==> CoversRank(b, x)
    {
      if x < TWO_32 + TWO_128 {
        CoversAsRank(a, bitLen, AddrAt(x));
        CoversAsRank(b, bitLen, AddrAt(x));
      }
    }
  }

  /** Spans that are apart are determined by what they cover. */
  lemma {:induction false} ApartIsCanonical(a: seq<Span>, b: seq<Span>, bitLen: nat)
    requires Proper(a, bitLen) && Proper(b, bitLen) && Apart(a) && Apart(b)
    requires forall x: nat :: CoversRank(a, x) <==> CoversRank(b, x)
    ensures a == b
    decreases |a|
  {
    if a == [] || b == [] {
      if a != [] {
        FirstStart(a, bitLen);
      }
      if b != [] {
        FirstStart(b, bitLen);
      }
    } else {
      FirstStart(a, bitLen);
      FirstStart(b, bitLen);
      assert CoversRank(b, Rank(a[0].lo)) && CoversRank(a, Rank(b[0].lo));
      assert a[0].lo == b[0].lo by {
        assert ProperSpan(a[0], bitLen) && ProperSpan(b[0], bitLen);
      }
      FirstEnd(a, b, bitLen);
      FirstEnd(b, a, bitLen);
      assert a[0] == b[0];
      forall x: nat
        ensures CoversRank(a[1..], x) <==> CoversRank(b[1..], x)
      {
        RestCovers(a, bitLen, x);
        RestCovers(b, bitLen, x);
      }
      ApartIsCanonical(a[1..], b[1..], bitLen);
      assert a == [a[0]] + a[1..] && b == [b[0]] + b[1..];
    }
  }

  lemma FirstStart(a: seq<Span>, bitLen: nat)
    requires a != [] && Proper(a, bitLen) && Apart(a)
    ensures CoversRank(a, Rank(a[0].lo))
    ensures forall x: nat :: CoversRank(a, x) ==> Rank(a[0].lo) <= x
  {
    assert ProperSpan(a[0], bitLen);
    forall i | 0 <= i < |a|
      ensures Rank(a[0].lo) <= Rank(a[i].lo)
    {
      assert ProperSpan(a[i], bitLen);
    }
  }

  lemma FirstEnd(a: seq<Span>, b: seq<Span>, bitLen: nat)
    requires a != [] && b != [] && Proper(a, bitLen) && Proper(b, bitLen) && Apart(a)
    requires a[0].lo == b[0].lo
    requires forall x: nat :: CoversRank(a, x) <==> CoversRank(b, x)
    ensures b[0].hi.v <= a[0].hi.v
  {
    assert ProperSpan(a[0], bitLen) && ProperSpan(b[0], bitLen);
    if b[0].hi.v > a[0].hi.v {
      assert CoversRank(b, Rank(a[0].hi) + 1);
      GapAfterFirst(a, bitLen);
    }
  }

  lemma GapAfterFirst(a: seq<Span>, bitLen: nat)
    requires a != [] && Proper(a, bitLen) && Apart(a)
    ensures !CoversRank(a, Rank(a[0].hi) + 1)
  {
    forall i | 0 < i < |a|
      ensures Rank(a[0].hi) + 1 < Rank(a[i].lo)
    {
      assert ProperSpan(a[0], bitLen) && ProperSpan(a[i], bitLen);
    }
  }

  lemma RestCovers(a: seq<Span>, bitLen: nat, x: nat)
    requires a != [] && Proper(a, bitLen) && Apart(a)
    ensures CoversRank(a[1..], x) <==> CoversRank(a, x) && x > Rank(a[0].hi)
  {
    if CoversRank(a[1..], x) {
      var i :| 0 <= i < |a[1..]| && Rank(a[1..][i].lo) <= x <= Rank(a[1..][i].hi);
      assert a[1..][i] == a[i + 1] && ProperSpan(a[0], bitLen) && ProperSpan(a[i + 1], bitLen);
    }
    if CoversRank(a, x) && x > Rank(a[0].hi) {
      var i :| 0 <= i < |a| && Rank(a[i].lo) <= x <= Rank(a[i].hi);
      assert a[1..][i - 1] == a[i];
    }
  }

  lemma {:induction false} BridgedIsSpanned(ps: seq<Prefix>, x: nat)
    requires AllMasked(ps) && NoneEndsMapped(ps) && InMappedBlock(x)
    ensures Bridged(SpansOf(ps, 128), x) <==> Spanned(ps, x)
  {
    if Bridged(SpansOf(ps, 128), x) {
      var s :| s in SpansOf(ps, 128) && s.lo.v < x <= s.hi.v;
      SpansOfMembers(ps, 128, s);
      var p :| p in ps && BitLen(p.addr) == 128 && s == SpanOf(p);
      LastOfMasked(p);
      SpanIsPrefix(p);
      assert InSpan(s, V6(x - 1)) && InSpan(s, V6(x));
    }
    if Spanned(ps, x) {
      var p :| p in ps && p.Contains(V6(x - 1)) && p.Contains(V6(x));
      LastOfMasked(p);
      SpanIsPrefix(p);
      SpansOfMembers(ps, 128, SpanOf(p));
      assert InSpan(SpanOf(p), V6(x - 1)) && InSpan(SpanOf(p), V6(x));
    }
  }

  /** Neighbouring addresses covered by different spans leave these spans touching. */
  lemma SeamTouches(out: seq<Span>, x: nat)
    requires Proper(out, 128) && Disjoint(out) && InMappedBlock(x)
    requires Covers(out, V6(x - 1)) && Covers(out, V6(x)) && !Bridged(out, x)
    ensures !Apart(out)
  {
    var s :| s in out && InSpan(s, V6(x - 1));
    var t :| t in out && InSpan(t, V6(x));
    var i :| 0 <= i < |out| && out[i] == s;
    var j :| 0 <= j < |out| && out[j] == t;
    assert ProperSpan(out[i], 128) && ProperSpan(out[j], 128);
    assert s.hi.v == x - 1 && t.lo.v == x;
    assert j < i ==> Rank(out[j].hi) < Rank(out[i].lo);
  }

  /** Touching spans meet at a start inside the mapped block, which no span bridges. */
  lemma TouchIsSeam(out: seq<Span>) returns (x: nat)
    requires Proper(out, 128) && Disjoint(out) && NearlyApart(out) && !Apart(out)
    ensures InMappedBlock(x) && Covers(out, V6(x - 1)) && Covers(out, V6(x)) && !Bridged(out, x)
  {
    var i, j :| 0 <= i < j < |out| && out[i].hi.v + 1 >= out[j].lo.v;
    assert ProperSpan(out[i], 128) && ProperSpan(out[j], 128);
    assert Rank(out[i].hi) < Rank(out[j].lo);
    x := out[j].lo.v;
    assert out[i] in out && InSpan(out[i], V6(x - 1));
    assert out[j] in out && InSpan(out[j], V6(x));
    forall k | 0 <= k < |out|
      ensures !(out[k].lo.v < x <= out[k].hi.v)
    {
      assert ProperSpan(out[k], 128);
      if k < j {
        assert Rank(out[k].hi) < Rank(out[j].lo);
      } else if k > j {
        assert Rank(out[j].hi) < Rank(out[k].lo);
      }
    }
  }

  /** The merged spans of one family: what they cover, and that IPv4 spans are always apart. */
  lemma MergedSpans(out: seq<Span>, ps: seq<Prefix>, bitLen: nat)
    requires IsMergeOf(out, SpansOf(ps, bitLen)) && AllMasked(ps) && NoneEndsMapped(ps)
    ensures Proper(out, bitLen) && Disjoint(out) && NearlyApart(out)
    ensures bitLen == 32 ==> Apart(out)
    ensures forall ip: Addr :: Covers(out, ip) <==> BitLen(ip) == bitLen && Scan(ps, ip)
  {
    SpansOfMeaning(ps, bitLen);
    MergeKeepsCover(out, SpansOf(ps, bitLen), bitLen);
    forall ip: Addr, s | s in out && InSpan(s, ip)
      ensures BitLen(ip) == bitLen
    {
      var i :| 0 <= i < |out| && out[i] == s;
      assert ProperSpan(out[i], bitLen);
    }
    forall j | 0 <= j < |out|
      ensures BitLen(out[j].lo) == bitLen
    {
      assert ProperSpan(out[j], bitLen);
    }
  }

  lemma MergedBridges(out: seq<Span>, ps: seq<Prefix>, x: nat)
    requires IsMergeOf(out, SpansOf(ps, 128)) && AllMasked(ps) && NoneEndsMapped(ps) && InMappedBlock(x)
    ensures Bridged(out, x) <==> Spanned(ps, x)
  {
    SpansOfMeaning(ps, 128);
    MergeKeepsCover(out, SpansOf(ps, 128), 128);
    BridgedIsSpanned(ps, x);
  }

  /**
   When the spans are never adjacent: always for IPv4, and for IPv6 if and only if the list has no two
   neighbours, the upper one inside ::ffff:0:0/96, that no single prefix contains.
   */
  lemma ApartExactly(ix: Index, ps: seq<Prefix>)
    requires AllMasked(ps) && NoneEndsMapped(ps) && IsIndexOf(ix, ps)
    ensures Apart(ix.v4)
    ensures Apart(ix.v6) <==> !Seamed(ps)
  {
    hide Apart, NearlyApart, Disjoint, Proper, IsMergeOf, SpansOf, Covers, Scan, Bridged, Spanned, AllMasked, NoneEndsMapped;
    MergedSpans(ix.v4, ps, 32);
    MergedSpans(ix.v6, ps, 128);
    if Seamed(ps) {
      var x: nat :| InMappedBlock(x) && Scan(ps, V6(x - 1)) && Scan(ps, V6(x)) && !Spanned(ps, x);
      MergedBridges(ix.v6, ps, x);
      SeamTouches(ix.v6, x);
    } else if !Apart(ix.v6) {
      var x := TouchIsSeam(ix.v6);
      MergedBridges(ix.v6, ps, x);
    }
  }

  /** A list none of whose prefixes ends in the mapped block has no such neighbours, and is admissible. */
  lemma AvoidsMappedSuffices(ps: seq<Prefix>)
    requires AllMasked(ps) && AvoidsMapped(ps)
    ensures NoneEndsMapped(ps) && !Seamed(ps)
  {
    forall p | p in ps
      ensures !EndsMapped(p)
    {
      LastOfMasked(p);
    }
    forall x: nat | InMappedBlock(x) && Scan(ps, V6(x))
      ensures Spanned(ps, x)
    {
      var p :| p in ps && p.Contains(V6(x));
      SpanIsPrefix(p);
      LastOfMasked(p);
      assert InSpan(SpanOf(p), V6(x));
      if p.addr.v == x {
        StartsMappedEndsMapped(p);
        assert false;
      }
      assert InSpan(SpanOf(p), V6(x - 1));
    }
  }

  /**
   Canonical form: whatever the order, nesting, overlap or duplication of the prefixes, two lists that
   cover the same addresses build the same spans.
   */
  lemma IndexIsCanonical(ps: seq<Prefix>, qs: seq<Prefix>, ix: Index, jx: Index)
    requires AllMasked(ps) && NoneEndsMapped(ps) && !Seamed(ps) && IsIndexOf(ix, ps)
    requires AllMasked(qs) && NoneEndsMapped(qs) && !Seamed(qs) && IsIndexOf(jx, qs)
    requires forall ip: Addr :: Scan(ps, ip) <==> Scan(qs, ip)
    ensures ix.v4 == jx.v4 && ix.v6 == jx.v6
  {
    ApartExactly(ix, ps);
    ApartExactly(jx, qs);
    MergedSpans(ix.v4, ps, 32);
    MergedSpans(jx.v4, qs, 32);
    SameCoverSameRanks(ix.v4, jx.v4, 32);
    ApartIsCanonical(ix.v4, jx.v4, 32);
    MergedSpans(ix.v6, ps, 128);
    MergedSpans(jx.v6, qs, 128);
    SameCoverSameRanks(ix.v6, jx.v6, 128);
    ApartIsCanonical(ix.v6, jx.v6, 128);
  }

  lemma SeamOfPair(a: Prefix, b: Prefix)
    requires a == Prefix(V6(MAPPED_BASE - 1), 128) && b == Prefix(V6(MAPPED_BASE), 128)
    ensures Seamed([a, b])
  {
    var ps, x := [a, b], MAPPED_BASE;
    assert a in ps && a.Contains(V6(x - 1)) && !a.Contains(V6(x));
    assert b in ps && b.Contains(V6(x)) && !b.Contains(V6(x - 1));
    assert forall p :: p in ps ==> p == a || p == b;
    assert Scan(ps, V6(x - 1)) && Scan(ps, V6(x)) && !Spanned(ps, x);
  }

  /** ::fffe:ffff:ffff/128 and ::ffff:0:0/128 are neighbours that merge leaves apart as two spans. */
  lemma MappedNeighboursStayApart()
    ensures var a, b := Prefix(V6(MAPPED_BASE - 1), 128), Prefix(V6(MAPPED_BASE), 128);
            && AllMasked([a, b]) && NoneEndsMapped([a, b]) && Seamed([a, b])
            && MergeSorted([SpanOf(a), SpanOf(b)]) == [SpanOf(a), SpanOf(b)]
            && !Apart([SpanOf(a), SpanOf(b)])
  {
    var a, b: Prefix := Prefix(V6(MAPPED_BASE - 1), 128), Prefix(V6(MAPPED_BASE), 128);
    var s, t := SpanOf(a), SpanOf(b);
    SeamOfPair(a, b);
    UnmergedPair(s, t);
    assert [s, t][0] == s && [s, t][1] == t;
  }
}
