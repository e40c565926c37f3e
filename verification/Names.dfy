/**
 The three name normalisations (internal/resolve/service.go, internal/upstream/chase.go,
 internal/overrides/overrides.go) and the override list.  Names are ASCII.
 */
module Names {

  predicate IsSpace(c: char) {
    c == ' ' || '\t' <= c <= '\r'
  }

  function TrimLeft(s: string): string {
    if s != [] && IsSpace(s[0]) then TrimLeft(s[1..]) else s
  }

  function TrimRight(s: string): string {
    if s != [] && IsSpace(s[|s| - 1]) then TrimRight(s[..|s| - 1]) else s
  }

  function TrimSpace(s: string): string {
    TrimRight(TrimLeft(s))
  }

  function TrimDot(s: string): string {
    if s != [] && s[|s| - 1] == '.' then s[..|s| - 1] else s
  }

  function LowerChar(c: char): char {
    if 'A' <= c <= 'Z' then (c as int + 32) as char else c
  }

  function ToLower(s: string): string {
    seq(|s|, i requires 0 <= i < |s| => LowerChar(s[i]))
  }

  /** What the three normalisations share: trimmed, without one trailing dot, lower case. */
  function Stem(name: string): string {
    ToLower(TrimDot(TrimSpace(name)))
  }

  /** `normalizeName`: the cache key; the root is ".". */
  function CacheKey(name: string): string {
    if Stem(name) == "" then "." else Stem(name)
  }

  /** `normalize` of the chase: the name sent to the upstreams. */
  function QueryName(name: string): string {
    Stem(name) + "."
  }

  function EqualFold(a: string, b: string): bool {
    ToLower(a) == ToLower(b)
  }

  predicate HasSuffix(s: string, suffix: string) {
    |suffix| <= |s| && s[|s| - |suffix|..] == suffix
  }

  // ----- what normalising does

  /** ASCII upper case letters become lower case ones, and nothing else changes. */
  ghost predicate Lowered(s: string, r: string) {
    && |r| == |s|
    && forall i :: 0 <= i < |s| ==> if 'A' <= s[i] <= 'Z' then r[i] as int == s[i] as int + 32 else r[i] == s[i]
  }

  /** Space, tab, line feed, vertical tab, form feed, carriage return. */
  predicate Blank(c: char) {
    c as int == 32 || 9 <= c as int <= 13
  }

  /** The middle of the name, between the surrounding blanks. */
  ghost predicate Core(name: string, left: string, mid: string, right: string) {
    && name == left + mid + right
    && (forall c :: c in left + right ==> Blank(c))
    && (mid != "" ==> !Blank(mid[0]) && !Blank(mid[|mid| - 1]))
  }

  lemma {:induction false} TrimLeftForm(s: string) returns (left: string)
    ensures s == left + TrimLeft(s) && forall c :: c in left ==> IsSpace(c)
    ensures TrimLeft(s) != "" ==> !IsSpace(TrimLeft(s)[0])
  {
    if s != [] && IsSpace(s[0]) {
      var more := TrimLeftForm(s[1..]);
      left := [s[0]] + more;
    } else {
      left := "";
    }
  }

  lemma {:induction false} TrimRightForm(s: string) returns (right: string)
    ensures s == TrimRight(s) + right && forall c :: c in right ==> IsSpace(c)
    ensures TrimRight(s) != "" ==> !IsSpace(TrimRight(s)[|TrimRight(s)| - 1]) && TrimRight(s)[0] == s[0]
  {
    if s != [] && IsSpace(s[|s| - 1]) {
      var more := TrimRightForm(s[..|s| - 1]);
      right := more + [s[|s| - 1]];
    } else {
      right := "";
    }
  }

  /** Normalising removes the surrounding space, then one trailing dot, and lowers the rest. */
  lemma StemForm(name: string) returns (left: string, mid: string, right: string)
    ensures Core(name, left, mid, right)
    ensures Lowered(if mid != "" && mid[|mid| - 1] == '.' then mid[..|mid| - 1] else mid, Stem(name))
  {
    hide LowerChar, Lowered;
    left := TrimLeftForm(name);
    right := TrimRightForm(TrimLeft(name));
    mid := TrimSpace(name);
    ToLowerForm(TrimDot(mid));
  }

  lemma ToLowerForm(s: string)
    ensures Lowered(s, ToLower(s))
  {
  }

  /** A trimmed string is not trimmed further. */
  lemma TrimmedStays(s: string)
    requires s != "" ==> !IsSpace(s[0]) && !IsSpace(s[|s| - 1])
    ensures TrimSpace(s) == s
  {
  }

  /**
   The name sent upstream is the normalised name with one final dot; it is in normal form, so that it has the
   cache key and the override verdict of the name asked for.
   */
  lemma QueryNameIsNormal(name: string)
    ensures QueryName(name) == Stem(name) + "." && Stem(QueryName(name)) == Stem(name)
    ensures QueryName(QueryName(name)) == QueryName(name) && CacheKey(QueryName(name)) == CacheKey(name)
  {
    var left, mid, right := StemForm(name);
    var q := QueryName(name);
    assert q == Stem(name) + ".";
    assert q[|q| - 1] == '.';
    if Stem(name) != "" {
      assert q[0] == Stem(name)[0] == LowerChar(mid[0]) by {
        LoweredFirst(name, mid);
      }
    }
    TrimmedStays(q);
    assert TrimDot(q) == Stem(name);
    LowerTwice(TrimDot(TrimSpace(name)));
  }

  lemma LoweredFirst(name: string, mid: string)
    requires Stem(name) != "" && mid != "" && Lowered(if mid[|mid| - 1] == '.' then mid[..|mid| - 1] else mid, Stem(name))
    ensures Stem(name)[0] == LowerChar(mid[0])
  {
  }

  lemma LowerTwice(s: string)
    ensures ToLower(ToLower(s)) == ToLower(s)
  {
  }

  // ----- overrides

  datatype OverrideSet = OverrideSet(exact: set<string>, wildcard: seq<string>)

  predicate Matches(o: OverrideSet, qname: string) {
    var q := Stem(qname);
    q != "" && (q in o.exact || exists w :: w in o.wildcard && HasSuffix(q, "." + w))
  }

  /** The set holds the normalised non-empty entries of the two lists. */
  ghost predicate BuiltFrom(o: OverrideSet, exact: seq<string>, wildcard: seq<string>) {
    && (forall e :: e in o.exact <==> e != "" && exists x :: x in exact && e == Stem(x))
    && (forall w :: w in o.wildcard <==> w != "" && exists x :: x in wildcard && w == Stem(x))
  }

  /** `New` */
  method NewOverrides(exact: seq<string>, wildcard: seq<string>) returns (o: OverrideSet)
    ensures BuiltFrom(o, exact, wildcard)
  {
    var names: set<string> := {};
    for i := 0 to |exact|
      invariant forall e :: e in names <==> e != "" && exists x :: x in exact[..i] && e == Stem(x)
    {
      assert exact[..i + 1] == exact[..i] + [exact[i]];
      var e := Stem(exact[i]);
      if e != "" {
        names := names + {e};
      }
    }
    assert exact[..|exact|] == exact;
    var suffixes: seq<string> := [];
    for i := 0 to |wildcard|
      invariant forall w :: w in suffixes <==> w != "" && exists x :: x in wildcard[..i] && w == Stem(x)
    {
      assert wildcard[..i + 1] == wildcard[..i] + [wildcard[i]];
      var w := Stem(wildcard[i]);
      if w != "" {
        suffixes := suffixes + [w];
      }
    }
    assert wildcard[..|wildcard|] == wildcard;
    o := OverrideSet(names, suffixes);
  }

  /** Something, a dot, and the suffix. */
  ghost predicate Below(q: string, suffix: string) {
    exists p: string :: q == p + "." + suffix
  }

  /** What the override lists say about a name, entry by entry. */
  ghost predicate OnList(exact: seq<string>, wildcard: seq<string>, qname: string) {
    && Stem(qname) != ""
    && (|| (exists x :: x in exact && Stem(x) == Stem(qname))
        || (exists x :: x in wildcard && Stem(x) != "" && Below(Stem(qname), Stem(x))))
  }

  lemma SuffixIsBelow(q: string, w: string)
    ensures HasSuffix(q, "." + w) <==> Below(q, w)
  {
    if HasSuffix(q, "." + w) {
      var p := q[..|q| - |w| - 1];
      assert q == p + q[|q| - |w| - 1..];
      assert q == p + "." + w;
    }
    if Below(q, w) {
      var p :| q == p + "." + w;
      assert q[|q| - |"." + w|..] == "." + w;
    }
  }

  /**
   The verdict, on the lists themselves: a non-empty normalised name is on the override list if and only if it
   equals a normalised exact entry, or is something, a dot, and a non-empty normalised wildcard suffix.
   */
  lemma MatchesExactly(o: OverrideSet, exact: seq<string>, wildcard: seq<string>, qname: string)
    requires BuiltFrom(o, exact, wildcard)
    ensures Matches(o, qname) <==> OnList(exact, wildcard, qname)
  {
    hide HasSuffix, Stem;
    var q := Stem(qname);
    forall w: string
      ensures HasSuffix(q, "." + w) <==> Below(q, w)
    {
      SuffixIsBelow(q, w);
    }
    if OnList(exact, wildcard, qname) && !exists x :: x in exact && Stem(x) == q {
      var x :| x in wildcard && Stem(x) != "" && Below(q, Stem(x));
      assert Stem(x) in o.wildcard;
    }
  }

  /** `Match`: on the list by name, or below a wildcard suffix; the suffix itself is not below itself. */
  method Match(o: OverrideSet, qname: string) returns (b: bool)
    ensures b <==> Matches(o, qname)
    ensures forall exact, wildcard :: BuiltFrom(o, exact, wildcard) ==> (b <==> OnList(exact, wildcard, qname))
  {
    forall exact: seq<string>, wildcard: seq<string> | BuiltFrom(o, exact, wildcard)
      ensures Matches(o, qname) <==> OnList(exact, wildcard, qname)
    {
      MatchesExactly(o, exact, wildcard, qname);
    }
    var q := Stem(qname);
    if q == "" {
      return false;
    }
    if q in o.exact {
      return true;
    }
    for i := 0 to |o.wildcard|
      invariant forall j :: 0 <= j < i ==> !HasSuffix(q, "." + o.wildcard[j])
    {
      if HasSuffix(q, "." + o.wildcard[i]) {
        return true;
      }
    }
    return false;
  }

  /** A wildcard alone never matches its own apex, nor a longer name that only ends in the same letters. */
  lemma WildcardNeedsDot(o: OverrideSet, suffix: string, qname: string, x: string)
    requires BuiltFrom(o, [], [suffix])
    requires Stem(qname) == x + Stem(suffix) && (x == "" || x[|x| - 1] != '.')
    ensures !Matches(o, qname)
  {
    hide Matches;
    MatchesExactly(o, [], [suffix], qname);
    var q, w := Stem(qname), Stem(suffix);
    forall p: string
      ensures q != p + "." + w
    {
      assert (p + "." + w)[|p|] == '.';
      assert x != "" ==> q[|x| - 1] == x[|x| - 1];
    }
  }

  /** And it matches every name with something and a dot before it. */
  lemma WildcardMatchesBelow(o: OverrideSet, suffix: string, qname: string, p: string)
    requires BuiltFrom(o, [], [suffix]) && Stem(suffix) != "" && Stem(qname) == p + "." + Stem(suffix)
    ensures Matches(o, qname)
  {
    hide Matches;
    MatchesExactly(o, [], [suffix], qname);
    assert Below(Stem(qname), Stem(suffix)) && suffix in [suffix];
  }

  // ----- keys

  /**
   Sharing a cache entry is sound except for the one name ".." (up to spaces), whose key collides with
   the root's: names with one key are queried under one name, and have one override verdict, exactly
   when both or neither of them is that name.
   */
  lemma KeyDecidesQuery(a: string, b: string)
    requires CacheKey(a) == CacheKey(b)
    ensures QueryName(a) == QueryName(b) <==> (Stem(a) == "." <==> Stem(b) == ".")
    ensures (forall o :: Matches(o, a) <==> Matches(o, b)) <==> (Stem(a) == "." <==> Stem(b) == ".")
  {
    var root := OverrideSet({"."}, []);
    assert Stem(a) == "." && Stem(b) != "." ==> Matches(root, a) && !Matches(root, b);
    assert Stem(b) == "." && Stem(a) != "." ==> Matches(root, b) && !Matches(root, a);
    assert QueryName(a)[..|Stem(a)|] == Stem(a) && QueryName(b)[..|Stem(b)|] == Stem(b);
  }

  /** Names with different keys are queried under different names. */
  lemma KeysSeparate(a: string, b: string)
    requires CacheKey(a) != CacheKey(b)
    ensures QueryName(a) != QueryName(b)
  {
    assert QueryName(a)[..|Stem(a)|] == Stem(a) && QueryName(b)[..|Stem(b)|] == Stem(b);
  }

  /** The collision: "." and ".." share a key, are sent upstream as different names, and can differ in verdict. */
  lemma RootCollision()
    ensures CacheKey(".") == CacheKey("..") && QueryName(".") != QueryName("..")
    ensures exists o :: Matches(o, ".") != Matches(o, "..")
  {
    assert TrimSpace(".") == "." && TrimSpace("..") == "..";
    assert Stem(".") == "" && Stem("..") == ".";
    assert Matches(OverrideSet({"."}, []), "..");
    assert !Matches(OverrideSet({"."}, []), ".");
  }
}
