/** `groupPaths` of the OpenRPC updater: differing paths are summarized under common dotted prefixes. */
module GroupPaths {
  import opened Prelude

  type Path = string

  // ---------- dotted paths ----------

  function FirstDot(s: string): (d: nat)
    ensures d <= |s| && (d < |s| ==> s[d] == '.')
    ensures forall i :: 0 <= i < d ==> s[i] != '.'
  {
    if s == [] || s[0] == '.' then 0 else 1 + FirstDot(s[1..])
  }

  function Split(s: string): (parts: seq<string>)
    ensures parts != []
    decreases |s|
  {
    var d := FirstDot(s);
    if d == |s| then [s] else [s[..d]] + Split(s[d + 1..])
  }

  function Depth(p: string): nat {
    |Split(p)|
  }

  /** One more part on a prefix; an empty prefix is falsy, so the part then stands alone. */
  function Longer(prefix: string, part: string): string {
    if prefix != "" then prefix + "." + part else part
  }

  /** The prefixes a path is counted under: one for each part but the last. */
  function Prefixes(parts: seq<string>, prefix: string): seq<string> {
    if |parts| <= 1 then []
    else [Longer(prefix, parts[0])] + Prefixes(parts[1..], Longer(prefix, parts[0]))
  }

  function PathPrefixes(p: Path): seq<string> {
    Prefixes(Split(p), "")
  }

  /** All counted prefixes of all paths, with repetition. */
  function Counted(paths: seq<Path>): seq<string> {
    if paths == [] then [] else Counted(paths[..|paths| - 1]) + PathPrefixes(paths[|paths| - 1])
  }

  predicate Extends(p: Path, prefix: string) {
    prefix + "." <= p
  }

  predicate Under(p: Path, prefix: string) {
    Extends(p, prefix) || p == prefix
  }

  function Matching(paths: seq<Path>, prefix: string): seq<Path> {
    if paths == [] then []
    else (if Under(paths[0], prefix) then [paths[0]] else []) + Matching(paths[1..], prefix)
  }

  function Dropping(paths: seq<Path>, prefix: string): seq<Path> {
    if paths == [] then []
    else (if Under(paths[0], prefix) then [] else [paths[0]]) + Dropping(paths[1..], prefix)
  }

  /** What is left of `paths`, in order, when everything under any of the prefixes is gone. */
  function LeftBy(paths: seq<Path>, prefixes: seq<string>): seq<Path> {
    if prefixes == [] then paths
    else Dropping(LeftBy(paths, prefixes[..|prefixes| - 1]), prefixes[|prefixes| - 1])
  }

  // ---------- counting ----------

  /** The names a plain JavaScript object inherits, all of them with a truthy value. */
  const INHERITED: set<string> := {
    "constructor", "hasOwnProperty", "isPrototypeOf", "propertyIsEnumerable", "toLocaleString", "toString", "valueOf",
    "__defineGetter__", "__defineSetter__", "__lookupGetter__", "__lookupSetter__", PROTO }

  /** The one inherited name that cannot become a property of the counter object by assigning a text. */
  const PROTO := "__proto__"

  /** An inherited value plus one is a text, and a text is never at least a number. */
  datatype Counter = Number(n: nat) | Text

  type Counters = map<string, Counter>

  /** `counters[prefix] = (counters[prefix] || 0) + 1`. */
  function Bump(counters: Counters, prefix: string): Counters {
    if prefix == PROTO then counters
    else if prefix in counters then counters[prefix := if counters[prefix].Number? then Number(counters[prefix].n + 1) else Text]
    else counters[prefix := if prefix in INHERITED then Text else Number(1)]
  }

  ghost predicate CountsOne(counters: Counters, counted: seq<string>, p: string) {
    && (p in counters <==> p in counted && p != PROTO)
    && (p in counters ==> counters[p] == if p in INHERITED then Text else Number(multiset(counted)[p]))
  }

  ghost predicate Counts(counters: Counters, counted: seq<string>) {
    forall p :: CountsOne(counters, counted, p)
  }

  /** The inner loop: one path raises the counter of each of its prefixes. */
  method CountPath(before: Counters, ghost counted: seq<string>, path: Path) returns (counters: Counters)
    requires Counts(before, counted)
    ensures Counts(counters, counted + PathPrefixes(path))
  {
    counters := before;
    var parts := Split(path);
    var prefix := "";
    ghost var seen: seq<string> := [];
    assert counted + seen == counted;
    for i := 0 to |parts| - 1
      invariant Counts(counters, counted + seen)
      invariant seen + Prefixes(parts[i..], prefix) == PathPrefixes(path)
    {
      CountMore(counters, counted + seen, Longer(prefix, parts[i]));
      PrefixStep(parts, i, prefix, seen);
      prefix := Longer(prefix, parts[i]);
      counters := Bump(counters, prefix);
      assert counted + (seen + [prefix]) == counted + seen + [prefix];
      seen := seen + [prefix];
    }
    assert seen + [] == seen;
  }

  lemma {:induction false} PrefixStep(parts: seq<string>, i: nat, prefix: string, seen: seq<string>)
    requires i < |parts| - 1
    ensures seen + Prefixes(parts[i..], prefix)
         == seen + [Longer(prefix, parts[i])] + Prefixes(parts[i + 1..], Longer(prefix, parts[i]))
  {
    assert parts[i..][1..] == parts[i + 1..];
  }

  method CountPrefixes(paths: seq<Path>) returns (counters: Counters)
    ensures Counts(counters, Counted(paths))
  {
    counters := map[];
    for k := 0 to |paths|
      invariant Counts(counters, Counted(paths[..k]))
    {
      assert paths[..k + 1][..k] == paths[..k];
      counters := CountPath(counters, Counted(paths[..k]), paths[k]);
    }
    assert paths[..|paths|] == paths;
  }

  lemma {:induction false} CountMore(counters: Counters, counted: seq<string>, prefix: string)
    requires Counts(counters, counted)
    ensures Counts(Bump(counters, prefix), counted + [prefix])
  {
    assert multiset(counted + [prefix]) == multiset(counted) + multiset{prefix};
    assert CountsOne(counters, counted, prefix);
    forall p ensures CountsOne(Bump(counters, prefix), counted + [prefix], p) {
      assert CountsOne(counters, counted, p);
    }
  }

  /** A prefix counted as a number, at least `minGroupSize` times. */
  predicate Frequent(counters: Counters, p: string, minGroupSize: int) {
    Numbered(counters, p) && counters[p].n >= minGroupSize
  }

  // ---------- ordering ----------

  predicate Precedes(counters: Counters, a: string, b: string)
    requires Numbered(counters, a) && Numbered(counters, b)
  {
    counters[a].n > counters[b].n || (counters[a].n == counters[b].n && Depth(a) > Depth(b))
  }

  predicate Numbered(counters: Counters, p: string) {
    p in counters && counters[p].Number?
  }

  ghost predicate Ordered(counters: Counters, s: seq<string>)
    requires forall p <- s :: Numbered(counters, p)
  {
    forall i, j :: 0 <= i < j < |s| ==> s[i] != s[j] && !Precedes(counters, s[j], s[i])
  }

  /** The frequent prefixes: most counted first, then deepest; ties in any order. */
  method AnalyzePrefixes(paths: seq<Path>, minGroupSize: int) returns (sorted: seq<string>, counters: Counters)
    ensures Counts(counters, Counted(paths))
    ensures forall p :: p in sorted <==> Frequent(counters, p, minGroupSize)
    ensures (forall p <- sorted :: Numbered(counters, p)) && Ordered(counters, sorted)
  {
    counters := CountPrefixes(paths);
    var todo := set p | p in counters && Frequent(counters, p, minGroupSize);
    ghost var all := todo;
    sorted := [];
    while todo != {}
      invariant todo <= all
      invariant forall p :: p in sorted <==> p in all && p !in todo
      invariant Ordered(counters, sorted)
      decreases |todo|
    {
      var p :| p in todo;
      sorted := Insert(counters, sorted, p);
      todo := todo - {p};
    }
  }

  method Insert(counters: Counters, s: seq<string>, p: string) returns (r: seq<string>)
    requires (forall q <- s :: Numbered(counters, q)) && Numbered(counters, p) && p !in s && Ordered(counters, s)
    ensures forall q :: q in r <==> q == p || q in s
    ensures Ordered(counters, r)
  {
    var i := 0;
    while i < |s| && !Precedes(counters, p, s[i])
      invariant 0 <= i <= |s|
      invariant forall j :: 0 <= j < i ==> !Precedes(counters, p, s[j])
    {
      i := i + 1;
    }
    r := s[..i] + [p] + s[i..];
    InsertOrdered(counters, s, p, i);
    assert s == s[..i] + s[i..];
  }

  lemma {:induction false} InsertOrdered(counters: Counters, s: seq<string>, p: string, i: nat)
    requires (forall q <- s :: Numbered(counters, q)) && Numbered(counters, p) && p !in s && Ordered(counters, s) && i <= |s|
    requires forall j :: 0 <= j < i ==> !Precedes(counters, p, s[j])
    requires i < |s| ==> Precedes(counters, p, s[i])
    ensures var r := s[..i] + [p] + s[i..]; (forall q <- r :: Numbered(counters, q)) && Ordered(counters, r)
  {
    var r := s[..i] + [p] + s[i..];
    forall a, b | 0 <= a < b < |r| ensures r[a] != r[b] && !Precedes(counters, r[b], r[a]) {
      var a' := if a < i then a else a - 1;
      var b' := if b < i then b else b - 1;
      if a != i && b != i {
        assert r[a] == s[a'] && r[b] == s[b'];
      } else if a == i {
        assert r[b] == s[b'] && (b' > i ==> !Precedes(counters, s[b'], s[i]));
      }
    }
  }

  // ---------- taking matches out, one splice after the other ----------

  ghost function DropFirst(s: seq<Path>, prefix: string, j: nat): seq<Path> {
    if s == [] || j == 0 then s
    else if Under(s[0], prefix) then DropFirst(s[1..], prefix, j - 1)
    else [s[0]] + DropFirst(s[1..], prefix, j)
  }

  /** `k` is where `indexOf` finds `p`, or the length if it finds none. */
  ghost predicate IsFirst(d: seq<Path>, p: Path, k: nat) {
    k <= |d| && (forall i :: 0 <= i < k ==> d[i] != p) && (k < |d| ==> d[k] == p)
  }

  function Without(d: seq<Path>, k: nat): seq<Path>
    requires k < |d|
  {
    d[..k] + d[k + 1..]
  }

  lemma {:induction false} WithoutBehind(x: Path, d: seq<Path>, k: nat)
    requires k < |d|
    ensures Without([x] + d, k + 1) == [x] + Without(d, k)
  {}

  /** The first occurrence of the next match is the next matching element, duplicates or not. */
  lemma {:induction false} NextDrop(s: seq<Path>, prefix: string, j: nat, k: nat)
    requires j < |Matching(s, prefix)| && IsFirst(DropFirst(s, prefix, j), Matching(s, prefix)[j], k)
    ensures k < |DropFirst(s, prefix, j)|
    ensures Without(DropFirst(s, prefix, j), k) == DropFirst(s, prefix, j + 1)
  {
    if Under(s[0], prefix) && j == 0 {
      DropNone(s, prefix, k);
    } else if Under(s[0], prefix) {
      MatchingTail(s, prefix, j);
      NextDrop(s[1..], prefix, j - 1, k);
    } else {
      NotNext(s, prefix, j, k);
      NextDrop(s[1..], prefix, j, k - 1);
      MatchingHead(s, prefix, j);
      MatchingHead(s, prefix, j + 1);
      WithoutBehind(s[0], DropFirst(s[1..], prefix, j), k - 1);
    }
  }

  /** An element that does not match is not the next match, so that stands behind it. */
  lemma {:induction false} NotNext(s: seq<Path>, prefix: string, j: nat, k: nat)
    requires s != [] && !Under(s[0], prefix) && j < |Matching(s, prefix)|
    requires IsFirst(DropFirst(s, prefix, j), Matching(s, prefix)[j], k)
    ensures k > 0 && Matching(s, prefix) == Matching(s[1..], prefix)
    ensures IsFirst(DropFirst(s[1..], prefix, j), Matching(s[1..], prefix)[j], k - 1)
  {
    var d' := DropFirst(s[1..], prefix, j);
    NextIsUnder(s, prefix, j);
    MatchingHead(s, prefix, j);
    assert ([s[0]] + d')[0] == s[0];
    FirstShifts(s[0], d', Matching(s, prefix)[j], k);
  }

  lemma {:induction false} MatchingHead(s: seq<Path>, prefix: string, j: nat)
    requires s != [] && !Under(s[0], prefix)
    ensures Matching(s, prefix) == Matching(s[1..], prefix)
    ensures DropFirst(s, prefix, j) == [s[0]] + DropFirst(s[1..], prefix, j)
  {
    assert s == [s[0]] + s[1..];
  }

  lemma {:induction false} MatchingTail(s: seq<Path>, prefix: string, j: nat)
    requires s != [] && Under(s[0], prefix) && j > 0
    ensures Matching(s, prefix) == [s[0]] + Matching(s[1..], prefix)
    ensures DropFirst(s, prefix, j) == DropFirst(s[1..], prefix, j - 1)
  {}

  lemma {:induction false} DropNone(s: seq<Path>, prefix: string, k: nat)
    requires s != [] && Under(s[0], prefix) && IsFirst(DropFirst(s, prefix, 0), Matching(s, prefix)[0], k)
    ensures DropFirst(s, prefix, 0) == s && k == 0 && Without(s, k) == DropFirst(s, prefix, 1)
  {
    assert DropFirst(s[1..], prefix, 0) == s[1..];
  }

  lemma {:induction false} NextIsUnder(s: seq<Path>, prefix: string, j: nat)
    requires j < |Matching(s, prefix)|
    ensures Under(Matching(s, prefix)[j], prefix)
  {
    MatchingUnder(s, prefix);
    assert Matching(s, prefix)[j] in Matching(s, prefix);
  }

  lemma {:induction false} FirstShifts(x: Path, d: seq<Path>, p: Path, k: nat)
    requires k > 0 && IsFirst([x] + d, p, k)
    ensures IsFirst(d, p, k - 1)
  {
    assert forall i :: 0 <= i < |d| ==> d[i] == ([x] + d)[i + 1];
  }

  lemma {:induction false} MatchingUnder(s: seq<Path>, prefix: string)
    ensures forall p :: p in Matching(s, prefix) <==> p in s && Under(p, prefix)
    ensures forall p :: p in Dropping(s, prefix) <==> p in s && !Under(p, prefix)
    ensures multiset(s) == multiset(Matching(s, prefix)) + multiset(Dropping(s, prefix))
    ensures |s| == |Matching(s, prefix)| + |Dropping(s, prefix)|
  {
    if s != [] {
      MatchingUnder(s[1..], prefix);
      assert s == [s[0]] + s[1..];
    }
  }

  lemma {:induction false} DropAll(s: seq<Path>, prefix: string)
    ensures DropFirst(s, prefix, |Matching(s, prefix)|) == Dropping(s, prefix)
  {
    if s != [] {
      DropAll(s[1..], prefix);
      if !Under(s[0], prefix) {
        MatchingHead(s, prefix, |Matching(s, prefix)|);
      }
    }
  }

  /** `indexOf` and `splice` for every match. */
  method TakeOut(paths: seq<Path>, prefix: string) returns (remaining: seq<Path>)
    ensures remaining == Dropping(paths, prefix)
  {
    var matching := Matching(paths, prefix);
    remaining := paths;
    for j := 0 to |matching|
      invariant remaining == DropFirst(paths, prefix, j)
    {
      var k := 0;
      while k < |remaining| && remaining[k] != matching[j]
        invariant 0 <= k <= |remaining|
        invariant forall i :: 0 <= i < k ==> remaining[i] != matching[j]
      {
        k := k + 1;
      }
      NextDrop(paths, prefix, j, k);
      if k < |remaining| {
        remaining := Without(remaining, k);
      }
    }
    DropAll(paths, prefix);
  }

  // ---------- grouping ----------

  datatype Group = Group(prefix: string, count: nat)

  /** What the function returns, before it is joined into one string. */
  datatype Summary = Dash | Single(path: Path) | Entries(groups: seq<Group>, leftovers: seq<Path>)

  function Names(groups: seq<Group>): seq<string> {
    seq(|groups|, i requires 0 <= i < |groups| => groups[i].prefix)
  }

  /** The paths a group stands for: those under its prefix that no earlier group has taken. */
  function Members(paths: seq<Path>, names: seq<string>, i: nat): seq<Path>
    requires i < |names|
  {
    Matching(LeftBy(paths, names[..i]), names[i])
  }

  ghost predicate GroupsRight(paths: seq<Path>, minGroupSize: int, groups: seq<Group>) {
    forall i :: 0 <= i < |groups| ==>
      groups[i].count == |Members(paths, Names(groups), i)| && groups[i].count >= minGroupSize
  }

  /** The more often counted prefix comes first, and of two equally counted the deeper one. */
  ghost predicate InOrder(paths: seq<Path>, names: seq<string>) {
    forall i, j :: 0 <= i < j < |names| ==>
      && names[i] != names[j]
      && multiset(Counted(paths))[names[i]] >= multiset(Counted(paths))[names[j]]
      && (multiset(Counted(paths))[names[i]] == multiset(Counted(paths))[names[j]] ==>
            multiset(names[i])['.'] >= multiset(names[j])['.'])
  }

  /** How many of the paths extend the prefix by a dot and more. */
  function ExtCount(paths: seq<Path>, prefix: string): nat {
    if paths == [] then 0 else (if Extends(paths[0], prefix) then 1 else 0) + ExtCount(paths[1..], prefix)
  }

  lemma {:induction false} NamesAppend(groups: seq<Group>, g: Group)
    ensures Names(groups + [g]) == Names(groups) + [g.prefix]
  {}

  lemma {:induction false} GroupAppended(paths: seq<Path>, minGroupSize: int, groups: seq<Group>, g: Group)
    requires GroupsRight(paths, minGroupSize, groups)
    requires g.count == |Matching(LeftBy(paths, Names(groups)), g.prefix)| && g.count >= minGroupSize
    ensures GroupsRight(paths, minGroupSize, groups + [g])
    ensures LeftBy(paths, Names(groups + [g])) == Dropping(LeftBy(paths, Names(groups)), g.prefix)
  {
    var names, names' := Names(groups), Names(groups + [g]);
    NamesAppend(groups, g);
    assert names'[..|names|] == names;
    forall i | 0 <= i < |groups| + 1
      ensures (groups + [g])[i].count == |Members(paths, names', i)| && (groups + [g])[i].count >= minGroupSize
    {
      if i < |groups| {
        assert names'[..i] == names[..i];
        assert groups[i].count == |Members(paths, names, i)|;
      }
    }
  }

  lemma {:induction false} FewerMatches(s: seq<Path>, q: string, p: string)
    ensures |Matching(Dropping(s, q), p)| <= |Matching(s, p)|
  {
    if s != [] {
      FewerMatches(s[1..], q, p);
      var rest := Dropping(s[1..], q);
      assert ([s[0]] + rest)[1..] == rest;
      assert [] + rest == rest;
    }
  }

  lemma {:induction false} NoneLeft(s: seq<Path>, p: string)
    ensures Matching(Dropping(s, p), p) == []
  {
    if s != [] {
      NoneLeft(s[1..], p);
      var rest := Dropping(s[1..], p);
      assert ([s[0]] + rest)[1..] == rest;
      assert [] + rest == rest;
    }
  }

  /** Each prefix of `done` is exhausted: fewer than a group's worth of paths under it remain. */
  ghost predicate Exhausted(remaining: seq<Path>, done: seq<string>, minGroupSize: int) {
    minGroupSize >= 1 ==> forall p <- done :: |Matching(remaining, p)| < minGroupSize
  }

  /** A prefix whose counter the function can compare: not inherited, and counted often enough. */
  ghost predicate Countable(paths: seq<Path>, p: string, minGroupSize: int) {
    p !in INHERITED && p in Counted(paths) && multiset(Counted(paths))[p] >= minGroupSize
  }

  /** Every group's prefix is countable, and no countable prefix keeps a group's worth of paths. */
  ghost predicate Complete(paths: seq<Path>, minGroupSize: int, names: seq<string>) {
    && (forall p <- names :: Countable(paths, p, minGroupSize))
    && (minGroupSize >= 1 ==>
          forall p :: Countable(paths, p, minGroupSize) ==> |Matching(LeftBy(paths, names), p)| < minGroupSize)
  }

  /** The groups the function makes of a list of paths, up to the order of equals. */
  ghost predicate Grouped(paths: seq<Path>, minGroupSize: int, groups: seq<Group>) {
    GroupsRight(paths, minGroupSize, groups) && InOrder(paths, Names(groups)) && Complete(paths, minGroupSize, Names(groups))
  }

  method GroupHierarchically(paths: seq<Path>, minGroupSize: int) returns (groups: seq<Group>, leftovers: seq<Path>)
    ensures leftovers == LeftBy(paths, Names(groups))
    ensures Grouped(paths, minGroupSize, groups)
  {
    var sorted, counters := AnalyzePrefixes(paths, minGroupSize);
    groups, leftovers := [], paths;
    ghost var at: seq<nat> := [];
    for k := 0 to |sorted|
      invariant leftovers == LeftBy(paths, Names(groups))
      invariant GroupsRight(paths, minGroupSize, groups)
      invariant Exhausted(leftovers, sorted[..k], minGroupSize)
      invariant Picked(sorted, k, at, Names(groups))
    {
      var p := sorted[k];
      var matching := Matching(leftovers, p);
      PickedMore(sorted, k, at, Names(groups));
      if |matching| >= minGroupSize {
        var g := Group(p, |matching|);
        GroupAppended(paths, minGroupSize, groups, g);
        StaysExhausted(leftovers, sorted[..k], p, minGroupSize);
        NamesAppend(groups, g);
        leftovers := TakeOut(leftovers, p);
        groups, at := groups + [g], at + [k];
      }
    }
    PickedInOrder(paths, counters, sorted, at, Names(groups));
    AllExhausted(paths, counters, sorted, at, Names(groups), minGroupSize);
  }

  lemma {:induction false} FrequentIff(paths: seq<Path>, counters: Counters, p: string, minGroupSize: int)
    requires Counts(counters, Counted(paths))
    ensures Frequent(counters, p, minGroupSize) <==> Countable(paths, p, minGroupSize)
  {
    assert CountsOne(counters, Counted(paths), p);
  }

  lemma {:induction false} AllExhausted(paths: seq<Path>, counters: Counters, sorted: seq<string>,
                                        at: seq<nat>, names: seq<string>, minGroupSize: int)
    requires Counts(counters, Counted(paths)) && (forall p :: p in sorted <==> Frequent(counters, p, minGroupSize))
    requires Exhausted(LeftBy(paths, names), sorted[..|sorted|], minGroupSize) && Picked(sorted, |sorted|, at, names)
    ensures Complete(paths, minGroupSize, names)
  {
    assert sorted[..|sorted|] == sorted;
    forall p ensures p in sorted <==> Countable(paths, p, minGroupSize) {
      FrequentIff(paths, counters, p, minGroupSize);
    }
    forall p | p in names ensures p in sorted {
      var i :| 0 <= i < |names| && names[i] == p;
      assert p == sorted[at[i]];
    }
  }

  lemma {:induction false} PickedMore(sorted: seq<string>, k: nat, at: seq<nat>, names: seq<string>)
    requires k < |sorted| && Picked(sorted, k, at, names)
    ensures Picked(sorted, k + 1, at, names) && Picked(sorted, k + 1, at + [k], names + [sorted[k]])
    ensures sorted[..k + 1] == sorted[..k] + [sorted[k]]
  {}

  lemma {:induction false} StaysExhausted(remaining: seq<Path>, done: seq<string>, p: string, minGroupSize: int)
    requires Exhausted(remaining, done, minGroupSize)
    ensures Exhausted(Dropping(remaining, p), done + [p], minGroupSize)
  {
    NoneLeft(remaining, p);
    forall q | q in done ensures |Matching(Dropping(remaining, p), q)| <= |Matching(remaining, q)| {
      FewerMatches(remaining, p, q);
    }
  }

  /** The names are a subsequence of the first k sorted prefixes, at the positions `at`. */
  ghost predicate Picked(sorted: seq<string>, k: nat, at: seq<nat>, names: seq<string>) {
    && |at| == |names| && k <= |sorted|
    && (forall i :: 0 <= i < |at| ==> at[i] < k && names[i] == sorted[at[i]])
    && (forall i, j :: 0 <= i < j < |at| ==> at[i] < at[j])
  }

  lemma {:induction false} PickedInOrder(paths: seq<Path>, counters: Counters, sorted: seq<string>, at: seq<nat>, names: seq<string>)
    requires Counts(counters, Counted(paths)) && (forall p <- sorted :: Numbered(counters, p))
    requires Ordered(counters, sorted) && Picked(sorted, |sorted|, at, names)
    ensures InOrder(paths, names)
  {
    forall i, j | 0 <= i < j < |names|
      ensures Numbered(counters, names[i]) && Numbered(counters, names[j])
      ensures names[i] != names[j] && !Precedes(counters, names[j], names[i])
      ensures CountsOne(counters, Counted(paths), names[i]) && CountsOne(counters, Counted(paths), names[j])
    {
      assert names[i] == sorted[at[i]] && names[j] == sorted[at[j]];
    }
    forall p ensures Depth(p) == multiset(p)['.'] + 1 {
      DepthIsDots(p);
    }
  }

  /** A path is one part deeper than it has dots. */
  lemma {:induction false} DepthIsDots(p: string)
    ensures Depth(p) == multiset(p)['.'] + 1
    decreases |p|
  {
    var d := FirstDot(p);
    if d == |p| {
      assert '.' !in p;
    } else {
      DepthIsDots(p[d + 1..]);
      assert p == p[..d] + (['.'] + p[d + 1..]);
      assert '.' !in p[..d];
    }
  }

  method Summarize(paths: seq<Path>, minGroupSize: int) returns (r: Summary)
    ensures r == Dash <==> paths == []
    ensures |paths| == 1 ==> r == Single(paths[0])
    ensures |paths| > 1 ==>
      && r.Entries?
      && r.leftovers == LeftBy(paths, Names(r.groups))
      && Grouped(paths, minGroupSize, r.groups)
      && (minGroupSize >= 1 ==>
            forall prefix :: Key(prefix) !in INHERITED ==> ExtCount(r.leftovers, prefix) < minGroupSize)
  {
    if paths == [] {
      return Dash;
    }
    if |paths| == 1 {
      return Single(paths[0]);
    }
    var groups, leftovers := GroupHierarchically(paths, minGroupSize);
    if minGroupSize >= 1 {
      forall prefix | Key(prefix) !in INHERITED ensures ExtCount(leftovers, prefix) < minGroupSize {
        NothingLeftToGroup(paths, groups, minGroupSize, prefix);
      }
    }
    r := Entries(groups, leftovers);
  }

  // ---------- why no prefix is overlooked ----------

  /** The counted prefix that stands for `prefix`: paths with a leading dot are counted under "". */
  function Key(prefix: string): string {
    if prefix == "" || prefix[0] == '.' then "" else prefix
  }

  lemma {:induction false} DotAt(s: string, i: nat)
    requires i < |s| && s[i] == '.'
    ensures FirstDot(s) <= i
  {}

  lemma {:induction false} ExtendsAt(path: Path, p: string)
    requires Extends(path, p)
    ensures |p| < |path| && path[|p|] == '.' && path[..|p|] == p
  {
    var dotted := p + ".";
    assert path[..|dotted|] == dotted && dotted[|p|] == '.' && dotted[..|p|] == p;
    assert path[..|dotted|][..|p|] == path[..|p|];
  }

  lemma {:induction false} DotInRest(prefix: string, rest: string, i: nat)
    requires |prefix| < i < |prefix + "." + rest| && (prefix + "." + rest)[i] == '.'
    ensures i - |prefix| - 1 < |rest| && FirstDot(rest) <= i - |prefix| - 1
  {
    DotAt(rest, i - |prefix| - 1);
  }

  lemma {:induction false} PrefixesHead(part: string, more: seq<string>, prefix: string)
    requires more != []
    ensures Prefixes([part] + more, prefix) == [Longer(prefix, part)] + Prefixes(more, Longer(prefix, part))
  {
    assert ([part] + more)[1..] == more;
  }

  lemma {:induction false} WalkStep(rest: string, prefix: string)
    requires FirstDot(rest) < |rest|
    ensures var d := FirstDot(rest); var next := Longer(prefix, rest[..d]);
      Prefixes(Split(rest), prefix) == [next] + Prefixes(Split(rest[d + 1..]), next)
  {
    var d := FirstDot(rest);
    assert Split(rest) == [rest[..d]] + Split(rest[d + 1..]);
    PrefixesHead(rest[..d], Split(rest[d + 1..]), prefix);
  }

  lemma {:induction false} Rejoin(prefix: string, rest: string, d: nat)
    requires d < |rest| && rest[d] == '.'
    ensures prefix + "." + rest == prefix + "." + rest[..d] + "." + rest[d + 1..]
  {
    assert rest == rest[..d] + "." + rest[d + 1..];
  }

  lemma {:induction false} FrontOf(a: string, rest: string)
    ensures (a + "." + rest)[..|a|] == a
  {}

  /** Walking down the parts meets every dotted prefix longer than the current one. */
  lemma {:induction false} MeetsPrefix(rest: string, prefix: string, p: string)
    requires prefix != "" && |p| > |prefix| && Extends(prefix + "." + rest, p)
    ensures p in Prefixes(Split(rest), prefix)
    decreases |rest|
  {
    ExtendsAt(prefix + "." + rest, p);
    DotInRest(prefix, rest, |p|);
    WalkStep(rest, prefix);
    var d := FirstDot(rest);
    var next := Longer(prefix, rest[..d]);
    Rejoin(prefix, rest, d);
    if |p| == |next| {
      FrontOf(next, rest[d + 1..]);
    } else {
      MeetsPrefix(rest[d + 1..], next, p);
    }
  }

  lemma {:induction false} CountedUnderKey(path: Path, prefix: string)
    requires Extends(path, prefix)
    ensures Key(prefix) in PathPrefixes(path)
  {
    var d := FirstDot(path);
    ExtendsAt(path, prefix);
    DotAt(path, |prefix|);
    WalkStep(path, "");
    if Key(prefix) == "" {
      KeyEmpty(path, prefix);
    } else if |prefix| > d {
      LaterPrefix(path, prefix);
    }
  }

  lemma {:induction false} LaterPrefix(path: Path, prefix: string)
    requires Extends(path, prefix) && Key(prefix) != "" && FirstDot(path) < |prefix|
    ensures prefix in Prefixes(Split(path[FirstDot(path) + 1..]), path[..FirstDot(path)])
  {
    var d := FirstDot(path);
    ExtendsAt(path, prefix);
    assert path[..|prefix|][0] == path[0];
    SplitAt(path, d);
    MeetsPrefix(path[d + 1..], path[..d], prefix);
  }

  lemma {:induction false} KeyEmpty(path: Path, prefix: string)
    requires Extends(path, prefix) && Key(prefix) == ""
    ensures FirstDot(path) == 0 && path[..0] == ""
  {
    ExtendsAt(path, prefix);
    assert prefix != "" ==> path[..|prefix|][0] == path[0];
  }

  lemma {:induction false} SplitAt(path: string, d: nat)
    requires d < |path| && path[d] == '.'
    ensures path == path[..d] + "." + path[d + 1..]
  {}

  lemma {:induction false} ExtendsKey(path: Path, prefix: string)
    requires Extends(path, prefix)
    ensures Under(path, Key(prefix))
  {
    if Key(prefix) == "" {
      assert (prefix + ".")[0] == '.' && path[0] == '.';
    }
  }

  lemma {:induction false} ExtAppend(a: seq<Path>, b: seq<Path>, prefix: string)
    ensures ExtCount(a + b, prefix) == ExtCount(a, prefix) + ExtCount(b, prefix)
  {
    if a == [] {
      assert a + b == b;
    } else {
      ExtAppend(a[1..], b, prefix);
      assert (a + b)[1..] == a[1..] + b;
    }
  }

  /** A prefix's key is counted at least as often as the prefix is extended. */
  lemma {:induction false} CountedOften(paths: seq<Path>, prefix: string)
    ensures ExtCount(paths, prefix) <= multiset(Counted(paths))[Key(prefix)]
  {
    if paths != [] {
      var init, last := paths[..|paths| - 1], paths[|paths| - 1];
      assert paths == init + [last];
      CountedOften(init, prefix);
      ExtAppend(init, [last], prefix);
      assert [last][1..] == [];
      if Extends(last, prefix) {
        CountedUnderKey(last, prefix);
      }
    }
  }

  lemma {:induction false} FewerExtensions(s: seq<Path>, q: string, prefix: string)
    ensures ExtCount(Dropping(s, q), prefix) <= ExtCount(s, prefix)
  {
    if s != [] {
      FewerExtensions(s[1..], q, prefix);
      var rest := Dropping(s[1..], q);
      assert ([s[0]] + rest)[1..] == rest;
      assert [] + rest == rest;
    }
  }

  lemma {:induction false} LeftExtensions(paths: seq<Path>, names: seq<string>, prefix: string)
    ensures ExtCount(LeftBy(paths, names), prefix) <= ExtCount(paths, prefix)
  {
    if names != [] {
      LeftExtensions(paths, names[..|names| - 1], prefix);
      FewerExtensions(LeftBy(paths, names[..|names| - 1]), names[|names| - 1], prefix);
    }
  }

  lemma {:induction false} ExtensionsMatch(s: seq<Path>, prefix: string)
    ensures ExtCount(s, prefix) <= |Matching(s, Key(prefix))|
  {
    if s != [] {
      ExtensionsMatch(s[1..], prefix);
      if Extends(s[0], prefix) {
        ExtendsKey(s[0], prefix);
      }
    }
  }

  lemma {:induction false} NothingLeftToGroup(paths: seq<Path>, groups: seq<Group>, minGroupSize: int, prefix: string)
    requires minGroupSize >= 1 && Grouped(paths, minGroupSize, groups) && Key(prefix) !in INHERITED
    ensures ExtCount(LeftBy(paths, Names(groups)), prefix) < minGroupSize
  {
    LeftExtensions(paths, Names(groups), prefix);
    CountedOften(paths, prefix);
    ExtensionsMatch(LeftBy(paths, Names(groups)), prefix);
  }

  // ---------- prefixes named like an inherited property ----------

  lemma {:induction false} InheritedHasNoDot(name: string)
    requires name in INHERITED
    ensures name != "" && '.' !in name
  {}

  /** A name and one part below it. */
  ghost predicate IsLeafOf(p: Path, name: string) {
    exists part: string :: '.' !in part && p == name + "." + part
  }

  lemma {:induction false} NoDotWalk(part: string, prefix: string)
    requires '.' !in part
    ensures Prefixes(Split(part), prefix) == []
  {
    assert FirstDot(part) == |part|;
  }

  lemma {:induction false} LeafPrefixes(p: Path, name: string)
    requires name != "" && '.' !in name && IsLeafOf(p, name)
    ensures PathPrefixes(p) == [name] && Extends(p, name)
  {
    var part: string :| '.' !in part && p == name + "." + part;
    assert p[|name|] == '.' && forall i :: 0 <= i < |name| ==> p[i] == name[i] && name[i] in name;
    DotAt(p, |name|);
    assert FirstDot(p) == |name|;
    assert p[..|name|] == name && p[|name| + 1..] == part;
    WalkStep(p, "");
    NoDotWalk(part, name);
    assert p[..|name| + 1] == name + ".";
  }

  ghost predicate AllLeavesOf(paths: seq<Path>, name: string) {
    forall i :: 0 <= i < |paths| ==> IsLeafOf(paths[i], name)
  }

  lemma {:induction false} OnlyNameCounted(paths: seq<Path>, name: string)
    requires name != "" && '.' !in name && AllLeavesOf(paths, name)
    ensures forall p <- Counted(paths) :: p == name
  {
    if paths != [] {
      OnlyNameCounted(paths[..|paths| - 1], name);
      LeafPrefixes(paths[|paths| - 1], name);
    }
  }

  lemma {:induction false} AllExtend(paths: seq<Path>, name: string)
    requires name != "" && '.' !in name && AllLeavesOf(paths, name)
    ensures ExtCount(paths, name) == |paths|
  {
    if paths != [] {
      LeafPrefixes(paths[0], name);
      AllExtend(paths[1..], name);
    }
  }

  /** Paths right under an inherited name are never grouped, however many there are. */
  lemma {:induction false} InheritedNeverGrouped(paths: seq<Path>, name: string, minGroupSize: int, groups: seq<Group>)
    requires name in INHERITED && AllLeavesOf(paths, name)
    ensures Grouped(paths, minGroupSize, groups) <==> groups == []
    ensures LeftBy(paths, Names([])) == paths && ExtCount(paths, name) == |paths|
  {
    InheritedHasNoDot(name);
    OnlyNameCounted(paths, name);
    AllExtend(paths, name);
    assert Names([]) == [];
    if groups != [] {
      assert Names(groups)[0] in Names(groups);
      assert !Countable(paths, Names(groups)[0], minGroupSize);
    }
  }

  /** No grouping of any list leaves a group's worth of strict extensions of the prefix. */
  ghost predicate AlwaysGrouped(prefix: string) {
    forall paths, minGroupSize: int, groups :: minGroupSize >= 1 && Grouped(paths, minGroupSize, groups) ==>
      ExtCount(LeftBy(paths, Names(groups)), prefix) < minGroupSize
  }

  /** That holds of a prefix exactly when the prefix it is counted under is not an inherited name. */
  lemma {:induction false} AlwaysGroupedIff(prefix: string)
    ensures AlwaysGrouped(prefix) <==> Key(prefix) !in INHERITED
  {
    if Key(prefix) !in INHERITED {
      forall paths, minGroupSize: int, groups | minGroupSize >= 1 && Grouped(paths, minGroupSize, groups)
        ensures ExtCount(LeftBy(paths, Names(groups)), prefix) < minGroupSize
      {
        NothingLeftToGroup(paths, groups, minGroupSize, prefix);
      }
    } else {
      InheritedHasNoDot(Key(prefix));
      ThreeUngrouped(prefix);
    }
  }

  /** The name every object inherits from its class, for one. */
  lemma {:induction false} ConstructorUngrouped()
    ensures var paths := ["constructor.a", "constructor.b", "constructor.c"];
      forall groups :: Grouped(paths, 3, groups) <==> groups == []
  {
    var paths, name := ["constructor.a", "constructor.b", "constructor.c"], "constructor";
    assert '.' !in "a" && '.' !in "b" && '.' !in "c";
    assert paths[0] == name + "." + "a" && paths[1] == name + "." + "b" && paths[2] == name + "." + "c";
    assert IsLeafOf(paths[0], name) && IsLeafOf(paths[1], name) && IsLeafOf(paths[2], name);
    forall groups ensures Grouped(paths, 3, groups) <==> groups == [] {
      InheritedNeverGrouped(paths, name, 3, groups);
    }
  }

  /** The input that shows it: three paths under `constructor`, or under any other inherited name. */
  lemma {:induction false} ThreeUngrouped(name: string)
    requires name in INHERITED
    ensures var paths := [name + ".a", name + ".b", name + ".c"];
      Grouped(paths, 3, []) && LeftBy(paths, Names([])) == paths && ExtCount(paths, name) == 3
  {
    var paths := [name + ".a", name + ".b", name + ".c"];
    assert '.' !in "a" && '.' !in "b" && '.' !in "c";
    assert name + "." + "a" == name + ".a" && name + "." + "b" == name + ".b" && name + "." + "c" == name + ".c";
    assert IsLeafOf(paths[0], name) && IsLeafOf(paths[1], name) && IsLeafOf(paths[2], name);
    InheritedNeverGrouped(paths, name, 3, []);
  }

  // ---------- conservation ----------

  function TotalCount(groups: seq<Group>): nat {
    if groups == [] then 0 else TotalCount(groups[..|groups| - 1]) + groups[|groups| - 1].count
  }

  function AllMembers(paths: seq<Path>, names: seq<string>, n: nat): multiset<Path>
    requires n <= |names|
  {
    if n == 0 then multiset{} else AllMembers(paths, names, n - 1) + multiset(Members(paths, names, n - 1))
  }

  lemma {:induction false} Conserved(paths: seq<Path>, names: seq<string>, n: nat)
    requires n <= |names|
    ensures multiset(paths) == multiset(LeftBy(paths, names[..n])) + AllMembers(paths, names, n)
  {
    if n == 0 {
      assert names[..0] == [];
    } else {
      Conserved(paths, names, n - 1);
      assert names[..n][..n - 1] == names[..n - 1];
      MatchingUnder(LeftBy(paths, names[..n - 1]), names[n - 1]);
    }
  }

  lemma {:induction false} CountsAddUp(paths: seq<Path>, minGroupSize: int, groups: seq<Group>, n: nat)
    requires n <= |groups| && GroupsRight(paths, minGroupSize, groups)
    ensures TotalCount(groups[..n]) + |LeftBy(paths, Names(groups)[..n])| == |paths|
  {
    var names := Names(groups);
    if n == 0 {
      assert names[..0] == [];
    } else {
      CountsAddUp(paths, minGroupSize, groups, n - 1);
      assert names[..n][..n - 1] == names[..n - 1] && groups[..n][..n - 1] == groups[..n - 1];
      MatchingUnder(LeftBy(paths, names[..n - 1]), names[n - 1]);
      assert groups[n - 1].count == |Members(paths, names, n - 1)|;
    }
  }

  /**
   Grouping conserves paths: every input path, counted with repetition, is in exactly one group's
   members or left over, and the numbers printed plus the leftovers add up to the input.
   */
  lemma {:induction false} GroupingConserves(paths: seq<Path>, minGroupSize: int, groups: seq<Group>, leftovers: seq<Path>)
    requires leftovers == LeftBy(paths, Names(groups)) && GroupsRight(paths, minGroupSize, groups)
    ensures multiset(paths) == multiset(leftovers) + AllMembers(paths, Names(groups), |groups|)
    ensures TotalCount(groups) + |leftovers| == |paths|
    ensures forall i, p :: 0 <= i < |groups| && p in Members(paths, Names(groups), i) ==> Under(p, groups[i].prefix)
    ensures forall i, p :: 0 <= i < |groups| && p in leftovers ==> !Under(p, groups[i].prefix)
  {
    var names := Names(groups);
    assert names[..|names|] == names && groups[..|groups|] == groups;
    Conserved(paths, names, |names|);
    CountsAddUp(paths, minGroupSize, groups, |groups|);
    forall i | 0 <= i < |groups|
      ensures forall p <- Members(paths, names, i) :: Under(p, groups[i].prefix)
      ensures forall p <- leftovers :: !Under(p, groups[i].prefix)
    {
      MatchingUnder(LeftBy(paths, names[..i]), names[i]);
      LeftAvoids(paths, names, i);
    }
  }

  lemma {:induction false} LeftAvoids(paths: seq<Path>, names: seq<string>, i: nat)
    requires i < |names|
    ensures forall p <- LeftBy(paths, names) :: !Under(p, names[i])
  {
    var init, last := names[..|names| - 1], names[|names| - 1];
    MatchingUnder(LeftBy(paths, init), last);
    if i < |names| - 1 {
      LeftAvoids(paths, init, i);
    }
  }

  // ---------- what is counted ----------

  /** How many dots a path starts with. */
  function LeadingDots(path: Path): (n: nat)
    ensures n <= |path|
  {
    if path != [] && path[0] == '.' then 1 + LeadingDots(path[1..]) else 0
  }

  lemma {:induction false} NoneWithoutDot(rest: string, prefix: string, p: string)
    requires FirstDot(rest) == |rest| && |p| > |prefix|
    ensures !Extends(prefix + "." + rest, p)
  {
    if Extends(prefix + "." + rest, p) {
      ExtendsAt(prefix + "." + rest, p);
    }
  }

  lemma {:induction false} ExtendsNext(next: string, rest: string, p: string)
    requires Extends(next + "." + rest, p) && |p| == |next|
    ensures p == next
  {
    ExtendsAt(next + "." + rest, p);
    FrontOf(next, rest);
  }

  lemma {:induction false} ExtendsItself(next: string, rest: string)
    ensures Extends(next + "." + rest, next)
  {
    assert (next + "." + rest)[..|next| + 1] == next + ".";
  }

  /** The path extends `p`, which is longer than the prefix the walk has reached. */
  ghost predicate StillToCome(rest: string, prefix: string, p: string) {
    |p| > |prefix| && Extends(prefix + "." + rest, p)
  }

  lemma {:induction false} WalkEnds(rest: string, prefix: string, p: string)
    requires FirstDot(rest) == |rest|
    ensures Prefixes(Split(rest), prefix) == [] && !StillToCome(rest, prefix, p)
  {
    assert '.' !in rest;
    NoDotWalk(rest, prefix);
    if |p| > |prefix| {
      NoneWithoutDot(rest, prefix, p);
    }
  }

  /** How often the walk below a prefix counts `p`. */
  ghost function TimesCounted(rest: string, prefix: string, p: string): nat {
    multiset(Prefixes(Split(rest), prefix))[p]
  }

  lemma {:induction false} TimesAtEnd(rest: string, prefix: string, p: string)
    requires FirstDot(rest) == |rest|
    ensures TimesCounted(rest, prefix, p) == 0 && !StillToCome(rest, prefix, p)
  {
    WalkEnds(rest, prefix, p);
  }

  lemma {:induction false} TimesNext(rest: string, prefix: string, p: string)
    requires FirstDot(rest) < |rest|
    ensures var d := FirstDot(rest); var next := Longer(prefix, rest[..d]);
      TimesCounted(rest, prefix, p) == (if p == next then 1 else 0) + TimesCounted(rest[d + 1..], next, p)
  {
    WalkStep(rest, prefix);
  }

  /** Below a prefix, the walk counts exactly the longer prefixes the path extends, each once. */
  lemma {:induction false} WalkCounted(rest: string, prefix: string, p: string)
    requires prefix != ""
    ensures TimesCounted(rest, prefix, p) == if StillToCome(rest, prefix, p) then 1 else 0
    decreases |rest|
  {
    if FirstDot(rest) == |rest| {
      TimesAtEnd(rest, prefix, p);
    } else {
      var d := FirstDot(rest);
      WalkCounted(rest[d + 1..], Longer(prefix, rest[..d]), p);
      TimesNext(rest, prefix, p);
      NextOrLater(rest, prefix, p);
    }
  }

  /** A longer prefix of the path is the next one or longer than that. */
  lemma {:induction false} NextOrLater(rest: string, prefix: string, p: string)
    requires prefix != "" && FirstDot(rest) < |rest|
    ensures var d := FirstDot(rest); var next, later := Longer(prefix, rest[..d]), rest[d + 1..];
      (StillToCome(rest, prefix, p) <==> p == next || StillToCome(later, next, p)) && !StillToCome(later, next, next)
  {
    var d := FirstDot(rest);
    var next, later := Longer(prefix, rest[..d]), rest[d + 1..];
    Rejoin(prefix, rest, d);
    ExtendsItself(next, later);
    if |p| > |prefix| && Extends(prefix + "." + rest, p) {
      ExtendsAt(prefix + "." + rest, p);
      DotInRest(prefix, rest, |p|);
      if |p| == |next| {
        ExtendsNext(next, later, p);
      }
    }
  }

  /**
   What one path is counted under: the empty prefix once for each leading dot, and otherwise each
   prefix that the path extends once its leading dots are gone, once.
   */
  lemma {:induction false} PathCounted(path: Path, p: string)
    ensures multiset(PathPrefixes(path))[p] ==
      if p == "" then LeadingDots(path) else if p + "." <= path[LeadingDots(path)..] then 1 else 0
    decreases |path|
  {
    var d := FirstDot(path);
    if d == |path| {
      NoDotCounted(path, p);
    } else if d == 0 {
      var rest := path[1..];
      WalkStep(path, "");
      assert path[..0] == "";
      PathCounted(rest, p);
      assert path[LeadingDots(path)..] == rest[LeadingDots(rest)..];
    } else {
      FirstPartCounted(path, p);
    }
  }

  lemma {:induction false} NoDotCounted(path: Path, p: string)
    requires FirstDot(path) == |path|
    ensures PathPrefixes(path) == [] && LeadingDots(path) == 0 && path[0..] == path && !(p + "." <= path)
  {
    assert '.' !in path;
    NoDotWalk(path, "");
    if p + "." <= path {
      ExtendsAt(path, p);
    }
  }

  lemma {:induction false} FirstPartCounted(path: Path, p: string)
    requires 0 < FirstDot(path) < |path|
    ensures LeadingDots(path) == 0 && path[0..] == path
    ensures multiset(PathPrefixes(path))[p] == if p != "" && p + "." <= path then 1 else 0
  {
    var d := FirstDot(path);
    var first, rest := path[..d], path[d + 1..];
    WalkStep(path, "");
    SplitAt(path, d);
    WalkCounted(rest, first, p);
    ExtendsItself(first, rest);
    if p != "" && Extends(path, p) && |p| <= d {
      ExtendsAt(path, p);
      DotAt(path, |p|);
      ExtendsNext(first, rest, p);
    }
  }

  /** The paths that extend the prefix once their leading dots are gone, by index. */
  ghost function CountedUnder(paths: seq<Path>, p: string): set<nat> {
    set k: nat | k < |paths| && p + "." <= paths[k][LeadingDots(paths[k])..]
  }

  lemma {:induction false} CountedUnderGrows(paths: seq<Path>, path: Path, p: string)
    ensures CountedUnder(paths + [path], p)
         == CountedUnder(paths, p) + (if p + "." <= path[LeadingDots(path)..] then {|paths|} else {})
    ensures |paths| !in CountedUnder(paths, p)
  {}

  /** A prefix's count is the number of paths that extend it once their leading dots are gone. */
  lemma {:induction false} CountedExact(paths: seq<Path>, p: string)
    requires p != ""
    ensures multiset(Counted(paths))[p] == |CountedUnder(paths, p)|
  {
    if paths == [] {
      assert CountedUnder(paths, p) == {};
    } else {
      var init, last := paths[..|paths| - 1], paths[|paths| - 1];
      assert paths == init + [last];
      CountedExact(init, p);
      PathCounted(last, p);
      CountedUnderGrows(init, last, p);
    }
  }

  // ---------- which path is where ----------

  /** The path is the group's prefix or continues it behind a dot. */
  ghost predicate Belongs(p: Path, name: string) {
    p == name || name + "." <= p
  }

  /** The paths that belong to none of the first `n` groups, by index. */
  ghost function Untaken(paths: seq<Path>, names: seq<string>): set<nat> {
    set k: nat | k < |paths| && forall j :: 0 <= j < |names| ==> !Belongs(paths[k], names[j])
  }

  lemma {:induction false} DroppedAt(s: seq<Path>, prefix: string) returns (at: seq<nat>)
    ensures |at| == |Dropping(s, prefix)|
    ensures forall i :: 0 <= i < |at| ==> at[i] < |s| && Dropping(s, prefix)[i] == s[at[i]]
    ensures forall i, j :: 0 <= i < j < |at| ==> at[i] < at[j]
    ensures forall k: nat :: k < |s| ==> (k in at <==> !Belongs(s[k], prefix))
  {
    at := [];
    if s != [] {
      var init, last := s[..|s| - 1], s[|s| - 1];
      assert s == init + [last];
      DroppingGrows(init, last, prefix);
      at := DroppedAt(init, prefix);
      if !Belongs(last, prefix) {
        at := at + [|init|];
      }
    }
  }

  lemma {:induction false} DroppingGrows(s: seq<Path>, p: Path, prefix: string)
    ensures Dropping(s + [p], prefix) == Dropping(s, prefix) + (if Belongs(p, prefix) then [] else [p])
  {
    if s == [] {
      assert s + [p] == [p] && Dropping([p][1..], prefix) == [];
    } else {
      DroppingGrows(s[1..], p, prefix);
      assert (s + [p])[1..] == s[1..] + [p];
    }
  }

  /** The leftovers are exactly the paths that belong to no group, in their order. */
  lemma {:induction false} LeftAt(paths: seq<Path>, names: seq<string>) returns (at: seq<nat>)
    ensures |at| == |LeftBy(paths, names)|
    ensures forall i :: 0 <= i < |at| ==> at[i] < |paths| && LeftBy(paths, names)[i] == paths[at[i]]
    ensures forall i, j :: 0 <= i < j < |at| ==> at[i] < at[j]
    ensures forall k: nat :: k < |paths| ==> (k in at <==> forall j :: 0 <= j < |names| ==> !Belongs(paths[k], names[j]))
  {
    if names == [] {
      at := AllPlaces(|paths|);
      assert forall k: nat :: k < |paths| ==> k in at;
    } else {
      var init, last := names[..|names| - 1], names[|names| - 1];
      var outer := LeftAt(paths, init);
      at := ThenDropped(paths, names, outer);
    }
  }

  lemma {:induction false} ThenDropped(paths: seq<Path>, names: seq<string>, outer: seq<nat>) returns (at: seq<nat>)
    requires names != [] && |outer| == |LeftBy(paths, names[..|names| - 1])|
    requires forall i :: 0 <= i < |outer| ==> outer[i] < |paths| && LeftBy(paths, names[..|names| - 1])[i] == paths[outer[i]]
    requires forall i, j :: 0 <= i < j < |outer| ==> outer[i] < outer[j]
    requires forall k: nat :: k < |paths| ==> (k in outer <==> forall j :: 0 <= j < |names| - 1 ==> !Belongs(paths[k], names[j]))
    ensures |at| == |LeftBy(paths, names)|
    ensures forall i :: 0 <= i < |at| ==> at[i] < |paths| && LeftBy(paths, names)[i] == paths[at[i]]
    ensures forall i, j :: 0 <= i < j < |at| ==> at[i] < at[j]
    ensures forall k: nat :: k < |paths| ==> (k in at <==> forall j :: 0 <= j < |names| ==> !Belongs(paths[k], names[j]))
  {
    var inner := DroppedAt(LeftBy(paths, names[..|names| - 1]), names[|names| - 1]);
    at := Through(outer, inner);
    Composed(paths, names, outer, inner, at);
  }

  ghost function AllPlaces(n: nat): (at: seq<nat>)
    ensures |at| == n && (forall i :: 0 <= i < n ==> at[i] == i) && forall k: nat :: k < n ==> k in at
  {
    if n == 0 then [] else AllPlaces(n - 1) + [n - 1]
  }

  /** The entries of `outer` at the places `inner` names. */
  ghost function Through(outer: seq<nat>, inner: seq<nat>): (at: seq<nat>)
    requires forall i :: 0 <= i < |inner| ==> inner[i] < |outer|
    ensures |at| == |inner| && forall i :: 0 <= i < |inner| ==> at[i] == outer[inner[i]]
  {
    seq(|inner|, i requires 0 <= i < |inner| => outer[inner[i]])
  }

  lemma {:induction false} Composed(paths: seq<Path>, names: seq<string>, outer: seq<nat>, inner: seq<nat>, at: seq<nat>)
    requires names != [] && |at| == |inner|
    requires forall i :: 0 <= i < |outer| ==> outer[i] < |paths|
    requires forall i :: 0 <= i < |inner| ==> inner[i] < |outer| && at[i] == outer[inner[i]]
    requires forall k: nat :: k < |paths| ==> (k in outer <==> forall j :: 0 <= j < |names| - 1 ==> !Belongs(paths[k], names[j]))
    requires forall x: nat :: x < |outer| ==> (x in inner <==> !Belongs(paths[outer[x]], names[|names| - 1]))
    ensures forall k: nat :: k < |paths| ==> (k in at <==> forall j :: 0 <= j < |names| ==> !Belongs(paths[k], names[j]))
  {
    forall k: nat | k < |paths| ensures k in at <==> forall j :: 0 <= j < |names| ==> !Belongs(paths[k], names[j]) {
      if k in at {
        var i :| 0 <= i < |at| && at[i] == k;
        assert inner[i] in inner && outer[inner[i]] in outer;
      }
      if forall j :: 0 <= j < |names| ==> !Belongs(paths[k], names[j]) {
        assert k in outer;
        var x :| 0 <= x < |outer| && outer[x] == k;
        assert x in inner;
        var i :| 0 <= i < |inner| && inner[i] == x;
        assert at[i] == k;
      }
    }
  }

  ghost function Places(at: seq<nat>): set<nat> {
    set k | k in at
  }

  lemma {:induction false} OnePlaceMore(at: seq<nat>, k: nat)
    requires forall i :: 0 <= i < |at| ==> at[i] < k
    ensures Places(at + [k]) == Places(at) + {k} && k !in Places(at)
  {}

  lemma {:induction false} IncreasingSize(at: seq<nat>)
    requires forall i, j :: 0 <= i < j < |at| ==> at[i] < at[j]
    ensures |Places(at)| == |at|
  {
    if at == [] {
      assert Places(at) == {};
    } else {
      var init, last := at[..|at| - 1], at[|at| - 1];
      assert at == init + [last];
      IncreasingSize(init);
      OnePlaceMore(init, last);
    }
  }

  lemma {:induction false} LeftSize(paths: seq<Path>, names: seq<string>)
    ensures |LeftBy(paths, names)| == |Untaken(paths, names)|
  {
    var at := LeftAt(paths, names);
    IncreasingSize(at);
    assert Untaken(paths, names) == Places(at) by {
      forall k ensures k in Untaken(paths, names) <==> k in at {
        if k in at {
          var i :| 0 <= i < |at| && at[i] == k;
        }
      }
    }
  }

  /** The paths that belong to group `i` and to no group before it, by index. */
  ghost function OwnPaths(paths: seq<Path>, groups: seq<Group>, i: nat): set<nat>
    requires i < |groups|
  {
    set k: nat | k < |paths| && Belongs(paths[k], groups[i].prefix)
               && (forall j :: 0 <= j < i ==> !Belongs(paths[k], groups[j].prefix))
  }

  /** Each group's number is how many paths belong to it and to no group before it. */
  lemma {:induction false} GroupsExact(paths: seq<Path>, minGroupSize: int, groups: seq<Group>, i: nat)
    requires Grouped(paths, minGroupSize, groups) && i < |groups|
    ensures groups[i].count == |OwnPaths(paths, groups, i)|
  {
    var names := Names(groups);
    var before, after := Untaken(paths, names[..i]), Untaken(paths, names[..i + 1]);
    assert names[..i + 1][..i] == names[..i];
    MatchingUnder(LeftBy(paths, names[..i]), names[i]);
    LeftSize(paths, names[..i]);
    LeftSize(paths, names[..i + 1]);
    var own := OwnPaths(paths, groups, i);
    TakenSplit(paths, groups, i);
    assert own == before - after && after <= before;
    assert before == after + own;
    assert groups[i].count == |Members(paths, names, i)|;
  }

  lemma {:induction false} TakenSplit(paths: seq<Path>, groups: seq<Group>, i: nat)
    requires i < |groups|
    ensures var names := Names(groups);
      forall k: nat :: k < |paths| ==>
        && (k in Untaken(paths, names[..i]) <==> forall j :: 0 <= j < i ==> !Belongs(paths[k], groups[j].prefix))
        && (k in Untaken(paths, names[..i + 1]) <==>
              k in Untaken(paths, names[..i]) && !Belongs(paths[k], groups[i].prefix))
  {
    var names := Names(groups);
    forall k: nat | k < |paths|
      ensures k in Untaken(paths, names[..i]) <==> forall j :: 0 <= j < i ==> !Belongs(paths[k], groups[j].prefix)
      ensures k in Untaken(paths, names[..i + 1]) <==> k in Untaken(paths, names[..i]) && !Belongs(paths[k], groups[i].prefix)
    {
      assert forall j :: 0 <= j < i ==> names[..i][j] == groups[j].prefix && names[..i + 1][j] == groups[j].prefix;
      assert names[..i + 1][i] == groups[i].prefix;
    }
  }
}
