/** The planner's bounded backtracking search for spanning trees. */
module SpanningTrees {
  import opened Domain
  import opened CandidateEdges
  import opened Sets

  type Tree = seq<Candidate>

  datatype Search = Search(refs: set<string>, maxDepth: nat, candidates: seq<Candidate>)

  ghost predicate ValidSearch(s: Search) {
    forall c :: c in s.candidates ==> c.fromRef in s.refs && c.toRef in s.refs
  }

  /** May be added now: from a connected ref to a new one, within the depth bound. */
  predicate Open(s: Search, depths: map<string, nat>, c: Candidate) {
    c.fromRef in depths && c.toRef !in depths && depths[c.fromRef] + 1 <= s.maxDepth
  }

  function Options(s: Search, depths: map<string, nat>, candidates: seq<Candidate>): seq<Candidate> {
    if candidates == [] then []
    else
      var n := |candidates| - 1;
      Options(s, depths, candidates[..n]) + if Open(s, depths, candidates[n]) then [candidates[n]] else []
  }

  lemma {:induction false} OptionsExactly(s: Search, depths: map<string, nat>, candidates: seq<Candidate>, c: Candidate)
    ensures c in Options(s, depths, candidates) <==> c in candidates && Open(s, depths, c)
  {
    if candidates != [] {
      var n := |candidates| - 1;
      OptionsExactly(s, depths, candidates[..n], c);
      assert candidates == candidates[..n] + [candidates[n]];
    }
  }

  function Extend(depths: map<string, nat>, c: Candidate): map<string, nat>
    requires c.fromRef in depths
  {
    depths[c.toRef := depths[c.fromRef] + 1]
  }

  ghost predicate Within(s: Search, depths: map<string, nat>) {
    ValidSearch(s) && depths.Keys <= s.refs
  }

  ghost predicate AllOpen(s: Search, depths: map<string, nat>, options: seq<Candidate>) {
    forall i :: 0 <= i < |options| ==> options[i] in s.candidates && Open(s, depths, options[i])
  }

  lemma OptionsAreOpen(s: Search, depths: map<string, nat>)
    ensures AllOpen(s, depths, Options(s, depths, s.candidates))
  {
    var options := Options(s, depths, s.candidates);
    forall i | 0 <= i < |options| ensures options[i] in s.candidates && Open(s, depths, options[i]) {
      OptionsExactly(s, depths, s.candidates, options[i]);
    }
  }

  lemma ExtendKeys(s: Search, depths: map<string, nat>, c: Candidate)
    requires Within(s, depths) && c in s.candidates && Open(s, depths, c)
    ensures Extend(depths, c).Keys == depths.Keys + {c.toRef}
    ensures Within(s, Extend(depths, c)) && s.refs - Extend(depths, c).Keys < s.refs - depths.Keys
  {
    assert c.toRef in s.refs - depths.Keys;
  }

  /** Every growth that the unbounded search would record from this state, in search order. */
  ghost function Growths(s: Search, depths: map<string, nat>, edges: Tree): seq<Tree>
    requires Within(s, depths)
    decreases s.refs - depths.Keys, 1, 0
  {
    if |depths.Keys| == |s.refs| then [edges]
    else
      OptionsAreOpen(s, depths);
      GrowthsThrough(s, depths, edges, Options(s, depths, s.candidates))
  }

  ghost function GrowthsThrough(s: Search, depths: map<string, nat>, edges: Tree, options: seq<Candidate>): seq<Tree>
    requires Within(s, depths) && AllOpen(s, depths, options)
    decreases s.refs - depths.Keys, 0, |options|
  {
    if options == [] then []
    else
      var n := |options| - 1;
      ExtendKeys(s, depths, options[n]);
      GrowthsThrough(s, depths, edges, options[..n]) + Growths(s, Extend(depths, options[n]), edges + [options[n]])
  }

  ghost function Take<T>(limit: nat, xs: seq<T>): seq<T> {
    if |xs| <= limit then xs else xs[..limit]
  }

  /** The search as the source runs it: a shared list of results and a limit on its length. */
  class TreeSearch {
    const search: Search
    const limit: nat
    var results: seq<Tree>

    constructor (search: Search, limit: nat)
      ensures this.search == search && this.limit == limit && results == []
    {
      this.search := search;
      this.limit := limit;
      results := [];
    }

    method Grow(depths: map<string, nat>, edges: Tree)
      requires Within(search, depths) && |results| <= limit
      modifies this`results
      ensures results == Take(limit, old(results) + Growths(search, depths, edges))
      decreases search.refs - depths.Keys, 1
    {
      if |results| >= limit {
        return;
      }
      if |depths.Keys| == |search.refs| {
        results := results + [edges];
        return;
      }
      var options := Options(search, depths, search.candidates);
      OptionsAreOpen(search, depths);
      GrowThrough(depths, edges, options);
    }

    /** The loop over the edges that may be added next. */
    method GrowThrough(depths: map<string, nat>, edges: Tree, options: seq<Candidate>)
      requires Within(search, depths) && AllOpen(search, depths, options) && |results| <= limit
      modifies this`results
      ensures |results| <= limit
      ensures results == Take(limit, old(results) + GrowthsThrough(search, depths, edges, options))
      decreases search.refs - depths.Keys, 0
    {
      for i := 0 to |options|
        invariant |results| <= limit
        invariant results == Take(limit, old(results) + GrowthsThrough(search, depths, edges, options[..i]))
      {
        ExtendKeys(search, depths, options[i]);
        ThroughOneMore(search, depths, edges, options, i, limit, old(results));
        Grow(Extend(depths, options[i]), edges + [options[i]]);
      }
      assert options[..|options|] == options;
    }
  }

  lemma ThroughOneMore(s: Search, depths: map<string, nat>, edges: Tree, options: seq<Candidate>, i: nat, limit: nat, before: seq<Tree>)
    requires Within(s, depths) && AllOpen(s, depths, options) && i < |options|
    requires Within(s, Extend(depths, options[i]))
    ensures Take(limit, Take(limit, before + GrowthsThrough(s, depths, edges, options[..i]))
                        + Growths(s, Extend(depths, options[i]), edges + [options[i]]))
            == Take(limit, before + GrowthsThrough(s, depths, edges, options[..i + 1]))
  {
    var first := GrowthsThrough(s, depths, edges, options[..i]);
    var second := Growths(s, Extend(depths, options[i]), edges + [options[i]]);
    assert options[..i + 1][..i] == options[..i];
    TakeTwice(limit, before + first, second);
    assert (before + first) + second == before + (first + second);
  }

  lemma TakeTwice<T>(limit: nat, xs: seq<T>, ys: seq<T>)
    ensures Take(limit, Take(limit, xs) + ys) == Take(limit, xs + ys)
  {
  }

  method FindSpanningTrees(search: Search, start: string, limit: nat) returns (trees: seq<Tree>)
    requires ValidSearch(search) && start in search.refs
    ensures trees == Take(limit, Growths(search, map[start := 0], []))
  {
    var run := new TreeSearch(search, limit);
    run.Grow(map[start := 0], []);
    trees := run.results;
    assert [] + Growths(search, map[start := 0], []) == Growths(search, map[start := 0], []);
  }

  // ---------------------------------------------------------------- what a growth is

  /** Depth of every connected ref after the edges were added one by one. */
  ghost function Depths(start: string, t: Tree): map<string, nat> {
    if t == [] then map[start := 0]
    else
      var before := Depths(start, t[..|t| - 1]);
      if t[|t| - 1].fromRef in before then Extend(before, t[|t| - 1]) else before
  }

  ghost predicate Growth(s: Search, start: string, t: Tree) {
    t == [] || (Growth(s, start, t[..|t| - 1]) && t[|t| - 1] in s.candidates && Open(s, Depths(start, t[..|t| - 1]), t[|t| - 1]))
  }

  /** A spanning tree of the request, in the order in which its edges were added. */
  ghost predicate Spanning(s: Search, start: string, t: Tree) {
    Growth(s, start, t) && Depths(start, t).Keys == s.refs
  }

  lemma {:induction false} GrowthKeys(s: Search, start: string, t: Tree)
    requires ValidSearch(s) && start in s.refs && Growth(s, start, t)
    ensures Depths(start, t).Keys <= s.refs && |Depths(start, t).Keys| == |t| + 1
    ensures forall r :: r in Depths(start, t) ==> Depths(start, t)[r] <= (if r == start then 0 else s.maxDepth)
  {
    if t != [] {
      var rest, c := t[..|t| - 1], t[|t| - 1];
      GrowthKeys(s, start, rest);
      assert Depths(start, t).Keys == Depths(start, rest).Keys + {c.toRef};
      assert start in Depths(start, rest) by { StartConnected(s, start, rest); }
    }
  }

  lemma {:induction false} StartConnected(s: Search, start: string, t: Tree)
    requires Growth(s, start, t)
    ensures start in Depths(start, t) && Depths(start, t)[start] == 0
  {
    if t != [] {
      StartConnected(s, start, t[..|t| - 1]);
    }
  }

  lemma {:induction false} GrowthPrefix(s: Search, start: string, t: Tree, k: nat)
    requires Growth(s, start, t) && k <= |t|
    ensures Growth(s, start, t[..k])
    ensures Depths(start, t[..k]).Keys <= Depths(start, t).Keys
  {
    if k == |t| {
      assert t[..k] == t;
    } else {
      var rest := t[..|t| - 1];
      GrowthPrefix(s, start, rest, k);
      assert rest[..k] == t[..k];
    }
  }

  lemma {:induction false} GrowthMembers(s: Search, start: string, t: Tree, i: nat)
    requires Growth(s, start, t) && i < |t|
    ensures t[i] in s.candidates
  {
    if i < |t| - 1 {
      GrowthMembers(s, start, t[..|t| - 1], i);
    }
  }

  /** A recorded tree continues the edges at hand and spans the request. */
  lemma {:induction false} GrowthsAreSpanning(s: Search, start: string, depths: map<string, nat>, edges: Tree, t: Tree)
    requires Within(s, depths) && start in s.refs
    requires Growth(s, start, edges) && Depths(start, edges) == depths
    requires t in Growths(s, depths, edges)
    ensures edges <= t && Spanning(s, start, t)
    decreases s.refs - depths.Keys, 1, 0
  {
    if |depths.Keys| == |s.refs| {
      SubsetSize(depths.Keys, s.refs);
    } else {
      OptionsAreOpen(s, depths);
      ThroughAreSpanning(s, start, depths, edges, Options(s, depths, s.candidates), t);
    }
  }

  lemma GrowthStep(s: Search, start: string, depths: map<string, nat>, edges: Tree, c: Candidate)
    requires Within(s, depths) && Growth(s, start, edges) && Depths(start, edges) == depths
    requires c in s.candidates && Open(s, depths, c)
    ensures Growth(s, start, edges + [c]) && Depths(start, edges + [c]) == Extend(depths, c)
    ensures Within(s, Extend(depths, c)) && s.refs - Extend(depths, c).Keys < s.refs - depths.Keys
  {
    var t := edges + [c];
    assert t[..|t| - 1] == edges;
    ExtendKeys(s, depths, c);
  }

  lemma {:induction false} ThroughAreSpanning(s: Search, start: string, depths: map<string, nat>, edges: Tree, options: seq<Candidate>, t: Tree)
    requires Within(s, depths) && start in s.refs
    requires Growth(s, start, edges) && Depths(start, edges) == depths
    requires AllOpen(s, depths, options)
    requires t in GrowthsThrough(s, depths, edges, options)
    ensures edges <= t && Spanning(s, start, t)
    decreases s.refs - depths.Keys, 0, |options|
  {
    var n := |options| - 1;
    var c := options[n];
    assert c in options;
    if t in GrowthsThrough(s, depths, edges, options[..n]) {
      ThroughAreSpanning(s, start, depths, edges, options[..n], t);
    } else {
      GrowthStep(s, start, depths, edges, c);
      GrowthsAreSpanning(s, start, Extend(depths, c), edges + [c], t);
    }
  }

  /** The edge that a longer growth adds to these edges could be added to them. */
  lemma NextGrown(s: Search, start: string, edges: Tree, t: Tree) returns (c: Candidate)
    requires Growth(s, start, t) && edges <= t && |edges| < |t|
    ensures c in s.candidates && Open(s, Depths(start, edges), c) && edges + [c] <= t
  {
    var k := |edges|;
    c := t[k];
    GrowthPrefix(s, start, t, k + 1);
    assert t[..k + 1][..k] == edges && t[..k + 1] == edges + [c];
  }

  /** Conversely, every spanning growth that continues the edges at hand is recorded. */
  lemma {:induction false} SpanningIsRecorded(s: Search, start: string, depths: map<string, nat>, edges: Tree, t: Tree)
    requires Within(s, depths) && start in s.refs
    requires Growth(s, start, edges) && Depths(start, edges) == depths
    requires edges <= t && Spanning(s, start, t)
    ensures t in Growths(s, depths, edges)
    decreases |t| - |edges|
  {
    GrowthKeys(s, start, edges);
    GrowthKeys(s, start, t);
    if |edges| == |t| {
      assert edges == t;
    } else {
      var c := NextGrown(s, start, edges, t);
      GrowthStep(s, start, depths, edges, c);
      SpanningIsRecorded(s, start, Extend(depths, c), edges + [c], t);
      OptionIsFollowed(s, depths, edges, c, t);
    }
  }

  lemma OptionIsFollowed(s: Search, depths: map<string, nat>, edges: Tree, c: Candidate, t: Tree)
    requires Within(s, depths) && |depths.Keys| != |s.refs| && c in s.candidates && Open(s, depths, c)
    requires Within(s, Extend(depths, c)) && t in Growths(s, Extend(depths, c), edges + [c])
    ensures t in Growths(s, depths, edges)
  {
    OptionsAreOpen(s, depths);
    OptionsExactly(s, depths, s.candidates, c);
    ThroughHasOption(s, depths, edges, Options(s, depths, s.candidates), c, t);
  }

  lemma {:induction false} ThroughHasOption(s: Search, depths: map<string, nat>, edges: Tree, options: seq<Candidate>, c: Candidate, t: Tree)
    requires Within(s, depths) && AllOpen(s, depths, options)
    requires c in options && c.fromRef in depths && Within(s, Extend(depths, c)) && t in Growths(s, Extend(depths, c), edges + [c])
    ensures t in GrowthsThrough(s, depths, edges, options)
  {
    var n := |options| - 1;
    if options[n] != c {
      assert options == options[..n] + [options[n]];
      ThroughHasOption(s, depths, edges, options[..n], c, t);
    }
  }

  /** The search records exactly the spanning growths: |refs|-1 edges, each within the depth bound. */
  lemma RecordedExactly(s: Search, start: string, t: Tree)
    requires ValidSearch(s) && start in s.refs
    ensures t in Growths(s, map[start := 0], []) <==> Spanning(s, start, t)
    ensures Spanning(s, start, t) ==> |t| == |s.refs| - 1 && forall r :: r in s.refs ==> Depths(start, t)[r] <= s.maxDepth
  {
    assert Within(s, map[start := 0]);
    if t in Growths(s, map[start := 0], []) {
      GrowthsAreSpanning(s, start, map[start := 0], [], t);
    }
    if Spanning(s, start, t) {
      SpanningIsRecorded(s, start, map[start := 0], [], t);
      GrowthKeys(s, start, t);
    }
  }

  // ---------------------------------------------------------------- search order

  /** `t` is found before `u`: at the first edge where they part, `t` took an earlier candidate. */
  ghost predicate FoundBefore(candidates: seq<Candidate>, t: Tree, u: Tree) {
    exists k, p, q :: 0 <= k < |t| && k < |u| && t[..k] == u[..k]
      && 0 <= p < q < |candidates| && candidates[p] == t[k] && candidates[q] == u[k]
  }

  ghost predicate InSearchOrder(candidates: seq<Candidate>, trees: seq<Tree>) {
    forall i, j :: 0 <= i < j < |trees| ==> FoundBefore(candidates, trees[i], trees[j])
  }

  /** The options keep the candidates' order. */
  ghost predicate Embedded(options: seq<Candidate>, candidates: seq<Candidate>, at: seq<nat>) {
    && |at| == |options|
    && (forall i :: 0 <= i < |at| ==> at[i] < |candidates| && candidates[at[i]] == options[i])
    && (forall i, j :: 0 <= i < j < |at| ==> at[i] < at[j])
  }

  lemma {:induction false} OptionsEmbedded(s: Search, depths: map<string, nat>, candidates: seq<Candidate>) returns (at: seq<nat>)
    ensures Embedded(Options(s, depths, candidates), candidates, at)
  {
    if candidates == [] {
      at := [];
    } else {
      var n := |candidates| - 1;
      at := OptionsEmbedded(s, depths, candidates[..n]);
      if Open(s, depths, candidates[n]) {
        at := at + [n];
      }
    }
  }

  lemma {:induction false} GrowthsInOrder(s: Search, start: string, depths: map<string, nat>, edges: Tree)
    requires Within(s, depths) && start in s.refs
    requires Growth(s, start, edges) && Depths(start, edges) == depths
    ensures InSearchOrder(s.candidates, Growths(s, depths, edges))
    decreases s.refs - depths.Keys, 1, 0
  {
    if |depths.Keys| != |s.refs| {
      var at := OptionsEmbedded(s, depths, s.candidates);
      OptionsAreOpen(s, depths);
      ThroughInOrder(s, start, depths, edges, Options(s, depths, s.candidates), at);
    }
  }

  /** The edge that `t` adds to `edges` first is among these options. */
  ghost predicate BranchesInto(edges: Tree, t: Tree, options: seq<Candidate>) {
    exists i :: 0 <= i < |options| && edges < t && t[|edges|] == options[i]
  }

  lemma BranchFirst(s: Search, start: string, depths: map<string, nat>, edges: Tree, c: Candidate, t: Tree)
    requires Within(s, depths) && start in s.refs
    requires Growth(s, start, edges) && Depths(start, edges) == depths
    requires c in s.candidates && Open(s, depths, c) && Within(s, Extend(depths, c))
    requires t in Growths(s, Extend(depths, c), edges + [c])
    ensures edges < t && t[|edges|] == c
  {
    GrowthStep(s, start, depths, edges, c);
    GrowthsAreSpanning(s, start, Extend(depths, c), edges + [c], t);
    assert (edges + [c])[|edges|] == c;
  }

  lemma PartsEarlier(s: Search, edges: Tree, t: Tree, u: Tree, options: seq<Candidate>, at: seq<nat>)
    requires options != [] && Embedded(options, s.candidates, at)
    requires BranchesInto(edges, t, options[..|options| - 1])
    requires edges < u && u[|edges|] == options[|options| - 1]
    ensures FoundBefore(s.candidates, t, u)
  {
    var n := |options| - 1;
    var m :| 0 <= m < n && edges < t && t[|edges|] == options[..n][m];
    assert options[..n][m] == options[m];
    var k, p, q := |edges|, at[m], at[n];
    assert t[..k] == edges == u[..k] && s.candidates[p] == t[k] && s.candidates[q] == u[k] && p < q;
  }

  lemma OrderedAppend(candidates: seq<Candidate>, first: seq<Tree>, second: seq<Tree>)
    requires InSearchOrder(candidates, first) && InSearchOrder(candidates, second)
    requires forall t, u :: t in first && u in second ==> FoundBefore(candidates, t, u)
    ensures InSearchOrder(candidates, first + second)
  {
    var all := first + second;
    forall i, j | 0 <= i < j < |all| ensures FoundBefore(candidates, all[i], all[j]) {
      if j < |first| {
        assert all[i] == first[i] && all[j] == first[j];
      } else if i >= |first| {
        assert all[i] == second[i - |first|] && all[j] == second[j - |first|];
      } else {
        assert all[i] in first && all[j] in second;
      }
    }
  }

  lemma {:induction false} ThroughInOrder(s: Search, start: string, depths: map<string, nat>, edges: Tree, options: seq<Candidate>, at: seq<nat>)
    requires Within(s, depths) && start in s.refs
    requires Growth(s, start, edges) && Depths(start, edges) == depths
    requires AllOpen(s, depths, options)
    requires Embedded(options, s.candidates, at)
    ensures InSearchOrder(s.candidates, GrowthsThrough(s, depths, edges, options))
    ensures forall t :: t in GrowthsThrough(s, depths, edges, options) ==> BranchesInto(edges, t, options)
    decreases s.refs - depths.Keys, 0, |options|
  {
    if options != [] {
      var n := |options| - 1;
      var c := options[n];
      GrowthStep(s, start, depths, edges, c);
      var first := GrowthsThrough(s, depths, edges, options[..n]);
      var second := Growths(s, Extend(depths, c), edges + [c]);
      ThroughInOrder(s, start, depths, edges, options[..n], at[..n]);
      GrowthsInOrder(s, start, Extend(depths, c), edges + [c]);
      forall u | u in second ensures edges < u && u[|edges|] == c && BranchesInto(edges, u, options) {
        BranchFirst(s, start, depths, edges, c, u);
      }
      forall t | t in first ensures BranchesInto(edges, t, options) {
        var i :| 0 <= i < n && edges < t && t[|edges|] == options[..n][i];
        assert options[..n][i] == options[i];
      }
      forall t, u | t in first && u in second ensures FoundBefore(s.candidates, t, u) {
        PartsEarlier(s, edges, t, u, options, at);
      }
      OrderedAppend(s.candidates, first, second);
    }
  }

  /** Results come in the order of the candidates they choose, so the limit keeps the best ones. */
  lemma SearchOrder(s: Search, start: string)
    requires ValidSearch(s) && start in s.refs
    ensures InSearchOrder(s.candidates, Growths(s, map[start := 0], []))
  {
    GrowthsInOrder(s, start, map[start := 0], []);
  }

  // ---------------------------------------------------------------- when there is a result

  /** Refs that at most `n` candidate edges reach from `start`. */
  ghost function Reach(s: Search, start: string, n: nat): set<string>
    requires start in s.refs
  {
    if n == 0 then {start} else Reach(s, start, n - 1) + OneEdgeFrom(s, Reach(s, start, n - 1))
  }

  ghost function OneEdgeFrom(s: Search, near: set<string>): set<string> {
    set r | r in s.refs && exists c :: c in s.candidates && c.fromRef in near && c.toRef == r
  }

  lemma {:induction false} ReachMonotone(s: Search, start: string, m: nat, n: nat)
    requires start in s.refs && m <= n
    ensures Reach(s, start, m) <= Reach(s, start, n)
  {
    if m < n {
      ReachMonotone(s, start, m, n - 1);
    }
  }

  lemma {:induction false} DepthsAreReached(s: Search, start: string, t: Tree)
    requires ValidSearch(s) && start in s.refs && Growth(s, start, t)
    ensures forall r :: r in Depths(start, t) ==> r in Reach(s, start, Depths(start, t)[r])
  {
    if t != [] {
      var n := |t| - 1;
      DepthsAreReached(s, start, t[..n]);
      forall r | r in Depths(start, t) ensures r in Reach(s, start, Depths(start, t)[r]) {
        OneMoreReached(s, start, Depths(start, t[..n]), t[n], r);
      }
    }
  }

  lemma OneMoreReached(s: Search, start: string, depths: map<string, nat>, c: Candidate, r: string)
    requires ValidSearch(s) && start in s.refs && c in s.candidates && c.fromRef in depths && r in Extend(depths, c)
    requires forall x :: x in depths ==> x in Reach(s, start, depths[x])
    ensures r in Reach(s, start, Extend(depths, c)[r])
  {
    if r == c.toRef {
      ReachStep(s, start, depths[c.fromRef], c);
    }
  }

  ghost predicate Nearest(s: Search, start: string, r: string, n: nat)
    requires start in s.refs
  {
    r in Reach(s, start, n) && (n > 0 ==> r !in Reach(s, start, n - 1))
  }

  /** Grown so far along shortest routes only. */
  ghost predicate AllNearest(s: Search, start: string, depths: map<string, nat>)
    requires start in s.refs
  {
    forall r {:trigger Nearest(s, start, r, depths[r])} :: r in depths ==> Nearest(s, start, r, depths[r])
  }

  /** All refs nearer than `n`, and none farther. */
  ghost predicate Layered(s: Search, start: string, refs: set<string>, n: nat)
    requires start in s.refs
  {
    && refs <= Reach(s, start, n) && (n > 0 ==> Reach(s, start, n - 1) <= refs)
    && (n == 0 ==> refs == Reach(s, start, 0))
  }

  lemma OneMoreNearest(s: Search, start: string, depths: map<string, nat>, r: string, n: nat)
    requires start in s.refs && AllNearest(s, start, depths) && Nearest(s, start, r, n)
    ensures AllNearest(s, start, depths[r := n])
  {
    var more := depths[r := n];
    forall x | x in more ensures Nearest(s, start, x, more[x]) {
      if x != r {
        assert x in depths && more[x] == depths[x];
      }
    }
  }

  /** Grown along shortest routes only, with all refs nearer than `n` and none farther. */
  ghost predicate ShortestSoFar(s: Search, start: string, edges: Tree, n: nat)
    requires start in s.refs
  {
    Growth(s, start, edges) && AllNearest(s, start, Depths(start, edges)) && Layered(s, start, Depths(start, edges).Keys, n)
  }

  /** While a ref at distance `n` is missing, the growth goes on with an edge to one. */
  lemma OneMoreShortest(s: Search, start: string, edges: Tree, n: nat) returns (more: Tree)
    requires ValidSearch(s) && start in s.refs && n <= s.maxDepth && ShortestSoFar(s, start, edges, n)
    requires !(Reach(s, start, n) <= Depths(start, edges).Keys)
    ensures ShortestSoFar(s, start, more, n) && s.refs - Depths(start, more).Keys < s.refs - Depths(start, edges).Keys
  {
    var depths := Depths(start, edges);
    GrowthKeys(s, start, edges);
    var c := NearestOption(s, start, depths, n);
    ShortestStep(s, start, edges, n, c);
    more := edges + [c];
  }

  lemma ShortestStep(s: Search, start: string, edges: Tree, n: nat, c: Candidate)
    requires ValidSearch(s) && start in s.refs && ShortestSoFar(s, start, edges, n) && Within(s, Depths(start, edges)) && n > 0
    requires c in s.candidates && Open(s, Depths(start, edges), c) && Depths(start, edges)[c.fromRef] + 1 == n && Nearest(s, start, c.toRef, n)
    ensures ShortestSoFar(s, start, edges + [c], n) && s.refs - Depths(start, edges + [c]).Keys < s.refs - Depths(start, edges).Keys
  {
    var depths := Depths(start, edges);
    OneMoreNearest(s, start, depths, c.toRef, n);
    ExtendLayered(s, start, depths, n, c);
    GrowthStep(s, start, depths, edges, c);
    IsShortest(s, start, edges + [c], n, Extend(depths, c));
  }

  lemma IsShortest(s: Search, start: string, edges: Tree, n: nat, depths: map<string, nat>)
    requires start in s.refs && Growth(s, start, edges) && Depths(start, edges) == depths
    requires AllNearest(s, start, depths) && Layered(s, start, depths.Keys, n)
    ensures ShortestSoFar(s, start, edges, n)
  {
  }

  lemma LayerDone(s: Search, start: string, edges: Tree, n: nat)
    requires start in s.refs && ShortestSoFar(s, start, edges, n) && Reach(s, start, n) <= Depths(start, edges).Keys
    ensures ShortestSoFar(s, start, edges, n + 1)
  {
  }

  lemma {:induction false} ShortestGrowth(s: Search, start: string, edges: Tree, n: nat) returns (t: Tree)
    requires ValidSearch(s) && start in s.refs && n <= s.maxDepth && ShortestSoFar(s, start, edges, n)
    requires s.refs <= Reach(s, start, s.maxDepth)
    ensures Spanning(s, start, t)
    decreases s.maxDepth - n, s.refs - Depths(start, edges).Keys
  {
    var depths := Depths(start, edges);
    GrowthKeys(s, start, edges);
    if depths.Keys == s.refs {
      t := edges;
    } else if Reach(s, start, n) <= depths.Keys {
      assert n != s.maxDepth;
      LayerDone(s, start, edges, n);
      t := ShortestGrowth(s, start, edges, n + 1);
    } else {
      var more := OneMoreShortest(s, start, edges, n);
      t := ShortestGrowth(s, start, more, n);
    }
  }

  /** A ref out of reach at one distance is so at every smaller one. */
  lemma OutOfReach(s: Search, start: string, r: string, m: nat, n: nat)
    requires start in s.refs && r in Reach(s, start, m) && r !in Reach(s, start, n)
    ensures n < m
  {
    if m <= n {
      ReachMonotone(s, start, m, n);
    }
  }

  /** An edge out of what is reached before distance `n` that leads beyond it starts right before it. */
  lemma LeadsBeyond(s: Search, start: string, d: nat, c: Candidate, n: nat)
    requires ValidSearch(s) && start in s.refs && c in s.candidates && n > 0
    requires Nearest(s, start, c.fromRef, d) && c.fromRef in Reach(s, start, n - 1) && c.toRef !in Reach(s, start, n - 1)
    ensures d + 1 == n
  {
    ReachStep(s, start, d, c);
    OutOfReach(s, start, c.toRef, d + 1, n - 1);
    if d > 0 {
      OutOfReach(s, start, c.fromRef, n - 1, d - 1);
    }
  }

  /** While some ref at distance `n` is missing, an edge to one can be added. */
  lemma NearestOption(s: Search, start: string, depths: map<string, nat>, n: nat) returns (c: Candidate)
    requires Within(s, depths) && start in s.refs && n <= s.maxDepth
    requires AllNearest(s, start, depths) && Layered(s, start, depths.Keys, n) && !(Reach(s, start, n) <= depths.Keys)
    ensures c in s.candidates && Open(s, depths, c)
    ensures n > 0 && depths[c.fromRef] + 1 == n && c.toRef in Reach(s, start, n) && Nearest(s, start, c.toRef, n)
  {
    c := EdgeToMissing(s, start, depths, n);
    assert Nearest(s, start, c.fromRef, depths[c.fromRef]);
    LeadsBeyond(s, start, depths[c.fromRef], c, n);
  }

  lemma EdgeToMissing(s: Search, start: string, depths: map<string, nat>, n: nat) returns (c: Candidate)
    requires start in s.refs && Layered(s, start, depths.Keys, n) && !(Reach(s, start, n) <= depths.Keys)
    ensures n > 0 && c in s.candidates && c.fromRef in Reach(s, start, n - 1) && c.fromRef in depths
    ensures c.toRef in Reach(s, start, n) && c.toRef !in depths
  {
    var r :| r in Reach(s, start, n) && r !in depths;
    assert r in OneEdgeFrom(s, Reach(s, start, n - 1));
    c :| c in s.candidates && c.fromRef in Reach(s, start, n - 1) && c.toRef == r;
  }

  lemma OneMoreLayered(s: Search, start: string, refs: set<string>, r: string, n: nat)
    requires start in s.refs && n > 0 && Layered(s, start, refs, n) && r in Reach(s, start, n)
    ensures Layered(s, start, refs + {r}, n)
  {
  }

  lemma ExtendLayered(s: Search, start: string, depths: map<string, nat>, n: nat, c: Candidate)
    requires start in s.refs && Layered(s, start, depths.Keys, n) && c.fromRef in depths && n > 0 && c.toRef in Reach(s, start, n)
    ensures Layered(s, start, Extend(depths, c).Keys, n)
  {
    OneMoreLayered(s, start, depths.Keys, c.toRef, n);
    assert Extend(depths, c).Keys == depths.Keys + {c.toRef};
  }

  lemma ReachStep(s: Search, start: string, n: nat, c: Candidate)
    requires ValidSearch(s) && start in s.refs && c in s.candidates && c.fromRef in Reach(s, start, n)
    ensures c.toRef in Reach(s, start, n + 1)
  {
  }

  /** The search finds something exactly when every ref is near enough to the start. */
  lemma FindsSomethingExactly(s: Search, start: string)
    requires ValidSearch(s) && start in s.refs
    ensures Growths(s, map[start := 0], []) != [] <==> s.refs <= Reach(s, start, s.maxDepth)
  {
    assert Within(s, map[start := 0]);
    if Growths(s, map[start := 0], []) != [] {
      var t := Growths(s, map[start := 0], [])[0];
      RecordedExactly(s, start, t);
      DepthsAreReached(s, start, t);
      forall r | r in s.refs ensures r in Reach(s, start, s.maxDepth) {
        ReachMonotone(s, start, Depths(start, t)[r], s.maxDepth);
      }
    }
    if s.refs <= Reach(s, start, s.maxDepth) {
      var t := ShortestGrowth(s, start, [], 0);
      RecordedExactly(s, start, t);
    }
  }
}
