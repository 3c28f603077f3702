/** Choosing tasks for review: a greedy selection per database, and its retry loop. */
module ReviewSelection {
  import opened Domain
  import opened Ordering
  import opened Sets
  import opened Sorting

  /** `rank` is the hash the source derives from the id. */
  datatype Task = Task(id: string, depth: int, rank: string, sourceIndex: int, template: string, structure: string, sql: string)

  type Pair = (string, string)

  function PairOf(t: Task): Pair {
    (t.template, t.structure)
  }

  function PairsOf(tasks: seq<Task>): set<Pair> {
    set t | t in tasks :: PairOf(t)
  }

  function DepthsOf(tasks: seq<Task>): set<int> {
    set t | t in tasks :: t.depth
  }

  predicate TaskLe(a: Task, b: Task) {
    || a.depth < b.depth
    || (a.depth == b.depth && (if a.rank == b.rank then a.sourceIndex <= b.sourceIndex else NameLe(a.rank, b.rank)))
  }

  predicate IdLe(a: Task, b: Task) {
    NameLe(a.id, b.id)
  }

  type Candidates = map<string, seq<Task>>

  function Values(c: Candidates, database: string): seq<Task> {
    Sorted(if database in c then c[database] else [], TaskLe)
  }

  // ---------------------------------------------------------------- one database

  datatype Progress = Progress(chosen: seq<Task>, depths: set<int>, used: set<Pair>)

  function Consider(p: Progress, t: Task, preferNew: bool, quota: int): Progress {
    if |p.chosen| >= quota || PairOf(t) in p.used || t in p.chosen || (preferNew && t.depth in p.depths) then p
    else Progress(p.chosen + [t], p.depths + {t.depth}, p.used + {PairOf(t)})
  }

  function Pass(values: seq<Task>, p: Progress, preferNew: bool, quota: int): Progress {
    if values == [] then p
    else Consider(Pass(values[..|values| - 1], p, preferNew, quota), values[|values| - 1], preferNew, quota)
  }

  /** First one task per depth, then whatever else is unused. */
  function Choose(values: seq<Task>, used: set<Pair>, quota: int): Progress {
    Pass(values, Pass(values, Progress([], {}, used), true, quota), false, quota)
  }

  lemma {:induction false} FullStaysFull(values: seq<Task>, n: nat, p: Progress, preferNew: bool, quota: int)
    requires n <= |values| && |Pass(values[..n], p, preferNew, quota).chosen| >= quota
    ensures Pass(values, p, preferNew, quota) == Pass(values[..n], p, preferNew, quota)
  {
    if n < |values| {
      assert values[..|values| - 1][..n] == values[..n];
      FullStaysFull(values[..|values| - 1], n, p, preferNew, quota);
    } else {
      assert values[..n] == values;
    }
  }

  method WalkOnce(values: seq<Task>, before: Progress, preferNew: bool, quota: int) returns (p: Progress)
    ensures p == Pass(values, before, preferNew, quota)
  {
    p := before;
    for i := 0 to |values|
      invariant p == Pass(values[..i], before, preferNew, quota)
    {
      if |p.chosen| >= quota {
        FullStaysFull(values, i, before, preferNew, quota);
        return;
      }
      assert values[..i + 1][..i] == values[..i];
      var t := values[i];
      if PairOf(t) in p.used || t in p.chosen {
        continue;
      }
      if preferNew && t.depth in p.depths {
        continue;
      }
      p := Progress(p.chosen + [t], p.depths + {t.depth}, p.used + {PairOf(t)});
    }
    assert values[..|values|] == values;
  }

  /** What the passes keep: fresh distinct pairs, taken from the values, never above the quota. */
  ghost predicate Fair(p: Progress, values: seq<Task>, used: set<Pair>, quota: int) {
    && p.used == used + PairsOf(p.chosen) && PairsOf(p.chosen) !! used
    && |PairsOf(p.chosen)| == |p.chosen|
    && p.depths == DepthsOf(p.chosen)
    && PairsOf(p.chosen) <= PairsOf(values)
    && (forall i :: 0 <= i < |p.chosen| ==> p.chosen[i] in values)
    && |p.chosen| <= Asked(quota)
  }

  lemma OneMore(tasks: seq<Task>, t: Task)
    ensures PairsOf(tasks + [t]) == PairsOf(tasks) + {PairOf(t)}
    ensures DepthsOf(tasks + [t]) == DepthsOf(tasks) + {t.depth}
  {
    assert forall x :: x in tasks + [t] <==> x in tasks || x == t;
  }

  lemma ConsiderKeepsFair(p: Progress, t: Task, preferNew: bool, quota: int, values: seq<Task>, used: set<Pair>)
    requires Fair(p, values, used, quota) && t in values
    ensures Fair(Consider(p, t, preferNew, quota), values, used, quota)
  {
    if Consider(p, t, preferNew, quota) != p {
      ChosenKeepsFair(p, t, values, used, quota);
    }
  }

  lemma PairIsThere(values: seq<Task>, t: Task)
    requires t in values
    ensures PairOf(t) in PairsOf(values)
  {
  }

  lemma AllThere(chosen: seq<Task>, t: Task, values: seq<Task>)
    requires t in values && forall i :: 0 <= i < |chosen| ==> chosen[i] in values
    ensures forall i :: 0 <= i < |chosen + [t]| ==> (chosen + [t])[i] in values
  {
  }

  lemma ChosenKeepsFair(p: Progress, t: Task, values: seq<Task>, used: set<Pair>, quota: int)
    requires Fair(p, values, used, quota) && t in values && |p.chosen| < quota && PairOf(t) !in p.used
    ensures Fair(Progress(p.chosen + [t], p.depths + {t.depth}, p.used + {PairOf(t)}), values, used, quota)
  {
    OneMore(p.chosen, t);
    PairIsThere(values, t);
    OneMorePair(PairsOf(p.chosen), used, PairOf(t), p.used);
    AllThere(p.chosen, t, values);
  }

  lemma OneMorePair(pairs: set<Pair>, used: set<Pair>, pair: Pair, all: set<Pair>)
    requires all == used + pairs && pairs !! used && pair !in all
    ensures all + {pair} == used + (pairs + {pair}) && pairs + {pair} !! used && |pairs + {pair}| == |pairs| + 1
  {
  }

  lemma {:induction false} PassKeepsFair(walked: seq<Task>, p: Progress, preferNew: bool, quota: int, values: seq<Task>, used: set<Pair>)
    requires Fair(p, values, used, quota) && forall i :: 0 <= i < |walked| ==> walked[i] in values
    ensures Fair(Pass(walked, p, preferNew, quota), values, used, quota)
  {
    if walked != [] {
      var n := |walked| - 1;
      PassKeepsFair(walked[..n], p, preferNew, quota, values, used);
      ConsiderKeepsFair(Pass(walked[..n], p, preferNew, quota), walked[n], preferNew, quota, values, used);
    }
  }

  /** A pass only adds, and unless it met the quota it left behind only what it had to skip. */
  lemma {:induction false} PassExhausts(values: seq<Task>, p: Progress, preferNew: bool, quota: int)
    requires forall t :: t in p.chosen ==> PairOf(t) in p.used
    ensures var q := Pass(values, p, preferNew, quota);
      && p.used <= q.used && p.depths <= q.depths && p.chosen <= q.chosen
      && (forall t :: t in q.chosen ==> PairOf(t) in q.used)
      && (|q.chosen| >= quota || forall t :: t in values ==> PairOf(t) in q.used || (preferNew && t.depth in q.depths))
  {
    if values != [] {
      var n := |values| - 1;
      PassExhausts(values[..n], p, preferNew, quota);
      assert values == values[..n] + [values[n]];
    }
  }

  lemma {:induction false} NewDepthsDiffer(values: seq<Task>, p: Progress, quota: int)
    requires |DepthsOf(p.chosen)| == |p.chosen| && p.depths == DepthsOf(p.chosen)
    ensures var q := Pass(values, p, true, quota); |DepthsOf(q.chosen)| == |q.chosen| && q.depths == DepthsOf(q.chosen)
  {
    if values != [] {
      var n := |values| - 1;
      NewDepthsDiffer(values[..n], p, quota);
      var q := Pass(values[..n], p, true, quota);
      OneMore(q.chosen, values[n]);
    }
  }

  function FreePairs(values: seq<Task>, used: set<Pair>): nat {
    |PairsOf(values) - used|
  }

  /** A quota below zero asks for nothing. */
  function Asked(quota: int): nat {
    if quota > 0 then quota else 0
  }

  lemma ChooseIsFair(values: seq<Task>, used: set<Pair>, quota: int)
    ensures Fair(Choose(values, used, quota), values, used, quota)
  {
    var start := Progress([], {}, used);
    PassKeepsFair(values, start, true, quota, values, used);
    PassKeepsFair(values, Pass(values, start, true, quota), false, quota, values, used);
  }

  lemma ChooseExhausts(values: seq<Task>, used: set<Pair>, quota: int)
    ensures |Choose(values, used, quota).chosen| >= quota || PairsOf(values) <= Choose(values, used, quota).used
  {
    var start := Progress([], {}, used);
    PassExhausts(values, start, true, quota);
    PassExhausts(values, Pass(values, start, true, quota), false, quota);
  }

  /** As many tasks are chosen as the quota asks, or as there are distinct pairs not used before. */
  lemma ChooseCounts(values: seq<Task>, used: set<Pair>, quota: int)
    ensures
      |Choose(values, used, quota).chosen| == if Asked(quota) <= FreePairs(values, used) then Asked(quota) else FreePairs(values, used)
  {
    var p := Choose(values, used, quota);
    ChooseIsFair(values, used, quota);
    ChooseExhausts(values, used, quota);
    SubsetSize(PairsOf(p.chosen), PairsOf(values) - used);
    if |p.chosen| < quota {
      assert PairsOf(values) - used == PairsOf(p.chosen);
    }
  }

  /** Either all chosen depths differ, or every depth left out has only used pairs. */
  lemma ChooseSpreadsDepths(values: seq<Task>, used: set<Pair>, quota: int)
    ensures var p := Choose(values, used, quota);
      || |DepthsOf(p.chosen)| == |p.chosen|
      || forall t :: t in values && t.depth !in DepthsOf(p.chosen) ==> PairOf(t) in p.used
  {
    var start := Progress([], {}, used);
    var first := Pass(values, start, true, quota);
    var p := Choose(values, used, quota);
    PassKeepsFair(values, start, true, quota, values, used);
    PassKeepsFair(values, first, false, quota, values, used);
    NewDepthsDiffer(values, start, quota);
    PassExhausts(values, start, true, quota);
    PassExhausts(values, first, false, quota);
    if |first.chosen| >= quota {
      assert values[..0] == [];
      FullStaysFull(values, 0, first, false, quota);
    }
  }

  // ---------------------------------------------------------------- all databases

  function UsedAfter(c: Candidates, databases: seq<string>, quota: int, i: nat): set<Pair>
    requires i <= |databases|
  {
    if i == 0 then {}
    else Choose(Values(c, databases[i - 1]), UsedAfter(c, databases, quota, i - 1), quota).used
  }

  function Block(c: Candidates, databases: seq<string>, quota: int, i: nat): seq<Task>
    requires i < |databases|
  {
    Choose(Values(c, databases[i]), UsedAfter(c, databases, quota, i), quota).chosen
  }

  /** Distinct pairs of the database that no earlier one used up. */
  function Free(c: Candidates, databases: seq<string>, quota: int, i: nat): nat
    requires i < |databases|
  {
    FreePairs(Values(c, databases[i]), UsedAfter(c, databases, quota, i))
  }

  function Joined(c: Candidates, databases: seq<string>, quota: int, n: nat): seq<Task>
    requires n <= |databases|
  {
    if n == 0 then [] else Joined(c, databases, quota, n - 1) + Sorted(Block(c, databases, quota, n - 1), IdLe)
  }

  predicate Enough(c: Candidates, databases: seq<string>, quota: int, i: nat)
    requires i < |databases|
  {
    Free(c, databases, quota, i) >= quota
  }

  ghost predicate EnoughUpTo(c: Candidates, databases: seq<string>, quota: int, n: nat)
    requires n <= |databases|
  {
    forall i :: 0 <= i < n ==> Enough(c, databases, quota, i)
  }

  ghost predicate Suffices(c: Candidates, databases: seq<string>, quota: int) {
    EnoughUpTo(c, databases, quota, |databases|)
  }

  function Selection(c: Candidates, databases: seq<string>, quota: int): seq<Task> {
    Sorted(Joined(c, databases, quota, |databases|), IdLe)
  }

  method ChooseFrom(values: seq<Task>, used: set<Pair>, quota: int) returns (p: Progress)
    ensures p == Choose(values, used, quota)
    ensures |p.chosen| < quota <==> FreePairs(values, used) < quota
  {
    p := WalkOnce(values, Progress([], {}, used), true, quota);
    p := WalkOnce(values, p, false, quota);
    ChooseCounts(values, used, quota);
  }

  /** The next database, given the pairs used up before it. */
  method ChooseNext(c: Candidates, databases: seq<string>, quota: int, i: nat, used: set<Pair>) returns (p: Progress)
    requires i < |databases| && used == UsedAfter(c, databases, quota, i)
    ensures p.used == UsedAfter(c, databases, quota, i + 1) && p.chosen == Block(c, databases, quota, i)
    ensures |p.chosen| < quota ==> !Suffices(c, databases, quota)
    ensures |p.chosen| >= quota && EnoughUpTo(c, databases, quota, i) ==> EnoughUpTo(c, databases, quota, i + 1)
  {
    p := ChooseFrom(Values(c, databases[i]), used, quota);
    assert |p.chosen| < quota <==> !Enough(c, databases, quota, i);
  }

  /** The selection fails exactly when some database, in name order, runs out of unused pairs. */
  method SelectReviewCandidates(c: Candidates, databaseIds: seq<string>, quota: int) returns (r: Result<seq<Task>>)
    ensures r.Ok? <==> Suffices(c, Sorted(databaseIds, NameLe), quota)
    ensures r.Ok? ==> r.value == Selection(c, Sorted(databaseIds, NameLe), quota)
    ensures r.Err? ==> r.code == "ValueError"
  {
    var databases := Sorted(databaseIds, NameLe);
    var selected: seq<Task> := [];
    var used: set<Pair> := {};
    for i := 0 to |databases|
      invariant used == UsedAfter(c, databases, quota, i) && selected == Joined(c, databases, quota, i)
      invariant EnoughUpTo(c, databases, quota, i)
    {
      var p := ChooseNext(c, databases, quota, i, used);
      if |p.chosen| < quota {
        return Err("ValueError");
      }
      selected := selected + Sorted(p.chosen, IdLe);
      used := p.used;
    }
    return Ok(Sorted(selected, IdLe));
  }

  // ---------------------------------------------------------------- what a selection holds

  lemma IdLeIsTotalPreorder()
    ensures TotalPreorder(IdLe)
  {
    NameLeIsTotalOrder();
  }

  lemma SortedPairs(tasks: seq<Task>)
    ensures PairsOf(Sorted(tasks, IdLe)) == PairsOf(tasks) && |Sorted(tasks, IdLe)| == |tasks|
    ensures forall t :: t in Sorted(tasks, IdLe) <==> t in tasks
  {
    IdLeIsTotalPreorder();
    SortedFacts(tasks, IdLe);
    forall t ensures t in Sorted(tasks, IdLe) <==> t in tasks {
      assert t in Sorted(tasks, IdLe) <==> t in multiset(Sorted(tasks, IdLe));
      assert t in tasks <==> t in multiset(tasks);
    }
  }

  lemma ValuesMembers(c: Candidates, database: string, t: Task)
    ensures t in Values(c, database) <==> database in c && t in c[database]
  {
    TaskLeIsTotalPreorder();
    var given := if database in c then c[database] else [];
    SortedFacts(given, TaskLe);
    assert t in Sorted(given, TaskLe) <==> t in multiset(Sorted(given, TaskLe));
    assert t in given <==> t in multiset(given);
  }

  lemma TaskLeIsTotalPreorder()
    ensures TotalPreorder(TaskLe)
  {
    NameLeIsTotalOrder();
  }

  /** Each database gives exactly its quota, taken from its own candidates. */
  lemma BlockFacts(c: Candidates, databases: seq<string>, quota: int, i: nat)
    requires i < |databases| && Suffices(c, databases, quota)
    ensures |Block(c, databases, quota, i)| == Asked(quota)
    ensures forall t :: t in Block(c, databases, quota, i) ==> databases[i] in c && t in c[databases[i]]
  {
    ChooseCounts(Values(c, databases[i]), UsedAfter(c, databases, quota, i), quota);
    ChooseIsFair(Values(c, databases[i]), UsedAfter(c, databases, quota, i), quota);
    assert Enough(c, databases, quota, i);
    forall t | t in Block(c, databases, quota, i) ensures databases[i] in c && t in c[databases[i]] {
      ValuesMembers(c, databases[i], t);
    }
  }

  /** The pairs of all blocks up to here are distinct, and they are exactly the used ones. */
  lemma {:induction false} JoinedPairs(c: Candidates, databases: seq<string>, quota: int, n: nat)
    requires n <= |databases|
    ensures PairsOf(Joined(c, databases, quota, n)) == UsedAfter(c, databases, quota, n)
    ensures |PairsOf(Joined(c, databases, quota, n))| == |Joined(c, databases, quota, n)|
  {
    if n > 0 {
      JoinedPairs(c, databases, quota, n - 1);
      OneBlockMore(Joined(c, databases, quota, n - 1), Values(c, databases[n - 1]), UsedAfter(c, databases, quota, n - 1), quota);
    }
  }

  lemma OneBlockMore(before: seq<Task>, values: seq<Task>, used: set<Pair>, quota: int)
    requires PairsOf(before) == used && |used| == |before|
    ensures var p := Choose(values, used, quota);
      && PairsOf(before + Sorted(p.chosen, IdLe)) == p.used
      && |p.used| == |before + Sorted(p.chosen, IdLe)|
  {
    var p := Choose(values, used, quota);
    ChooseIsFair(values, used, quota);
    SortedPairs(p.chosen);
    PairsJoin(before, Sorted(p.chosen, IdLe));
  }

  lemma PairsJoin(xs: seq<Task>, ys: seq<Task>)
    ensures PairsOf(xs + ys) == PairsOf(xs) + PairsOf(ys)
    ensures PairsOf(xs) !! PairsOf(ys) ==> |PairsOf(xs + ys)| == |PairsOf(xs)| + |PairsOf(ys)|
  {
    assert forall x :: x in xs + ys <==> x in xs || x in ys;
  }

  lemma {:induction false} JoinedMembers(c: Candidates, databases: seq<string>, quota: int, n: nat, t: Task)
    requires n <= |databases| && t in Joined(c, databases, quota, n)
    ensures exists i :: 0 <= i < n && t in Block(c, databases, quota, i)
  {
    var block := Block(c, databases, quota, n - 1);
    SortedPairs(block);
    if t in Joined(c, databases, quota, n - 1) {
      JoinedMembers(c, databases, quota, n - 1, t);
    } else {
      assert t in block;
    }
  }

  /** A selection holds no pair twice, and every task comes from a requested database. */
  lemma SelectionFacts(c: Candidates, databases: seq<string>, quota: int)
    requires Suffices(c, databases, quota)
    ensures var s := Selection(c, databases, quota);
      && |PairsOf(s)| == |s| == |databases| * Asked(quota)
      && (forall t :: t in s ==> exists i :: 0 <= i < |databases| && databases[i] in c && t in c[databases[i]])
  {
    var joined := Joined(c, databases, quota, |databases|);
    SortedPairs(joined);
    JoinedPairs(c, databases, quota, |databases|);
    JoinedLength(c, databases, quota);
    forall t | t in Selection(c, databases, quota)
      ensures exists i :: 0 <= i < |databases| && databases[i] in c && t in c[databases[i]]
    {
      JoinedMembers(c, databases, quota, |databases|, t);
      var i :| 0 <= i < |databases| && t in Block(c, databases, quota, i);
      BlockFacts(c, databases, quota, i);
    }
  }

  function Flat(blocks: seq<seq<Task>>): seq<Task> {
    if blocks == [] then [] else Flat(blocks[..|blocks| - 1]) + blocks[|blocks| - 1]
  }

  function Blocks(c: Candidates, databases: seq<string>, quota: int, n: nat): (r: seq<seq<Task>>)
    requires n <= |databases|
    ensures |r| == n && forall i :: 0 <= i < n ==> r[i] == Sorted(Block(c, databases, quota, i), IdLe)
  {
    seq(n, i requires 0 <= i < n => Sorted(Block(c, databases, quota, i), IdLe))
  }

  lemma {:induction false} BlocksJoin(c: Candidates, databases: seq<string>, quota: int, n: nat)
    requires n <= |databases|
    ensures Flat(Blocks(c, databases, quota, n)) == Joined(c, databases, quota, n)
  {
    if n > 0 {
      BlocksJoin(c, databases, quota, n - 1);
      var blocks, shorter := Blocks(c, databases, quota, n), Blocks(c, databases, quota, n - 1);
      assert blocks[..n - 1] == shorter && blocks[n - 1] == Sorted(Block(c, databases, quota, n - 1), IdLe);
      assert Flat(blocks) == Flat(shorter) + blocks[n - 1];
    }
  }

  /** The selection splits into one share per database, each of exactly the quota and from that
      database's own candidates. */
  ghost predicate SharedOut(c: Candidates, databases: seq<string>, quota: int, s: seq<Task>, shares: seq<seq<Task>>) {
    && |shares| == |databases| && multiset(Flat(shares)) == multiset(s)
    && forall i :: 0 <= i < |shares| ==> |shares[i]| == Asked(quota) && FromDatabase(c, databases[i], shares[i])
  }

  ghost predicate FromDatabase(c: Candidates, database: string, tasks: seq<Task>) {
    forall t :: t in tasks ==> database in c && t in c[database]
  }

  /** All depths of this share differ, or every depth left out has only pairs that this share or an
      earlier one holds. */
  ghost predicate ShareSpread(c: Candidates, database: string, shares: seq<seq<Task>>, i: nat)
    requires i < |shares|
  {
    || |DepthsOf(shares[i])| == |shares[i]|
    || forall t :: database in c && t in c[database] && t.depth !in DepthsOf(shares[i]) ==> PairOf(t) in PairsOf(Flat(shares[..i + 1]))
  }

  ghost predicate SpreadOut(c: Candidates, databases: seq<string>, shares: seq<seq<Task>>) {
    |shares| == |databases| && forall i :: 0 <= i < |shares| ==> ShareSpread(c, databases[i], shares, i)
  }

  lemma SortedDepths(tasks: seq<Task>)
    ensures DepthsOf(Sorted(tasks, IdLe)) == DepthsOf(tasks)
  {
    SortedPairs(tasks);
  }

  lemma SharesHoldUsed(c: Candidates, databases: seq<string>, quota: int, i: nat)
    requires i < |databases|
    ensures PairsOf(Flat(Blocks(c, databases, quota, |databases|)[..i + 1])) == UsedAfter(c, databases, quota, i + 1)
  {
    FirstBlocks(c, databases, quota, i + 1);
    BlocksJoin(c, databases, quota, i + 1);
    JoinedPairs(c, databases, quota, i + 1);
  }

  lemma FirstBlocks(c: Candidates, databases: seq<string>, quota: int, n: nat)
    requires n <= |databases|
    ensures Blocks(c, databases, quota, |databases|)[..n] == Blocks(c, databases, quota, n)
  {
  }

  lemma BlockSpreads(c: Candidates, databases: seq<string>, quota: int, i: nat)
    requires i < |databases|
    ensures ShareSpread(c, databases[i], Blocks(c, databases, quota, |databases|), i)
  {
    var shares := Blocks(c, databases, quota, |databases|);
    var block := Block(c, databases, quota, i);
    ChooseSpreadsDepths(Values(c, databases[i]), UsedAfter(c, databases, quota, i), quota);
    SortedPairs(block);
    SortedDepths(block);
    SharesHoldUsed(c, databases, quota, i);
    if |DepthsOf(block)| != |block| {
      forall t | databases[i] in c && t in c[databases[i]] && t.depth !in DepthsOf(shares[i])
        ensures PairOf(t) in PairsOf(Flat(shares[..i + 1]))
      {
        ValuesMembers(c, databases[i], t);
      }
    }
  }

  lemma QuotaPerDatabase(c: Candidates, databases: seq<string>, quota: int) returns (shares: seq<seq<Task>>)
    requires Suffices(c, databases, quota)
    ensures SharedOut(c, databases, quota, Selection(c, databases, quota), shares) && SpreadOut(c, databases, shares)
  {
    shares := Blocks(c, databases, quota, |databases|);
    BlocksJoin(c, databases, quota, |databases|);
    IdLeIsTotalPreorder();
    SortedFacts(Joined(c, databases, quota, |databases|), IdLe);
    forall i | 0 <= i < |shares| ensures |shares[i]| == Asked(quota) && FromDatabase(c, databases[i], shares[i]) {
      BlockFacts(c, databases, quota, i);
      SortedPairs(Block(c, databases, quota, i));
    }
    forall i | 0 <= i < |shares| ensures ShareSpread(c, databases[i], shares, i) {
      BlockSpreads(c, databases, quota, i);
    }
  }

  lemma {:induction false} FlatLength(blocks: seq<seq<Task>>, share: nat)
    requires forall i :: 0 <= i < |blocks| ==> |blocks[i]| == share
    ensures |Flat(blocks)| == |blocks| * share
  {
    if blocks != [] {
      var n := |blocks| - 1;
      FlatLength(blocks[..n], share);
      assert |blocks| * share == n * share + share;
    }
  }

  lemma JoinedLength(c: Candidates, databases: seq<string>, quota: int)
    requires Suffices(c, databases, quota)
    ensures |Joined(c, databases, quota, |databases|)| == |databases| * Asked(quota)
  {
    var blocks := Blocks(c, databases, quota, |databases|);
    forall i | 0 <= i < |blocks| ensures |blocks[i]| == Asked(quota) {
      BlockFacts(c, databases, quota, i);
      SortedPairs(Block(c, databases, quota, i));
    }
    FlatLength(blocks, Asked(quota));
    BlocksJoin(c, databases, quota, |databases|);
  }

  // ---------------------------------------------------------------- retrying with what executes

  function Kept(tasks: seq<Task>, gone: set<string>): seq<Task> {
    if tasks == [] then []
    else Kept(tasks[..|tasks| - 1], gone) + if tasks[|tasks| - 1].id in gone then [] else [tasks[|tasks| - 1]]
  }

  function Without(c: Candidates, gone: set<string>): Candidates {
    map d | d in c :: Kept(c[d], gone)
  }

  lemma {:induction false} KeptFacts(tasks: seq<Task>, gone: set<string>)
    ensures |Kept(tasks, gone)| <= |tasks|
    ensures forall t :: t in Kept(tasks, gone) <==> t in tasks && t.id !in gone
    ensures (exists t :: t in tasks && t.id in gone) ==> |Kept(tasks, gone)| < |tasks|
  {
    if tasks != [] {
      KeptFacts(tasks[..|tasks| - 1], gone);
      assert tasks == tasks[..|tasks| - 1] + [tasks[|tasks| - 1]];
    }
  }

  lemma {:induction false} KeptTwice(tasks: seq<Task>, gone: set<string>, more: set<string>)
    ensures Kept(Kept(tasks, gone), more) == Kept(tasks, gone + more)
  {
    if tasks != [] {
      var n := |tasks| - 1;
      KeptTwice(tasks[..n], gone, more);
      var kept := Kept(tasks[..n], gone);
      if tasks[n].id in gone {
        assert Kept(tasks, gone) == kept;
        assert Kept(tasks, gone + more) == Kept(tasks[..n], gone + more);
      } else {
        assert Kept(tasks, gone) == kept + [tasks[n]] && (kept + [tasks[n]])[..|kept|] == kept;
      }
    }
  }

  lemma WithoutTwice(c: Candidates, gone: set<string>, more: set<string>)
    ensures Without(Without(c, gone), more) == Without(c, gone + more)
  {
    forall d | d in c ensures Kept(Kept(c[d], gone), more) == Kept(c[d], gone + more) {
      KeptTwice(c[d], gone, more);
    }
  }

  lemma {:induction false} KeptAll(tasks: seq<Task>)
    ensures Kept(tasks, {}) == tasks
  {
    if tasks != [] {
      KeptAll(tasks[..|tasks| - 1]);
    }
  }

  /** How many tasks are left to choose from. */
  function Pool(c: Candidates, databases: seq<string>): nat {
    if databases == [] then 0
    else (if databases[0] in c then |c[databases[0]]| else 0) + Pool(c, databases[1..])
  }

  lemma {:induction false} PoolShrinks(c: Candidates, databases: seq<string>, gone: set<string>)
    ensures Pool(Without(c, gone), databases) <= Pool(c, databases)
    ensures (exists i: nat, t: Task :: i < |databases| && databases[i] in c && t in c[databases[i]] && t.id in gone) ==>
      Pool(Without(c, gone), databases) < Pool(c, databases)
  {
    if databases != [] {
      PoolShrinks(c, databases[1..], gone);
      if databases[0] in c {
        KeptFacts(c[databases[0]], gone);
      }
      if i: nat, t: Task :| i < |databases| && databases[i] in c && t in c[databases[i]] && t.id in gone {
        if i > 0 {
          assert databases[i] == databases[1..][i - 1];
        }
      }
    }
  }

  /** Every removed id belongs to a candidate that some earlier round could not execute. */
  ghost predicate Failed(c: Candidates, gone: set<string>, executes: (nat, Task) -> bool, rounds: nat) {
    forall id :: id in gone ==> FailedOnce(c, id, executes, rounds)
  }

  ghost predicate FailedOnce(c: Candidates, id: string, executes: (nat, Task) -> bool, rounds: nat) {
    exists round: nat, d: string, t: Task :: round < rounds && d in c && t in c[d] && t.id == id && !executes(round, t)
  }

  ghost predicate AllExecute(tasks: seq<Task>, executes: (nat, Task) -> bool, round: nat) {
    forall t :: t in tasks ==> executes(round, t)
  }

  /** What is selected from part of the candidates is a selection of the candidates. */
  lemma ExecutableFacts(c: Candidates, gone: set<string>, databaseIds: seq<string>, quota: int)
    requires Suffices(Without(c, gone), Sorted(databaseIds, NameLe), quota)
    ensures var s := Selection(Without(c, gone), Sorted(databaseIds, NameLe), quota);
      && |PairsOf(s)| == |s| == |databaseIds| * Asked(quota)
      && exists shares :: SharedOut(c, Sorted(databaseIds, NameLe), quota, s, shares)
                       && SpreadOut(Without(c, gone), Sorted(databaseIds, NameLe), shares)
  {
    var databases, remaining := Sorted(databaseIds, NameLe), Without(c, gone);
    NameLeIsTotalOrder();
    SortedFacts(databaseIds, NameLe);
    SelectionFacts(remaining, databases, quota);
    var shares := QuotaPerDatabase(remaining, databases, quota);
    forall i | 0 <= i < |shares| ensures FromDatabase(c, databases[i], shares[i]) {
      forall t | t in shares[i] ensures databases[i] in c && t in c[databases[i]] {
        assert FromDatabase(remaining, databases[i], shares[i]);
        KeptFacts(c[databases[i]], gone);
      }
    }
    assert SharedOut(c, databases, quota, Selection(remaining, databases, quota), shares);
  }

  method FailedIds(selected: seq<Task>, executes: (nat, Task) -> bool, round: nat) returns (failed: set<string>)
    ensures forall id :: id in failed <==> exists t :: t in selected && t.id == id && !executes(round, t)
  {
    failed := {};
    for i := 0 to |selected|
      invariant forall id :: id in failed <==> exists t :: t in selected[..i] && t.id == id && !executes(round, t)
    {
      assert selected[..i + 1] == selected[..i] + [selected[i]];
      if !executes(round, selected[i]) {
        failed := failed + {selected[i].id};
      }
    }
    assert selected[..|selected|] == selected;
  }

  /** Where a selected entry came from. */
  lemma SelectedFrom(c: Candidates, gone: set<string>, databases: seq<string>, quota: int, t: Task) returns (i: nat)
    requires Suffices(Without(c, gone), databases, quota) && t in Selection(Without(c, gone), databases, quota)
    ensures i < |databases| && databases[i] in c && t in c[databases[i]] && t in Without(c, gone)[databases[i]]
  {
    SelectionFacts(Without(c, gone), databases, quota);
    i :| 0 <= i < |databases| && databases[i] in Without(c, gone) && t in Without(c, gone)[databases[i]];
    KeptFacts(c[databases[i]], gone);
  }

  lemma RemovedFailed(c: Candidates, gone: set<string>, failed: set<string>, selected: seq<Task>, databases: seq<string>, quota: int,
                      executes: (nat, Task) -> bool, round: nat)
    requires Failed(c, gone, executes, round) && Suffices(Without(c, gone), databases, quota)
    requires selected == Selection(Without(c, gone), databases, quota)
    requires forall id :: id in failed <==> exists t :: t in selected && t.id == id && !executes(round, t)
    ensures Failed(c, gone + failed, executes, round + 1)
    ensures failed != {} ==> Pool(Without(c, gone + failed), databases) < Pool(Without(c, gone), databases)
  {
    var remaining := Without(c, gone);
    forall id | id in failed
      ensures FailedOnce(c, id, executes, round + 1)
      ensures exists i: nat, t: Task :: i < |databases| && databases[i] in remaining && t in remaining[databases[i]] && t.id in failed
    {
      var t :| t in selected && t.id == id && !executes(round, t);
      var i := SelectedFrom(c, gone, databases, quota, t);
    }
    forall id | id in gone ensures FailedOnce(c, id, executes, round + 1) {
      assert FailedOnce(c, id, executes, round);
    }
    PoolShrinks(remaining, databases, failed);
    WithoutTwice(c, gone, failed);
  }

  /** Select, execute, and start over without what failed. `executes` tells what the database does
      with a task in a given round; the pool shrinks with every retry, so the loop ends. */
  method SelectExecutableCandidates(c: Candidates, databaseIds: seq<string>, quota: int, executes: (nat, Task) -> bool)
    returns (r: Result<seq<Task>>, ghost gone: set<string>, ghost rounds: nat)
    ensures Failed(c, gone, executes, rounds)
    ensures r.Ok? <==> Suffices(Without(c, gone), Sorted(databaseIds, NameLe), quota)
    ensures r.Ok? ==>
      && r.value == Selection(Without(c, gone), Sorted(databaseIds, NameLe), quota)
      && (forall t :: t in r.value ==> executes(rounds, t))
    ensures r.Ok? ==>
      && |PairsOf(r.value)| == |r.value| == |databaseIds| * Asked(quota)
      && (exists round: nat :: AllExecute(r.value, executes, round))
      && (exists shares :: SharedOut(c, Sorted(databaseIds, NameLe), quota, r.value, shares)
                        && SpreadOut(Without(c, gone), Sorted(databaseIds, NameLe), shares))
  {
    var remaining := c;
    var round := 0;
    gone, rounds := {}, 0;
    forall d | d in c ensures Kept(c[d], {}) == c[d] {
      KeptAll(c[d]);
    }
    assert Without(c, {}) == c;
    while true
      invariant remaining == Without(c, gone) && rounds == round && Failed(c, gone, executes, round)
      decreases Pool(remaining, Sorted(databaseIds, NameLe))
    {
      r := SelectReviewCandidates(remaining, databaseIds, quota);
      if r.Err? {
        return;
      }
      var failed := FailedIds(r.value, executes, round);
      if failed == {} {
        forall t | t in r.value ensures executes(round, t) {
          assert t.id !in failed;
        }
        ExecutableFacts(c, gone, databaseIds, quota);
        assert AllExecute(r.value, executes, round);
        return;
      }
      RemovedFailed(c, gone, failed, r.value, Sorted(databaseIds, NameLe), quota, executes, round);
      WithoutTwice(c, gone, failed);
      remaining := Without(remaining, failed);
      gone, round, rounds := gone + failed, round + 1, rounds + 1;
    }
  }
}
