/** In which order tasks are taken for review. */
module ReviewOrder {
  import opened Domain
  import opened Ordering
  import opened Sorting
  import opened ReviewSelection

  /** Shallow tasks come first, then small ranks, then early positions in the source. */
  predicate Before(u: Task, t: Task) {
    if u.depth != t.depth then u.depth < t.depth
    else if u.rank != t.rank then NameLe(u.rank, t.rank)
    else u.sourceIndex < t.sourceIndex
  }

  /** One of these has the same template and structure. */
  predicate SharesPair(u: Task, tasks: seq<Task>) {
    exists i :: 0 <= i < |tasks| && tasks[i].template == u.template && tasks[i].structure == u.structure
  }

  predicate SharesDepth(u: Task, tasks: seq<Task>) {
    exists i :: 0 <= i < |tasks| && tasks[i].depth == u.depth
  }

  lemma SharesExactly(u: Task, tasks: seq<Task>)
    ensures SharesPair(u, tasks) <==> PairOf(u) in PairsOf(tasks)
    ensures SharesDepth(u, tasks) <==> u.depth in DepthsOf(tasks)
  {
    if SharesPair(u, tasks) {
      var i :| 0 <= i < |tasks| && tasks[i].template == u.template && tasks[i].structure == u.structure;
      assert tasks[i] in tasks;
    }
    if SharesDepth(u, tasks) {
      var i :| 0 <= i < |tasks| && tasks[i].depth == u.depth;
      assert tasks[i] in tasks;
    }
  }

  /** Its pair is used up, or, while new depths are preferred, its depth is there already. */
  predicate Skipped(u: Task, taken: seq<Task>, chosen: seq<Task>, preferNew: bool) {
    SharesPair(u, taken) || SharesPair(u, chosen) || (preferNew && SharesDepth(u, chosen))
  }

  ghost predicate AllSkipped(tasks: seq<Task>, taken: seq<Task>, chosen: seq<Task>, preferNew: bool) {
    forall i :: 0 <= i < |tasks| ==> Skipped(tasks[i], taken, chosen, preferNew)
  }

  /** What stands at place `j` is the first that is not skipped after these. */
  ghost predicate FirstLeft(values: seq<Task>, j: nat, taken: seq<Task>, chosen: seq<Task>, preferNew: bool) {
    j < |values| && !Skipped(values[j], taken, chosen, preferNew) && AllSkipped(values[..j], taken, chosen, preferNew)
  }

  ghost predicate TakenFirst(values: seq<Task>, taken: seq<Task>, chosen: seq<Task>, i: nat, preferNew: bool) {
    i < |chosen| && exists j: nat :: FirstLeft(values, j, taken, chosen[..i], preferNew) && values[j] == chosen[i]
  }

  ghost predicate Tracks(p: Progress, taken: seq<Task>) {
    p.used == PairsOf(taken) + PairsOf(p.chosen) && p.depths == DepthsOf(p.chosen)
  }

  lemma TakenFromPrefix(values: seq<Task>, n: nat, taken: seq<Task>, chosen: seq<Task>, more: seq<Task>, i: nat, preferNew: bool)
    requires n <= |values| && TakenFirst(values[..n], taken, chosen, i, preferNew) && chosen <= more
    ensures TakenFirst(values, taken, more, i, preferNew)
  {
    var j: nat :| FirstLeft(values[..n], j, taken, chosen[..i], preferNew) && values[..n][j] == chosen[i];
    assert values[..n][..j] == values[..j] && more[..i] == chosen[..i];
    assert FirstLeft(values, j, taken, more[..i], preferNew);
  }

  lemma SharesMore(u: Task, tasks: seq<Task>, t: Task)
    ensures SharesPair(u, tasks) ==> SharesPair(u, tasks + [t])
    ensures SharesDepth(u, tasks) ==> SharesDepth(u, tasks + [t])
  {
    if SharesPair(u, tasks) {
      var i :| 0 <= i < |tasks| && tasks[i].template == u.template && tasks[i].structure == u.structure;
      assert (tasks + [t])[i] == tasks[i];
    }
    if SharesDepth(u, tasks) {
      var i :| 0 <= i < |tasks| && tasks[i].depth == u.depth;
      assert (tasks + [t])[i] == tasks[i];
    }
  }

  lemma SkippedOneMore(values: seq<Task>, taken: seq<Task>, chosen: seq<Task>, t: Task, preferNew: bool)
    requires values != [] && AllSkipped(values[..|values| - 1], taken, chosen, preferNew) && t == values[|values| - 1]
    ensures AllSkipped(values, taken, chosen + [t], preferNew)
    ensures Skipped(t, taken, chosen, preferNew) ==> AllSkipped(values, taken, chosen, preferNew)
  {
    forall i | 0 <= i < |values| - 1
      ensures Skipped(values[i], taken, chosen, preferNew) && Skipped(values[i], taken, chosen + [t], preferNew)
    {
      assert values[..|values| - 1][i] == values[i];
      SharesMore(values[i], chosen, t);
    }
    assert (chosen + [t])[|chosen|] == t;
  }

  lemma ConsiderExactly(p: Progress, t: Task, taken: seq<Task>, preferNew: bool, quota: int)
    requires Tracks(p, taken)
    ensures Consider(p, t, preferNew, quota).chosen ==
      if |p.chosen| >= quota || Skipped(t, taken, p.chosen, preferNew) then p.chosen else p.chosen + [t]
    ensures Tracks(Consider(p, t, preferNew, quota), taken)
  {
    OneMore(p.chosen, t);
    SharesExactly(t, taken);
    SharesExactly(t, p.chosen);
    if t in p.chosen { PairIsThere(p.chosen, t); }
  }

  ghost predicate TakenInTurn(values: seq<Task>, taken: seq<Task>, chosen: seq<Task>, start: nat, preferNew: bool) {
    forall i :: start <= i < |chosen| ==> TakenFirst(values, taken, chosen, i, preferNew)
  }

  lemma TakenOneMore(values: seq<Task>, taken: seq<Task>, chosen: seq<Task>, start: nat, preferNew: bool)
    requires values != [] && TakenInTurn(values[..|values| - 1], taken, chosen, start, preferNew)
    ensures TakenInTurn(values, taken, chosen, start, preferNew)
    ensures var t := values[|values| - 1];
      !Skipped(t, taken, chosen, preferNew) && AllSkipped(values[..|values| - 1], taken, chosen, preferNew) ==>
        TakenInTurn(values, taken, chosen + [t], start, preferNew)
  {
    var n := |values| - 1;
    var more := chosen + [values[n]];
    forall i | start <= i < |chosen|
      ensures TakenFirst(values, taken, chosen, i, preferNew) && TakenFirst(values, taken, more, i, preferNew)
    {
      TakenFromPrefix(values, n, taken, chosen, chosen, i, preferNew);
      TakenFromPrefix(values, n, taken, chosen, more, i, preferNew);
    }
    if !Skipped(values[n], taken, chosen, preferNew) && AllSkipped(values[..n], taken, chosen, preferNew) {
      assert more[..|chosen|] == chosen;
      assert FirstLeft(values, n, taken, more[..|chosen|], preferNew) && values[n] == more[|chosen|];
    }
  }

  /** A pass takes, each time, the first task that is not skipped, and stops at the quota or when all are. */
  lemma {:induction false} PassTakesFirst(values: seq<Task>, p: Progress, taken: seq<Task>, preferNew: bool, quota: int)
    requires Tracks(p, taken)
    ensures var q := Pass(values, p, preferNew, quota);
      && Tracks(q, taken) && p.chosen <= q.chosen && TakenInTurn(values, taken, q.chosen, |p.chosen|, preferNew)
      && (|q.chosen| >= quota || AllSkipped(values, taken, q.chosen, preferNew))
  {
    if values != [] {
      var n := |values| - 1;
      PassTakesFirst(values[..n], p, taken, preferNew, quota);
      var q := Pass(values[..n], p, preferNew, quota);
      ConsiderExactly(q, values[n], taken, preferNew, quota);
      TakenOneMore(values, taken, q.chosen, |p.chosen|, preferNew);
      if |q.chosen| < quota { SkippedOneMore(values, taken, q.chosen, values[n], preferNew); }
    }
  }

  /** It is taken before all that come later in the order and are not skipped. */
  ghost predicate Foremost(tasks: seq<Task>, taken: seq<Task>, before: seq<Task>, t: Task, preferNew: bool) {
    && t in tasks && !Skipped(t, taken, before, preferNew)
    && forall u :: u in tasks && Before(u, t) ==> Skipped(u, taken, before, preferNew)
  }

  lemma FirstIsForemost(values: seq<Task>, j: nat, taken: seq<Task>, before: seq<Task>, preferNew: bool)
    requires Ordered(values, TaskLe) && FirstLeft(values, j, taken, before, preferNew)
    ensures Foremost(values, taken, before, values[j], preferNew)
  {
    forall u | u in values && Before(u, values[j]) ensures Skipped(u, taken, before, preferNew) {
      var l :| 0 <= l < |values| && values[l] == u;
      NameLeTotal(u.rank, values[j].rank);
      assert j < l ==> TaskLe(values[j], values[l]);
      assert l < j;
      assert values[..j][l] == u;
    }
  }

  lemma TakenIsForemost(c: Candidates, database: string, taken: seq<Task>, chosen: seq<Task>, i: nat, preferNew: bool)
    requires TakenFirst(Values(c, database), taken, chosen, i, preferNew)
    ensures Foremost(Listed(c, database), taken, chosen[..i], chosen[i], preferNew)
  {
    var values := Values(c, database);
    TaskLeIsTotalPreorder();
    SortedFacts(Listed(c, database), TaskLe);
    var j: nat :| FirstLeft(values, j, taken, chosen[..i], preferNew) && values[j] == chosen[i];
    FirstIsForemost(values, j, taken, chosen[..i], preferNew);
    forall t ensures t in values <==> t in Listed(c, database) { ValuesMembers(c, database, t); }
  }

  function Listed(c: Candidates, database: string): seq<Task> {
    if database in c then c[database] else []
  }

  lemma SkippedAreListed(c: Candidates, database: string, taken: seq<Task>, chosen: seq<Task>, preferNew: bool)
    requires AllSkipped(Values(c, database), taken, chosen, preferNew)
    ensures AllSkipped(Listed(c, database), taken, chosen, preferNew)
  {
    forall i | 0 <= i < |Listed(c, database)| ensures Skipped(Listed(c, database)[i], taken, chosen, preferNew) {
      ValuesMembers(c, database, Listed(c, database)[i]);
      var j :| 0 <= j < |Values(c, database)| && Values(c, database)[j] == Listed(c, database)[i];
    }
  }

  /** Of the candidates of a database the foremost is taken, time and again: first only with new depths, until there is
      none left or the quota is met; then with any depth, until the quota is met or every pair is used up. */
  ghost predicate TakenGreedily(tasks: seq<Task>, taken: seq<Task>, quota: int, chosen: seq<Task>, k: nat) {
    && k <= |chosen|
    && ForemostFrom(tasks, taken, chosen, 0, k, true)
    && (k >= quota || AllSkipped(tasks, taken, chosen[..k], true))
    && ForemostFrom(tasks, taken, chosen, k, |chosen|, false)
    && (|chosen| >= quota || AllSkipped(tasks, taken, chosen, false))
  }

  /** From `start` on each was foremost when taken. */
  ghost predicate ForemostFrom(tasks: seq<Task>, taken: seq<Task>, chosen: seq<Task>, start: nat, stop: nat, preferNew: bool)
    requires stop <= |chosen|
  {
    forall i :: start <= i < stop ==> Foremost(tasks, taken, chosen[..i], chosen[i], preferNew)
  }

  lemma TurnIsForemost(c: Candidates, database: string, taken: seq<Task>, chosen: seq<Task>, start: nat, preferNew: bool)
    requires TakenInTurn(Values(c, database), taken, chosen, start, preferNew)
    ensures ForemostFrom(Listed(c, database), taken, chosen, start, |chosen|, preferNew)
  {
    forall i | start <= i < |chosen| ensures Foremost(Listed(c, database), taken, chosen[..i], chosen[i], preferNew) {
      TakenIsForemost(c, database, taken, chosen, i, preferNew);
    }
  }

  lemma ForemostInLonger(tasks: seq<Task>, taken: seq<Task>, first: seq<Task>, chosen: seq<Task>, preferNew: bool)
    requires first <= chosen && ForemostFrom(tasks, taken, first, 0, |first|, preferNew)
    ensures ForemostFrom(tasks, taken, chosen, 0, |first|, preferNew)
  {
    forall i | 0 <= i < |first| ensures Foremost(tasks, taken, chosen[..i], chosen[i], preferNew) {
      assert chosen[..i] == first[..i] && chosen[i] == first[i];
    }
  }

  lemma BothPasses(c: Candidates, database: string, taken: seq<Task>, start: Progress, first: Progress, last: Progress, quota: int)
    requires Tracks(start, taken) && start.chosen == []
    requires first == Pass(Values(c, database), start, true, quota) && last == Pass(Values(c, database), first, false, quota)
    ensures TakenGreedily(Listed(c, database), taken, quota, last.chosen, |first.chosen|)
  {
    PassTakesFirst(Values(c, database), start, taken, true, quota);
    PassTakesFirst(Values(c, database), first, taken, false, quota);
    TurnIsForemost(c, database, taken, first.chosen, 0, true);
    TurnIsForemost(c, database, taken, last.chosen, |first.chosen|, false);
    ForemostInLonger(Listed(c, database), taken, first.chosen, last.chosen, true);
    assert last.chosen[..|first.chosen|] == first.chosen;
    if |first.chosen| < quota { SkippedAreListed(c, database, taken, first.chosen, true); }
    if |last.chosen| < quota { SkippedAreListed(c, database, taken, last.chosen, false); }
  }

  lemma ChosenGreedily(c: Candidates, databases: seq<string>, quota: int, i: nat) returns (k: nat)
    requires i < |databases|
    ensures TakenGreedily(Listed(c, databases[i]), Joined(c, databases, quota, i), quota, Block(c, databases, quota, i), k)
  {
    var start := Progress([], {}, UsedAfter(c, databases, quota, i));
    JoinedPairs(c, databases, quota, i);
    var first := Pass(Values(c, databases[i]), start, true, quota);
    BothPasses(c, databases[i], Joined(c, databases, quota, i), start, first, Pass(Values(c, databases[i]), first, false, quota), quota);
    k := |first.chosen|;
  }

  ghost predicate ListedById(tasks: seq<Task>) {
    forall i, j :: 0 <= i < j < |tasks| ==> NameLe(tasks[i].id, tasks[j].id)
  }

  /** The databases are served in the order of their names, and the selection is listed by task id. */
  lemma SelectionInOrder(c: Candidates, databaseIds: seq<string>, quota: int)
    ensures multiset(Sorted(databaseIds, NameLe)) == multiset(databaseIds) && Ordered(Sorted(databaseIds, NameLe), NameLe)
    ensures ListedById(Selection(c, Sorted(databaseIds, NameLe), quota))
  {
    NameLeIsTotalOrder();
    SortedFacts(databaseIds, NameLe);
    IdLeIsTotalPreorder();
    SortedFacts(Joined(c, Sorted(databaseIds, NameLe), quota, |databaseIds|), IdLe);
  }
}
