/** Evaluating a query join by join, in the order in which it is written, gives exactly its result rows. */
module LeftSteps {
  import opened Domain
  import opened Relational
  import opened Bijections
  import opened SqlGraph
  import opened SqlSafety
  import opened LeftJoins

  /** The instances stand in an order in which the query can be written: what is left joined to something comes after it. */
  ghost predicate Writes(edges: seq<NormalizedEdge>, order: seq<string>) {
    Distinct(order) && forall k, p :: 0 <= k < |order| && Below(edges, p, order[k]) ==> p in order[..k]
  }

  /** A condition other than a left join's that can be checked once `n` has joined the instances before it. */
  predicate DueAt(edges: seq<NormalizedEdge>, before: set<string>, n: string, i: nat) {
    && i < |edges| && edges[i].kind != LeftOuter
    && ((edges[i].leftRef == n && edges[i].rightRef in before) || (edges[i].rightRef == n && edges[i].leftRef in before))
  }

  /** One join: a row of `n` that satisfies what it is left joined on is put beside the row so far; a left join
      that finds none leaves `n` out; and the conditions due must be true. */
  ghost predicate JoinStep(db: Database, entities: map<string, string>, edges: seq<NormalizedEdge>, before: set<string>, n: string,
                           prev: map<string, nat>, row: map<string, nat>)
    requires n in entities
  {
    && (if n in row then row == prev[n := row[n]] && row[n] < |TableOf(db, entities[n])| && JoinedOn(db, entities, edges, n, row)
        else row == prev && Unfilled(db, entities, edges, n, prev))
    && forall i: nat :: DueAt(edges, before, n, i) ==> SqlEdgeHolds(db, entities, edges[i], row)
  }

  /** The rows after joining the instances of `order` one after the other. */
  ghost predicate Evaluated(db: Database, entities: map<string, string>, edges: seq<NormalizedEdge>, order: seq<string>, row: map<string, nat>)
    requires Elements(order) <= entities.Keys
  {
    if order == [] then row == map[]
    else
      var before, n := order[..|order| - 1], order[|order| - 1];
      assert n in Elements(order) && forall m :: m in Elements(before) ==> m in Elements(order);
      exists prev :: Evaluated(db, entities, edges, before, prev) && JoinStep(db, entities, edges, Elements(before), n, prev, row)
  }

  /** A result row as far as these instances go. */
  ghost predicate ResultAmong(db: Database, entities: map<string, string>, edges: seq<NormalizedEdge>, names: set<string>, row: map<string, nat>)
    requires names <= entities.Keys
  {
    && row.Keys <= names
    && (forall n :: n in row ==> row[n] < |TableOf(db, entities[n])|)
    && (forall i: nat :: DueAmong(edges, names, i) ==> SqlEdgeHolds(db, entities, edges[i], row))
    && (forall n :: n in row ==> JoinedOn(db, entities, edges, n, row))
    && (forall n :: n in names && n !in row ==> Unfilled(db, entities, edges, n, row))
  }

  predicate DueAmong(edges: seq<NormalizedEdge>, names: set<string>, i: nat) {
    i < |edges| && edges[i].kind != LeftOuter && edges[i].leftRef in names && edges[i].rightRef in names
  }

  /** An edge looks only at its two ends. */
  lemma SameEnds(db: Database, entities: map<string, string>, e: NormalizedEdge, row: map<string, nat>, other: map<string, nat>)
    requires (e.leftRef in row <==> e.leftRef in other) && (e.rightRef in row <==> e.rightRef in other)
    requires e.leftRef in row && e.leftRef in other ==> row[e.leftRef] == other[e.leftRef]
    requires e.rightRef in row && e.rightRef in other ==> row[e.rightRef] == other[e.rightRef]
    ensures SqlEdgeHolds(db, entities, e, row) <==> SqlEdgeHolds(db, entities, e, other)
  {
  }

  /** Everything that `m` is left joined to is among these instances. */
  ghost predicate Inside(edges: seq<NormalizedEdge>, names: set<string>, m: string) {
    forall p :: Below(edges, p, m) ==> p in names
  }

  ghost predicate SameOn(names: set<string>, row: map<string, nat>, other: map<string, nat>) {
    forall n :: n in names ==> (n in row <==> n in other) && (n in row && n in other ==> row[n] == other[n])
  }

  lemma JoinedOnTheSame(db: Database, entities: map<string, string>, edges: seq<NormalizedEdge>, names: set<string>, m: string,
                        row: map<string, nat>, other: map<string, nat>)
    requires m in names && Inside(edges, names, m) && SameOn(names, row, other)
    ensures JoinedOn(db, entities, edges, m, row) <==> JoinedOn(db, entities, edges, m, other)
  {
    forall i: nat | FillsIn(edges, i, m) ensures SqlEdgeHolds(db, entities, edges[i], row) <==> SqlEdgeHolds(db, entities, edges[i], other) {
      assert Below(edges, edges[i].leftRef, m);
      SameEnds(db, entities, edges[i], row, other);
    }
  }

  lemma UnfilledTheSame(db: Database, entities: map<string, string>, edges: seq<NormalizedEdge>, names: set<string>, m: string,
                        row: map<string, nat>, other: map<string, nat>)
    requires m in names && m in entities && Inside(edges, names, m) && SameOn(names, row, other)
    ensures Unfilled(db, entities, edges, m, row) <==> Unfilled(db, entities, edges, m, other)
  {
    forall j: nat ensures WouldDo(db, entities, edges, m, row, j) <==> WouldDo(db, entities, edges, m, other, j) {
      JoinedOnTheSame(db, entities, edges, names, m, row[m := j], other[m := j]);
    }
  }

  // ---------------------------------------------------------------- one join

  predicate NoLoops(edges: seq<NormalizedEdge>) {
    forall i :: 0 <= i < |edges| ==> edges[i].leftRef != edges[i].rightRef
  }

  /** Everything left joined to is joined before, for `n` and for what stands before it. */
  ghost predicate Ready(edges: seq<NormalizedEdge>, names: set<string>, n: string) {
    NoLoops(edges) && n !in names && Inside(edges, names, n) && forall m :: m in names ==> Inside(edges, names, m)
  }

  ghost predicate TablesHave(db: Database, entities: map<string, string>, row: map<string, nat>) {
    forall n :: n in row ==> n in entities && row[n] < |TableOf(db, entities[n])|
  }

  /** What a result row promises of the instances `names`, whatever else the row holds. */
  ghost predicate Settled(db: Database, entities: map<string, string>, edges: seq<NormalizedEdge>, names: set<string>, row: map<string, nat>)
    requires names <= entities.Keys
  {
    && (forall n :: n in names && n in row ==> JoinedOn(db, entities, edges, n, row))
    && (forall n :: n in names && n !in row ==> Unfilled(db, entities, edges, n, row))
  }

  ghost predicate AllDue(db: Database, entities: map<string, string>, edges: seq<NormalizedEdge>, names: set<string>, row: map<string, nat>) {
    forall i: nat :: DueAmong(edges, names, i) ==> SqlEdgeHolds(db, entities, edges[i], row)
  }

  lemma AmongByParts(db: Database, entities: map<string, string>, edges: seq<NormalizedEdge>, names: set<string>, row: map<string, nat>)
    requires names <= entities.Keys
    ensures ResultAmong(db, entities, edges, names, row) <==>
      row.Keys <= names && TablesHave(db, entities, row) && AllDue(db, entities, edges, names, row) && Settled(db, entities, edges, names, row)
  {
  }

  lemma SettledTheSame(db: Database, entities: map<string, string>, edges: seq<NormalizedEdge>, names: set<string>, row: map<string, nat>, other: map<string, nat>)
    requires names <= entities.Keys && SameOn(names, row, other) && forall m :: m in names ==> Inside(edges, names, m)
    ensures Settled(db, entities, edges, names, row) <==> Settled(db, entities, edges, names, other)
  {
    forall m | m in names
      ensures JoinedOn(db, entities, edges, m, row) <==> JoinedOn(db, entities, edges, m, other)
      ensures Unfilled(db, entities, edges, m, row) <==> Unfilled(db, entities, edges, m, other)
    {
      JoinedOnTheSame(db, entities, edges, names, m, row, other);
      UnfilledTheSame(db, entities, edges, names, m, row, other);
    }
  }

  lemma DueTheSame(db: Database, entities: map<string, string>, edges: seq<NormalizedEdge>, names: set<string>, row: map<string, nat>, other: map<string, nat>)
    requires SameOn(names, row, other)
    ensures AllDue(db, entities, edges, names, row) <==> AllDue(db, entities, edges, names, other)
  {
    forall i: nat | DueAmong(edges, names, i) ensures SqlEdgeHolds(db, entities, edges[i], row) <==> SqlEdgeHolds(db, entities, edges[i], other) {
      SameEnds(db, entities, edges[i], row, other);
    }
  }

  /** Once `n` has joined, the conditions due are those due before and those due now. */
  lemma DueWithOneMore(db: Database, entities: map<string, string>, edges: seq<NormalizedEdge>, names: set<string>, n: string, row: map<string, nat>)
    requires NoLoops(edges) && n !in names
    ensures AllDue(db, entities, edges, names + {n}, row) <==>
      AllDue(db, entities, edges, names, row) && forall i: nat :: DueAt(edges, names, n, i) ==> SqlEdgeHolds(db, entities, edges[i], row)
  {
    forall i: nat ensures DueAmong(edges, names + {n}, i) <==> DueAmong(edges, names, i) || DueAt(edges, names, n, i) {}
  }

  lemma SettledWithOneMore(db: Database, entities: map<string, string>, edges: seq<NormalizedEdge>, names: set<string>, n: string, row: map<string, nat>)
    requires names <= entities.Keys && n in entities
    ensures Settled(db, entities, edges, names + {n}, row) <==>
      && Settled(db, entities, edges, names, row)
      && if n in row then JoinedOn(db, entities, edges, n, row) else Unfilled(db, entities, edges, n, row)
  {
    assert n in names + {n};
  }

  /** The row without its row of `n`. */
  function Without(row: map<string, nat>, n: string): map<string, nat> {
    map m | m in row && m != n :: row[m]
  }

  lemma StepBack(db: Database, entities: map<string, string>, edges: seq<NormalizedEdge>, names: set<string>, n: string, row: map<string, nat>)
    requires names <= entities.Keys && n in entities && Ready(edges, names, n)
    requires ResultAmong(db, entities, edges, names + {n}, row)
    ensures ResultAmong(db, entities, edges, names, Without(row, n)) && JoinStep(db, entities, edges, names, n, Without(row, n), row)
  {
    var prev := Without(row, n);
    AmongByParts(db, entities, edges, names + {n}, row);
    AmongByParts(db, entities, edges, names, prev);
    assert SameOn(names, row, prev);
    SettledTheSame(db, entities, edges, names, row, prev);
    DueTheSame(db, entities, edges, names, row, prev);
    DueWithOneMore(db, entities, edges, names, n, row);
    SettledWithOneMore(db, entities, edges, names, n, row);
    if n in row { assert row == prev[n := row[n]]; } else { assert row == prev; }
  }

  lemma StepOn(db: Database, entities: map<string, string>, edges: seq<NormalizedEdge>, names: set<string>, n: string,
               prev: map<string, nat>, row: map<string, nat>)
    requires names <= entities.Keys && n in entities && Ready(edges, names, n)
    requires ResultAmong(db, entities, edges, names, prev) && JoinStep(db, entities, edges, names, n, prev, row)
    ensures ResultAmong(db, entities, edges, names + {n}, row)
  {
    AmongByParts(db, entities, edges, names + {n}, row);
    AmongByParts(db, entities, edges, names, prev);
    assert SameOn(names, row, prev);
    SettledTheSame(db, entities, edges, names, row, prev);
    DueTheSame(db, entities, edges, names, row, prev);
    DueWithOneMore(db, entities, edges, names, n, row);
    SettledWithOneMore(db, entities, edges, names, n, row);
  }

  // ---------------------------------------------------------------- all joins

  lemma WritesShorter(edges: seq<NormalizedEdge>, order: seq<string>)
    requires Writes(edges, order) && NoLoops(edges) && order != []
    ensures var n := |order| - 1;
      Writes(edges, order[..n]) && Ready(edges, Elements(order[..n]), order[n]) && Elements(order) == Elements(order[..n]) + {order[n]}
  {
    var n := |order| - 1;
    var before := order[..n];
    forall k, p | 0 <= k < n && Below(edges, p, before[k]) ensures p in before[..k] {
      assert before[..k] == order[..k] && before[k] == order[k];
    }
    forall m | m in Elements(before) ensures Inside(edges, Elements(before), m) {
      var k :| 0 <= k < n && before[k] == m;
      forall p | Below(edges, p, m) ensures p in Elements(before) {
        assert p in order[..k];
        assert order[..k] <= before;
      }
    }
    assert order == before + [order[n]];
  }

  lemma {:induction false} EvaluatedExactly(db: Database, entities: map<string, string>, edges: seq<NormalizedEdge>, order: seq<string>, row: map<string, nat>)
    requires Elements(order) <= entities.Keys && Writes(edges, order) && NoLoops(edges)
    ensures Evaluated(db, entities, edges, order, row) <==> ResultAmong(db, entities, edges, Elements(order), row)
    decreases |order|
  {
    if order != [] {
      var before, n := order[..|order| - 1], order[|order| - 1];
      WritesShorter(edges, order);
      if Evaluated(db, entities, edges, order, row) {
        var prev :| Evaluated(db, entities, edges, before, prev) && JoinStep(db, entities, edges, Elements(before), n, prev, row);
        EvaluatedExactly(db, entities, edges, before, prev);
        StepOn(db, entities, edges, Elements(before), n, prev, row);
      }
      if ResultAmong(db, entities, edges, Elements(order), row) {
        StepBack(db, entities, edges, Elements(before), n, row);
        EvaluatedExactly(db, entities, edges, before, Without(row, n));
      }
    }
  }

  /** Written in any order in which what an instance is left joined to comes before it, the query has exactly
      its result rows: each row of the evaluation, join by join, is one and there is no other. */
  lemma EvaluationIsResult(db: Database, entities: map<string, string>, edges: seq<NormalizedEdge>, order: seq<string>, row: map<string, nat>)
    requires Writes(edges, order) && Elements(order) == entities.Keys && NoLoops(edges)
    requires forall i :: 0 <= i < |edges| ==> edges[i].leftRef in entities && edges[i].rightRef in entities
    ensures Evaluated(db, entities, edges, order, row) <==> ResultRow(db, entities, edges, row)
  {
    EvaluatedExactly(db, entities, edges, order, row);
    forall i: nat ensures DueAmong(edges, entities.Keys, i) <==> i < |edges| && edges[i].kind != LeftOuter {}
  }
}
