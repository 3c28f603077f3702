/** The rows of a query with left joins: which instances are always there, and which follow from the grain. */
module LeftJoins {
  import opened Domain
  import opened Relational
  import opened Evidence
  import opened Bijections
  import opened GrainWalk
  import opened JoinSafety
  import opened SqlGraph
  import opened SqlMatching
  import opened SqlValidation
  import opened SqlSafety

  // ---------------------------------------------------------------- result rows

  /** The left join at place `i` puts `n` beside the rows of its left instance. */
  predicate FillsIn(edges: seq<NormalizedEdge>, i: nat, n: string) {
    i < |edges| && edges[i].kind == LeftOuter && edges[i].rightRef == n
  }

  /** The row satisfies everything that `n` is left joined on. */
  ghost predicate JoinedOn(db: Database, entities: map<string, string>, edges: seq<NormalizedEdge>, n: string, row: map<string, nat>) {
    forall i: nat :: FillsIn(edges, i, n) ==> SqlEdgeHolds(db, entities, edges[i], row)
  }

  /** Row `j` would do for `n` here. */
  ghost predicate WouldDo(db: Database, entities: map<string, string>, edges: seq<NormalizedEdge>, n: string, row: map<string, nat>, j: nat) {
    JoinedOn(db, entities, edges, n, row[n := j])
  }

  /** A row of the query's result gives each instance a row of its table, or none. Every other join condition is
      true of it; a left joined instance is there with what it is joined on, and is missing only where no row of
      its table would do. */
  ghost predicate ResultRow(db: Database, entities: map<string, string>, edges: seq<NormalizedEdge>, row: map<string, nat>) {
    && row.Keys <= entities.Keys
    && (forall n :: n in row ==> row[n] < |TableOf(db, entities[n])|)
    && (forall i :: 0 <= i < |edges| && edges[i].kind != LeftOuter ==> SqlEdgeHolds(db, entities, edges[i], row))
    && (forall n :: n in row ==> JoinedOn(db, entities, edges, n, row))
    && (forall n :: n in entities && n !in row ==> Unfilled(db, entities, edges, n, row))
  }

  ghost predicate Unfilled(db: Database, entities: map<string, string>, edges: seq<NormalizedEdge>, n: string, row: map<string, nat>)
    requires n in entities
  {
    && (exists i: nat :: FillsIn(edges, i, n))
    && forall j: nat :: j < |TableOf(db, entities[n])| ==> !WouldDo(db, entities, edges, n, row, j)
  }

  // ---------------------------------------------------------------- which instances are always there

  ghost predicate Optional(edges: seq<NormalizedEdge>, n: string) {
    exists i: nat :: FillsIn(edges, i, n)
  }

  /** Some condition other than a left join's names the instance. */
  ghost predicate Touched(edges: seq<NormalizedEdge>, n: string) {
    exists i :: 0 <= i < |edges| && edges[i].kind != LeftOuter && (edges[i].leftRef == n || edges[i].rightRef == n)
  }

  /** A left join leads from `p` to `n`. */
  ghost predicate Below(edges: seq<NormalizedEdge>, p: string, n: string) {
    exists i: nat :: FillsIn(edges, i, n) && edges[i].leftRef == p
  }

  /** Left joins lead along the chain. */
  ghost predicate Chain(edges: seq<NormalizedEdge>, w: seq<string>) {
    w != [] && forall k :: 0 <= k < |w| - 1 ==> Below(edges, w[k], w[k + 1])
  }

  /** Not left joined at all, or followed by left joins to an instance that another condition names. */
  ghost predicate AlwaysThere(edges: seq<NormalizedEdge>, n: string) {
    !Optional(edges, n) || exists w :: Chain(edges, w) && w[0] == n && Touched(edges, w[|w| - 1])
  }

  lemma TouchedIsThere(db: Database, entities: map<string, string>, edges: seq<NormalizedEdge>, n: string, row: map<string, nat>)
    requires ResultRow(db, entities, edges, row) && Touched(edges, n)
    ensures n in row
  {
    var i :| 0 <= i < |edges| && edges[i].kind != LeftOuter && (edges[i].leftRef == n || edges[i].rightRef == n);
    assert SqlEdgeHolds(db, entities, edges[i], row);
  }

  lemma {:induction false} ChainIsThere(db: Database, entities: map<string, string>, edges: seq<NormalizedEdge>, w: seq<string>, row: map<string, nat>)
    requires ResultRow(db, entities, edges, row) && Chain(edges, w) && Touched(edges, w[|w| - 1])
    ensures w[0] in row
    decreases |w|
  {
    if |w| == 1 {
      TouchedIsThere(db, entities, edges, w[0], row);
    } else {
      ChainTail(edges, w);
      ChainIsThere(db, entities, edges, w[1..], row);
      assert Below(edges, w[0], w[0 + 1]);
      var i: nat :| FillsIn(edges, i, w[1]) && edges[i].leftRef == w[0];
      assert JoinedOn(db, entities, edges, w[1], row);
    }
  }

  lemma ChainTail(edges: seq<NormalizedEdge>, w: seq<string>)
    requires Chain(edges, w) && |w| > 1
    ensures Chain(edges, w[1..])
  {
    forall k | 0 <= k < |w[1..]| - 1 ensures Below(edges, w[1..][k], w[1..][k + 1]) {
      assert Below(edges, w[k + 1], w[k + 1 + 1]);
    }
  }

  /** On every database such an instance is in every row of the result. */
  lemma AlwaysThereIsThere(db: Database, entities: map<string, string>, edges: seq<NormalizedEdge>, n: string, row: map<string, nat>)
    requires ResultRow(db, entities, edges, row) && n in entities && AlwaysThere(edges, n)
    ensures n in row
  {
    if n !in row {
      assert Unfilled(db, entities, edges, n, row);
      var w :| Chain(edges, w) && w[0] == n && Touched(edges, w[|w| - 1]);
      ChainIsThere(db, entities, edges, w, row);
    }
  }

  /** What stands above an instance that is always there is always there. */
  lemma AboveIsThere(edges: seq<NormalizedEdge>, p: string, n: string)
    requires Below(edges, p, n) && AlwaysThere(edges, n)
    ensures AlwaysThere(edges, p)
  {
    var i: nat :| FillsIn(edges, i, n) && edges[i].leftRef == p;
    var w :| Chain(edges, w) && w[0] == n && Touched(edges, w[|w| - 1]);
    var longer := [p] + w;
    forall k | 0 <= k < |longer| - 1 ensures Below(edges, longer[k], longer[k + 1]) {
      if k > 0 { assert Below(edges, w[k - 1], w[k - 1 + 1]); }
    }
    assert Chain(edges, longer) && longer[|longer| - 1] == w[|w| - 1];
  }

  lemma TouchedAlways(edges: seq<NormalizedEdge>, n: string)
    requires Touched(edges, n)
    ensures AlwaysThere(edges, n)
  {
    assert Chain(edges, [n]) && [n][0] == n;
  }

  /** The instances that validation refuses as optional are those that some left join fills in. */
  lemma RefusedExactly(edges: seq<NormalizedEdge>, current: seq<Authorized>, n: string)
    requires Unmatched(edges, current) == 0
    ensures n in NullableRefs(AllMatched(edges, current)) <==> Optional(edges, n)
  {
    var matched := AllMatched(edges, current);
    AllMatchedFacts(edges, current);
    if n in NullableRefs(matched) {
      var e :| e in matched && e.normalized.kind == LeftOuter && e.normalized.rightRef == n;
      var i :| 0 <= i < |matched| && matched[i] == e;
      assert FillsIn(edges, i, n);
    }
    if Optional(edges, n) {
      var i: nat :| FillsIn(edges, i, n);
      assert matched[i] in matched;
    }
  }

  /** An instance that validation accepts is in every row of the result, on every database. */
  lemma AcceptedIsThere(db: Database, entities: map<string, string>, edges: seq<NormalizedEdge>, current: seq<Authorized>, k: string, row: map<string, nat>)
    requires Unmatched(edges, current) == 0 && GrainOk(k, AllMatched(edges, current)) && k in entities
    requires ResultRow(db, entities, edges, row)
    ensures k in row
  {
    RefusedExactly(edges, current, k);
    AlwaysThereIsThere(db, entities, edges, k, row);
  }

  /** Without left joins the rows of the result are those of the inner join. */
  lemma InnerResult(db: Database, entities: map<string, string>, edges: seq<NormalizedEdge>, row: map<string, nat>)
    requires forall i :: 0 <= i < |edges| ==> edges[i].kind != LeftOuter
    ensures ResultRow(db, entities, edges, row) <==> SqlJoinRow(db, entities, edges, row)
  {
    if ResultRow(db, entities, edges, row) {
      forall n | n in entities ensures n in row {
        AlwaysThereIsThere(db, entities, edges, n, row);
      }
    }
  }
}
