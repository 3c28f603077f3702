/** Two ways of writing one query with left joins give the same result under other names. */
module RenamedResults {
  import opened Domain
  import opened Relational
  import opened Bijections
  import opened JoinSafety
  import opened Planner
  import opened SqlGraph
  import opened InstanceGroups
  import opened SqlCanonical
  import opened SqlMatching
  import opened SqlSafety
  import opened RenamedRows
  import opened LeftJoins
  import opened LeftRows
  import opened LeftProof

  // ---------------------------------------------------------------- edges

  /** A row over the new names, which may lack some, read under the old ones. */
  function PartUnder(f: map<string, string>, row: map<string, nat>): map<string, nat> {
    map n | n in f && f[n] in row :: row[f[n]]
  }

  /** A left join is written one way only, so both edges of a pair that says the same fill in the same instance. */
  lemma SaysTheSameFilling(f: map<string, string>, e: NormalizedEdge, d: NormalizedEdge)
    requires Says(f, e, d)
    ensures e.kind == d.kind
    ensures e.kind != Inner ==> d.leftRef == At(f, e.leftRef) && d.rightRef == At(f, e.rightRef)
  {
    if e.kind != Inner {
      var view := (At(f, e.leftRef), At(f, e.rightRef), multiset(e.pairs));
      assert view in ReadingOf(d).views;
    }
  }

  lemma EdgeReadUnder(db: Database, f: map<string, string>, from: map<string, string>, to: map<string, string>,
                      e: NormalizedEdge, d: NormalizedEdge, row: map<string, nat>)
    requires SameEntitiesUnder(f, from, to) && e.leftRef in f && e.rightRef in f && Says(f, e, d)
    ensures SqlEdgeHolds(db, to, d, row) <==> SqlEdgeHolds(db, from, e, PartUnder(f, row))
  {
    RenamedUnder(db, f, from, to, e, row);
    if SqlEdgeHolds(db, to, d, row) { SaysTheSame(db, to, d, Rename(e, f), row); }
    if SqlEdgeHolds(db, to, Rename(e, f), row) { SaysTheSame(db, to, Rename(e, f), d, row); }
  }

  lemma RenamedUnder(db: Database, f: map<string, string>, from: map<string, string>, to: map<string, string>, e: NormalizedEdge, row: map<string, nat>)
    requires SameEntitiesUnder(f, from, to) && e.leftRef in f && e.rightRef in f
    ensures SqlEdgeHolds(db, to, Rename(e, f), row) <==> SqlEdgeHolds(db, from, e, PartUnder(f, row))
  {
  }

  /** The two queries, one written with other names. */
  ghost predicate Alike(f: map<string, string>, from: map<string, string>, to: map<string, string>, g: seq<NormalizedEdge>, h: seq<NormalizedEdge>) {
    SameEntitiesUnder(f, from, to) && EndsIn(g, f) && SameEdges(f, g, h)
  }

  lemma FillsBoth(f: map<string, string>, e: NormalizedEdge, d: NormalizedEdge, n: string)
    requires Says(f, e, d) && Injective(f) && n in f && e.rightRef in f
    ensures e.kind == LeftOuter && e.rightRef == n <==> d.kind == LeftOuter && d.rightRef == f[n]
  {
    SaysTheSameFilling(f, e, d);
  }

  lemma JoinedOnUnder(db: Database, f: map<string, string>, from: map<string, string>, to: map<string, string>,
                      g: seq<NormalizedEdge>, h: seq<NormalizedEdge>, n: string, row: map<string, nat>)
    requires Alike(f, from, to, g, h) && n in f
    ensures JoinedOn(db, to, h, f[n], row) <==> JoinedOn(db, from, g, n, PartUnder(f, row))
  {
    if JoinedOn(db, to, h, f[n], row) {
      forall i: nat | FillsIn(g, i, n) ensures SqlEdgeHolds(db, from, g[i], PartUnder(f, row)) {
        var j := SaidOn(f, g, h, i);
        FillsBoth(f, g[i], h[j], n);
        assert FillsIn(h, j, f[n]);
        EdgeReadUnder(db, f, from, to, g[i], h[j], row);
      }
    }
    if JoinedOn(db, from, g, n, PartUnder(f, row)) {
      forall j: nat | FillsIn(h, j, f[n]) ensures SqlEdgeHolds(db, to, h[j], row) {
        var i := SaidBack(f, g, h, j);
        FillsBoth(f, g[i], h[j], n);
        assert FillsIn(g, i, n);
        EdgeReadUnder(db, f, from, to, g[i], h[j], row);
      }
    }
  }

  lemma OptionalUnder(f: map<string, string>, from: map<string, string>, to: map<string, string>, g: seq<NormalizedEdge>, h: seq<NormalizedEdge>, n: string)
    requires Alike(f, from, to, g, h) && n in f
    ensures Optional(h, f[n]) <==> Optional(g, n)
  {
    if Optional(h, f[n]) {
      var j: nat :| FillsIn(h, j, f[n]);
      var i := SaidBack(f, g, h, j);
      FillsBoth(f, g[i], h[j], n);
      assert FillsIn(g, i, n);
    }
    if Optional(g, n) {
      var i: nat :| FillsIn(g, i, n);
      var j := SaidOn(f, g, h, i);
      FillsBoth(f, g[i], h[j], n);
      assert FillsIn(h, j, f[n]);
    }
  }

  lemma FilledUnder(f: map<string, string>, row: map<string, nat>, n: string, j: nat)
    requires Injective(f) && n in f
    ensures PartUnder(f, row[f[n] := j]) == PartUnder(f, row)[n := j]
  {
  }

  lemma WouldDoUnder(db: Database, f: map<string, string>, from: map<string, string>, to: map<string, string>,
                     g: seq<NormalizedEdge>, h: seq<NormalizedEdge>, n: string, row: map<string, nat>, j: nat)
    requires Alike(f, from, to, g, h) && n in f
    ensures WouldDo(db, to, h, f[n], row, j) <==> WouldDo(db, from, g, n, PartUnder(f, row), j)
  {
    JoinedOnUnder(db, f, from, to, g, h, n, row[f[n] := j]);
    FilledUnder(f, row, n, j);
  }

  lemma UnfilledUnder(db: Database, f: map<string, string>, from: map<string, string>, to: map<string, string>,
                      g: seq<NormalizedEdge>, h: seq<NormalizedEdge>, n: string, row: map<string, nat>)
    requires Alike(f, from, to, g, h) && n in f && f[n] in to && n in from
    ensures Unfilled(db, to, h, f[n], row) <==> Unfilled(db, from, g, n, PartUnder(f, row))
  {
    OptionalUnder(f, from, to, g, h, n);
    forall j: nat ensures WouldDo(db, to, h, f[n], row, j) <==> WouldDo(db, from, g, n, PartUnder(f, row), j) {
      WouldDoUnder(db, f, from, to, g, h, n, row, j);
    }
  }

  // ---------------------------------------------------------------- rows

  ghost predicate OtherJoinsHold(db: Database, entities: map<string, string>, edges: seq<NormalizedEdge>, row: map<string, nat>) {
    forall i :: 0 <= i < |edges| && edges[i].kind != LeftOuter ==> SqlEdgeHolds(db, entities, edges[i], row)
  }

  lemma OtherJoinsUnder(db: Database, f: map<string, string>, from: map<string, string>, to: map<string, string>,
                        g: seq<NormalizedEdge>, h: seq<NormalizedEdge>, row: map<string, nat>)
    requires Alike(f, from, to, g, h)
    ensures OtherJoinsHold(db, to, h, row) <==> OtherJoinsHold(db, from, g, PartUnder(f, row))
  {
    if OtherJoinsHold(db, to, h, row) {
      forall i | 0 <= i < |g| && g[i].kind != LeftOuter ensures SqlEdgeHolds(db, from, g[i], PartUnder(f, row)) {
        var j := SaidOn(f, g, h, i);
        SaysTheSameFilling(f, g[i], h[j]);
        EdgeReadUnder(db, f, from, to, g[i], h[j], row);
      }
    }
    if OtherJoinsHold(db, from, g, PartUnder(f, row)) {
      forall j | 0 <= j < |h| && h[j].kind != LeftOuter ensures SqlEdgeHolds(db, to, h[j], row) {
        var i := SaidBack(f, g, h, j);
        SaysTheSameFilling(f, g[i], h[j]);
        EdgeReadUnder(db, f, from, to, g[i], h[j], row);
      }
    }
  }

  /** What a result row promises of one instance. */
  ghost predicate OneInstance(db: Database, entities: map<string, string>, edges: seq<NormalizedEdge>, n: string, row: map<string, nat>)
    requires n in entities
  {
    if n in row then row[n] < |TableOf(db, entities[n])| && JoinedOn(db, entities, edges, n, row) else Unfilled(db, entities, edges, n, row)
  }

  lemma ResultByInstance(db: Database, entities: map<string, string>, edges: seq<NormalizedEdge>, row: map<string, nat>)
    ensures ResultRow(db, entities, edges, row) <==>
      row.Keys <= entities.Keys && OtherJoinsHold(db, entities, edges, row) && forall n :: n in entities ==> OneInstance(db, entities, edges, n, row)
  {
  }

  lemma InstanceUnder(db: Database, f: map<string, string>, from: map<string, string>, to: map<string, string>,
                      g: seq<NormalizedEdge>, h: seq<NormalizedEdge>, n: string, row: map<string, nat>)
    requires Alike(f, from, to, g, h) && n in f && f[n] in to && n in from
    ensures OneInstance(db, to, h, f[n], row) <==> OneInstance(db, from, g, n, PartUnder(f, row))
  {
    JoinedOnUnder(db, f, from, to, g, h, n, row);
    UnfilledUnder(db, f, from, to, g, h, n, row);
  }

  lemma ResultUnder(db: Database, f: map<string, string>, from: map<string, string>, to: map<string, string>,
                    g: seq<NormalizedEdge>, h: seq<NormalizedEdge>, row: map<string, nat>)
    requires Alike(f, from, to, g, h) && row.Keys <= to.Keys
    ensures ResultRow(db, to, h, row) <==> ResultRow(db, from, g, PartUnder(f, row))
  {
    OtherJoinsUnder(db, f, from, to, g, h, row);
    ResultByInstance(db, to, h, row);
    ResultByInstance(db, from, g, PartUnder(f, row));
    forall n | n in f ensures f[n] in to && n in from && (OneInstance(db, to, h, f[n], row) <==> OneInstance(db, from, g, n, PartUnder(f, row))) {
      assert f[n] in f.Values;
      InstanceUnder(db, f, from, to, g, h, n, row);
    }
    assert forall r :: r in to ==> exists n :: n in f && f[n] == r by {
      forall r | r in to ensures exists n :: n in f && f[n] == r { assert r in f.Values; }
    }
  }

  lemma AlikeGraphs(f: map<string, string>, g: NormalizedGraph, h: NormalizedGraph)
    requires WellFormedGraph(g) && WellFormedGraph(h) && Renames(f, g.entityRefs, h.entityRefs) && SameEdges(f, g.edges, h.edges)
    ensures Alike(f, EntityMap(g.entityRefs), EntityMap(h.entityRefs), g.edges, h.edges)
  {
    RenamedEntities(f, g.entityRefs, h.entityRefs);
  }

  /** The result rows of one query, left joins included, read under the names of the other, are the other's. */
  lemma SameResultRows(db: Database, f: map<string, string>, g: NormalizedGraph, h: NormalizedGraph, row: map<string, nat>)
    requires WellFormedGraph(g) && WellFormedGraph(h) && Renames(f, g.entityRefs, h.entityRefs) && SameEdges(f, g.edges, h.edges)
    requires row.Keys <= EntityMap(h.entityRefs).Keys
    ensures ResultRow(db, EntityMap(h.entityRefs), h.edges, row) <==> ResultRow(db, EntityMap(g.entityRefs), g.edges, PartUnder(f, row))
  {
    AlikeGraphs(f, g, h);
    ResultUnder(db, f, EntityMap(g.entityRefs), EntityMap(h.entityRefs), g.edges, h.edges, row);
  }

  // ---------------------------------------------------------------- the grain

  /** Every row of the query as written is read from one over the new names. */
  lemma ReadPartFrom(f: map<string, string>, x: map<string, nat>) returns (y: map<string, nat>)
    requires Injective(f) && x.Keys <= f.Keys
    ensures y.Keys <= f.Values && PartUnder(f, y) == x
  {
    var back := Inverse(f);
    y := map r | r in f.Values && back[r] in x :: x[back[r]];
  }

  /** The instance is in every row of the result, and no two show the same row of it. */
  ghost predicate ResultKeeps(db: Database, graph: NormalizedGraph, k: string) {
    NeverRepeatsResult(db, graph, k) && forall row :: ResultRow(db, EntityMap(graph.entityRefs), graph.edges, row) ==> k in row
  }

  lemma ResultKeptUnder(db: Database, f: map<string, string>, g: NormalizedGraph, h: NormalizedGraph, k: string)
    requires WellFormedGraph(g) && WellFormedGraph(h) && Renames(f, g.entityRefs, h.entityRefs) && SameEdges(f, g.edges, h.edges)
    requires k in f && ResultKeeps(db, h, f[k])
    ensures ResultKeeps(db, g, k)
  {
    RenamedEntities(f, g.entityRefs, h.entityRefs);
    forall x | ResultRow(db, EntityMap(g.entityRefs), g.edges, x) ensures k in x {
      var v := ReadPartFrom(f, x);
      SameResultRows(db, f, g, h, v);
    }
    forall x, y | ResultRow(db, EntityMap(g.entityRefs), g.edges, x) && ResultRow(db, EntityMap(g.entityRefs), g.edges, y)
        && k in x && k in y && x[k] == y[k]
      ensures x == y
    {
      var v := ReadPartFrom(f, x);
      var w := ReadPartFrom(f, y);
      SameResultRows(db, f, g, h, v);
      SameResultRows(db, f, g, h, w);
      assert v[f[k]] == PartUnder(f, v)[k] && w[f[k]] == PartUnder(f, w)[k];
    }
  }

  // ---------------------------------------------------------------- the condition on the joins

  lemma BelowUnder(f: map<string, string>, from: map<string, string>, to: map<string, string>, g: seq<NormalizedEdge>, h: seq<NormalizedEdge>, p: string, n: string)
    requires Alike(f, from, to, g, h) && Below(g, p, n)
    ensures p in f && n in f && Below(h, f[p], f[n])
  {
    var i: nat :| FillsIn(g, i, n) && g[i].leftRef == p;
    var j := SaidOn(f, g, h, i);
    SaysTheSameFilling(f, g[i], h[j]);
    assert FillsIn(h, j, f[n]);
  }

  lemma BelowBack(f: map<string, string>, from: map<string, string>, to: map<string, string>, g: seq<NormalizedEdge>, h: seq<NormalizedEdge>, p: string, n: string)
    returns (x: string, y: string)
    requires Alike(f, from, to, g, h) && Below(h, p, n)
    ensures x in f && y in f && f[x] == p && f[y] == n && Below(g, x, y)
  {
    var j: nat :| FillsIn(h, j, n) && h[j].leftRef == p;
    var i := SaidBack(f, g, h, j);
    SaysTheSameFilling(f, g[i], h[j]);
    x, y := g[i].leftRef, g[i].rightRef;
    assert FillsIn(g, i, y);
  }

  lemma TouchedUnder(f: map<string, string>, from: map<string, string>, to: map<string, string>, g: seq<NormalizedEdge>, h: seq<NormalizedEdge>, n: string)
    requires Alike(f, from, to, g, h) && n in f && Touched(g, n)
    ensures Touched(h, f[n])
  {
    var i :| 0 <= i < |g| && g[i].kind != LeftOuter && (g[i].leftRef == n || g[i].rightRef == n);
    var j := SaidOn(f, g, h, i);
    SaysTheSameFilling(f, g[i], h[j]);
    assert (f[g[i].leftRef], f[g[i].rightRef], multiset(g[i].pairs)) in ReadingOf(h[j]).views;
    SameSidesOrSwapped(Rename(g[i], f), h[j]);
  }

  function RenamedNames(f: map<string, string>, w: seq<string>): (r: seq<string>)
    ensures |r| == |w| && forall k :: 0 <= k < |w| ==> r[k] == At(f, w[k])
  {
    seq(|w|, k requires 0 <= k < |w| => At(f, w[k]))
  }

  lemma AlwaysThereUnder(f: map<string, string>, from: map<string, string>, to: map<string, string>, g: seq<NormalizedEdge>, h: seq<NormalizedEdge>, n: string)
    requires Alike(f, from, to, g, h) && n in f && AlwaysThere(g, n)
    ensures AlwaysThere(h, f[n])
  {
    OptionalUnder(f, from, to, g, h, n);
    if Optional(g, n) {
      var w :| Chain(g, w) && w[0] == n && Touched(g, w[|w| - 1]);
      var v := RenamedNames(f, w);
      forall k | 0 <= k < |v| - 1 ensures Below(h, v[k], v[k + 1]) {
        assert Below(g, w[k], w[k + 1]);
        BelowUnder(f, from, to, g, h, w[k], w[k + 1]);
      }
      if |w| > 1 {
        assert Below(g, w[|w| - 2], w[|w| - 2 + 1]);
        BelowUnder(f, from, to, g, h, w[|w| - 2], w[|w| - 1]);
      }
      TouchedUnder(f, from, to, g, h, w[|w| - 1]);
      assert Chain(h, v) && v[0] == f[n];
    }
  }

  /** No optional instance is left joined to two others in either query when there is none in one of them. */
  lemma OneAboveUnder(f: map<string, string>, g: NormalizedGraph, h: NormalizedGraph)
    requires WellFormedGraph(g) && WellFormedGraph(h) && Renames(f, g.entityRefs, h.entityRefs) && SameEdges(f, g.edges, h.edges)
    requires OneAbove(g.edges)
    ensures OneAbove(h.edges)
  {
    var from, to := EntityMap(g.entityRefs), EntityMap(h.entityRefs);
    AlikeGraphs(f, g, h);
    forall n, p, q | Below(h.edges, p, n) && Below(h.edges, q, n) && !AlwaysThere(h.edges, n) ensures p == q {
      var x, y := BelowBack(f, from, to, g.edges, h.edges, p, n);
      var v, z := BelowBack(f, from, to, g.edges, h.edges, q, n);
      assert y == z;
      if AlwaysThere(g.edges, y) { AlwaysThereUnder(f, from, to, g.edges, h.edges, y); }
    }
  }
}
