/** Two ways of writing one query give the same rows under other names. */
module RenamedRows {
  import opened Domain
  import opened Ordering
  import opened Sorting
  import opened Relational
  import opened Bijections
  import opened JoinSafety
  import opened Planner
  import opened SqlGraph
  import opened InstanceGroups
  import opened SqlCanonical
  import opened SqlMatching
  import opened SqlSafety
  import opened ProofBoundSql

  // ---------------------------------------------------------------- edges that say the same

  lemma SamePairsHold(left: Row, right: Row, leftEntity: string, rightEntity: string, a: seq<Pair>, b: seq<Pair>)
    requires multiset(a) == multiset(b) && PairsHold(left, right, leftEntity, rightEntity, PairSet(a))
    ensures PairsHold(left, right, leftEntity, rightEntity, PairSet(b))
  {
    forall p | p in PairSet(b) ensures PairHolds(left, right, leftEntity, rightEntity, p) {
      assert p in multiset(b);
      assert p in PairSet(a);
    }
  }

  lemma SwappedPairsHold(left: Row, right: Row, leftEntity: string, rightEntity: string, pairs: seq<Pair>)
    requires PairsHold(left, right, leftEntity, rightEntity, PairSet(pairs))
    ensures PairsHold(right, left, rightEntity, leftEntity, PairSet(Mapped(pairs, Swap)))
  {
    forall p | p in PairSet(Mapped(pairs, Swap)) ensures PairHolds(right, left, rightEntity, leftEntity, p) {
      var i :| 0 <= i < |pairs| && Mapped(pairs, Swap)[i] == p;
      assert pairs[i] in PairSet(pairs);
      SwappedPairsMean(left, right, leftEntity, rightEntity, pairs[i]);
    }
  }

  /** A row satisfies an edge however the edge is written. */
  lemma SaysTheSame(db: Database, entities: map<string, string>, e: NormalizedEdge, f: NormalizedEdge, row: map<string, nat>)
    requires ReadingOf(e) == ReadingOf(f) && SqlEdgeHolds(db, entities, e, row)
    ensures SqlEdgeHolds(db, entities, f, row)
  {
    assert (f.leftRef, f.rightRef, multiset(f.pairs)) in ReadingOf(f).views;
    SameSidesOrSwapped(f, e);
    var left, right := TableOf(db, entities[e.leftRef])[row[e.leftRef]], TableOf(db, entities[e.rightRef])[row[e.rightRef]];
    if f.leftRef == e.leftRef && f.rightRef == e.rightRef && multiset(f.pairs) == multiset(e.pairs) {
      SamePairsHold(left, right, entities[e.leftRef], entities[e.rightRef], e.pairs, f.pairs);
    } else {
      SwappedPairsHold(left, right, entities[e.leftRef], entities[e.rightRef], e.pairs);
      SamePairsHold(right, left, entities[e.rightRef], entities[e.leftRef], Mapped(e.pairs, Swap), f.pairs);
    }
  }

  // ---------------------------------------------------------------- rows under other names

  /** A row over the new names, read under the old ones. */
  function Under(f: map<string, string>, row: map<string, nat>): map<string, nat>
    requires f.Values <= row.Keys
  {
    map n | n in f :: row[f[n]]
  }

  /** Instances keep their entities under the new names. */
  ghost predicate SameEntitiesUnder(f: map<string, string>, from: map<string, string>, to: map<string, string>) {
    && Injective(f) && f.Keys == from.Keys && f.Values == to.Keys
    && forall n :: n in f ==> f[n] in to && to[f[n]] == from[n]
  }

  lemma RenamedEntities(f: map<string, string>, from: seq<EntityRef>, to: seq<EntityRef>)
    requires Renames(f, from, to) && DistinctRefs(from) && DistinctRefs(to)
    ensures SameEntitiesUnder(f, EntityMap(from), EntityMap(to))
  {
    forall n ensures n in f <==> n in EntityMap(from) { EntityMapFinds(from, n); }
    forall n ensures n in f.Values <==> n in EntityMap(to) { EntityMapFinds(to, n); }
    forall n | n in f ensures f[n] in EntityMap(to) && EntityMap(to)[f[n]] == EntityMap(from)[n] {
      EntityMapFinds(from, n);
      EntityMapFinds(to, f[n]);
      FoundIs(from, n);
      FoundIs(to, f[n]);
      RenamedInstance(f, from, to, n, EntityMap(from)[n]);
      OneEntity(to, EntityRef(f[n], EntityMap(from)[n]), EntityRef(f[n], EntityMap(to)[f[n]]));
    }
  }

  lemma FoundIs(refs: seq<EntityRef>, name: string)
    requires name in EntityMap(refs)
    ensures EntityRef(name, EntityMap(refs)[name]) in refs
  {
    EntityMapFinds(refs, name);
  }

  lemma RenamedEdgeHolds(db: Database, f: map<string, string>, from: map<string, string>, to: map<string, string>, e: NormalizedEdge, row: map<string, nat>)
    requires SameEntitiesUnder(f, from, to) && row.Keys == to.Keys && e.leftRef in f && e.rightRef in f
    ensures SqlEdgeHolds(db, to, Rename(e, f), row) <==> SqlEdgeHolds(db, from, e, Under(f, row))
  {
  }

  /** Edge `e` of one list says under the new names what `d` says. */
  ghost predicate Says(f: map<string, string>, e: NormalizedEdge, d: NormalizedEdge) {
    ReadingOf(Rename(e, f)) == ReadingOf(d)
  }

  lemma Counterpart<T>(a: seq<T>, b: seq<T>, i: nat) returns (j: nat)
    requires multiset(a) == multiset(b) && i < |a|
    ensures j < |b| && b[j] == a[i]
  {
    assert a[i] in multiset(b);
    j :| 0 <= j < |b| && b[j] == a[i];
  }

  lemma SaidOn(f: map<string, string>, g: seq<NormalizedEdge>, h: seq<NormalizedEdge>, i: nat) returns (j: nat)
    requires SameEdges(f, g, h) && i < |g|
    ensures j < |h| && Says(f, g[i], h[j])
  {
    j := Counterpart(Readings(g, f), Readings(h, map[]), i);
    assert Rename(h[j], map[]) == h[j];
  }

  lemma SaidBack(f: map<string, string>, g: seq<NormalizedEdge>, h: seq<NormalizedEdge>, j: nat) returns (i: nat)
    requires SameEdges(f, g, h) && j < |h|
    ensures i < |g| && Says(f, g[i], h[j])
  {
    i := Counterpart(Readings(h, map[]), Readings(g, f), j);
    assert Rename(h[j], map[]) == h[j];
  }

  lemma EdgeReadBack(db: Database, f: map<string, string>, from: map<string, string>, to: map<string, string>,
                     e: NormalizedEdge, d: NormalizedEdge, row: map<string, nat>)
    requires SameEntitiesUnder(f, from, to) && row.Keys == to.Keys && e.leftRef in f && e.rightRef in f && Says(f, e, d)
    ensures SqlEdgeHolds(db, to, d, row) <==> SqlEdgeHolds(db, from, e, Under(f, row))
  {
    RenamedEdgeHolds(db, f, from, to, e, row);
    if SqlEdgeHolds(db, to, d, row) { SaysTheSame(db, to, d, Rename(e, f), row); }
    if SqlEdgeHolds(db, to, Rename(e, f), row) { SaysTheSame(db, to, Rename(e, f), d, row); }
  }

  lemma Bounded(db: Database, f: map<string, string>, from: map<string, string>, to: map<string, string>, row: map<string, nat>)
    requires SameEntitiesUnder(f, from, to) && row.Keys == to.Keys
    ensures (forall r :: r in row ==> row[r] < |TableOf(db, to[r])|) <==> (forall n :: n in Under(f, row) ==> Under(f, row)[n] < |TableOf(db, from[n])|)
  {
    if forall n :: n in Under(f, row) ==> Under(f, row)[n] < |TableOf(db, from[n])| {
      forall r | r in row ensures row[r] < |TableOf(db, to[r])| {
        var n :| n in f && f[n] == r;
        assert n in Under(f, row);
      }
    }
  }

  ghost predicate EndsIn(edges: seq<NormalizedEdge>, f: map<string, string>) {
    forall i :: 0 <= i < |edges| ==> edges[i].leftRef in f && edges[i].rightRef in f
  }

  /** The rows of one list of edges, read under the names of the other, are the other's rows. */
  lemma RowsOfEdges(db: Database, f: map<string, string>, from: map<string, string>, to: map<string, string>,
                    g: seq<NormalizedEdge>, h: seq<NormalizedEdge>, row: map<string, nat>)
    requires SameEntitiesUnder(f, from, to) && row.Keys == to.Keys && EndsIn(g, f) && SameEdges(f, g, h)
    ensures SqlJoinRow(db, to, h, row) <==> SqlJoinRow(db, from, g, Under(f, row))
  {
    Bounded(db, f, from, to, row);
    if SqlJoinRow(db, to, h, row) {
      forall i | 0 <= i < |g| ensures SqlEdgeHolds(db, from, g[i], Under(f, row)) {
        var j := SaidOn(f, g, h, i);
        EdgeReadBack(db, f, from, to, g[i], h[j], row);
      }
    }
    if SqlJoinRow(db, from, g, Under(f, row)) {
      forall j | 0 <= j < |h| ensures SqlEdgeHolds(db, to, h[j], row) {
        var i := SaidBack(f, g, h, j);
        EdgeReadBack(db, f, from, to, g[i], h[j], row);
      }
    }
  }

  /** The rows of one query, read under the names of the other, are the other's rows. */
  lemma SameRows(db: Database, f: map<string, string>, g: NormalizedGraph, h: NormalizedGraph, row: map<string, nat>)
    requires WellFormedGraph(g) && WellFormedGraph(h) && Renames(f, g.entityRefs, h.entityRefs) && SameEdges(f, g.edges, h.edges)
    requires row.Keys == EntityMap(h.entityRefs).Keys
    ensures f.Values <= row.Keys
    ensures SqlJoinRow(db, EntityMap(h.entityRefs), h.edges, row) <==> SqlJoinRow(db, EntityMap(g.entityRefs), g.edges, Under(f, row))
  {
    RenamedEntities(f, g.entityRefs, h.entityRefs);
    RowsOfEdges(db, f, EntityMap(g.entityRefs), EntityMap(h.entityRefs), g.edges, h.edges, row);
  }

  // ---------------------------------------------------------------- the grain of the query as written

  lemma SameRowUnder(f: map<string, string>, x: map<string, nat>, y: map<string, nat>)
    requires f.Values == x.Keys == y.Keys
    ensures Under(f, x) == Under(f, y) <==> x == y
  {
    if Under(f, x) == Under(f, y) {
      forall r | r in x ensures x[r] == y[r] {
        var n :| n in f && f[n] == r;
        assert Under(f, x)[n] == Under(f, y)[n];
      }
    }
  }

  /** Every row of the query as written is read from one over the new names. */
  lemma ReadFrom(f: map<string, string>, x: map<string, nat>) returns (y: map<string, nat>)
    requires Injective(f) && x.Keys == f.Keys
    ensures y.Keys == f.Values && Under(f, y) == x
  {
    var back := Inverse(f);
    y := map r | r in f.Values :: x[back[r]];
  }

  /** No row of an instance is repeated exactly when none is under its new name. */
  lemma RepeatsAlike(db: Database, f: map<string, string>, g: NormalizedGraph, h: NormalizedGraph, grain: string)
    requires WellFormedGraph(g) && WellFormedGraph(h) && Renames(f, g.entityRefs, h.entityRefs) && SameEdges(f, g.edges, h.edges)
    requires grain in f
    ensures NeverRepeats(db, g, grain) <==> NeverRepeats(db, h, f[grain])
  {
    RenamedEntities(f, g.entityRefs, h.entityRefs);
    if NeverRepeats(db, g, grain) {
      forall x, y | SqlJoinRow(db, EntityMap(h.entityRefs), h.edges, x) && SqlJoinRow(db, EntityMap(h.entityRefs), h.edges, y)
          && f[grain] in x && f[grain] in y && x[f[grain]] == y[f[grain]]
        ensures x == y
      {
        SameRows(db, f, g, h, x);
        SameRows(db, f, g, h, y);
        assert Under(f, x)[grain] == Under(f, y)[grain];
        SameRowUnder(f, x, y);
      }
    }
    if NeverRepeats(db, h, f[grain]) {
      forall x, y | SqlJoinRow(db, EntityMap(g.entityRefs), g.edges, x) && SqlJoinRow(db, EntityMap(g.entityRefs), g.edges, y)
          && grain in x && grain in y && x[grain] == y[grain]
        ensures x == y
      {
        var v := ReadFrom(f, x);
        var w := ReadFrom(f, y);
        SameRows(db, f, g, h, v);
        SameRows(db, f, g, h, w);
        assert v[f[grain]] == Under(f, v)[grain] && w[f[grain]] == Under(f, w)[grain];
      }
    }
  }
}
