/** What passing without a proof says about the rows: the named grain is kept as far as the joins reach. */
module ProoflessSql {
  import opened Domain
  import opened Relational
  import opened Evidence
  import opened CandidateEdges
  import opened GrainWalk
  import opened QueueWalk
  import opened Rings
  import opened JoinSafety
  import opened Planner
  import opened SqlGraph
  import opened SqlCanonical
  import opened SqlMatching
  import opened SqlValidation
  import opened SqlSafety
  import opened ProofBoundSql

  // ---------------------------------------------------------------- the sides of a matched edge

  ghost predicate EntitiesApart(names: set<string>) {
    forall a, b :: a in names && b in names && a != b ==> Unambiguous(a, b)
  }

  lemma SameEntity(names: set<string>, a: string, b: string, endpoint: string)
    requires EntitiesApart(names) && a in names && b in names
    requires ColumnOf(a, endpoint).Some? && ColumnOf(b, endpoint).Some?
    ensures a == b
  {
  }

  function NamesOf(entities: map<string, string>, e: NormalizedEdge, d: Definition): set<string>
    requires e.leftRef in entities && e.rightRef in entities
  {
    {entities[e.leftRef], entities[e.rightRef], d.child.entity, d.parent.entity}
  }

  /** A pair of a matched edge is a pair of the relationship, one way round or the other. */
  lemma PairOfDefinition(e: NormalizedEdge, r: Authorized, p: Pair) returns (i: nat)
    requires EdgeMatches(e, r) && p in e.pairs
    ensures i < |r.definition.child.columns|
    ensures p == (ChildName(r.definition, i), ParentName(r.definition, i)) || Swap(p) == (ChildName(r.definition, i), ParentName(r.definition, i))
  {
    assert CanonicalPair(p.0, p.1) in Observed(e.pairs);
    var q :| q in DefinitionPairs(r.definition) && CanonicalPair(q.0, q.1) == CanonicalPair(p.0, p.1);
    i :| 0 <= i < |r.definition.child.columns| && q == (ChildName(r.definition, i), ParentName(r.definition, i));
  }

  /** Which entity stands on the left, from how one pair is written. */
  lemma PairSides(entities: map<string, string>, e: NormalizedEdge, d: Definition, p: Pair, i: nat)
    requires TypedEndpoints(entities, e) && p in e.pairs && |d.child.columns| == |d.parent.columns| && i < |d.child.columns|
    requires EntitiesApart(NamesOf(entities, e, d))
    ensures p == (ChildName(d, i), ParentName(d, i)) ==> entities[e.leftRef] == d.child.entity && entities[e.rightRef] == d.parent.entity
    ensures Swap(p) == (ChildName(d, i), ParentName(d, i)) ==> entities[e.leftRef] == d.parent.entity && entities[e.rightRef] == d.child.entity
  {
    ColumnOfName(d.child.entity, d.child.columns[i]);
    ColumnOfName(d.parent.entity, d.parent.columns[i]);
    var names := NamesOf(entities, e, d);
    if p == (ChildName(d, i), ParentName(d, i)) {
      SameEntity(names, entities[e.leftRef], d.child.entity, p.0);
      SameEntity(names, entities[e.rightRef], d.parent.entity, p.1);
    }
    if Swap(p) == (ChildName(d, i), ParentName(d, i)) {
      SameEntity(names, entities[e.leftRef], d.parent.entity, p.0);
      SameEntity(names, entities[e.rightRef], d.child.entity, p.1);
    }
  }

  /** Read from its child between two entities, an edge gives exactly the child's endpoints on the left. */
  lemma LeftIsChild(entities: map<string, string>, e: NormalizedEdge, r: Authorized)
    requires EdgeMatches(e, r) && TypedEndpoints(entities, e) && EntitiesApart(NamesOf(entities, e, r.definition))
    requires r.definition.child.entity != r.definition.parent.entity && entities[e.leftRef] == r.definition.child.entity
    ensures LeftNames(e) == ChildNames(r.definition)
  {
    var d := r.definition;
    forall p | p in e.pairs ensures p.0 in ChildNames(d) {
      var i := PairOfDefinition(e, r, p);
      PairSides(entities, e, d, p, i);
      assert d.child.columns[i] in d.child.columns;
    }
    forall c | c in d.child.columns ensures EndpointName(d.child.entity, c) in LeftNames(e) {
      var i :| 0 <= i < |d.child.columns| && d.child.columns[i] == c;
      MatchedPair(e, r, (ChildName(d, i), ParentName(d, i)));
      var p :| p in e.pairs && (p == (ChildName(d, i), ParentName(d, i)) || Swap(p) == (ChildName(d, i), ParentName(d, i)));
      PairSides(entities, e, d, p, i);
    }
  }

  lemma ChildEndpoint(d: Definition, endpoint: string)
    requires endpoint in ChildNames(d)
    ensures ColumnOf(d.child.entity, endpoint).Some?
  {
    var c :| c in d.child.columns && EndpointName(d.child.entity, c) == endpoint;
    ColumnOfName(d.child.entity, c);
  }

  /** The side taken for the child is an instance of the child's entity, the other one of the parent's. */
  lemma MatchedIsTyped(entities: map<string, string>, e: NormalizedEdge, r: Authorized)
    requires EdgeMatches(e, r) && TypedEndpoints(entities, e) && ValidDefinition(r.definition)
    requires EntitiesApart(NamesOf(entities, e, r.definition))
    ensures Typed(entities, BoundEdge(r, MatchEdge(e, r).childRef, MatchEdge(e, r).parentRef))
  {
    var d := r.definition;
    var q := (ChildName(d, 0), ParentName(d, 0));
    MatchedPair(e, r, q);
    var p :| p in e.pairs && (p == q || Swap(p) == q);
    PairSides(entities, e, d, p, 0);
    if LeftNames(e) == ChildNames(d) {
      if p != q {
        assert p.0 in LeftNames(e);
        ChildEndpoint(d, p.0);
        SameEntity(NamesOf(entities, e, d), entities[e.leftRef], d.child.entity, p.0);
      }
    } else if d.child.entity != d.parent.entity && entities[e.leftRef] == d.child.entity {
      LeftIsChild(entities, e, r);
    }
  }

  function AllEntities(graph: NormalizedGraph, current: seq<Authorized>): set<string> {
    (set r | r in graph.entityRefs :: r.entity)
    + (set r | r in current :: r.definition.child.entity) + (set r | r in current :: r.definition.parent.entity)
  }

  /** Among the entities of the query and of all relationships, none is another followed by a dot and more. */
  ghost predicate AllApart(graph: NormalizedGraph, current: seq<Authorized>) {
    EntitiesApart(AllEntities(graph, current))
  }

  lemma ApartAmongFewer(names: set<string>, fewer: set<string>)
    requires EntitiesApart(names) && fewer <= names
    ensures EntitiesApart(fewer)
  {
  }

  lemma NamesAmongAll(graph: NormalizedGraph, current: seq<Authorized>, e: NormalizedEdge, r: Authorized)
    requires r in current && e.leftRef in EntityMap(graph.entityRefs) && e.rightRef in EntityMap(graph.entityRefs)
    ensures NamesOf(EntityMap(graph.entityRefs), e, r.definition) <= AllEntities(graph, current)
  {
    EntityNamed(graph.entityRefs, e.leftRef);
    EntityNamed(graph.entityRefs, e.rightRef);
  }

  lemma EdgeIsTyped(graph: NormalizedGraph, current: seq<Authorized>, db: Database, e: NormalizedEdge, r: Authorized)
    requires EdgeMatches(e, r) && r in current && AllMeasuredOn(db, current) && AllApart(graph, current)
    requires TypedEndpoints(EntityMap(graph.entityRefs), e)
    ensures Typed(EntityMap(graph.entityRefs), BoundEdge(r, MatchEdge(e, r).childRef, MatchEdge(e, r).parentRef))
  {
    assert MeasuredOn(db, r);
    NamesAmongAll(graph, current, e, r);
    ApartAmongFewer(AllEntities(graph, current), NamesOf(EntityMap(graph.entityRefs), e, r.definition));
    MatchedIsTyped(EntityMap(graph.entityRefs), e, r);
  }

  lemma QueryIsTyped(graph: NormalizedGraph, current: seq<Authorized>, db: Database)
    requires WellFormedGraph(graph) && Unmatched(graph.edges, current) == 0 && AllMeasuredOn(db, current)
    requires Unmistakable(graph, current) && AllApart(graph, current)
    ensures AllTyped(EntityMap(graph.entityRefs), BoundMatched(AllMatched(graph.edges, current)))
  {
    AllMatchedFacts(graph.edges, current);
    forall i | 0 <= i < |graph.edges|
      ensures Typed(EntityMap(graph.entityRefs), BoundMatched(AllMatched(graph.edges, current))[i])
    {
      EdgeIsTyped(graph, current, db, graph.edges[i], MatchRelationship(graph.edges[i], current).value);
    }
  }

  lemma EntityNamed(refs: seq<EntityRef>, name: string)
    requires name in EntityMap(refs)
    ensures EntityMap(refs)[name] in (set r | r in refs :: r.entity)
  {
    EntityMapFinds(refs, name);
    FindFacts(refs, name);
  }

  // ---------------------------------------------------------------- as far as the walks reach

  ghost predicate Reached(links: seq<Link>, grain: string, n: string) {
    exists w :: Walk(links, w) && w[0] == grain && w[|w| - 1] == n
  }

  /** Along every walk from the grain two rows that agree on the grain agree. */
  lemma {:induction false} WalkDetermines(links: seq<Link>, grain: string, w: seq<string>, x: map<string, nat>, y: map<string, nat>)
    requires Walk(links, w) && w[0] == grain && NeverFansOut(grain, links)
    requires forall l :: l in links ==> Respected(l, x, y)
    requires grain in x && grain in y && x[grain] == y[grain]
    ensures w[|w| - 1] in x && w[|w| - 1] in y && x[w[|w| - 1]] == y[w[|w| - 1]]
    decreases |w|
  {
    if |w| > 1 {
      var v := w[..|w| - 1];
      WalkShortens(links, w);
      WalkDetermines(links, grain, v, x, y);
      var bound :| Step(links, w[|w| - 2], w[|w| - 1], bound);
      assert EndsWith(links, grain, w, bound);
      var l :| l in links && ((l.a == w[|w| - 2] && l.b == w[|w| - 1] && l.ab == bound) || (l.b == w[|w| - 2] && l.a == w[|w| - 1] && l.ba == bound));
      assert Respected(l, x, y);
    }
  }

  lemma ReachesNeighbour(links: seq<Link>, grain: string, a: string, b: string)
    requires Joined(links, a, b) && Reached(links, grain, a)
    ensures Reached(links, grain, b)
  {
    var w :| Walk(links, w) && w[0] == grain && w[|w| - 1] == a;
    if |w| >= 2 && w[|w| - 2] == b {
      WalkShortens(links, w);
      assert w[..|w| - 1][|w| - 2] == b;
    } else {
      var bound :| Step(links, a, b, bound);
      ExtendWalk(links, grain, w, LastState(w), b, bound);
      assert (w + [b])[|w|] == b;
    }
  }

  lemma ReachesBothEnds(links: seq<Link>, grain: string, l: Link)
    requires l in links
    ensures Reached(links, grain, l.a) <==> Reached(links, grain, l.b)
  {
    assert Step(links, l.a, l.b, l.ab) && Step(links, l.b, l.a, l.ba);
    if Reached(links, grain, l.a) { ReachesNeighbour(links, grain, l.a, l.b); }
    if Reached(links, grain, l.b) { ReachesNeighbour(links, grain, l.b, l.a); }
  }

  /** The first row where walks from the grain lead, the second one elsewhere. */
  ghost function Spliced(links: seq<Link>, grain: string, x: map<string, nat>, y: map<string, nat>): map<string, nat>
    requires x.Keys == y.Keys
  {
    map n | n in x :: if Reached(links, grain, n) then x[n] else y[n]
  }

  lemma SplicedIsRow(db: Database, graph: NormalizedGraph, links: seq<Link>, grain: string, x: map<string, nat>, y: map<string, nat>)
    requires SqlJoinRow(db, EntityMap(graph.entityRefs), graph.edges, x) && SqlJoinRow(db, EntityMap(graph.entityRefs), graph.edges, y)
    requires forall i :: 0 <= i < |graph.edges| ==>
      (Reached(links, grain, graph.edges[i].leftRef) <==> Reached(links, grain, graph.edges[i].rightRef))
    ensures SqlJoinRow(db, EntityMap(graph.entityRefs), graph.edges, Spliced(links, grain, x, y))
  {
    var entities, z := EntityMap(graph.entityRefs), Spliced(links, grain, x, y);
    forall i | 0 <= i < |graph.edges| ensures SqlEdgeHolds(db, entities, graph.edges[i], z) {
      assert SqlEdgeHolds(db, entities, graph.edges[i], x) && SqlEdgeHolds(db, entities, graph.edges[i], y);
    }
  }

  lemma EdgesJoinSides(graph: NormalizedGraph, current: seq<Authorized>, grain: string, i: nat)
    requires WellFormedGraph(graph) && Unmatched(graph.edges, current) == 0 && i < |graph.edges|
    ensures var links := Links(BoundMatched(AllMatched(graph.edges, current)));
      Reached(links, grain, graph.edges[i].leftRef) <==> Reached(links, grain, graph.edges[i].rightRef)
  {
    var links := Links(BoundMatched(AllMatched(graph.edges, current)));
    MatchedSides(graph.edges, current, i);
    ReachesBothEnds(links, grain, links[i]);
    var e := AllMatched(graph.edges, current)[i];
    assert {e.childRef, e.parentRef} == {graph.edges[i].leftRef, graph.edges[i].rightRef};
    assert links[i].a == e.childRef && links[i].b == e.parentRef;
    SameTwo(e.childRef, e.parentRef, graph.edges[i].leftRef, graph.edges[i].rightRef);
  }

  lemma SameTwo(a: string, b: string, c: string, d: string)
    requires {a, b} == {c, d} && c != d
    ensures (a == c && b == d) || (a == d && b == c)
  {
    assert a in {c, d} && b in {c, d} && c in {a, b} && d in {a, b};
  }

  // ---------------------------------------------------------------- the promise without a proof

  /** No two rows of the join differ where no walk from the grain leads. */
  ghost predicate FixedElsewhere(db: Database, graph: NormalizedGraph, links: seq<Link>, grain: string) {
    forall x, y, n ::
      (SqlJoinRow(db, EntityMap(graph.entityRefs), graph.edges, x) && SqlJoinRow(db, EntityMap(graph.entityRefs), graph.edges, y)
       && n in x && n in y && !Reached(links, grain, n)) ==> x[n] == y[n]
  }

  /** The query is one that is answered without a finding, and its endpoints can be read one way only. */
  ghost predicate PassesAlone(graph: NormalizedGraph, current: seq<Authorized>, definitions: seq<EntityDefinition>,
                              expectedGrainRef: Option<string>, k: string) {
    && WellFormedGraph(graph) && Unmatched(graph.edges, current) == 0
    && ExpectedAt(graph.entityRefs, None, None, expectedGrainRef, k)
    && GrainAcceptedFor(graph.entityRefs, AllMatched(graph.edges, current), definitions, None, None, expectedGrainRef)
    && Unmistakable(graph, current) && AllApart(graph, current)
  }

  lemma LinksAreRespected(db: Database, entities: map<string, string>, edges: seq<BoundEdge>, x: map<string, nat>, y: map<string, nat>)
    requires AllTyped(entities, edges) && EdgesMeasuredOn(db, edges)
    requires JoinRow(db, entities, JoinEdges(edges), x) && JoinRow(db, entities, JoinEdges(edges), y)
    ensures forall l :: l in Links(edges) ==> Respected(l, x, y)
  {
    forall l | l in Links(edges) ensures Respected(l, x, y) {
      var i :| 0 <= i < |edges| && Links(edges)[i] == l;
      MeasuredEdgeRespects(db, entities, edges, i, x, y);
    }
  }

  lemma QueryRespectsLinks(db: Database, graph: NormalizedGraph, current: seq<Authorized>, x: map<string, nat>, y: map<string, nat>)
    requires WellFormedGraph(graph) && Unmatched(graph.edges, current) == 0 && AllMeasuredOn(db, current)
    requires Unmistakable(graph, current) && AllApart(graph, current)
    requires SqlJoinRow(db, EntityMap(graph.entityRefs), graph.edges, x) && SqlJoinRow(db, EntityMap(graph.entityRefs), graph.edges, y)
    ensures forall l :: l in Links(BoundMatched(AllMatched(graph.edges, current))) ==> Respected(l, x, y)
  {
    QueryIsTyped(graph, current, db);
    TypedIsCovered(graph, current);
    AcceptedMeasured(graph.edges, current, db);
    AcceptedRows(db, graph, current, x);
    AcceptedRows(db, graph, current, y);
    LinksAreRespected(db, EntityMap(graph.entityRefs), BoundMatched(AllMatched(graph.edges, current)), x, y);
  }

  lemma AgreeWhereReached(db: Database, graph: NormalizedGraph, current: seq<Authorized>, grain: string, x: map<string, nat>, y: map<string, nat>, n: string)
    requires WellFormedGraph(graph) && Unmatched(graph.edges, current) == 0 && AllMeasuredOn(db, current)
    requires Unmistakable(graph, current) && AllApart(graph, current) && NeverFansOut(grain, Links(BoundMatched(AllMatched(graph.edges, current))))
    requires SqlJoinRow(db, EntityMap(graph.entityRefs), graph.edges, x) && SqlJoinRow(db, EntityMap(graph.entityRefs), graph.edges, y)
    requires grain in x && grain in y && x[grain] == y[grain] && Reached(Links(BoundMatched(AllMatched(graph.edges, current))), grain, n)
    ensures n in x && n in y && x[n] == y[n]
  {
    var links := Links(BoundMatched(AllMatched(graph.edges, current)));
    QueryRespectsLinks(db, graph, current, x, y);
    var w :| Walk(links, w) && w[0] == grain && w[|w| - 1] == n;
    WalkDetermines(links, grain, w, x, y);
  }

  lemma SplicedDiffers(db: Database, graph: NormalizedGraph, current: seq<Authorized>, grain: string, x: map<string, nat>, y: map<string, nat>, n: string)
    requires WellFormedGraph(graph) && Unmatched(graph.edges, current) == 0
    requires SqlJoinRow(db, EntityMap(graph.entityRefs), graph.edges, x) && SqlJoinRow(db, EntityMap(graph.entityRefs), graph.edges, y)
    requires n in x && n in y && !Reached(Links(BoundMatched(AllMatched(graph.edges, current))), grain, n) && x[n] != y[n] && grain in x
    ensures !NeverRepeats(db, graph, grain)
  {
    var links := Links(BoundMatched(AllMatched(graph.edges, current)));
    var z := Spliced(links, grain, x, y);
    forall i | 0 <= i < |graph.edges|
      ensures Reached(links, grain, graph.edges[i].leftRef) <==> Reached(links, grain, graph.edges[i].rightRef)
    {
      EdgesJoinSides(graph, current, grain, i);
    }
    SplicedIsRow(db, graph, links, grain, x, y);
    assert Reached(links, grain, grain) by {
      assert Walk(links, [grain]);
    }
    assert z[grain] == x[grain] && z[n] != x[n];
  }

  /** A query that passes without a proof keeps the named grain exactly when no two rows of its join
      differ at an instance that no walk from the grain leads to; so it always does when its joins
      connect everything, and only the parts beside it can repeat its rows. */
  lemma ProoflessKeepsGrainExactly(db: Database, graph: NormalizedGraph, current: seq<Authorized>, definitions: seq<EntityDefinition>,
                                   expectedGrainRef: Option<string>, k: string)
    requires PassesAlone(graph, current, definitions, expectedGrainRef, k) && AllMeasuredOn(db, current)
    ensures var links := Links(BoundMatched(AllMatched(graph.edges, current)));
      && (NeverRepeats(db, graph, k) <==> FixedElsewhere(db, graph, links, k))
      && ((forall n :: n in RefNames(graph.entityRefs) ==> Reached(links, k, n)) ==> NeverRepeats(db, graph, k))
  {
    var links, entities := Links(BoundMatched(AllMatched(graph.edges, current))), EntityMap(graph.entityRefs);
    assert GrainOk(k, AllMatched(graph.edges, current));
    NamesAreKeys(graph.entityRefs);
    assert k in RefNames(graph.entityRefs);
    if FixedElsewhere(db, graph, links, k) {
      FixedKeepsGrain(db, graph, current, k);
    } else {
      var x, y, n :| SqlJoinRow(db, entities, graph.edges, x) && SqlJoinRow(db, entities, graph.edges, y)
        && n in x && n in y && !Reached(links, k, n) && x[n] != y[n];
      SplicedDiffers(db, graph, current, k, x, y, n);
    }
  }

  lemma FixedKeepsGrain(db: Database, graph: NormalizedGraph, current: seq<Authorized>, grain: string)
    requires WellFormedGraph(graph) && Unmatched(graph.edges, current) == 0 && AllMeasuredOn(db, current)
    requires Unmistakable(graph, current) && AllApart(graph, current) && NeverFansOut(grain, Links(BoundMatched(AllMatched(graph.edges, current))))
    requires FixedElsewhere(db, graph, Links(BoundMatched(AllMatched(graph.edges, current))), grain)
    ensures NeverRepeats(db, graph, grain)
  {
    var entities := EntityMap(graph.entityRefs);
    forall x, y | SqlJoinRow(db, entities, graph.edges, x) && SqlJoinRow(db, entities, graph.edges, y)
        && grain in x && grain in y && x[grain] == y[grain]
      ensures x == y
    {
      FixedRowsAgree(db, graph, current, grain, x, y);
    }
  }

  lemma FixedRowsAgree(db: Database, graph: NormalizedGraph, current: seq<Authorized>, grain: string, x: map<string, nat>, y: map<string, nat>)
    requires WellFormedGraph(graph) && Unmatched(graph.edges, current) == 0 && AllMeasuredOn(db, current)
    requires Unmistakable(graph, current) && AllApart(graph, current) && NeverFansOut(grain, Links(BoundMatched(AllMatched(graph.edges, current))))
    requires FixedElsewhere(db, graph, Links(BoundMatched(AllMatched(graph.edges, current))), grain)
    requires SqlJoinRow(db, EntityMap(graph.entityRefs), graph.edges, x) && SqlJoinRow(db, EntityMap(graph.entityRefs), graph.edges, y)
    requires grain in x && grain in y && x[grain] == y[grain]
    ensures x == y
  {
    forall n | n in x ensures n in y && x[n] == y[n] {
      if Reached(Links(BoundMatched(AllMatched(graph.edges, current))), grain, n) {
        AgreeWhereReached(db, graph, current, grain, x, y, n);
      }
    }
  }
}
