/** What passing validation says about the rows of the query's join. */
module SqlSafety {
  import opened Domain
  import opened Ordering
  import opened Sorting
  import opened Relational
  import opened Evidence
  import opened Bijections
  import opened SqlGraph
  import opened InstanceGroups
  import opened SqlCanonical
  import opened SqlMatching
  import opened CandidateEdges
  import opened SpanningTrees
  import opened GrainWalk
  import opened JoinSafety
  import opened Planner
  import opened PlanSafety
  import opened SqlValidation

  // ---------------------------------------------------------------- what a SQL join edge means

  /** The column an endpoint names when it belongs to this entity. */
  function ColumnOf(entity: string, endpoint: string): Option<string> {
    if |endpoint| > |entity| && endpoint[..|entity|] == entity && endpoint[|entity|] == '.'
    then Some(endpoint[|entity| + 1..]) else None
  }

  lemma ColumnOfName(entity: string, column: string)
    ensures ColumnOf(entity, EndpointName(entity, column)) == Some(column)
  {
  }

  lemma NameOfColumn(entity: string, endpoint: string)
    requires ColumnOf(entity, endpoint).Some?
    ensures EndpointName(entity, ColumnOf(entity, endpoint).value) == endpoint
  {
  }

  /** The equality of the two endpoints is true of these rows. */
  predicate PairHolds(left: Row, right: Row, leftEntity: string, rightEntity: string, p: Pair) {
    var l, r := ColumnOf(leftEntity, p.0), ColumnOf(rightEntity, p.1);
    l.Some? && r.Some? && Read(left, l.value).Known? && Read(left, l.value) == Read(right, r.value)
  }

  ghost predicate PairsHold(left: Row, right: Row, leftEntity: string, rightEntity: string, pairs: set<Pair>) {
    forall p :: p in pairs ==> PairHolds(left, right, leftEntity, rightEntity, p)
  }

  function PairSet(pairs: seq<Pair>): set<Pair> { set p | p in pairs }

  /** The pairs of a matched edge with the side taken for the child first. */
  function Oriented(e: MatchedEdge): set<Pair> {
    if e.childRef == e.normalized.leftRef then PairSet(e.normalized.pairs)
    else set p | p in e.normalized.pairs :: Swap(p)
  }

  /** A row of the query's inner join: every column equality of every edge is true. */
  ghost predicate SqlJoinRow(db: Database, entities: map<string, string>, edges: seq<NormalizedEdge>, row: map<string, nat>) {
    && row.Keys == entities.Keys && (forall r :: r in row ==> row[r] < |TableOf(db, entities[r])|)
    && forall i :: 0 <= i < |edges| ==> SqlEdgeHolds(db, entities, edges[i], row)
  }

  ghost predicate SqlEdgeHolds(db: Database, entities: map<string, string>, e: NormalizedEdge, row: map<string, nat>) {
    && e.leftRef in row && e.rightRef in row && e.leftRef in entities && e.rightRef in entities
    && row[e.leftRef] < |TableOf(db, entities[e.leftRef])| && row[e.rightRef] < |TableOf(db, entities[e.rightRef])|
    && PairsHold(TableOf(db, entities[e.leftRef])[row[e.leftRef]], TableOf(db, entities[e.rightRef])[row[e.rightRef]],
                 entities[e.leftRef], entities[e.rightRef], PairSet(e.pairs))
  }

  // ---------------------------------------------------------------- matched edge and relationship

  /** The relationship's own equalities are the matched edge's, read from the child. */
  ghost predicate Covers(e: MatchedEdge) {
    && |e.relationship.definition.child.columns| == |e.relationship.definition.parent.columns|
    && DefinitionPairs(e.relationship.definition) <= Oriented(e)
  }

  lemma DefinitionPairsMean(d: Definition, child: Row, parent: Row)
    requires |d.child.columns| == |d.parent.columns|
    ensures PairsHold(child, parent, d.child.entity, d.parent.entity, DefinitionPairs(d)) <==> Matches(d, child, parent)
  {
    forall i | 0 <= i < |d.child.columns|
      ensures PairHolds(child, parent, d.child.entity, d.parent.entity, (ChildName(d, i), ParentName(d, i))) <==>
                Read(child, d.child.columns[i]).Known? && Read(child, d.child.columns[i]) == Read(parent, d.parent.columns[i])
    {
      ColumnOfName(d.child.entity, d.child.columns[i]);
      ColumnOfName(d.parent.entity, d.parent.columns[i]);
    }
    if PairsHold(child, parent, d.child.entity, d.parent.entity, DefinitionPairs(d)) {
      forall i | 0 <= i < |d.child.columns|
        ensures Read(child, d.child.columns[i]).Known? && Read(child, d.child.columns[i]) == Read(parent, d.parent.columns[i])
      {
        assert (ChildName(d, i), ParentName(d, i)) in DefinitionPairs(d);
      }
    }
  }

  lemma SwappedPairsMean(left: Row, right: Row, leftEntity: string, rightEntity: string, p: Pair)
    ensures PairHolds(left, right, leftEntity, rightEntity, p) <==> PairHolds(right, left, rightEntity, leftEntity, Swap(p))
  {
  }

  /** A row that satisfies a covering edge satisfies the relationship between the resolved sides. */
  lemma CoveringEdgeHolds(db: Database, entities: map<string, string>, e: MatchedEdge, row: map<string, nat>)
    requires Covers(e) && SqlEdgeHolds(db, entities, e.normalized, row)
    requires {e.childRef, e.parentRef} == {e.normalized.leftRef, e.normalized.rightRef}
    requires Typed(entities, BoundEdge(e.relationship, e.childRef, e.parentRef))
    ensures EdgeHolds(db, entities, JoinEdge(e.relationship.definition, e.childRef, e.parentRef), row)
  {
    var d := e.relationship.definition;
    var child := TableOf(db, d.child.entity)[row[e.childRef]];
    var parent := TableOf(db, d.parent.entity)[row[e.parentRef]];
    forall p | p in Oriented(e) ensures PairHolds(child, parent, d.child.entity, d.parent.entity, p) {
      if e.childRef != e.normalized.leftRef {
        var s :| s in e.normalized.pairs && Swap(s) == p;
        assert s in PairSet(e.normalized.pairs);
        SwappedPairsMean(parent, child, d.parent.entity, d.child.entity, s);
      }
    }
    DefinitionPairsMean(d, child, parent);
  }

  // ---------------------------------------------------------------- when matching is exact

  /** The rows in which exactly the first `n` key columns are set, column `i` to `i`, `skip` left out. */
  function RowOf(columns: seq<string>, n: nat, skip: int): Row
    requires n <= |columns|
  {
    if n == 0 then map[]
    else if n - 1 == skip then RowOf(columns, n - 1, skip)
    else RowOf(columns, n - 1, skip)[columns[n - 1] := Known(n - 1)]
  }

  lemma {:induction false} RowOfReads(columns: seq<string>, n: nat, skip: int, column: string)
    requires n <= |columns| && forall i, j :: 0 <= i < j < |columns| ==> columns[i] != columns[j]
    ensures forall i :: 0 <= i < n && columns[i] == column ==>
      Read(RowOf(columns, n, skip), column) == if i == skip then Null else Known(i)
    ensures (forall i :: 0 <= i < n ==> columns[i] != column) ==> Read(RowOf(columns, n, skip), column) == Null
  {
    if n != 0 {
      RowOfReads(columns, n - 1, skip, column);
    }
  }

  lemma RowsFor(d: Definition, skip: int) returns (child: Row, parent: Row)
    requires ValidDefinition(d)
    ensures forall i, j :: 0 <= i < |d.child.columns| && 0 <= j < |d.parent.columns| ==>
      (Read(child, d.child.columns[i]).Known? && Read(child, d.child.columns[i]) == Read(parent, d.parent.columns[j])
       <==> i == j && i != skip)
    ensures forall c :: Read(child, c).Known? ==> c in d.child.columns
    ensures forall c :: Read(parent, c).Known? ==> c in d.parent.columns
  {
    child := RowOf(d.child.columns, |d.child.columns|, skip);
    parent := RowOf(d.parent.columns, |d.parent.columns|, skip);
    forall c ensures Read(child, c).Known? ==> c in d.child.columns {
      RowOfReads(d.child.columns, |d.child.columns|, skip, c);
    }
    forall c ensures Read(parent, c).Known? ==> c in d.parent.columns {
      RowOfReads(d.parent.columns, |d.parent.columns|, skip, c);
    }
    forall i | 0 <= i < |d.child.columns| ensures Read(child, d.child.columns[i]) == if i == skip then Null else Known(i) {
      RowOfReads(d.child.columns, |d.child.columns|, skip, d.child.columns[i]);
    }
    forall j | 0 <= j < |d.parent.columns| ensures Read(parent, d.parent.columns[j]) == if j == skip then Null else Known(j) {
      RowOfReads(d.parent.columns, |d.parent.columns|, skip, d.parent.columns[j]);
    }
  }

  /** The edge's equalities, read from the child side, say the same as the relationship's for all rows. */
  ghost predicate MeansTheSame(e: MatchedEdge)
    requires |e.relationship.definition.child.columns| == |e.relationship.definition.parent.columns|
  {
    var d := e.relationship.definition;
    forall child, parent :: PairsHold(child, parent, d.child.entity, d.parent.entity, Oriented(e)) <==> Matches(d, child, parent)
  }

  lemma ExtraPairChangesMeaning(d: Definition, p: Pair)
    requires ValidDefinition(d) && p !in DefinitionPairs(d)
    ensures exists child, parent :: Matches(d, child, parent) && !PairHolds(child, parent, d.child.entity, d.parent.entity, p)
  {
    var child, parent := RowsFor(d, -1);
    forall i | 0 <= i < |d.child.columns|
      ensures Read(child, d.child.columns[i]).Known? && Read(child, d.child.columns[i]) == Read(parent, d.parent.columns[i])
    {
      assert d.parent.columns[i] == d.parent.columns[i];
    }
    assert Matches(d, child, parent);
    OnlyKeyPairsHold(d, child, parent, p);
  }

  lemma OnlyKeyPairsHold(d: Definition, child: Row, parent: Row, p: Pair)
    requires |d.child.columns| == |d.parent.columns|
    requires forall i, j :: 0 <= i < |d.child.columns| && 0 <= j < |d.parent.columns| ==>
      (Read(child, d.child.columns[i]).Known? && Read(child, d.child.columns[i]) == Read(parent, d.parent.columns[j]) ==> i == j)
    requires forall c :: Read(child, c).Known? ==> c in d.child.columns
    requires forall c :: Read(parent, c).Known? ==> c in d.parent.columns
    ensures PairHolds(child, parent, d.child.entity, d.parent.entity, p) ==> p in DefinitionPairs(d)
  {
    if PairHolds(child, parent, d.child.entity, d.parent.entity, p) {
      var x, y := ColumnOf(d.child.entity, p.0).value, ColumnOf(d.parent.entity, p.1).value;
      var i :| 0 <= i < |d.child.columns| && d.child.columns[i] == x;
      var j :| 0 <= j < |d.parent.columns| && d.parent.columns[j] == y;
      NameOfColumn(d.child.entity, p.0);
      NameOfColumn(d.parent.entity, p.1);
      assert i == j && p == (ChildName(d, i), ParentName(d, i));
    }
  }

  lemma MissingPairChangesMeaning(d: Definition, pairs: set<Pair>, k: nat)
    requires ValidDefinition(d) && k < |d.child.columns|
    requires pairs <= DefinitionPairs(d) && (ChildName(d, k), ParentName(d, k)) !in pairs
    ensures exists child, parent :: !Matches(d, child, parent) && PairsHold(child, parent, d.child.entity, d.parent.entity, pairs)
  {
    var child, parent := RowsFor(d, k);
    assert !Matches(d, child, parent);
    forall p | p in pairs ensures PairHolds(child, parent, d.child.entity, d.parent.entity, p) {
      var i :| 0 <= i < |d.child.columns| && p == (ChildName(d, i), ParentName(d, i));
      ColumnOfName(d.child.entity, d.child.columns[i]);
      ColumnOfName(d.parent.entity, d.parent.columns[i]);
    }
    assert PairsHold(child, parent, d.child.entity, d.parent.entity, pairs);
  }

  /** Comparing unordered pairs is not enough: a matched edge means its relationship exactly when
      its pairs, read from the side taken for the child, are the relationship's pairs. */
  lemma MatchIsExactWhen(e: MatchedEdge)
    requires ValidDefinition(e.relationship.definition)
    ensures MeansTheSame(e) <==> Oriented(e) == DefinitionPairs(e.relationship.definition)
  {
    var d := e.relationship.definition;
    forall child, parent
      ensures PairsHold(child, parent, d.child.entity, d.parent.entity, DefinitionPairs(d)) <==> Matches(d, child, parent)
    {
      DefinitionPairsMean(d, child, parent);
    }
    if Oriented(e) != DefinitionPairs(d) {
      if p :| p in Oriented(e) && p !in DefinitionPairs(d) {
        ExtraPairChangesMeaning(d, p);
        var child, parent :| Matches(d, child, parent) && !PairHolds(child, parent, d.child.entity, d.parent.entity, p);
        assert !PairsHold(child, parent, d.child.entity, d.parent.entity, Oriented(e));
      } else {
        var p :| p in DefinitionPairs(d) && p !in Oriented(e);
        var k :| 0 <= k < |d.child.columns| && p == (ChildName(d, k), ParentName(d, k));
        MissingPairChangesMeaning(d, Oriented(e), k);
      }
    }
  }

  // ---------------------------------------------------------------- when an edge covers its relationship

  /** Neither entity id is the other followed by a dot and more, so an endpoint names one entity. */
  ghost predicate Unambiguous(a: string, b: string) {
    forall s :: !(ColumnOf(a, s).Some? && ColumnOf(b, s).Some?)
  }

  ghost predicate TypedEndpoints(entities: map<string, string>, e: NormalizedEdge) {
    && e.leftRef in entities && e.rightRef in entities
    && forall p :: p in e.pairs ==> ColumnOf(entities[e.leftRef], p.0).Some? && ColumnOf(entities[e.rightRef], p.1).Some?
  }

  /** No edge of the query can be read two ways: endpoints are written with their instances' entities,
      and each relationship has one key column or joins two entities that cannot be mistaken. */
  ghost predicate Unmistakable(graph: NormalizedGraph, current: seq<Authorized>) {
    && (forall i :: 0 <= i < |graph.edges| ==> TypedEndpoints(EntityMap(graph.entityRefs), graph.edges[i]))
    && (forall r :: r in current ==> OneReading(r.definition))
  }

  ghost predicate OneReading(d: Definition) {
    |d.child.columns| == 1 || Unambiguous(d.child.entity, d.parent.entity)
  }

  ghost predicate AllCovered(edges: seq<NormalizedEdge>, current: seq<Authorized>) {
    forall i :: 0 <= i < |AllMatched(edges, current)| ==> Covers(AllMatched(edges, current)[i])
  }

  lemma MatchedPair(e: NormalizedEdge, r: Authorized, q: Pair)
    requires EdgeMatches(e, r) && q in DefinitionPairs(r.definition)
    ensures exists p :: p in e.pairs && (p == q || Swap(p) == q)
  {
    assert CanonicalPair(q.0, q.1) in ExpectedPairs(r.definition);
    var p :| p in e.pairs && CanonicalPair(p.0, p.1) == CanonicalPair(q.0, q.1);
    assert p == q || Swap(p) == q;
  }

  /** Between two entities the side is unmistakable. */
  lemma CoversAcrossEntities(entities: map<string, string>, e: NormalizedEdge, r: Authorized)
    requires EdgeMatches(e, r) && TypedEndpoints(entities, e) && e.leftRef != e.rightRef
    requires Typed(entities, BoundEdge(r, MatchEdge(e, r).childRef, MatchEdge(e, r).parentRef))
    requires Unambiguous(r.definition.child.entity, r.definition.parent.entity)
    ensures Covers(MatchEdge(e, r))
  {
    var d := r.definition;
    forall q | q in DefinitionPairs(d) ensures q in Oriented(MatchEdge(e, r)) {
      MatchedPair(e, r, q);
      var p :| p in e.pairs && (p == q || Swap(p) == q);
      var i :| 0 <= i < |d.child.columns| && q == (ChildName(d, i), ParentName(d, i));
      ColumnOfName(d.child.entity, d.child.columns[i]);
      ColumnOfName(d.parent.entity, d.parent.columns[i]);
    }
  }

  /** With one key column either reading of the pair is the relationship's. */
  lemma CoversSingleColumn(e: NormalizedEdge, r: Authorized)
    requires EdgeMatches(e, r) && |r.definition.child.columns| == 1 && e.leftRef != e.rightRef
    ensures Covers(MatchEdge(e, r))
  {
    var d := r.definition;
    var q := (ChildName(d, 0), ParentName(d, 0));
    assert DefinitionPairs(d) == {q};
    assert ChildNames(d) == {q.0};
    MatchedPair(e, r, q);
    var p :| p in e.pairs && (p == q || Swap(p) == q);
    if LeftNames(e) == ChildNames(d) {
      assert p.0 in LeftNames(e);
      assert p == q;
    } else {
      assert p.0 in LeftNames(e);
      assert exists s :: s in e.pairs && Swap(s) == q by {
        if p != q { assert Swap(p) == q; }
        else {
          var x :| x in LeftNames(e) && x != q.0;
          var s :| s in e.pairs && s.0 == x;
          SinglePairReading(e, r, s);
        }
      }
    }
  }

  lemma SinglePairReading(e: NormalizedEdge, r: Authorized, s: Pair)
    requires EdgeMatches(e, r) && |r.definition.child.columns| == 1 && s in e.pairs
    ensures var q := (ChildName(r.definition, 0), ParentName(r.definition, 0)); s == q || Swap(s) == q
  {
    assert CanonicalPair(s.0, s.1) in Observed(e.pairs);
    var q :| q in DefinitionPairs(r.definition) && CanonicalPair(q.0, q.1) == CanonicalPair(s.0, s.1);
  }

  /** The pairs of a two-column definition, and of an edge that writes the second one the other way round. */
  lemma TwoColumnPairs(d: Definition, e: NormalizedEdge, p: Pair, q: Pair)
    requires |d.child.columns| == 2 && |d.parent.columns| == 2 && e.pairs == [p, q]
    requires p == (ChildName(d, 0), ParentName(d, 0)) && q == (ParentName(d, 1), ChildName(d, 1))
    ensures DefinitionPairs(d) == {p, Swap(q)} && PairSet(e.pairs) == {p, q} && Observed(e.pairs) == ExpectedPairs(d)
  {
    assert DefinitionPairs(d) == {p, Swap(q)};
    CanonicalSwap(q.0, q.1);
    ObservedTwo(p, q);
    ExpectedTwo(d, p, Swap(q));
    assert [p, q][0] in [p, q] && [p, q][1] in [p, q];
  }

  lemma ObservedTwo(p: Pair, q: Pair)
    ensures Observed([p, q]) == {CanonicalPair(p.0, p.1), CanonicalPair(q.0, q.1)}
  {
    assert [p, q][0] in [p, q] && [p, q][1] in [p, q];
  }

  lemma ExpectedTwo(d: Definition, p: Pair, q: Pair)
    requires |d.child.columns| == |d.parent.columns| && DefinitionPairs(d) == {p, q}
    ensures ExpectedPairs(d) == {CanonicalPair(p.0, p.1), CanonicalPair(q.0, q.1)}
  {
  }

  /** A self-relationship with two key columns can be matched by an edge that mixes its sides:
      the edge is accepted, yet rows that satisfy it need not satisfy the relationship. */
  lemma MixedSidesMatch(r: Authorized, e: NormalizedEdge, entity: string, a: string, b: string, c: string, d: string)
    requires a != b && c != d && a != c && a != d && b != c && b != d
    requires r.definition.child == Endpoint(entity, [a, b]) && r.definition.parent == Endpoint(entity, [c, d])
    requires e.pairs == [(EndpointName(entity, a), EndpointName(entity, c)), (EndpointName(entity, d), EndpointName(entity, b))]
    requires e.leftRef != e.rightRef
    ensures EdgeMatches(e, r)
    ensures ValidDefinition(r.definition) && !MeansTheSame(MatchEdge(e, r))
  {
    var def := r.definition;
    var p, q := (EndpointName(entity, a), EndpointName(entity, c)), (EndpointName(entity, d), EndpointName(entity, b));
    assert def.child.columns[0] == a && def.child.columns[1] == b && def.parent.columns[0] == c && def.parent.columns[1] == d;
    TwoColumnPairs(def, e, p, q);
    NamesDiffer(entity, a, d);
    NamesDiffer(entity, a, b);
    NamesDiffer(entity, b, c);
    NamesDiffer(entity, a, c);
    NamesDiffer(entity, b, d);
    assert ValidDefinition(def);
    MatchIsExactWhen(MatchEdge(e, r));
    assert Oriented(MatchEdge(e, r)) != DefinitionPairs(def) by {
      if MatchEdge(e, r).childRef == e.leftRef { assert q in Oriented(MatchEdge(e, r)); }
      else { assert Swap(p) in Oriented(MatchEdge(e, r)); }
    }
  }

  lemma NamesDiffer(entity: string, a: string, b: string)
    requires a != b
    ensures EndpointName(entity, a) != EndpointName(entity, b)
  {
    ColumnOfName(entity, a);
    ColumnOfName(entity, b);
  }

  lemma CanonicalSwap(x: string, y: string)
    ensures CanonicalPair(x, y) == CanonicalPair(y, x)
  {
    NameLeTotal(x, y);
  }

  // ---------------------------------------------------------------- the end-to-end promise

  /** Relationship ids are hashes of definitions, so equal ids mean equal definitions. */
  ghost predicate IdsIdentify(a: seq<Authorized>, b: seq<Authorized>) {
    forall r, s :: r in a && s in b && r.definition.relationshipId == s.definition.relationshipId ==> r.definition == s.definition
  }

  /** The triple that the proof edge of a tree edge contributes. */
  lemma TreeTriple(q: Request, graph: seq<Authorized>, t: Tree, i: nat)
    requires ValidRequest(q) && Growth(SearchOf(q, graph), q.startRef, t) && i < |t|
    ensures var b := BoundOf(t[i]);
      && ProofTriples(ProofEdges(t))[i] == [b.relationship.definition.relationshipId, b.child, b.parent]
      && b.relationship in graph && Typed(EntityMap(q.refs), b)
  {
    TreeEdgeFacts(q, graph, t, i);
  }

  /** The tree edge that a matched edge of a bound query stands for. */
  lemma CounterpartEdge(refs: seq<EntityRef>, matched: seq<MatchedEdge>, p: JoinProof, t: Tree, m: map<string, string>, i: nat) returns (j: nat)
    requires Binds(refs, matched, p, m) && EndsNamed(refs, matched) && i < |matched| && p.edges == ProofEdges(t)
    ensures j < |t| && matched[i].childRef in m && matched[i].parentRef in m
    ensures ProofTriples(ProofEdges(t))[j]
         == [matched[i].relationship.definition.relationshipId, m[matched[i].childRef], m[matched[i].parentRef]]
  {
    assert SqlTriples(matched, m)[i] in multiset(ProofTriples(p.edges));
    j :| 0 <= j < |t| && ProofTriples(p.edges)[j] == SqlTriples(matched, m)[i];
  }

  lemma SameTriple(a: string, b: string, c: string, x: string, y: string, z: string)
    requires [a, b, c] == [x, y, z]
    ensures a == x && b == y && c == z
  {
    assert [a, b, c][0] == [x, y, z][0] && [a, b, c][1] == [x, y, z][1] && [a, b, c][2] == [x, y, z][2];
  }

  /** Each matched edge of a bound query joins instances of the entities its relationship joins. */
  lemma BoundEdgeTyped(q: Request, planned: seq<Authorized>, p: JoinProof, t: Tree, refs: seq<EntityRef>,
                       matched: seq<MatchedEdge>, m: map<string, string>, current: seq<Authorized>, i: nat)
    requires ValidRequest(q) && Growth(SearchOf(q, planned), q.startRef, t) && DistinctRefs(q.refs)
    requires p.edges == ProofEdges(t) && p.entityRefs == Sorted(q.refs, RefLe)
    requires DistinctRefs(refs) && Binds(refs, matched, p, m) && EndsNamed(refs, matched) && i < |matched|
    requires matched[i].relationship in current && IdsIdentify(planned, current)
    ensures Typed(EntityMap(refs), BoundMatched(matched)[i])
  {
    var j := CounterpartEdge(refs, matched, p, t, m, i);
    TreeTriple(q, planned, t, j);
    var b, e := BoundOf(t[j]), matched[i];
    SameTriple(e.relationship.definition.relationshipId, m[e.childRef], m[e.parentRef], b.relationship.definition.relationshipId, b.child, b.parent);
    InstanceEntity(q, refs, p, m, e.childRef, b.child);
    InstanceEntity(q, refs, p, m, e.parentRef, b.parent);
  }

  lemma InstanceEntity(q: Request, refs: seq<EntityRef>, p: JoinProof, m: map<string, string>, k: string, n: string)
    requires DistinctRefs(refs) && DistinctRefs(q.refs) && p.entityRefs == Sorted(q.refs, RefLe)
    requires Renames(m, refs, p.entityRefs) && k in RefNames(refs) && m[k] == n
    ensures k in EntityMap(refs) && n in EntityMap(q.refs) && EntityMap(refs)[k] == EntityMap(q.refs)[n]
  {
    var r :| r in refs && r.ref == k;
    OrderedRefs(q.refs);
    RefEntity(refs, r);
    assert EntityRef(n, r.entity) in p.entityRefs;
    RefEntity(q.refs, EntityRef(n, r.entity));
  }

  lemma MatchedSides(edges: seq<NormalizedEdge>, current: seq<Authorized>, i: nat)
    requires Unmatched(edges, current) == 0 && i < |edges|
    ensures |AllMatched(edges, current)| == |edges|
    ensures var e := AllMatched(edges, current)[i];
      e.normalized == edges[i] && e.relationship in current && {e.childRef, e.parentRef} == {edges[i].leftRef, edges[i].rightRef}
  {
    AllMatchedFacts(edges, current);
  }

  /** The graph, its matches and its binding to the proof, as validation accepts them. */
  ghost predicate Accepted(graph: NormalizedGraph, current: seq<Authorized>, proof: JoinProof, m: map<string, string>, grain: string) {
    && WellFormedGraph(graph) && Unmatched(graph.edges, current) == 0
    && Binds(graph.entityRefs, AllMatched(graph.edges, current), proof, m)
    && grain in m && NeverFansOut(grain, Links(BoundMatched(AllMatched(graph.edges, current))))
  }

  lemma AcceptedTyped(q: Request, planned: seq<Authorized>, plan: JoinProof, p: JoinProof, graph: NormalizedGraph,
                      current: seq<Authorized>, m: map<string, string>)
    requires Plan(q, planned) == Ok(plan) && Offered(plan, p) && IdsIdentify(planned, current)
    requires WellFormedGraph(graph) && Unmatched(graph.edges, current) == 0
    requires Binds(graph.entityRefs, AllMatched(graph.edges, current), p, m)
    ensures AllTyped(EntityMap(graph.entityRefs), BoundMatched(AllMatched(graph.edges, current)))
  {
    var matched := AllMatched(graph.edges, current);
    var t := OfferedTree(q, planned, plan, p);
    MatchedEndsNamed(graph.entityRefs, graph.edges, current);
    DistinctExactly(q.refs);
    AllMatchedFacts(graph.edges, current);
    forall i | 0 <= i < |matched| ensures Typed(EntityMap(graph.entityRefs), BoundMatched(matched)[i]) {
      MatchedSides(graph.edges, current, i);
      BoundEdgeTyped(q, planned, p, t, graph.entityRefs, matched, m, current, i);
    }
  }

  lemma TypedIsCovered(graph: NormalizedGraph, current: seq<Authorized>)
    requires WellFormedGraph(graph) && Unmatched(graph.edges, current) == 0 && Unmistakable(graph, current)
    requires AllTyped(EntityMap(graph.entityRefs), BoundMatched(AllMatched(graph.edges, current)))
    ensures AllCovered(graph.edges, current)
  {
    var matched := AllMatched(graph.edges, current);
    AllMatchedFacts(graph.edges, current);
    forall i | 0 <= i < |matched| ensures Covers(matched[i]) {
      var e, r := graph.edges[i], MatchRelationship(graph.edges[i], current).value;
      assert Typed(EntityMap(graph.entityRefs), BoundMatched(matched)[i]);
      assert OneReading(r.definition);
      if |r.definition.child.columns| == 1 {
        CoversSingleColumn(e, r);
      } else {
        CoversAcrossEntities(EntityMap(graph.entityRefs), e, r);
      }
    }
  }

  lemma AcceptedMeasured(edges: seq<NormalizedEdge>, current: seq<Authorized>, db: Database)
    requires Unmatched(edges, current) == 0 && AllMeasuredOn(db, current)
    ensures EdgesMeasuredOn(db, BoundMatched(AllMatched(edges, current)))
  {
    var matched := AllMatched(edges, current);
    AllMatchedFacts(edges, current);
    forall i | 0 <= i < |matched| ensures MeasuredOn(db, BoundMatched(matched)[i].relationship) {
      MatchedSides(edges, current, i);
    }
  }

  lemma AcceptedEdges(q: Request, planned: seq<Authorized>, plan: JoinProof, p: JoinProof, graph: NormalizedGraph,
                      current: seq<Authorized>, db: Database, m: map<string, string>, grain: string)
    requires Plan(q, planned) == Ok(plan) && Offered(plan, p) && IdsIdentify(planned, current) && AllMeasuredOn(db, current)
    requires Accepted(graph, current, p, m, grain)
    ensures SoundEdges(db, EntityMap(graph.entityRefs), grain, BoundMatched(AllMatched(graph.edges, current)))
  {
    OfferedProofIsTree(q, planned, plan, p);
    MatchedEndsNamed(graph.entityRefs, graph.edges, current);
    BoundIsTree(graph.entityRefs, AllMatched(graph.edges, current), p, m);
    NamesAreKeys(graph.entityRefs);
    AcceptedTyped(q, planned, plan, p, graph, current, m);
    AcceptedMeasured(graph.edges, current, db);
  }

  lemma NamesAreKeys(refs: seq<EntityRef>)
    ensures RefNames(refs) == EntityMap(refs).Keys
  {
    forall n ensures n in RefNames(refs) <==> n in EntityMap(refs) {
      EntityMapFinds(refs, n);
    }
  }

  lemma SqlRowIsJoinRow(db: Database, entities: map<string, string>, edges: seq<NormalizedEdge>, matched: seq<MatchedEdge>, row: map<string, nat>)
    requires SqlJoinRow(db, entities, edges, row) && AllTyped(entities, BoundMatched(matched)) && |matched| == |edges|
    requires forall i :: 0 <= i < |matched| ==>
      && matched[i].normalized == edges[i] && Covers(matched[i])
      && {matched[i].childRef, matched[i].parentRef} == {edges[i].leftRef, edges[i].rightRef}
    ensures JoinRow(db, entities, JoinEdges(BoundMatched(matched)), row)
  {
    var joins := JoinEdges(BoundMatched(matched));
    forall e | e in joins
      ensures |e.definition.child.columns| == |e.definition.parent.columns| && EdgeHolds(db, entities, e, row)
    {
      var i :| 0 <= i < |joins| && joins[i] == e;
      assert Typed(entities, BoundMatched(matched)[i]);
      assert SqlEdgeHolds(db, entities, edges[i], row);
      CoveringEdgeHolds(db, entities, matched[i], row);
    }
  }

  /** A query that passed against a planner's proof never repeats a row of the checked grain:
      two rows of its inner join that agree on the grain are the same row. */
  lemma AcceptedSqlKeepsGrain(q: Request, planned: seq<Authorized>, plan: JoinProof, p: JoinProof, graph: NormalizedGraph,
                              current: seq<Authorized>, db: Database, m: map<string, string>, grain: string,
                              x: map<string, nat>, y: map<string, nat>)
    requires Plan(q, planned) == Ok(plan) && Offered(plan, p) && IdsIdentify(planned, current) && AllMeasuredOn(db, current)
    requires Accepted(graph, current, p, m, grain) && AllCovered(graph.edges, current)
    requires SqlJoinRow(db, EntityMap(graph.entityRefs), graph.edges, x) && SqlJoinRow(db, EntityMap(graph.entityRefs), graph.edges, y)
    requires grain in x && grain in y && x[grain] == y[grain]
    ensures x == y
  {
    AcceptedEdges(q, planned, plan, p, graph, current, db, m, grain);
    AcceptedRows(db, graph, current, x);
    AcceptedRows(db, graph, current, y);
    SoundEdgesKeepGrain(db, EntityMap(graph.entityRefs), grain, BoundMatched(AllMatched(graph.edges, current)), x, y);
  }

  lemma AcceptedRows(db: Database, graph: NormalizedGraph, current: seq<Authorized>, x: map<string, nat>)
    requires Unmatched(graph.edges, current) == 0 && AllCovered(graph.edges, current)
    requires AllTyped(EntityMap(graph.entityRefs), BoundMatched(AllMatched(graph.edges, current)))
    requires SqlJoinRow(db, EntityMap(graph.entityRefs), graph.edges, x)
    ensures JoinRow(db, EntityMap(graph.entityRefs), JoinEdges(BoundMatched(AllMatched(graph.edges, current))), x)
  {
    AllMatchedFacts(graph.edges, current);
    forall i | 0 <= i < |graph.edges|
      ensures var e := AllMatched(graph.edges, current)[i];
        e.normalized == graph.edges[i] && {e.childRef, e.parentRef} == {graph.edges[i].leftRef, graph.edges[i].rightRef}
    {
      MatchedSides(graph.edges, current, i);
    }
    SqlRowIsJoinRow(db, EntityMap(graph.entityRefs), graph.edges, AllMatched(graph.edges, current), x);
  }
}
