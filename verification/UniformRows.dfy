/** Queries without a proof, judged over all databases: the grain is kept on every one exactly when the
    joins reach every instance. */
module UniformRows {
  import opened Domain
  import opened Ordering
  import opened Relational
  import opened Evidence
  import opened CandidateEdges
  import opened GrainWalk
  import opened QueueWalk
  import opened Rings
  import opened JoinSafety
  import opened Planner
  import opened SqlGraph
  import opened SqlCanonical
  import opened SqlMatching
  import opened SqlValidation
  import opened SqlSafety
  import opened ProofBoundSql
  import opened ProoflessSql

  // ---------------------------------------------------------------- other evidence for the same relationships

  /** The same relationships in the same order, whatever was measured for them. */
  ghost predicate SameDefinitions(a: seq<Authorized>, b: seq<Authorized>) {
    |a| == |b| && forall i :: 0 <= i < |a| ==> a[i].definition == b[i].definition
  }

  lemma {:induction false} MatchIsSame(e: NormalizedEdge, a: seq<Authorized>, b: seq<Authorized>)
    requires SameDefinitions(a, b)
    ensures MatchRelationship(e, a).Some? <==> MatchRelationship(e, b).Some?
    ensures MatchRelationship(e, a).Some? ==> MatchRelationship(e, a).value.definition == MatchRelationship(e, b).value.definition
  {
    if a != [] {
      var n := |a| - 1;
      MatchIsSame(e, a[..n], b[..n]);
      assert EdgeMatches(e, a[n]) <==> EdgeMatches(e, b[n]);
    }
  }

  /** Matched in both, an edge gets the same sides. */
  ghost predicate SameSides(x: MatchedEdge, y: MatchedEdge) {
    x.normalized == y.normalized && x.childRef == y.childRef && x.parentRef == y.parentRef
  }

  lemma MatchesAreSame(edges: seq<NormalizedEdge>, a: seq<Authorized>, b: seq<Authorized>)
    requires SameDefinitions(a, b) && Unmatched(edges, a) == 0
    ensures Unmatched(edges, b) == 0 && |AllMatched(edges, a)| == |AllMatched(edges, b)| == |edges|
    ensures forall i :: 0 <= i < |edges| ==> SameSides(AllMatched(edges, a)[i], AllMatched(edges, b)[i])
  {
    AllMatchedFacts(edges, a);
    forall i | 0 <= i < |edges| ensures MatchRelationship(edges[i], b).Some? {
      MatchIsSame(edges[i], a, b);
    }
    NoneUnmatched(edges, b);
    AllMatchedFacts(edges, b);
    forall i | 0 <= i < |edges| ensures SameSides(AllMatched(edges, a)[i], AllMatched(edges, b)[i]) {
      MatchIsSame(edges[i], a, b);
    }
  }

  ghost predicate SameEnds(a: seq<Link>, b: seq<Link>) {
    |a| == |b| && forall i :: 0 <= i < |a| ==> a[i].a == b[i].a && a[i].b == b[i].b
  }

  lemma JoinsTheSame(a: seq<Link>, b: seq<Link>, x: string, y: string)
    requires SameEnds(a, b) && Joined(a, x, y)
    ensures Joined(b, x, y)
  {
    var bound :| Step(a, x, y, bound);
    var l :| l in a && ((l.a == x && l.b == y && l.ab == bound) || (l.b == x && l.a == y && l.ba == bound));
    var i :| 0 <= i < |a| && a[i] == l;
    assert b[i] in b;
    assert Step(b, x, y, if l.a == x && l.b == y then b[i].ab else b[i].ba);
  }

  lemma ReachesTheSame(a: seq<Link>, b: seq<Link>, grain: string, n: string)
    requires SameEnds(a, b) && Reached(a, grain, n)
    ensures Reached(b, grain, n)
  {
    var w :| Walk(a, w) && w[0] == grain && w[|w| - 1] == n;
    forall k | 0 <= k < |w| - 1 ensures Joined(b, w[k], w[k + 1]) {
      assert Joined(a, w[k], w[k + 1]);
      JoinsTheSame(a, b, w[k], w[k + 1]);
    }
    assert Walk(b, w);
  }

  function QueryLinks(graph: NormalizedGraph, current: seq<Authorized>): seq<Link> {
    Links(BoundMatched(AllMatched(graph.edges, current)))
  }

  lemma LinksHaveSameEnds(graph: NormalizedGraph, a: seq<Authorized>, b: seq<Authorized>)
    requires SameDefinitions(a, b) && Unmatched(graph.edges, a) == 0
    ensures SameEnds(QueryLinks(graph, a), QueryLinks(graph, b)) && SameEnds(QueryLinks(graph, b), QueryLinks(graph, a))
  {
    MatchesAreSame(graph.edges, a, b);
    forall i | 0 <= i < |graph.edges|
      ensures QueryLinks(graph, a)[i].a == QueryLinks(graph, b)[i].a && QueryLinks(graph, a)[i].b == QueryLinks(graph, b)[i].b
    {
      assert SameSides(AllMatched(graph.edges, a)[i], AllMatched(graph.edges, b)[i]);
    }
  }

  // ---------------------------------------------------------------- two rows of one value each

  /** Every column of row `i` holds `i`. */
  function UniformRow(columns: set<string>, i: nat): Row {
    map c | c in columns :: Known(i)
  }

  function UniformTable(columns: set<string>): Table {
    [UniformRow(columns, 0), UniformRow(columns, 1)]
  }

  function UniformDatabase(entities: set<string>, columns: set<string>): Database {
    map e | e in entities :: UniformTable(columns)
  }

  function ColumnsOf(d: Definition): set<string> {
    (set c | c in d.child.columns) + (set c | c in d.parent.columns)
  }

  function AllColumns(current: seq<Authorized>): set<string> {
    if current == [] then {} else AllColumns(current[1..]) + ColumnsOf(current[0].definition)
  }

  lemma {:induction false} ColumnsAmongAll(current: seq<Authorized>, r: Authorized)
    requires r in current
    ensures ColumnsOf(r.definition) <= AllColumns(current)
  {
    if r != current[0] {
      ColumnsAmongAll(current[1..], r);
    }
  }

  lemma UniformCells(columns: set<string>, i: nat, key: seq<string>)
    requires forall k :: 0 <= k < |key| ==> key[k] in columns
    ensures HasKey(UniformRow(columns, i), key)
    ensures forall k :: 0 <= k < |key| ==> Cells(UniformRow(columns, i), key)[k] == Known(i)
  {
  }

  lemma UniformUnique(columns: set<string>, key: seq<string>)
    requires key != [] && forall k :: 0 <= k < |key| ==> key[k] in columns
    ensures UniqueKey(UniformTable(columns), key)
  {
    var t := UniformTable(columns);
    UniformCells(columns, 0, key);
    UniformCells(columns, 1, key);
    assert Cells(t[0], key)[0] != Cells(t[1], key)[0];
  }

  lemma UniformMatches(columns: set<string>, d: Definition, i: nat)
    requires ValidDefinition(d) && ColumnsOf(d) <= columns && i < 2
    ensures Matches(d, UniformTable(columns)[i], UniformTable(columns)[i])
  {
    forall k | 0 <= k < |d.child.columns| ensures d.child.columns[k] in columns && d.parent.columns[k] in columns {
      assert d.child.columns[k] in ColumnsOf(d) && d.parent.columns[k] in ColumnsOf(d);
    }
  }

  lemma UniformFacts(columns: set<string>, d: Definition)
    requires ValidDefinition(d) && ColumnsOf(d) <= columns
    ensures UniqueKey(UniformTable(columns), d.child.columns) && UniqueKey(UniformTable(columns), d.parent.columns)
    ensures NoOrphans(UniformTable(columns), UniformTable(columns), d)
  {
    forall k | 0 <= k < |d.child.columns| ensures d.child.columns[k] in columns && d.parent.columns[k] in columns {
      assert d.child.columns[k] in ColumnsOf(d) && d.parent.columns[k] in ColumnsOf(d);
    }
    UniformUnique(columns, d.child.columns);
    UniformUnique(columns, d.parent.columns);
    forall i: nat | i < 2 ensures Matches(d, UniformTable(columns)[i], UniformTable(columns)[i]) {
      UniformMatches(columns, d, i);
    }
  }

  // ---------------------------------------------------------------- measuring again

  /** The relationship with evidence measured on this database. */
  function Remeasured(db: Database, r: Authorized): Authorized
    requires ValidDefinition(r.definition)
  {
    var record := Verify(db, Seed(r.definition, r.evidence.provenance, r.declared), r.evidence.snapshotId);
    Authorized(r.definition, record, Authorize(record, r.evidence.snapshotId, r.authorization.policyVersion), r.declared)
  }

  ghost predicate AllValid(current: seq<Authorized>) {
    forall r :: r in current ==> ValidDefinition(r.definition)
  }

  ghost predicate AllUsable(current: seq<Authorized>) {
    forall r :: r in current ==> r.authorization.usable
  }

  lemma RemeasuredFacts(entities: set<string>, columns: set<string>, r: Authorized)
    requires ValidDefinition(r.definition) && r.definition.child.entity in entities && r.definition.parent.entity in entities
    requires ColumnsOf(r.definition) <= columns
    ensures var m := Remeasured(UniformDatabase(entities, columns), r);
      && MeasuredOn(UniformDatabase(entities, columns), m) && m.authorization.usable
      && m.evidence.measurements.maxParentsPerChild <= 1 && m.evidence.measurements.maxChildrenPerParent <= 1
  {
    var db, d := UniformDatabase(entities, columns), r.definition;
    UniformFacts(columns, d);
    assert TableOf(db, d.child.entity) == UniformTable(columns) && TableOf(db, d.parent.entity) == UniformTable(columns);
    var s := Seed(d, r.evidence.provenance, r.declared);
    AuthorizedExactly(db, s, r.evidence.snapshotId, r.evidence.snapshotId, r.authorization.policyVersion);
    LargestGroupAtMostOne(UniformTable(columns), d.child.columns);
    LargestGroupAtMostOne(UniformTable(columns), d.parent.columns);
  }

  ghost function AllRemeasured(db: Database, current: seq<Authorized>): (r: seq<Authorized>)
    requires AllValid(current)
    ensures |r| == |current| && forall i :: 0 <= i < |current| ==> ValidDefinition(current[i].definition) && r[i] == Remeasured(db, current[i])
  {
    seq(|current|, i requires 0 <= i < |current| => assert current[i] in current; Remeasured(db, current[i]))
  }

  /** The database on which every entity of the query and of the relationships has the two uniform rows. */
  function UniformFor(graph: NormalizedGraph, current: seq<Authorized>): Database {
    UniformDatabase(AllEntities(graph, current), AllColumns(current))
  }

  ghost predicate AllOneToOne(current: seq<Authorized>) {
    forall r :: r in current ==>
      r.evidence.measurements.maxParentsPerChild <= 1 && r.evidence.measurements.maxChildrenPerParent <= 1
  }

  lemma UniformGraphFacts(graph: NormalizedGraph, current: seq<Authorized>)
    requires AllValid(current)
    ensures var db := UniformFor(graph, current);
      && SameDefinitions(current, AllRemeasured(db, current)) && AllMeasuredOn(db, AllRemeasured(db, current))
      && AllUsable(AllRemeasured(db, current)) && AllOneToOne(AllRemeasured(db, current))
  {
    var db := UniformFor(graph, current);
    var other := AllRemeasured(db, current);
    forall m | m in other
      ensures MeasuredOn(db, m) && m.authorization.usable
      ensures m.evidence.measurements.maxParentsPerChild <= 1 && m.evidence.measurements.maxChildrenPerParent <= 1
    {
      var i :| 0 <= i < |other| && other[i] == m;
      assert current[i] in current;
      ColumnsAmongAll(current, current[i]);
      RemeasuredFacts(AllEntities(graph, current), AllColumns(current), current[i]);
    }
  }

  // ---------------------------------------------------------------- the query passes on it

  lemma OneToOneNeverFans(graph: NormalizedGraph, current: seq<Authorized>, grain: string)
    requires Unmatched(graph.edges, current) == 0 && AllOneToOne(current)
    ensures NeverFansOut(grain, QueryLinks(graph, current))
  {
    var links := QueryLinks(graph, current);
    AllMatchedFacts(graph.edges, current);
    forall w, bound | EndsWith(links, grain, w, bound) ensures bound <= 1 {
      var l :| l in links && ((l.a == w[|w| - 2] && l.b == w[|w| - 1] && l.ab == bound) || (l.b == w[|w| - 2] && l.a == w[|w| - 1] && l.ba == bound));
      var i :| 0 <= i < |links| && links[i] == l;
      assert AllMatched(graph.edges, current)[i].relationship in current;
    }
  }

  lemma NullableIsSame(graph: NormalizedGraph, a: seq<Authorized>, b: seq<Authorized>)
    requires SameDefinitions(a, b) && Unmatched(graph.edges, a) == 0
    ensures NullableRefs(AllMatched(graph.edges, b)) <= NullableRefs(AllMatched(graph.edges, a))
  {
    MatchesAreSame(graph.edges, a, b);
    var x, y := AllMatched(graph.edges, a), AllMatched(graph.edges, b);
    forall n | n in NullableRefs(y) ensures n in NullableRefs(x) {
      var e :| e in y && e.normalized.kind == LeftOuter && e.normalized.rightRef == n;
      var i :| 0 <= i < |y| && y[i] == e;
      assert SameSides(x[i], y[i]) && x[i] in x;
    }
  }

  lemma ReadTheSame(graph: NormalizedGraph, a: seq<Authorized>, b: seq<Authorized>)
    requires SameDefinitions(a, b) && Unmistakable(graph, a) && AllApart(graph, a)
    ensures Unmistakable(graph, b) && AllApart(graph, b)
  {
    forall r | r in b ensures OneReading(r.definition) && r.definition.child.entity in AllEntities(graph, a) && r.definition.parent.entity in AllEntities(graph, a) {
      var i :| 0 <= i < |b| && b[i] == r;
      assert a[i] in a;
    }
    ApartAmongFewer(AllEntities(graph, a), AllEntities(graph, b));
  }

  lemma StillPasses(graph: NormalizedGraph, current: seq<Authorized>, other: seq<Authorized>, definitions: seq<EntityDefinition>,
                    expectedGrainRef: Option<string>, k: string)
    requires PassesAlone(graph, current, definitions, expectedGrainRef, k) && SameDefinitions(current, other) && AllOneToOne(other)
    ensures PassesAlone(graph, other, definitions, expectedGrainRef, k)
  {
    MatchesAreSame(graph.edges, current, other);
    NullableIsSame(graph, current, other);
    ReadTheSame(graph, current, other);
    forall n | ExpectedAt(graph.entityRefs, None, None, expectedGrainRef, n)
      ensures GrainAccepted(graph.entityRefs, AllMatched(graph.edges, other), definitions, n)
    {
      assert GrainAccepted(graph.entityRefs, AllMatched(graph.edges, current), definitions, n);
      OneToOneNeverFans(graph, other, n);
    }
  }

  // ---------------------------------------------------------------- and repeats the grain

  lemma UniformPairHolds(entities: map<string, string>, e: NormalizedEdge, r: Authorized, columns: set<string>, p: Pair, i: nat)
    requires EdgeMatches(e, r) && TypedEndpoints(entities, e) && p in e.pairs && EntitiesApart(NamesOf(entities, e, r.definition))
    requires ColumnsOf(r.definition) <= columns && i < 2
    ensures PairHolds(UniformTable(columns)[i], UniformTable(columns)[i], entities[e.leftRef], entities[e.rightRef], p)
  {
    var d := r.definition;
    var j := PairOfDefinition(e, r, p);
    PairSides(entities, e, d, p, j);
    ColumnOfName(d.child.entity, d.child.columns[j]);
    ColumnOfName(d.parent.entity, d.parent.columns[j]);
    assert d.child.columns[j] in ColumnsOf(d) && d.parent.columns[j] in ColumnsOf(d);
  }

  lemma UniformEdgeHolds(graph: NormalizedGraph, current: seq<Authorized>, i: nat, row: map<string, nat>)
    requires WellFormedGraph(graph) && Unmatched(graph.edges, current) == 0 && Unmistakable(graph, current) && AllApart(graph, current)
    requires i < |graph.edges| && row.Keys <= EntityMap(graph.entityRefs).Keys && (forall n :: n in row ==> row[n] < 2)
    requires graph.edges[i].leftRef in row && graph.edges[i].rightRef in row && row[graph.edges[i].leftRef] == row[graph.edges[i].rightRef]
    ensures SqlEdgeHolds(UniformFor(graph, current), EntityMap(graph.entityRefs), graph.edges[i], row)
  {
    var e, entities, columns := graph.edges[i], EntityMap(graph.entityRefs), AllColumns(current);
    AllMatchedFacts(graph.edges, current);
    var r := MatchRelationship(e, current).value;
    NamesAmongAll(graph, current, e, r);
    ApartAmongFewer(AllEntities(graph, current), NamesOf(entities, e, r.definition));
    ColumnsAmongAll(current, r);
    EntityNamed(graph.entityRefs, e.leftRef);
    EntityNamed(graph.entityRefs, e.rightRef);
    forall p | p in PairSet(e.pairs)
      ensures PairHolds(UniformTable(columns)[row[e.leftRef]], UniformTable(columns)[row[e.leftRef]], entities[e.leftRef], entities[e.rightRef], p)
    {
      UniformPairHolds(entities, e, r, columns, p, row[e.leftRef]);
    }
  }

  /** The first uniform row wherever walks from the grain lead, and this one elsewhere. */
  ghost function RowApart(graph: NormalizedGraph, links: seq<Link>, grain: string, elsewhere: nat): map<string, nat> {
    map n | n in EntityMap(graph.entityRefs) :: if Reached(links, grain, n) then 0 else elsewhere
  }

  lemma RowApartEdgeHolds(graph: NormalizedGraph, current: seq<Authorized>, grain: string, elsewhere: nat, i: nat)
    requires WellFormedGraph(graph) && Unmatched(graph.edges, current) == 0 && Unmistakable(graph, current) && AllApart(graph, current)
    requires elsewhere < 2 && i < |graph.edges|
    ensures SqlEdgeHolds(UniformFor(graph, current), EntityMap(graph.entityRefs), graph.edges[i], RowApart(graph, QueryLinks(graph, current), grain, elsewhere))
  {
    NamesAreKeys(graph.entityRefs);
    EdgesJoinSides(graph, current, grain, i);
    UniformEdgeHolds(graph, current, i, RowApart(graph, QueryLinks(graph, current), grain, elsewhere));
  }

  lemma RowApartHolds(graph: NormalizedGraph, current: seq<Authorized>, grain: string, elsewhere: nat)
    requires WellFormedGraph(graph) && Unmatched(graph.edges, current) == 0 && Unmistakable(graph, current) && AllApart(graph, current)
    requires elsewhere < 2
    ensures SqlJoinRow(UniformFor(graph, current), EntityMap(graph.entityRefs), graph.edges, RowApart(graph, QueryLinks(graph, current), grain, elsewhere))
  {
    var db, entities := UniformFor(graph, current), EntityMap(graph.entityRefs);
    var row := RowApart(graph, QueryLinks(graph, current), grain, elsewhere);
    forall n | n in row ensures row[n] < |TableOf(db, entities[n])| {
      EntityNamed(graph.entityRefs, n);
    }
    forall i | 0 <= i < |graph.edges| ensures SqlEdgeHolds(db, entities, graph.edges[i], row) {
      RowApartEdgeHolds(graph, current, grain, elsewhere, i);
    }
  }

  /** The two rows agree on the grain and differ at an instance that no walk from it reaches. */
  lemma RowsApartDiffer(graph: NormalizedGraph, links: seq<Link>, grain: string, n: string)
    requires grain in EntityMap(graph.entityRefs) && n in EntityMap(graph.entityRefs) && !Reached(links, grain, n)
    ensures var x, y := RowApart(graph, links, grain, 0), RowApart(graph, links, grain, 1);
      grain in x && grain in y && x[grain] == y[grain] && x != y
  {
    assert Reached(links, grain, grain) by {
      assert Walk(links, [grain]);
    }
    assert RowApart(graph, links, grain, 0)[n] != RowApart(graph, links, grain, 1)[n];
  }

  lemma UniformRowsRepeat(graph: NormalizedGraph, current: seq<Authorized>, grain: string, n: string)
    requires WellFormedGraph(graph) && Unmatched(graph.edges, current) == 0 && Unmistakable(graph, current) && AllApart(graph, current)
    requires grain in RefNames(graph.entityRefs) && n in RefNames(graph.entityRefs) && !Reached(QueryLinks(graph, current), grain, n)
    ensures !NeverRepeats(UniformFor(graph, current), graph, grain)
  {
    var links := QueryLinks(graph, current);
    NamesAreKeys(graph.entityRefs);
    RowApartHolds(graph, current, grain, 0);
    RowApartHolds(graph, current, grain, 1);
    RowsApartDiffer(graph, links, grain, n);
    RepeatedBy(UniformFor(graph, current), graph, grain, RowApart(graph, links, grain, 0), RowApart(graph, links, grain, 1));
  }

  // ---------------------------------------------------------------- on every database

  ghost predicate AllReached(graph: NormalizedGraph, current: seq<Authorized>, grain: string) {
    forall n :: n in RefNames(graph.entityRefs) ==> Reached(QueryLinks(graph, current), grain, n)
  }

  /** On no database, measured for these relationships, does the passing query repeat a row of the grain. */
  ghost predicate KeepsGrainEverywhere(graph: NormalizedGraph, current: seq<Authorized>, definitions: seq<EntityDefinition>,
                                       expectedGrainRef: Option<string>, k: string) {
    forall db, other ::
      (SameDefinitions(current, other) && AllMeasuredOn(db, other) && AllUsable(other)
       && PassesAlone(graph, other, definitions, expectedGrainRef, k)) ==> NeverRepeats(db, graph, k)
  }

  lemma ReachedOnOther(graph: NormalizedGraph, current: seq<Authorized>, other: seq<Authorized>, grain: string)
    requires SameDefinitions(current, other) && Unmatched(graph.edges, current) == 0
    ensures AllReached(graph, current, grain) <==> AllReached(graph, other, grain)
  {
    LinksHaveSameEnds(graph, current, other);
    forall n | n in RefNames(graph.entityRefs)
      ensures Reached(QueryLinks(graph, current), grain, n) <==> Reached(QueryLinks(graph, other), grain, n)
    {
      if Reached(QueryLinks(graph, current), grain, n) {
        ReachesTheSame(QueryLinks(graph, current), QueryLinks(graph, other), grain, n);
      }
      if Reached(QueryLinks(graph, other), grain, n) {
        ReachesTheSame(QueryLinks(graph, other), QueryLinks(graph, current), grain, n);
      }
    }
  }

  lemma ApartRepeatsSomewhere(graph: NormalizedGraph, current: seq<Authorized>, definitions: seq<EntityDefinition>,
                              expectedGrainRef: Option<string>, k: string, n: string)
    requires PassesAlone(graph, current, definitions, expectedGrainRef, k) && AllValid(current)
    requires k in RefNames(graph.entityRefs) && n in RefNames(graph.entityRefs) && !Reached(QueryLinks(graph, current), k, n)
    ensures !KeepsGrainEverywhere(graph, current, definitions, expectedGrainRef, k)
  {
    var db := UniformFor(graph, current);
    var other := AllRemeasured(db, current);
    UniformGraphFacts(graph, current);
    StillPasses(graph, current, other, definitions, expectedGrainRef, k);
    UniformRowsRepeat(graph, current, k, n);
  }

  /** What a caller can see of the query: one that passes keeps the named grain on every database exactly
      when walks from the grain lead to every instance. */
  lemma KeepsGrainEverywhereExactly(graph: NormalizedGraph, current: seq<Authorized>, definitions: seq<EntityDefinition>,
                                    expectedGrainRef: Option<string>, k: string)
    requires PassesAlone(graph, current, definitions, expectedGrainRef, k) && AllValid(current)
    ensures KeepsGrainEverywhere(graph, current, definitions, expectedGrainRef, k) <==> AllReached(graph, current, k)
  {
    assert k in RefNames(graph.entityRefs);
    if AllReached(graph, current, k) {
      forall db, other | SameDefinitions(current, other) && AllMeasuredOn(db, other) && AllUsable(other)
          && PassesAlone(graph, other, definitions, expectedGrainRef, k)
        ensures NeverRepeats(db, graph, k)
      {
        ReachedOnOther(graph, current, other, k);
        ProoflessKeepsGrainExactly(db, graph, other, definitions, expectedGrainRef, k);
      }
    } else {
      var n :| n in RefNames(graph.entityRefs) && !Reached(QueryLinks(graph, current), k, n);
      ApartRepeatsSomewhere(graph, current, definitions, expectedGrainRef, k, n);
    }
  }
}
