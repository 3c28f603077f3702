/** Instances that validation refuses as optional, and the databases on which a row of the result lacks them. */
module LeftMissing {
  import opened Domain
  import opened Relational
  import opened Evidence
  import opened GrainWalk
  import opened JoinSafety
  import opened Planner
  import opened SqlGraph
  import opened SqlCanonical
  import opened SqlMatching
  import opened SqlValidation
  import opened SqlSafety
  import opened ProoflessSql
  import opened UniformRows
  import opened LeftJoins
  import opened LeftRows

  // ---------------------------------------------------------------- one row a table, with some columns filled

  function FilledColumns(filled: set<string>, entity: string): set<string> {
    set k | k in filled && ColumnOf(entity, k).Some? :: ColumnOf(entity, k).value
  }

  /** The columns among `filled` hold a value, the others are null. */
  function FilledRow(filled: set<string>, entity: string): Row {
    map c | c in FilledColumns(filled, entity) :: Known(0)
  }

  function FilledDatabase(entities: set<string>, filled: set<string>): Database {
    map e | e in entities :: [FilledRow(filled, e)]
  }

  lemma FilledCell(filled: set<string>, entity: string, c: string)
    ensures Read(FilledRow(filled, entity), c) == if EndpointName(entity, c) in filled then Known(0) else Null
  {
    ColumnOfName(entity, c);
    if c in FilledRow(filled, entity) {
      var k :| k in filled && ColumnOf(entity, k).Some? && ColumnOf(entity, k).value == c;
      NameOfColumn(entity, k);
    }
  }

  lemma FilledKey(filled: set<string>, entity: string, columns: seq<string>)
    ensures HasKey(FilledRow(filled, entity), columns) <==> forall j :: 0 <= j < |columns| ==> EndpointName(entity, columns[j]) in filled
  {
    forall j | 0 <= j < |columns| ensures Read(FilledRow(filled, entity), columns[j]).Known? <==> EndpointName(entity, columns[j]) in filled {
      FilledCell(filled, entity, columns[j]);
    }
  }

  /** Where the child's key is filled, so is the parent's. */
  ghost predicate ClosedUnder(filled: set<string>, d: Definition) {
    (forall j :: 0 <= j < |d.child.columns| ==> ChildName(d, j) in filled) ==> forall j :: 0 <= j < |d.parent.columns| ==> ParentName(d, j) in filled
  }

  lemma OneRowIsUnique(row: Row, columns: seq<string>)
    ensures UniqueKey([row], columns)
  {
  }

  lemma FilledHasNoOrphans(filled: set<string>, d: Definition)
    requires ValidDefinition(d) && ClosedUnder(filled, d)
    ensures NoOrphans([FilledRow(filled, d.child.entity)], [FilledRow(filled, d.parent.entity)], d)
  {
    var child, parent := FilledRow(filled, d.child.entity), FilledRow(filled, d.parent.entity);
    FilledKey(filled, d.child.entity, d.child.columns);
    if HasKey(child, d.child.columns) {
      forall j | 0 <= j < |d.child.columns|
        ensures Read(child, d.child.columns[j]).Known? && Read(child, d.child.columns[j]) == Read(parent, d.parent.columns[j])
      {
        assert ChildName(d, j) in filled && ParentName(d, j) in filled;
        FilledCell(filled, d.child.entity, d.child.columns[j]);
        FilledCell(filled, d.parent.entity, d.parent.columns[j]);
      }
      assert Matches(d, child, [parent][0]);
    }
  }

  lemma FilledRemeasured(entities: set<string>, filled: set<string>, r: Authorized)
    requires ValidDefinition(r.definition) && ClosedUnder(filled, r.definition)
    requires r.definition.child.entity in entities && r.definition.parent.entity in entities
    ensures var m := Remeasured(FilledDatabase(entities, filled), r);
      MeasuredOn(FilledDatabase(entities, filled), m) && m.authorization.usable
  {
    var db, d := FilledDatabase(entities, filled), r.definition;
    FilledHasNoOrphans(filled, d);
    OneRowIsUnique(FilledRow(filled, d.child.entity), d.child.columns);
    OneRowIsUnique(FilledRow(filled, d.parent.entity), d.parent.columns);
    AuthorizedExactly(db, Seed(d, r.evidence.provenance, r.declared), r.evidence.snapshotId, r.evidence.snapshotId, r.authorization.policyVersion);
  }

  function FilledFor(graph: NormalizedGraph, current: seq<Authorized>, filled: set<string>): Database {
    FilledDatabase(AllEntities(graph, current), filled)
  }

  ghost predicate AllClosed(current: seq<Authorized>, filled: set<string>) {
    forall i :: 0 <= i < |current| ==> ClosedUnder(filled, current[i].definition)
  }

  lemma FilledIsAuthorized(graph: NormalizedGraph, current: seq<Authorized>, filled: set<string>)
    requires AllValid(current) && AllClosed(current, filled)
    ensures var db := FilledFor(graph, current, filled);
      && SameDefinitions(current, AllRemeasured(db, current)) && AllMeasuredOn(db, AllRemeasured(db, current)) && AllUsable(AllRemeasured(db, current))
  {
    var db := FilledFor(graph, current, filled);
    var other := AllRemeasured(db, current);
    forall m | m in other ensures MeasuredOn(db, m) && m.authorization.usable {
      var i :| 0 <= i < |other| && other[i] == m;
      assert current[i] in current;
      FilledRemeasured(AllEntities(graph, current), filled, current[i]);
    }
  }

  // ---------------------------------------------------------------- which joins find a row

  /** All endpoints of the edge are filled. */
  predicate Filled(filled: set<string>, e: NormalizedEdge) {
    forall p :: p in e.pairs ==> p.0 in filled && p.1 in filled
  }

  lemma FilledPairHolds(filled: set<string>, left: string, right: string, p: Pair)
    requires ColumnOf(left, p.0).Some? && ColumnOf(right, p.1).Some?
    ensures PairHolds(FilledRow(filled, left), FilledRow(filled, right), left, right, p) <==> p.0 in filled && p.1 in filled
  {
    NameOfColumn(left, p.0);
    NameOfColumn(right, p.1);
    FilledCell(filled, left, ColumnOf(left, p.0).value);
    FilledCell(filled, right, ColumnOf(right, p.1).value);
  }

  /** Endpoints are written with the entities of their instances. */
  ghost predicate EndpointsTyped(graph: NormalizedGraph) {
    forall i :: 0 <= i < |graph.edges| ==> TypedEndpoints(EntityMap(graph.entityRefs), graph.edges[i])
  }

  lemma FilledTable(graph: NormalizedGraph, current: seq<Authorized>, filled: set<string>, n: string)
    requires n in EntityMap(graph.entityRefs)
    ensures TableOf(FilledFor(graph, current, filled), EntityMap(graph.entityRefs)[n]) == [FilledRow(filled, EntityMap(graph.entityRefs)[n])]
  {
    EntityNamed(graph.entityRefs, n);
  }

  lemma FilledEdgeHolds(graph: NormalizedGraph, current: seq<Authorized>, filled: set<string>, i: nat, row: map<string, nat>)
    requires EndpointsTyped(graph) && i < |graph.edges| && graph.edges[i].leftRef in row && graph.edges[i].rightRef in row
    requires row[graph.edges[i].leftRef] == 0 && row[graph.edges[i].rightRef] == 0
    ensures SqlEdgeHolds(FilledFor(graph, current, filled), EntityMap(graph.entityRefs), graph.edges[i], row) <==> Filled(filled, graph.edges[i])
  {
    var e, entities := graph.edges[i], EntityMap(graph.entityRefs);
    FilledTable(graph, current, filled, e.leftRef);
    FilledTable(graph, current, filled, e.rightRef);
    var left, right := entities[e.leftRef], entities[e.rightRef];
    forall p | p in e.pairs
      ensures PairHolds(FilledRow(filled, left), FilledRow(filled, right), left, right, p) <==> p.0 in filled && p.1 in filled
    {
      FilledPairHolds(filled, left, right, p);
    }
    assert forall p :: p in PairSet(e.pairs) <==> p in e.pairs;
  }

  // ---------------------------------------------------------------- the row that lacks what it can

  /** Some left join fills the instance in and finds nothing. */
  ghost predicate Cut(edges: seq<NormalizedEdge>, filled: set<string>, n: string) {
    exists i: nat :: FillsIn(edges, i, n) && !Filled(filled, edges[i])
  }

  /** The instance is cut, or left joins lead to it from one that is. */
  ghost predicate Missing(edges: seq<NormalizedEdge>, filled: set<string>, n: string) {
    exists w :: Chain(edges, w) && w[|w| - 1] == n && Cut(edges, filled, w[0])
  }

  /** The join must find a row: it is no left join, or what it fills in leads to an instance that another condition names. */
  ghost predicate MustFind(edges: seq<NormalizedEdge>, i: nat) {
    i < |edges| && (edges[i].kind != LeftOuter || LeadsToTouched(edges, edges[i].rightRef))
  }

  ghost predicate LeadsToTouched(edges: seq<NormalizedEdge>, n: string) {
    exists w :: Chain(edges, w) && w[0] == n && Touched(edges, w[|w| - 1])
  }

  /** The columns that the joins need to find rows, and all that these imply. */
  ghost predicate Suffices(graph: NormalizedGraph, current: seq<Authorized>, filled: set<string>) {
    AllClosed(current, filled) && forall i: nat :: MustFind(graph.edges, i) ==> Filled(filled, graph.edges[i])
  }

  lemma CutIsMissing(edges: seq<NormalizedEdge>, filled: set<string>, n: string)
    requires Cut(edges, filled, n)
    ensures Missing(edges, filled, n)
  {
    assert Chain(edges, [n]) && [n][0] == n;
  }

  lemma BelowMissing(edges: seq<NormalizedEdge>, filled: set<string>, p: string, n: string)
    requires Below(edges, p, n) && Missing(edges, filled, p)
    ensures Missing(edges, filled, n)
  {
    var w :| Chain(edges, w) && w[|w| - 1] == p && Cut(edges, filled, w[0]);
    var longer := w + [n];
    forall k | 0 <= k < |longer| - 1 ensures Below(edges, longer[k], longer[k + 1]) {
      if k < |w| - 1 { assert Below(edges, w[k], w[k + 1]); }
    }
    assert Chain(edges, longer) && longer[|longer| - 1] == n && longer[0] == w[0];
  }

  lemma MissingBecause(edges: seq<NormalizedEdge>, filled: set<string>, n: string)
    requires Missing(edges, filled, n)
    ensures Cut(edges, filled, n) || exists p :: Below(edges, p, n) && Missing(edges, filled, p)
  {
    var w :| Chain(edges, w) && w[|w| - 1] == n && Cut(edges, filled, w[0]);
    if |w| > 1 {
      var shorter := w[..|w| - 1];
      forall k | 0 <= k < |shorter| - 1 ensures Below(edges, shorter[k], shorter[k + 1]) {
        assert Below(edges, w[k], w[k + 1]);
      }
      assert Chain(edges, shorter) && shorter[0] == w[0];
      assert Below(edges, w[|w| - 2], w[|w| - 2 + 1]) && Missing(edges, filled, w[|w| - 2]);
    }
  }

  /** What another condition names is not missing. */
  lemma TouchedIsNotMissing(graph: NormalizedGraph, current: seq<Authorized>, filled: set<string>, n: string)
    requires Suffices(graph, current, filled) && Touched(graph.edges, n)
    ensures !Missing(graph.edges, filled, n)
  {
    forall w | Chain(graph.edges, w) && w[|w| - 1] == n ensures !Cut(graph.edges, filled, w[0]) {
      forall i: nat | FillsIn(graph.edges, i, w[0]) ensures Filled(filled, graph.edges[i]) {
        assert MustFind(graph.edges, i);
      }
    }
  }

  /** The only row of every table, without the missing instances. */
  ghost function RowLacking(graph: NormalizedGraph, filled: set<string>): map<string, nat> {
    map n | n in EntityMap(graph.entityRefs) && !Missing(graph.edges, filled, n) :: 0
  }

  lemma LackingEdgeHolds(graph: NormalizedGraph, current: seq<Authorized>, filled: set<string>, i: nat)
    requires WellFormedGraph(graph) && EndpointsTyped(graph) && Suffices(graph, current, filled) && i < |graph.edges|
    requires graph.edges[i].kind == LeftOuter ==> !Missing(graph.edges, filled, graph.edges[i].rightRef)
    ensures SqlEdgeHolds(FilledFor(graph, current, filled), EntityMap(graph.entityRefs), graph.edges[i], RowLacking(graph, filled))
  {
    var e := graph.edges[i];
    NamesAreRefs(graph, i);
    if e.kind == LeftOuter {
      assert FillsIn(graph.edges, i, e.rightRef) && Below(graph.edges, e.leftRef, e.rightRef);
      if !Filled(filled, e) { CutIsMissing(graph.edges, filled, e.rightRef); }
      if Missing(graph.edges, filled, e.leftRef) { BelowMissing(graph.edges, filled, e.leftRef, e.rightRef); }
    } else {
      assert Touched(graph.edges, e.leftRef) && Touched(graph.edges, e.rightRef) && MustFind(graph.edges, i);
      TouchedIsNotMissing(graph, current, filled, e.leftRef);
      TouchedIsNotMissing(graph, current, filled, e.rightRef);
    }
    FilledEdgeHolds(graph, current, filled, i, RowLacking(graph, filled));
  }

  lemma MissingFindsNothing(graph: NormalizedGraph, current: seq<Authorized>, filled: set<string>, n: string)
    requires WellFormedGraph(graph) && EndpointsTyped(graph) && Missing(graph.edges, filled, n) && n in EntityMap(graph.entityRefs)
    ensures !WouldDo(FilledFor(graph, current, filled), EntityMap(graph.entityRefs), graph.edges, n, RowLacking(graph, filled), 0)
  {
    var row := RowLacking(graph, filled);
    MissingBecause(graph.edges, filled, n);
    if Cut(graph.edges, filled, n) {
      var i: nat :| FillsIn(graph.edges, i, n) && !Filled(filled, graph.edges[i]);
      if graph.edges[i].leftRef in row { FilledEdgeHolds(graph, current, filled, i, row[n := 0]); }
      NamesAreRefs(graph, i);
      assert !SqlEdgeHolds(FilledFor(graph, current, filled), EntityMap(graph.entityRefs), graph.edges[i], row[n := 0]);
    } else {
      var p :| Below(graph.edges, p, n) && Missing(graph.edges, filled, p);
      BelowAmongRefs(graph, p, n);
      var i: nat :| FillsIn(graph.edges, i, n) && graph.edges[i].leftRef == p;
      assert !SqlEdgeHolds(FilledFor(graph, current, filled), EntityMap(graph.entityRefs), graph.edges[i], row[n := 0]);
    }
  }

  lemma MissingIsOptional(edges: seq<NormalizedEdge>, filled: set<string>, n: string)
    requires Missing(edges, filled, n)
    ensures Optional(edges, n)
  {
    MissingBecause(edges, filled, n);
    if Cut(edges, filled, n) {
      var i: nat :| FillsIn(edges, i, n) && !Filled(filled, edges[i]);
    } else {
      var p :| Below(edges, p, n) && Missing(edges, filled, p);
    }
  }

  lemma OneRowUnfilled(db: Database, entities: map<string, string>, edges: seq<NormalizedEdge>, n: string, row: map<string, nat>)
    requires n in entities && |TableOf(db, entities[n])| == 1 && Optional(edges, n) && !WouldDo(db, entities, edges, n, row, 0)
    ensures Unfilled(db, entities, edges, n, row)
  {
  }

  lemma MissingIsUnfilled(graph: NormalizedGraph, current: seq<Authorized>, filled: set<string>, n: string)
    requires WellFormedGraph(graph) && EndpointsTyped(graph) && Missing(graph.edges, filled, n) && n in EntityMap(graph.entityRefs)
    ensures Unfilled(FilledFor(graph, current, filled), EntityMap(graph.entityRefs), graph.edges, n, RowLacking(graph, filled))
  {
    FilledTable(graph, current, filled, n);
    MissingFindsNothing(graph, current, filled, n);
    MissingIsOptional(graph.edges, filled, n);
    OneRowUnfilled(FilledFor(graph, current, filled), EntityMap(graph.entityRefs), graph.edges, n, RowLacking(graph, filled));
  }

  lemma LackingIsResult(graph: NormalizedGraph, current: seq<Authorized>, filled: set<string>)
    requires WellFormedGraph(graph) && EndpointsTyped(graph) && Suffices(graph, current, filled)
    ensures ResultRow(FilledFor(graph, current, filled), EntityMap(graph.entityRefs), graph.edges, RowLacking(graph, filled))
  {
    var db, entities := FilledFor(graph, current, filled), EntityMap(graph.entityRefs);
    var row := RowLacking(graph, filled);
    forall n | n in row ensures row[n] < |TableOf(db, entities[n])| { FilledTable(graph, current, filled, n); }
    forall i | 0 <= i < |graph.edges| && graph.edges[i].kind != LeftOuter ensures SqlEdgeHolds(db, entities, graph.edges[i], row) {
      LackingEdgeHolds(graph, current, filled, i);
    }
    forall n | n in row ensures JoinedOn(db, entities, graph.edges, n, row) {
      forall i: nat | FillsIn(graph.edges, i, n) ensures SqlEdgeHolds(db, entities, graph.edges[i], row) {
        LackingEdgeHolds(graph, current, filled, i);
      }
    }
    forall n | n in entities && n !in row ensures Unfilled(db, entities, graph.edges, n, row) {
      MissingIsUnfilled(graph, current, filled, n);
    }
  }

  // ---------------------------------------------------------------- on every database

  /** On every database that authorises the relationships the instance is in every row of the result. */
  ghost predicate PresentEverywhere(graph: NormalizedGraph, current: seq<Authorized>, n: string) {
    forall db, other, row ::
      (SameDefinitions(current, other) && AllMeasuredOn(db, other) && AllUsable(other)
       && ResultRow(db, EntityMap(graph.entityRefs), graph.edges, row)) ==> n in row
  }

  /** What is missing when no more columns are filled than the joins need is absent from a row of the result
      on a database that authorises the relationships. */
  lemma MissingSomewhere(graph: NormalizedGraph, current: seq<Authorized>, filled: set<string>, n: string)
    requires WellFormedGraph(graph) && EndpointsTyped(graph) && AllValid(current)
    requires Suffices(graph, current, filled) && Missing(graph.edges, filled, n)
    ensures !PresentEverywhere(graph, current, n)
  {
    var db := FilledFor(graph, current, filled);
    FilledIsAuthorized(graph, current, filled);
    LackingIsResult(graph, current, filled);
    assert SameDefinitions(current, AllRemeasured(db, current)) && n !in RowLacking(graph, filled);
  }

  /** In a query of left joins only, an instance is in every row of the result, on every database that authorises
      the relationships, exactly when validation does not refuse it as optional. */
  lemma RefusedExactlyWhenMissing(graph: NormalizedGraph, current: seq<Authorized>, n: string)
    requires WellFormedGraph(graph) && EndpointsTyped(graph) && AllValid(current) && Unmatched(graph.edges, current) == 0
    requires n in EntityMap(graph.entityRefs) && forall i :: 0 <= i < |graph.edges| ==> graph.edges[i].kind == LeftOuter
    ensures PresentEverywhere(graph, current, n) <==> n !in NullableRefs(AllMatched(graph.edges, current))
  {
    RefusedExactly(graph.edges, current, n);
    if Optional(graph.edges, n) {
      var i: nat :| FillsIn(graph.edges, i, n);
      HasPair(graph, current, i);
      assert graph.edges[i].pairs[0] in graph.edges[i].pairs;
      CutIsMissing(graph.edges, {}, n);
      NothingNeeded(graph, current);
      MissingSomewhere(graph, current, {}, n);
    } else {
      forall db, other, row | SameDefinitions(current, other) && AllMeasuredOn(db, other) && AllUsable(other)
          && ResultRow(db, EntityMap(graph.entityRefs), graph.edges, row)
        ensures n in row
      {
        AlwaysThereIsThere(db, EntityMap(graph.entityRefs), graph.edges, n, row);
      }
    }
  }

  lemma NothingNeeded(graph: NormalizedGraph, current: seq<Authorized>)
    requires AllValid(current) && forall i :: 0 <= i < |graph.edges| ==> graph.edges[i].kind == LeftOuter
    ensures Suffices(graph, current, {})
  {
    forall i | 0 <= i < |current| ensures ClosedUnder({}, current[i].definition) {
      assert current[i] in current;
      var none: set<string> := {};
      assert ChildName(current[i].definition, 0) !in none;
    }
  }
}
