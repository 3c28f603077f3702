/** Queries with left joins, judged over all databases: the grain is kept on every one exactly when it
    settles every instance. */
module LeftRows {
  import opened Domain
  import opened Relational
  import opened Evidence
  import opened Sets
  import opened Bijections
  import opened GrainWalk
  import opened JoinSafety
  import opened Planner
  import opened SqlGraph
  import opened SqlCanonical
  import opened SqlMatching
  import opened SqlValidation
  import opened SqlSafety
  import opened ProoflessSql
  import opened UniformRows
  import opened LeftJoins
  import opened LeftGrain

  // ---------------------------------------------------------------- all that the grain settles

  /** Nothing more follows. */
  ghost predicate Closed(edges: seq<NormalizedEdge>, settled: set<string>, names: set<string>) {
    forall n :: n in names && n !in settled ==> !Follows(edges, settled, n)
  }

  lemma SettlesLonger(edges: seq<NormalizedEdge>, grain: string, order: seq<string>, n: string)
    requires Settles(edges, grain, order) && Follows(edges, Elements(order), n) && n !in Elements(order)
    ensures Settles(edges, grain, order + [n]) && Elements(order + [n]) == Elements(order) + {n}
  {
    var longer := order + [n];
    forall t | 0 < t < |longer| ensures Follows(edges, Elements(longer[..t]), longer[t]) {
      if t < |order| {
        assert longer[..t] == order[..t];
      } else {
        assert longer[..t] == order;
      }
    }
    forall i, j | 0 <= i < j < |longer| ensures longer[i] != longer[j] {
      assert longer[i] in Elements(order);
    }
  }

  lemma {:induction false} SettleOn(edges: seq<NormalizedEdge>, grain: string, names: set<string>, order: seq<string>) returns (all: seq<string>)
    requires Settles(edges, grain, order) && Elements(order) <= names
    ensures Settles(edges, grain, all) && Elements(all) <= names && Closed(edges, Elements(all), names)
    decreases names - Elements(order)
  {
    if Closed(edges, Elements(order), names) {
      all := order;
    } else {
      var n :| n in names && n !in Elements(order) && Follows(edges, Elements(order), n);
      SettlesLonger(edges, grain, order, n);
      assert n in names - Elements(order) && n !in names - Elements(order + [n]);
      all := SettleOn(edges, grain, names, order + [n]);
    }
  }

  lemma SettleAll(edges: seq<NormalizedEdge>, grain: string, names: set<string>) returns (all: seq<string>)
    requires grain in names
    ensures Settles(edges, grain, all) && Elements(all) <= names && Closed(edges, Elements(all), names)
  {
    assert Elements([grain]) == {grain};
    all := SettleOn(edges, grain, names, [grain]);
  }

  /** What a settled instance is left joined to is settled too. */
  ghost predicate UpClosed(edges: seq<NormalizedEdge>, settled: set<string>) {
    forall p, n :: n in settled && Below(edges, p, n) ==> p in settled
  }

  /** A step of the order, other than for an instance that is always there, has everything above it settled. */
  lemma FollowsBelow(edges: seq<NormalizedEdge>, settled: set<string>, n: string)
    requires Follows(edges, settled, n) && !AlwaysThere(edges, n)
    ensures BelowOnly(edges, settled, n)
  {
    if BesideSome(edges, settled, n) {
      var i, p := BesideAt(edges, settled, n);
      TouchedAlways(edges, n);
    } else if AboveSome(edges, settled, n) {
      var m :| m in settled && AlwaysThere(edges, m) && Below(edges, n, m);
      AboveIsThere(edges, n, m);
    }
  }

  ghost predicate OptionalsBelow(edges: seq<NormalizedEdge>, settled: set<string>) {
    forall n, p :: n in settled && !AlwaysThere(edges, n) && Below(edges, p, n) ==> p in settled
  }

  lemma {:induction false} OrderOptionalsBelow(edges: seq<NormalizedEdge>, grain: string, order: seq<string>)
    requires Settles(edges, grain, order) && !Optional(edges, grain)
    ensures OptionalsBelow(edges, Elements(order))
    decreases |order|
  {
    if |order| == 1 {
      assert Elements(order) == {grain};
    } else {
      var n := order[|order| - 1];
      SettlesShorter(edges, grain, order);
      LastElement(order);
      OrderOptionalsBelow(edges, grain, order[..|order| - 1]);
      if !AlwaysThere(edges, n) { FollowsBelow(edges, Elements(order[..|order| - 1]), n); }
    }
  }

  lemma ClosedIsUpClosed(edges: seq<NormalizedEdge>, grain: string, order: seq<string>, names: set<string>)
    requires Settles(edges, grain, order) && !Optional(edges, grain) && Closed(edges, Elements(order), names)
    requires forall p, n :: Below(edges, p, n) ==> p in names
    ensures UpClosed(edges, Elements(order))
  {
    var settled := Elements(order);
    OrderOptionalsBelow(edges, grain, order);
    forall p, n | n in settled && Below(edges, p, n) ensures p in settled {
      if AlwaysThere(edges, n) && p !in settled {
        assert AboveSome(edges, settled, p);
      }
    }
  }

  // ---------------------------------------------------------------- a row beside the settled instances

  /** Left joins lead from a settled instance down to this one, past none that is settled or always there. */
  ghost predicate Lost(edges: seq<NormalizedEdge>, settled: set<string>, n: string) {
    exists w :: LostAlong(edges, settled, w) && w[|w| - 1] == n
  }

  ghost predicate LostAlong(edges: seq<NormalizedEdge>, settled: set<string>, w: seq<string>) {
    && Chain(edges, w) && |w| > 1 && w[0] in settled
    && forall t :: 0 < t < |w| ==> w[t] !in settled && !AlwaysThere(edges, w[t])
  }

  lemma LostBelow(edges: seq<NormalizedEdge>, settled: set<string>, p: string, n: string)
    requires Below(edges, p, n) && n !in settled && !AlwaysThere(edges, n) && (p in settled || Lost(edges, settled, p))
    ensures Lost(edges, settled, n)
  {
    if p in settled {
      assert LostAlong(edges, settled, [p, n]) && [p, n][1] == n;
    } else {
      var w :| LostAlong(edges, settled, w) && w[|w| - 1] == p;
      var longer := w + [n];
      forall k | 0 <= k < |longer| - 1 ensures Below(edges, longer[k], longer[k + 1]) {
        if k < |w| - 1 { assert Below(edges, w[k], w[k + 1]); }
      }
      assert LostAlong(edges, settled, longer) && longer[|longer| - 1] == n;
    }
  }

  lemma LostFacts(edges: seq<NormalizedEdge>, settled: set<string>, n: string)
    requires Lost(edges, settled, n)
    ensures n !in settled && !AlwaysThere(edges, n) && Optional(edges, n)
    ensures exists p :: Below(edges, p, n) && (p in settled || Lost(edges, settled, p))
  {
    var w :| LostAlong(edges, settled, w) && w[|w| - 1] == n;
    var p := w[|w| - 2];
    assert Below(edges, w[|w| - 2], w[|w| - 2 + 1]);
    if |w| > 2 {
      var v := w[..|w| - 1];
      forall k | 0 <= k < |v| - 1 ensures Below(edges, v[k], v[k + 1]) {
        assert Below(edges, w[k], w[k + 1]);
      }
      assert LostAlong(edges, settled, v) && v[|v| - 1] == p;
    }
  }

  /** The first row for settled instances, none for lost ones, and the second for the others. */
  ghost function RowBeside(edges: seq<NormalizedEdge>, settled: set<string>, names: set<string>): map<string, nat> {
    map n | n in names && !Lost(edges, settled, n) :: if n in settled then 0 else 1
  }

  /** What the row rests on: nothing more follows from the settled instances, upwards either. */
  ghost predicate Done(edges: seq<NormalizedEdge>, settled: set<string>, names: set<string>) {
    Closed(edges, settled, names) && UpClosed(edges, settled) && settled <= names
  }

  /** Both ends of another condition stand in the same row. */
  lemma EndsBeside(edges: seq<NormalizedEdge>, settled: set<string>, names: set<string>, i: nat)
    requires Done(edges, settled, names) && i < |edges| && edges[i].kind != LeftOuter
    requires edges[i].leftRef in names && edges[i].rightRef in names
    ensures var row := RowBeside(edges, settled, names);
      edges[i].leftRef in row && edges[i].rightRef in row && row[edges[i].leftRef] == row[edges[i].rightRef]
  {
    var l, r := edges[i].leftRef, edges[i].rightRef;
    assert Touched(edges, l) && Touched(edges, r);
    TouchedAlways(edges, l);
    TouchedAlways(edges, r);
    ThereIsNotLost(edges, settled, l);
    ThereIsNotLost(edges, settled, r);
    assert Beside(edges, l, r) && Beside(edges, r, l);
    assert l in settled ==> BesideSome(edges, settled, r);
    assert r in settled ==> BesideSome(edges, settled, l);
  }

  lemma ThereIsNotLost(edges: seq<NormalizedEdge>, settled: set<string>, n: string)
    requires AlwaysThere(edges, n)
    ensures !Lost(edges, settled, n)
  {
  }

  /** An instance of the row stands with what it is left joined to. */
  lemma AboveBeside(edges: seq<NormalizedEdge>, settled: set<string>, names: set<string>, p: string, n: string)
    requires Done(edges, settled, names) && Below(edges, p, n) && p in names && n in RowBeside(edges, settled, names)
    ensures var row := RowBeside(edges, settled, names); p in row && row[p] == row[n]
  {
    if n in settled {
      assert p in settled;
      SettledIsNotLost(edges, settled, p);
    } else if AlwaysThere(edges, n) {
      AboveIsThere(edges, p, n);
      ThereIsNotLost(edges, settled, p);
      assert p in settled ==> BelowSome(edges, settled, n);
    } else if p in settled || Lost(edges, settled, p) {
      LostBelow(edges, settled, p, n);
    }
  }

  lemma SettledIsNotLost(edges: seq<NormalizedEdge>, settled: set<string>, n: string)
    requires n in settled
    ensures !Lost(edges, settled, n)
  {
  }

  /** A lost instance has two things to be left joined to that stand in different rows, or one that is lost. */
  lemma LostBetween(edges: seq<NormalizedEdge>, settled: set<string>, names: set<string>, n: string, j: nat) returns (p: string)
    requires Done(edges, settled, names) && Lost(edges, settled, n) && n in names
    requires forall q, m :: Below(edges, q, m) ==> q in names && q != m
    ensures Below(edges, p, n) && p != n
    ensures p in RowBeside(edges, settled, names) ==> RowBeside(edges, settled, names)[p] != j
  {
    LostFacts(edges, settled, n);
    p :| Below(edges, p, n) && (p in settled || Lost(edges, settled, p));
    if p in settled && j == 0 {
      assert !BelowOnly(edges, settled, n);
      p :| Below(edges, p, n) && p !in settled;
    }
  }

  // ---------------------------------------------------------------- on the uniform database

  /** The query, as the check reads it. */
  ghost predicate Legible(graph: NormalizedGraph, current: seq<Authorized>) {
    && WellFormedGraph(graph) && Unmatched(graph.edges, current) == 0 && Unmistakable(graph, current) && AllApart(graph, current) && AllValid(current)
  }

  lemma HasPair(graph: NormalizedGraph, current: seq<Authorized>, i: nat)
    requires AllValid(current) && Unmatched(graph.edges, current) == 0 && i < |graph.edges|
    ensures graph.edges[i].pairs != []
  {
    var e := graph.edges[i];
    AllMatchedFacts(graph.edges, current);
    var r := MatchRelationship(e, current).value;
    assert ValidDefinition(r.definition);
    assert (ChildName(r.definition, 0), ParentName(r.definition, 0)) in DefinitionPairs(r.definition);
    assert ExpectedPairs(r.definition) != {} by {
      var p := (ChildName(r.definition, 0), ParentName(r.definition, 0));
      assert CanonicalPair(p.0, p.1) in ExpectedPairs(r.definition);
    }
    assert Observed(e.pairs) != {};
  }

  /** Different uniform rows share no value. */
  lemma UniformEdgeFails(graph: NormalizedGraph, current: seq<Authorized>, i: nat, row: map<string, nat>)
    requires Legible(graph, current) && i < |graph.edges|
    requires graph.edges[i].leftRef in row && graph.edges[i].rightRef in row && row[graph.edges[i].leftRef] != row[graph.edges[i].rightRef]
    ensures !SqlEdgeHolds(UniformFor(graph, current), EntityMap(graph.entityRefs), graph.edges[i], row)
  {
    var e, entities, db := graph.edges[i], EntityMap(graph.entityRefs), UniformFor(graph, current);
    HasPair(graph, current, i);
    var p := e.pairs[0];
    if SqlEdgeHolds(db, entities, e, row) {
      EntityNamed(graph.entityRefs, e.leftRef);
      EntityNamed(graph.entityRefs, e.rightRef);
      assert p in PairSet(e.pairs);
      assert PairHolds(TableOf(db, entities[e.leftRef])[row[e.leftRef]], TableOf(db, entities[e.rightRef])[row[e.rightRef]], entities[e.leftRef], entities[e.rightRef], p);
      UniformCell(AllColumns(current), row[e.leftRef], ColumnOf(entities[e.leftRef], p.0).value);
      UniformCell(AllColumns(current), row[e.rightRef], ColumnOf(entities[e.rightRef], p.1).value);
    }
  }

  lemma UniformCell(columns: set<string>, j: nat, c: string)
    requires j < 2
    ensures Read(UniformTable(columns)[j], c) == if c in columns then Known(j) else Null
  {
  }

  lemma NamesAreRefs(graph: NormalizedGraph, i: nat)
    requires WellFormedGraph(graph) && i < |graph.edges|
    ensures graph.edges[i].leftRef in EntityMap(graph.entityRefs) && graph.edges[i].rightRef in EntityMap(graph.entityRefs)
    ensures graph.edges[i].leftRef != graph.edges[i].rightRef
  {
    NamesAreKeys(graph.entityRefs);
  }

  lemma BelowAmongRefs(graph: NormalizedGraph, p: string, n: string)
    requires WellFormedGraph(graph) && Below(graph.edges, p, n)
    ensures p in EntityMap(graph.entityRefs) && n in EntityMap(graph.entityRefs) && p != n
  {
    var i: nat :| FillsIn(graph.edges, i, n) && graph.edges[i].leftRef == p;
    NamesAreRefs(graph, i);
  }

  lemma UniformHasRow(graph: NormalizedGraph, current: seq<Authorized>, n: string)
    requires n in EntityMap(graph.entityRefs)
    ensures |TableOf(UniformFor(graph, current), EntityMap(graph.entityRefs)[n])| == 2
  {
    EntityNamed(graph.entityRefs, n);
  }

  lemma LostRefuses(graph: NormalizedGraph, current: seq<Authorized>, settled: set<string>, n: string, j: nat)
    requires Legible(graph, current) && n in EntityMap(graph.entityRefs)
    requires Done(graph.edges, settled, EntityMap(graph.entityRefs).Keys) && Lost(graph.edges, settled, n)
    ensures !WouldDo(UniformFor(graph, current), EntityMap(graph.entityRefs), graph.edges, n, RowBeside(graph.edges, settled, EntityMap(graph.entityRefs).Keys), j)
  {
    var names := EntityMap(graph.entityRefs).Keys;
    var row := RowBeside(graph.edges, settled, names);
    forall p, m | Below(graph.edges, p, m) ensures p in names && p != m { BelowAmongRefs(graph, p, m); }
    var p := LostBetween(graph.edges, settled, names, n, j);
    var i: nat :| FillsIn(graph.edges, i, n) && graph.edges[i].leftRef == p;
    EdgeRefuses(graph, current, i, row[n := j]);
  }

  lemma EdgeRefuses(graph: NormalizedGraph, current: seq<Authorized>, i: nat, row: map<string, nat>)
    requires Legible(graph, current) && i < |graph.edges|
    requires graph.edges[i].rightRef in row && (graph.edges[i].leftRef in row ==> row[graph.edges[i].leftRef] != row[graph.edges[i].rightRef])
    ensures !SqlEdgeHolds(UniformFor(graph, current), EntityMap(graph.entityRefs), graph.edges[i], row)
  {
    if graph.edges[i].leftRef in row { UniformEdgeFails(graph, current, i, row); }
  }

  /** Of a lost instance no row would do. */
  lemma LostIsUnfilled(graph: NormalizedGraph, current: seq<Authorized>, settled: set<string>, n: string)
    requires Legible(graph, current) && n in EntityMap(graph.entityRefs)
    requires Done(graph.edges, settled, EntityMap(graph.entityRefs).Keys) && Lost(graph.edges, settled, n)
    ensures Unfilled(UniformFor(graph, current), EntityMap(graph.entityRefs), graph.edges, n, RowBeside(graph.edges, settled, EntityMap(graph.entityRefs).Keys))
  {
    var db, entities := UniformFor(graph, current), EntityMap(graph.entityRefs);
    var row := RowBeside(graph.edges, settled, entities.Keys);
    LostFacts(graph.edges, settled, n);
    UniformHasRow(graph, current, n);
    forall j: nat | j < 2 ensures !WouldDo(db, entities, graph.edges, n, row, j) {
      LostRefuses(graph, current, settled, n, j);
    }
  }

  lemma BesideHolds(graph: NormalizedGraph, current: seq<Authorized>, settled: set<string>, i: nat)
    requires Legible(graph, current) && Done(graph.edges, settled, EntityMap(graph.entityRefs).Keys) && i < |graph.edges|
    requires graph.edges[i].kind == LeftOuter ==> graph.edges[i].rightRef in RowBeside(graph.edges, settled, EntityMap(graph.entityRefs).Keys)
    ensures SqlEdgeHolds(UniformFor(graph, current), EntityMap(graph.entityRefs), graph.edges[i], RowBeside(graph.edges, settled, EntityMap(graph.entityRefs).Keys))
  {
    var e, names := graph.edges[i], EntityMap(graph.entityRefs).Keys;
    NamesAreRefs(graph, i);
    if e.kind == LeftOuter {
      assert FillsIn(graph.edges, i, e.rightRef);
      AboveBeside(graph.edges, settled, names, e.leftRef, e.rightRef);
    } else {
      EndsBeside(graph.edges, settled, names, i);
    }
    UniformEdgeHolds(graph, current, i, RowBeside(graph.edges, settled, names));
  }

  /** The row beside the settled instances is a row of the result. */
  lemma BesideIsResult(graph: NormalizedGraph, current: seq<Authorized>, settled: set<string>)
    requires Legible(graph, current) && Done(graph.edges, settled, EntityMap(graph.entityRefs).Keys)
    ensures ResultRow(UniformFor(graph, current), EntityMap(graph.entityRefs), graph.edges, RowBeside(graph.edges, settled, EntityMap(graph.entityRefs).Keys))
  {
    var db, entities := UniformFor(graph, current), EntityMap(graph.entityRefs);
    var row := RowBeside(graph.edges, settled, entities.Keys);
    forall n | n in row ensures row[n] < |TableOf(db, entities[n])| { UniformHasRow(graph, current, n); }
    forall i | 0 <= i < |graph.edges| && graph.edges[i].kind != LeftOuter ensures SqlEdgeHolds(db, entities, graph.edges[i], row) {
      BesideHolds(graph, current, settled, i);
    }
    forall n | n in row ensures JoinedOn(db, entities, graph.edges, n, row) {
      forall i: nat | FillsIn(graph.edges, i, n) ensures SqlEdgeHolds(db, entities, graph.edges[i], row) {
        BesideHolds(graph, current, settled, i);
      }
    }
    forall n | n in entities && n !in row ensures Unfilled(db, entities, graph.edges, n, row) {
      LostIsUnfilled(graph, current, settled, n);
    }
  }

  /** So is the row that gives every instance the first row. */
  lemma FirstIsResult(graph: NormalizedGraph, current: seq<Authorized>, row: map<string, nat>)
    requires Legible(graph, current) && row.Keys == EntityMap(graph.entityRefs).Keys && forall n :: n in row ==> row[n] == 0
    ensures ResultRow(UniformFor(graph, current), EntityMap(graph.entityRefs), graph.edges, row)
  {
    var db, entities := UniformFor(graph, current), EntityMap(graph.entityRefs);
    forall n | n in row ensures row[n] < |TableOf(db, entities[n])| { UniformHasRow(graph, current, n); }
    forall i | 0 <= i < |graph.edges| ensures SqlEdgeHolds(db, entities, graph.edges[i], row) {
      NamesAreRefs(graph, i);
      UniformEdgeHolds(graph, current, i, row);
    }
  }

  // ---------------------------------------------------------------- on every database

  /** No two rows of the query's result show the same row of the instance `grain`. */
  ghost predicate NeverRepeatsResult(db: Database, graph: NormalizedGraph, grain: string) {
    forall x, y ::
      (ResultRow(db, EntityMap(graph.entityRefs), graph.edges, x) && ResultRow(db, EntityMap(graph.entityRefs), graph.edges, y)
       && grain in x && grain in y && x[grain] == y[grain]) ==> x == y
  }

  /** On no database, measured for these relationships, does the result of the passing query repeat a row of the grain. */
  ghost predicate KeepsResultEverywhere(graph: NormalizedGraph, current: seq<Authorized>, definitions: seq<EntityDefinition>,
                                        expectedGrainRef: Option<string>, k: string) {
    forall db, other ::
      (SameDefinitions(current, other) && AllMeasuredOn(db, other) && AllUsable(other)
       && PassesAlone(graph, other, definitions, expectedGrainRef, k)) ==> NeverRepeatsResult(db, graph, k)
  }

  lemma QueryIsReadable(db: Database, graph: NormalizedGraph, current: seq<Authorized>)
    requires WellFormedGraph(graph) && Unmatched(graph.edges, current) == 0 && Unmistakable(graph, current) && AllApart(graph, current)
    requires AllMeasuredOn(db, current)
    ensures Readable(db, EntityMap(graph.entityRefs), graph.edges, AllMatched(graph.edges, current))
  {
    var entities, matched := EntityMap(graph.entityRefs), AllMatched(graph.edges, current);
    QueryIsTyped(graph, current, db);
    TypedIsCovered(graph, current);
    AcceptedMeasured(graph.edges, current, db);
    AllMatchedFacts(graph.edges, current);
    forall i | 0 <= i < |graph.edges| ensures ReadableEdge(db, entities, graph.edges[i], matched[i]) {
      MatchedSides(graph.edges, current, i);
      assert Typed(entities, BoundMatched(matched)[i]) && MeasuredOn(db, BoundMatched(matched)[i].relationship);
      assert BoundMatched(matched)[i] == LeftGrain.Bound(matched[i]);
    }
  }

  lemma SettingKeepsResult(db: Database, graph: NormalizedGraph, matched: seq<MatchedEdge>, grain: string)
    requires Setting(db, EntityMap(graph.entityRefs), graph.edges, matched, grain)
    requires AllSettled(graph.edges, grain, EntityMap(graph.entityRefs).Keys)
    ensures NeverRepeatsResult(db, graph, grain)
  {
    var entities := EntityMap(graph.entityRefs);
    var order :| Settles(graph.edges, grain, order) && Elements(order) == entities.Keys;
    forall x, y | ResultRow(db, entities, graph.edges, x) && ResultRow(db, entities, graph.edges, y) && grain in x && grain in y && x[grain] == y[grain]
      ensures x == y
    {
      SettledRowsAreEqual(db, entities, graph.edges, matched, grain, order, x, y);
    }
  }

  lemma SettledKeepsResult(db: Database, graph: NormalizedGraph, current: seq<Authorized>, k: string)
    requires WellFormedGraph(graph) && Unmatched(graph.edges, current) == 0 && Unmistakable(graph, current) && AllApart(graph, current)
    requires AllMeasuredOn(db, current) && GrainOk(k, AllMatched(graph.edges, current)) && AllSettled(graph.edges, k, EntityMap(graph.entityRefs).Keys)
    ensures NeverRepeatsResult(db, graph, k)
  {
    QueryIsReadable(db, graph, current);
    SettingKeepsResult(db, graph, AllMatched(graph.edges, current), k);
  }

  lemma UnsettledRepeats(graph: NormalizedGraph, current: seq<Authorized>, k: string)
    requires Legible(graph, current) && k in EntityMap(graph.entityRefs) && !Optional(graph.edges, k)
    requires !AllSettled(graph.edges, k, EntityMap(graph.entityRefs).Keys)
    ensures !NeverRepeatsResult(UniformFor(graph, current), graph, k)
  {
    var entities := EntityMap(graph.entityRefs);
    var order := SettleAll(graph.edges, k, entities.Keys);
    forall p, n | Below(graph.edges, p, n) ensures p in entities { BelowAmongRefs(graph, p, n); }
    ClosedIsUpClosed(graph.edges, k, order, entities.Keys);
    BesideDiffers(graph, current, k, order);
  }

  lemma BesideDiffers(graph: NormalizedGraph, current: seq<Authorized>, k: string, order: seq<string>)
    requires Legible(graph, current) && Settles(graph.edges, k, order) && Elements(order) != EntityMap(graph.entityRefs).Keys
    requires Done(graph.edges, Elements(order), EntityMap(graph.entityRefs).Keys)
    ensures !NeverRepeatsResult(UniformFor(graph, current), graph, k)
  {
    var entities, settled := EntityMap(graph.entityRefs), Elements(order);
    var first: map<string, nat> := map n | n in entities :: 0;
    var beside := RowBeside(graph.edges, settled, entities.Keys);
    FirstIsResult(graph, current, first);
    BesideIsResult(graph, current, settled);
    assert k in settled;
    SettledIsNotLost(graph.edges, settled, k);
    var n :| n in entities && n !in settled;
    assert n in beside ==> beside[n] == 1;
    assert first != beside && first[k] == beside[k];
  }

  lemma UnsettledRepeatsSomewhere(graph: NormalizedGraph, current: seq<Authorized>, definitions: seq<EntityDefinition>,
                                  expectedGrainRef: Option<string>, k: string)
    requires PassesAlone(graph, current, definitions, expectedGrainRef, k) && AllValid(current) && k in EntityMap(graph.entityRefs)
    requires !AllSettled(graph.edges, k, EntityMap(graph.entityRefs).Keys)
    ensures !KeepsResultEverywhere(graph, current, definitions, expectedGrainRef, k)
  {
    var db := UniformFor(graph, current);
    var other := AllRemeasured(db, current);
    UniformGraphFacts(graph, current);
    StillPasses(graph, current, other, definitions, expectedGrainRef, k);
    RefusedExactly(graph.edges, current, k);
    UnsettledRepeats(graph, current, k);
  }

  /** With left joins, a query that passes keeps the named grain on every database exactly when the grain settles
      every instance of the query. */
  lemma KeepsResultEverywhereExactly(graph: NormalizedGraph, current: seq<Authorized>, definitions: seq<EntityDefinition>,
                                     expectedGrainRef: Option<string>, k: string)
    requires PassesAlone(graph, current, definitions, expectedGrainRef, k) && AllValid(current)
    ensures KeepsResultEverywhere(graph, current, definitions, expectedGrainRef, k) <==> AllSettled(graph.edges, k, RefNames(graph.entityRefs))
  {
    assert k in RefNames(graph.entityRefs);
    NamesAreKeys(graph.entityRefs);
    if AllSettled(graph.edges, k, RefNames(graph.entityRefs)) {
      forall db, other | SameDefinitions(current, other) && AllMeasuredOn(db, other) && AllUsable(other)
          && PassesAlone(graph, other, definitions, expectedGrainRef, k)
        ensures NeverRepeatsResult(db, graph, k)
      {
        SettledKeepsResult(db, graph, other, k);
      }
    } else {
      UnsettledRepeatsSomewhere(graph, current, definitions, expectedGrainRef, k);
    }
  }
}
