/** One edge over a self-relationship: the grain is kept on every database exactly when the edge, read
    from the side taken for the child, has all pairs of the relationship. */
module MixedSides {
  import opened Domain
  import opened Ordering
  import opened Relational
  import opened Evidence
  import opened CandidateEdges
  import opened GrainWalk
  import opened JoinSafety
  import opened Planner
  import opened PlanSafety
  import opened SqlGraph
  import opened SqlCanonical
  import opened SqlMatching
  import opened SqlValidation
  import opened SqlSafety
  import opened ProofBoundSql
  import opened ProoflessSql

  /** An inner edge between two instances of the entity that the relationship joins to itself, by columns
      of its own on either side. */
  ghost predicate SelfEdge(e: NormalizedEdge, r: Authorized) {
    && EdgeMatches(e, r) && e.kind == Inner && e.leftRef != e.rightRef && ValidDefinition(r.definition)
    && r.definition.child.entity == r.definition.parent.entity
    && forall c :: c in r.definition.child.columns ==> c !in r.definition.parent.columns
  }

  function OneEdge(e: NormalizedEdge, source: string, entity: string): NormalizedGraph {
    NormalizedGraph(source, [EntityRef(e.leftRef, entity), EntityRef(e.rightRef, entity)], [e])
  }

  lemma OneEdgeEntities(e: NormalizedEdge, source: string, entity: string)
    requires e.leftRef != e.rightRef
    ensures EntityMap(OneEdge(e, source, entity).entityRefs) == map[e.leftRef := entity, e.rightRef := entity]
  {
    var refs := OneEdge(e, source, entity).entityRefs;
    assert refs[..1] == [refs[0]] && refs[..1][..0] == [];
    assert EntityMap(refs[..1]) == map[e.leftRef := entity];
  }

  // ---------------------------------------------------------------- two rows that tell the sides apart

  /** The pair of this position is only written the other way round. */
  ghost predicate Turned(e: NormalizedEdge, r: Authorized, i: nat)
    requires |r.definition.child.columns| == |r.definition.parent.columns| && i < |r.definition.child.columns|
  {
    (ChildName(r.definition, i), ParentName(r.definition, i)) !in Oriented(MatchEdge(e, r))
  }

  ghost predicate TurnedColumn(e: NormalizedEdge, r: Authorized, key: seq<string>, c: string)
    requires |key| == |r.definition.child.columns| == |r.definition.parent.columns|
  {
    exists i :: 0 <= i < |key| && key[i] == c && Turned(e, r, i)
  }

  /** The first row: every key column of a turned pair holds 2, every other one 1. */
  ghost function FirstCell(e: NormalizedEdge, r: Authorized, c: string): Cell
    requires |r.definition.child.columns| == |r.definition.parent.columns|
  {
    Known(if TurnedColumn(e, r, r.definition.child.columns, c) || TurnedColumn(e, r, r.definition.parent.columns, c) then 2 else 1)
  }

  /** The second row differs from it exactly in the parent columns of turned pairs. */
  ghost function SecondCell(e: NormalizedEdge, r: Authorized, c: string): Cell
    requires |r.definition.child.columns| == |r.definition.parent.columns|
  {
    if TurnedColumn(e, r, r.definition.parent.columns, c) then Known(5) else FirstCell(e, r, c)
  }

  ghost function TurnedRow(e: NormalizedEdge, r: Authorized, second: bool): Row
    requires |r.definition.child.columns| == |r.definition.parent.columns|
  {
    map c | c in r.definition.child.columns + r.definition.parent.columns :: if second then SecondCell(e, r, c) else FirstCell(e, r, c)
  }

  ghost function TurnedTable(e: NormalizedEdge, r: Authorized): Table
    requires |r.definition.child.columns| == |r.definition.parent.columns|
  {
    [TurnedRow(e, r, false), TurnedRow(e, r, true)]
  }

  /** What the two rows hold in the key columns of one position. */
  lemma TurnedCells(e: NormalizedEdge, r: Authorized, i: nat)
    requires SelfEdge(e, r) && i < |r.definition.child.columns|
    ensures var d, t := r.definition, TurnedTable(e, r);
      var v := Known(if Turned(e, r, i) then 2 else 1);
      && Read(t[0], d.child.columns[i]) == v && Read(t[1], d.child.columns[i]) == v && Read(t[0], d.parent.columns[i]) == v
      && Read(t[1], d.parent.columns[i]) == if Turned(e, r, i) then Known(5) else v
  {
    var d := r.definition;
    OnlyPosition(e, r, d.child.columns, i);
    OnlyPosition(e, r, d.parent.columns, i);
    assert d.child.columns[i] in d.child.columns && d.parent.columns[i] in d.parent.columns;
    NotAmong(e, r, d.child.columns, d.parent.columns[i]);
    NotAmong(e, r, d.parent.columns, d.child.columns[i]);
  }

  lemma OnlyPosition(e: NormalizedEdge, r: Authorized, key: seq<string>, i: nat)
    requires |key| == |r.definition.child.columns| == |r.definition.parent.columns| && i < |key|
    requires forall j, k :: 0 <= j < k < |key| ==> key[j] != key[k]
    ensures TurnedColumn(e, r, key, key[i]) <==> Turned(e, r, i)
  {
  }

  lemma NotAmong(e: NormalizedEdge, r: Authorized, key: seq<string>, c: string)
    requires |key| == |r.definition.child.columns| == |r.definition.parent.columns| && c !in key
    ensures !TurnedColumn(e, r, key, c)
  {
  }

  lemma TwoRowsUnique(t: Table, key: seq<string>, i: nat)
    requires |t| == 2 && i < |key| && Read(t[0], key[i]) != Read(t[1], key[i])
    ensures UniqueKey(t, key)
  {
    assert Cells(t[0], key)[i] != Cells(t[1], key)[i];
  }

  lemma TurnedMatches(e: NormalizedEdge, r: Authorized, k: nat)
    requires SelfEdge(e, r) && k < 2
    ensures Matches(r.definition, TurnedTable(e, r)[k], TurnedTable(e, r)[0])
  {
    var d, t := r.definition, TurnedTable(e, r);
    forall j | 0 <= j < |d.child.columns|
      ensures Read(t[k], d.child.columns[j]).Known? && Read(t[k], d.child.columns[j]) == Read(t[0], d.parent.columns[j])
    {
      TurnedCells(e, r, j);
    }
  }

  /** On the two rows the relationship may be used, and no row has two parents. */
  lemma TurnedUsable(e: NormalizedEdge, r: Authorized, i: nat)
    requires SelfEdge(e, r) && i < |r.definition.child.columns| && Turned(e, r, i)
    ensures UniqueKey(TurnedTable(e, r), r.definition.parent.columns)
    ensures NoOrphans(TurnedTable(e, r), TurnedTable(e, r), r.definition)
  {
    TurnedCells(e, r, i);
    TwoRowsUnique(TurnedTable(e, r), r.definition.parent.columns, i);
    TurnedMatches(e, r, 0);
    TurnedMatches(e, r, 1);
    TwoRowsNoOrphans(TurnedTable(e, r), r.definition);
  }

  lemma TwoRowsNoOrphans(t: Table, d: Definition)
    requires |d.child.columns| == |d.parent.columns| && |t| == 2 && Matches(d, t[0], t[0]) && Matches(d, t[1], t[0])
    ensures NoOrphans(t, t, d)
  {
  }

  // ---------------------------------------------------------------- both rows beside the first

  /** A pair of one position, named from either side, is true of the first row beside either one. */
  lemma PositionHolds(e: NormalizedEdge, r: Authorized, p: Pair, i: nat, k: nat)
    requires SelfEdge(e, r) && i < |r.definition.child.columns| && k < 2 && p in Oriented(MatchEdge(e, r))
    requires p == (ChildName(r.definition, i), ParentName(r.definition, i)) || p == (ParentName(r.definition, i), ChildName(r.definition, i))
    ensures PairHolds(TurnedTable(e, r)[0], TurnedTable(e, r)[k], r.definition.child.entity, r.definition.child.entity, p)
  {
    var d := r.definition;
    ColumnOfName(d.child.entity, d.child.columns[i]);
    ColumnOfName(d.child.entity, d.parent.columns[i]);
    TurnedCells(e, r, i);
  }

  lemma TurnedPairHolds(e: NormalizedEdge, r: Authorized, p: Pair, k: nat)
    requires SelfEdge(e, r) && p in Oriented(MatchEdge(e, r)) && k < 2
    ensures PairHolds(TurnedTable(e, r)[0], TurnedTable(e, r)[k], r.definition.child.entity, r.definition.child.entity, p)
  {
    var written := if MatchEdge(e, r).childRef == e.leftRef then p else Swap(p);
    assert written in e.pairs by {
      if MatchEdge(e, r).childRef != e.leftRef {
        var s :| s in e.pairs && Swap(s) == p;
      }
    }
    var i := PairOfDefinition(e, r, written);
    PositionHolds(e, r, p, i, k);
  }

  /** The first row taken for the child, and row `k` for the parent. */
  function SideRow(m: MatchedEdge, k: nat): map<string, nat> { map[m.childRef := 0, m.parentRef := k] }

  lemma TurnedEdgeHolds(e: NormalizedEdge, r: Authorized, source: string, k: nat)
    requires SelfEdge(e, r) && k < 2
    ensures var entity := r.definition.child.entity;
      SqlJoinRow(map[entity := TurnedTable(e, r)], EntityMap(OneEdge(e, source, entity).entityRefs), [e], SideRow(MatchEdge(e, r), k))
  {
    var entity, m := r.definition.child.entity, MatchEdge(e, r);
    var t := TurnedTable(e, r);
    OneEdgeEntities(e, source, entity);
    forall p | p in PairSet(e.pairs)
      ensures PairHolds(t[SideRow(m, k)[e.leftRef]], t[SideRow(m, k)[e.rightRef]], entity, entity, p)
    {
      if m.childRef == e.leftRef {
        TurnedPairHolds(e, r, p, k);
      } else {
        assert Swap(p) in Oriented(m);
        TurnedPairHolds(e, r, Swap(p), k);
        SwappedPairsMean(t[0], t[k], entity, entity, Swap(p));
      }
    }
  }

  // ---------------------------------------------------------------- the exact condition

  /** On every database measured for it, with usable evidence, the accepted edge repeats no row of the side
      taken for the child. */
  ghost predicate EdgeKeepsGrain(e: NormalizedEdge, r: Authorized, source: string) {
    forall db, s: Authorized ::
      (s.definition == r.definition && MeasuredOn(db, s) && s.authorization.usable && GrainOk(MatchEdge(e, s).childRef, [MatchEdge(e, s)])) ==>
        NeverRepeats(db, OneEdge(e, source, r.definition.child.entity), MatchEdge(e, r).childRef)
  }

  lemma OneLinkSafe(m: MatchedEdge)
    requires m.childRef != m.parentRef && m.normalized.kind == Inner
    ensures GrainOk(m.childRef, [m]) <==> m.relationship.evidence.measurements.maxParentsPerChild <= 1
  {
    var links := Links(BoundMatched([m]));
    assert links[0] in links && links[0] == LinkOf(BoundMatched([m])[0]);
    assert Step(links, m.childRef, m.parentRef, links[0].ab);
    assert Joined(links, m.childRef, m.parentRef);
    assert EndsWith(links, m.childRef, [m.childRef, m.parentRef], links[0].ab);
    assert NullableRefs([m]) == {};
    if links[0].ab <= 1 {
      forall w, bound | EndsWith(links, m.childRef, w, bound) ensures bound <= 1 {
        assert Joined(links, w[0], w[1]);
        SingleWalk(links, w);
      }
    }
  }

  /** A join row of the one edge satisfies the relationship between the resolved sides. */
  lemma CoveredRowMatches(e: NormalizedEdge, s: Authorized, source: string, db: Database, x: map<string, nat>)
    requires SelfEdge(e, s) && Covers(MatchEdge(e, s))
    requires SqlJoinRow(db, EntityMap(OneEdge(e, source, s.definition.child.entity).entityRefs), [e], x)
    ensures var d, m, t := s.definition, MatchEdge(e, s), TableOf(db, s.definition.child.entity);
      && x.Keys == {m.childRef, m.parentRef} && x[m.childRef] < |t| && x[m.parentRef] < |t|
      && Matches(d, t[x[m.childRef]], t[x[m.parentRef]])
  {
    OneEdgeEntities(e, source, s.definition.child.entity);
    assert [e][0] == e;
    CoveringEdgeHolds(db, EntityMap(OneEdge(e, source, s.definition.child.entity).entityRefs), MatchEdge(e, s), x);
  }

  lemma CoveredKeepsGrain(e: NormalizedEdge, s: Authorized, source: string, db: Database, x: map<string, nat>, y: map<string, nat>)
    requires SelfEdge(e, s) && Covers(MatchEdge(e, s)) && MeasuredOn(db, s) && s.evidence.measurements.maxParentsPerChild <= 1
    requires SqlJoinRow(db, EntityMap(OneEdge(e, source, s.definition.child.entity).entityRefs), [e], x)
    requires SqlJoinRow(db, EntityMap(OneEdge(e, source, s.definition.child.entity).entityRefs), [e], y)
    requires var k := MatchEdge(e, s).childRef; k in x && k in y && x[k] == y[k]
    ensures x == y
  {
    CoveredRowMatches(e, s, source, db, x);
    CoveredRowMatches(e, s, source, db, y);
    BoundsAreRowFacts(db, s);
    var m, t := MatchEdge(e, s), TableOf(db, s.definition.child.entity);
    OnlyParent(s.definition, t, x[m.childRef], x[m.parentRef], y[m.parentRef]);
    SameRows(x, y, m.childRef, m.parentRef);
  }

  lemma OnlyParent(d: Definition, t: Table, i: nat, j: nat, k: nat)
    requires |d.child.columns| == |d.parent.columns| && AtMostOneParent(d, t, t) && i < |t| && j < |t| && k < |t|
    requires Matches(d, t[i], t[j]) && Matches(d, t[i], t[k])
    ensures j == k
  {
  }

  lemma SameRows(x: map<string, nat>, y: map<string, nat>, a: string, b: string)
    requires x.Keys == {a, b} == y.Keys && x[a] == y[a] && x[b] == y[b]
    ensures x == y
  {
  }

  lemma CoveredNeverRepeats(e: NormalizedEdge, s: Authorized, source: string, db: Database)
    requires SelfEdge(e, s) && Covers(MatchEdge(e, s)) && MeasuredOn(db, s) && GrainOk(MatchEdge(e, s).childRef, [MatchEdge(e, s)])
    ensures NeverRepeats(db, OneEdge(e, source, s.definition.child.entity), MatchEdge(e, s).childRef)
  {
    var g, k := OneEdge(e, source, s.definition.child.entity), MatchEdge(e, s).childRef;
    OneLinkSafe(MatchEdge(e, s));
    forall x, y | SqlJoinRow(db, EntityMap(g.entityRefs), g.edges, x) && SqlJoinRow(db, EntityMap(g.entityRefs), g.edges, y)
        && k in x && k in y && x[k] == y[k]
      ensures x == y
    {
      CoveredKeepsGrain(e, s, source, db, x, y);
    }
  }

  /** The relationship with usable evidence measured on the two rows. */
  function TurnedEvidence(db: Database, d: Definition): Authorized
    requires ValidDefinition(d)
  {
    var record := Verify(db, Seed(d, Declared, ManyToOne), "");
    Authorized(d, record, Authorize(record, "", ""), ManyToOne)
  }

  lemma TurnedIsUsable(e: NormalizedEdge, r: Authorized, i: nat)
    requires SelfEdge(e, r) && i < |r.definition.child.columns| && Turned(e, r, i)
    ensures var db: Database := map[r.definition.child.entity := TurnedTable(e, r)];
      var s := TurnedEvidence(db, r.definition);
      && MeasuredOn(db, s) && s.authorization.usable && GrainOk(MatchEdge(e, s).childRef, [MatchEdge(e, s)])
  {
    var d, t := r.definition, TurnedTable(e, r);
    var db: Database := map[d.child.entity := t];
    TurnedUsable(e, r, i);
    AuthorizedExactly(db, Seed(d, Declared, ManyToOne), "", "", "");
    LargestGroupAtMostOne(t, d.parent.columns);
    OneLinkSafe(MatchEdge(e, TurnedEvidence(db, d)));
  }

  lemma TurnedRowsRepeat(e: NormalizedEdge, r: Authorized, source: string)
    requires SelfEdge(e, r)
    ensures !NeverRepeats(map[r.definition.child.entity := TurnedTable(e, r)], OneEdge(e, source, r.definition.child.entity), MatchEdge(e, r).childRef)
  {
    TurnedEdgeHolds(e, r, source, 0);
    TurnedEdgeHolds(e, r, source, 1);
    var m := MatchEdge(e, r);
    assert SideRow(m, 0)[m.parentRef] != SideRow(m, 1)[m.parentRef];
    RepeatedBy(map[r.definition.child.entity := TurnedTable(e, r)], OneEdge(e, source, r.definition.child.entity), m.childRef, SideRow(m, 0), SideRow(m, 1));
  }

  lemma LosesGrainOn(e: NormalizedEdge, r: Authorized, source: string, db: Database, s: Authorized)
    requires s.definition == r.definition && MeasuredOn(db, s) && s.authorization.usable && GrainOk(MatchEdge(e, s).childRef, [MatchEdge(e, s)])
    requires !NeverRepeats(db, OneEdge(e, source, r.definition.child.entity), MatchEdge(e, r).childRef)
    ensures !EdgeKeepsGrain(e, r, source)
  {
  }

  lemma TurnedRepeats(e: NormalizedEdge, r: Authorized, source: string, i: nat)
    requires SelfEdge(e, r) && i < |r.definition.child.columns| && Turned(e, r, i)
    ensures !EdgeKeepsGrain(e, r, source)
  {
    var d := r.definition;
    var db: Database := map[d.child.entity := TurnedTable(e, r)];
    TurnedIsUsable(e, r, i);
    TurnedRowsRepeat(e, r, source);
    LosesGrainOn(e, r, source, db, TurnedEvidence(db, d));
  }

  /** The covering demand is needed: an accepted edge over a self-relationship keeps the grain on every
      database exactly when its pairs, read from the side taken for the child, include the relationship's. */
  lemma EdgeKeepsGrainExactly(e: NormalizedEdge, r: Authorized, source: string)
    requires SelfEdge(e, r)
    ensures EdgeKeepsGrain(e, r, source) <==> Covers(MatchEdge(e, r))
  {
    var d := r.definition;
    if Covers(MatchEdge(e, r)) {
      forall db, s: Authorized | s.definition == d && MeasuredOn(db, s) && s.authorization.usable && GrainOk(MatchEdge(e, s).childRef, [MatchEdge(e, s)])
        ensures NeverRepeats(db, OneEdge(e, source, d.child.entity), MatchEdge(e, r).childRef)
      {
        CoveredNeverRepeats(e, s, source, db);
      }
    } else {
      var q :| q in DefinitionPairs(d) && q !in Oriented(MatchEdge(e, r));
      var i :| 0 <= i < |d.child.columns| && q == (ChildName(d, i), ParentName(d, i));
      TurnedRepeats(e, r, source, i);
    }
  }
}
