/** Small databases on which the code promises less than it seems. */
module Witnesses {
  import opened Domain
  import opened Ordering
  import opened Relational
  import opened Evidence
  import opened EvidenceCache
  import opened CandidateEdges
  import opened SpanningTrees
  import opened GrainWalk
  import opened QueueWalk
  import opened Rings
  import opened JoinSafety
  import opened Planner
  import opened PlanSafety

  // ---------------------------------------------------------------- keys of one column

  lemma CellsOfOne(row: Row, column: string)
    ensures Cells(row, [column]) == [Read(row, column)]
    ensures HasKey(row, [column]) <==> Read(row, column).Known?
  {
    assert [column][0] == column;
  }

  lemma UniqueOneColumn(t: Table, column: string)
    ensures UniqueKey(t, [column]) <==>
      forall i: nat, j: nat :: i < j < |t| && Read(t[i], column).Known? ==> Read(t[i], column) != Read(t[j], column)
  {
    forall i: nat | i < |t| ensures i in KeyedRows(t, [column]) <==> Read(t[i], column).Known? {
      CellsOfOne(t[i], column);
    }
    forall i: nat, j: nat | i < |t| && j < |t|
      ensures KeyAt(t, [column], i) == KeyAt(t, [column], j) <==> Read(t[i], column) == Read(t[j], column)
    {
      CellsOfOne(t[i], column);
      CellsOfOne(t[j], column);
      assert [Read(t[i], column)][0] == Read(t[i], column) && [Read(t[j], column)][0] == Read(t[j], column);
    }
    if UniqueKey(t, [column]) {
      forall i: nat, j: nat | i < j < |t| && Read(t[i], column).Known? ensures Read(t[i], column) != Read(t[j], column) {
        assert i in KeyedRows(t, [column]) && (j in KeyedRows(t, [column]) <==> Read(t[j], column).Known?);
      }
    }
  }

  /** A relationship of one column each is usable when each child value is some parent's only value. */
  lemma OneColumnUsable(db: Database, seeds: seq<Seed>, s: Seed, child: string, parent: string, snapshotId: string, policy: string)
    returns (r: Authorized)
    requires DistinctSeeds(seeds) && ValidSeeds(seeds) && s in seeds && s.declared == ManyToOne
    requires s.definition.child.columns == [child] && s.definition.parent.columns == [parent]
    requires UniqueKey(TableOf(db, s.definition.parent.entity), [parent])
    requires forall i: nat :: i < |TableOf(db, s.definition.child.entity)| ==>
      exists j: nat :: j < |TableOf(db, s.definition.parent.entity)|
        && Read(TableOf(db, s.definition.child.entity)[i], child) == Read(TableOf(db, s.definition.parent.entity)[j], parent)
    ensures r in AuthorizedGraph(seeds, VerifyAll(db, seeds, snapshotId), snapshotId, policy)
    ensures r.definition == s.definition && r.evidence == Verify(db, s, snapshotId)
  {
    var d := s.definition;
    var children, parents := TableOf(db, d.child.entity), TableOf(db, d.parent.entity);
    forall i: nat | i < |children| && HasKey(children[i], d.child.columns)
      ensures exists j :: 0 <= j < |parents| && Matches(d, children[i], parents[j])
    {
      var j: nat :| j < |parents| && Read(children[i], child) == Read(parents[j], parent);
      CellsOfOne(children[i], child);
      assert Matches(d, children[i], parents[j]);
    }
    FreshGraphKeeps(db, seeds, snapshotId, policy, s);
    r :| r in AuthorizedGraph(seeds, VerifyAll(db, seeds, snapshotId), snapshotId, policy) && r.definition == s.definition;
    SeedOfRecord(db, seeds, snapshotId, policy, s, r);
  }

  lemma SeedOfRecord(db: Database, seeds: seq<Seed>, snapshotId: string, policy: string, s: Seed, r: Authorized)
    requires DistinctSeeds(seeds) && ValidSeeds(seeds) && s in seeds
    requires r in AuthorizedGraph(seeds, VerifyAll(db, seeds, snapshotId), snapshotId, policy) && r.definition == s.definition
    ensures ValidDefinition(s.definition) && r.evidence == Verify(db, s, snapshotId)
  {
    var other := FreshGraphFromSeed(db, seeds, snapshotId, policy, r);
    var i :| 0 <= i < |seeds| && seeds[i] == s;
    var j :| 0 <= j < |seeds| && seeds[j] == other;
    assert i == j;
  }

  /** Nothing refuses a request whose grain is stable, or that comes without entity definitions, over a graph of one source. */
  lemma NotRefused(db: Database, seeds: seq<Seed>, source: string, snapshotId: string, policy: string, q: Request)
    requires DistinctSeeds(seeds) && ValidSeeds(seeds) && OneSourceOf(seeds, source) && ValidRequest(q)
    requires q.definitions == [] || StableGrain(EntityMap(q.refs)[Expected(q)], q.definitions)
    requires AuthorizedGraph(seeds, VerifyAll(db, seeds, snapshotId), snapshotId, policy) != []
    ensures Refusal(q, AuthorizedGraph(seeds, VerifyAll(db, seeds, snapshotId), snapshotId, policy)).None?
  {
    var graph := AuthorizedGraph(seeds, VerifyAll(db, seeds, snapshotId), snapshotId, policy);
    forall r | r in graph ensures r.definition.sourceId == source {
      var s := FreshGraphFromSeed(db, seeds, snapshotId, policy, r);
    }
    assert graph[0] in graph;
    assert SourceIds(graph) == {source};
  }

  ghost predicate OneSourceOf(seeds: seq<Seed>, source: string) {
    forall s :: s in seeds ==> s.definition.sourceId == source
  }

  // ---------------------------------------------------------------- a safe tree behind the limit

  /** Two lines of one order, which they name in four ways; the order names its first line. */
  function LinesOfOrder(): Database {
    map["lines" := [map["a" := Known(1), "b" := Known(1), "c" := Known(1), "d" := Known(1), "id" := Known(1)],
                    map["a" := Known(1), "b" := Known(1), "c" := Known(1), "d" := Known(1), "id" := Known(2)]],
        "orders" := [map["id" := Known(1), "first" := Known(1)]]]
  }

  function LineToOrder(source: string, id: string, column: string): Seed {
    Seed(Definition(id, source, Endpoint("lines", [column]), Endpoint("orders", ["id"])), Curated, ManyToOne)
  }

  function OrderToLine(source: string): Seed {
    Seed(Definition("r5", source, Endpoint("orders", ["first"]), Endpoint("lines", ["id"])), Declared, ManyToOne)
  }

  function OrderSeeds(source: string): seq<Seed> {
    [LineToOrder(source, "r1", "a"), LineToOrder(source, "r2", "b"), LineToOrder(source, "r3", "c"), LineToOrder(source, "r4", "d"), OrderToLine(source)]
  }

  function OrderRequest(definitions: seq<EntityDefinition>): Request {
    Request([EntityRef("o", "orders"), EntityRef("l", "lines")], "o", None, 1, false, "policy", definitions, "now")
  }

  function OrderGraph(source: string, snapshotId: string, policy: string): seq<Authorized>
    requires ValidSeeds(OrderSeeds(source))
  {
    AuthorizedGraph(OrderSeeds(source), VerifyAll(LinesOfOrder(), OrderSeeds(source), snapshotId), snapshotId, policy)
  }

  lemma OrderSeedsValid(source: string)
    ensures DistinctSeeds(OrderSeeds(source)) && ValidSeeds(OrderSeeds(source)) && OneSourceOf(OrderSeeds(source), source)
  {
    var ids := ["r1", "r2", "r3", "r4", "r5"];
    forall i, j | 0 <= i < j < 5 ensures OrderSeeds(source)[i].definition.relationshipId != OrderSeeds(source)[j].definition.relationshipId {
      assert OrderSeeds(source)[i].definition.relationshipId == ids[i] && OrderSeeds(source)[j].definition.relationshipId == ids[j];
      assert ids[i][1] != ids[j][1];
    }
  }

  /** Every naming column holds the order's id in both lines. */
  lemma LineReads(column: string)
    requires column in {"a", "b", "c", "d"}
    ensures var lines := TableOf(LinesOfOrder(), "lines");
      |lines| == 2 && Read(lines[0], column) == Known(1) && Read(lines[1], column) == Known(1)
    ensures var orders := TableOf(LinesOfOrder(), "orders"); |orders| == 1 && Read(orders[0], "id") == Known(1)
  {
  }

  lemma LinesShareOrder(column: string)
    requires column in {"a", "b", "c", "d"}
    ensures LargestGroup(TableOf(LinesOfOrder(), "lines"), [column], |TableOf(LinesOfOrder(), "lines")|) > 1
  {
    var lines := TableOf(LinesOfOrder(), "lines");
    LineReads(column);
    UniqueOneColumn(lines, column);
    assert Read(lines[0], column) == Read(lines[1], column);
    LargestGroupAtMostOne(lines, [column]);
  }

  lemma LineMeetsOrder(source: string, snapshotId: string, policy: string, id: string, column: string) returns (r: Authorized)
    requires column in {"a", "b", "c", "d"} && LineToOrder(source, id, column) in OrderSeeds(source)
    ensures ValidSeeds(OrderSeeds(source)) && r in OrderGraph(source, snapshotId, policy) && r.definition == LineToOrder(source, id, column).definition
    ensures FansOutward(r, EntityRef("o", "orders"), EntityRef("l", "lines"))
  {
    OrderSeedsValid(source);
    LineReads(column);
    UniqueOneColumn(TableOf(LinesOfOrder(), "orders"), "id");
    r := OneColumnUsable(LinesOfOrder(), OrderSeeds(source), LineToOrder(source, id, column), column, "id", snapshotId, policy);
    LinesShareOrder(column);
  }

  lemma OrderMeetsLine(source: string, snapshotId: string, policy: string) returns (r: Authorized)
    ensures ValidSeeds(OrderSeeds(source)) && r in OrderGraph(source, snapshotId, policy) && r.definition == OrderToLine(source).definition
    ensures SafeOutward(r, EntityRef("o", "orders"), EntityRef("l", "lines"))
  {
    OrderSeedsValid(source);
    var db := LinesOfOrder();
    var lines, orders := TableOf(db, "lines"), TableOf(db, "orders");
    UniqueOneColumn(lines, "id");
    assert Read(orders[0], "first") == Known(1) == Read(lines[0], "id");
    assert OrderSeeds(source)[4] in OrderSeeds(source);
    r := OneColumnUsable(db, OrderSeeds(source), OrderToLine(source), "first", "id", snapshotId, policy);
    LargestGroupAtMostOne(lines, ["id"]);
  }

  lemma CuratedSeed(source: string, s: Seed) returns (column: string)
    requires s in OrderSeeds(source) && s.provenance == Curated
    ensures column in {"a", "b", "c", "d"} && s == LineToOrder(source, s.definition.relationshipId, column)
  {
    column := s.definition.child.columns[0];
  }

  lemma CuratedOrderFans(source: string, snapshotId: string, policy: string, r: Authorized)
    requires ValidSeeds(OrderSeeds(source)) && r in OrderGraph(source, snapshotId, policy) && r.evidence.provenance == Curated
    ensures NotSafeOutward(r, EntityRef("o", "orders"), EntityRef("l", "lines"))
  {
    OrderSeedsValid(source);
    var s := FreshGraphFromSeed(LinesOfOrder(), OrderSeeds(source), snapshotId, policy, r);
    var column := CuratedSeed(source, s);
    LinesShareOrder(column);
  }

  lemma OrderCrowds(source: string, snapshotId: string, policy: string, ahead: seq<Authorized>, safe: Authorized)
    requires ValidSeeds(OrderSeeds(source)) && |ahead| == 4 && safe in OrderGraph(source, snapshotId, policy) && SafeOutward(safe, EntityRef("o", "orders"), EntityRef("l", "lines"))
    requires forall i :: 0 <= i < 4 ==> ahead[i] in OrderGraph(source, snapshotId, policy) && FansOutward(ahead[i], EntityRef("o", "orders"), EntityRef("l", "lines"))
    requires forall i, j :: 0 <= i < j < 4 ==> ahead[i] != ahead[j]
    ensures Crowds(OrderGraph(source, snapshotId, policy), EntityRef("o", "orders"), EntityRef("l", "lines"), ahead, safe)
  {
    forall r | r in OrderGraph(source, snapshotId, policy) && r.evidence.provenance == Curated
      ensures NotSafeOutward(r, EntityRef("o", "orders"), EntityRef("l", "lines"))
    {
      CuratedOrderFans(source, snapshotId, policy, r);
    }
  }

  lemma LineAt(source: string, snapshotId: string, policy: string, k: nat) returns (r: Authorized)
    requires k < 4
    ensures ValidSeeds(OrderSeeds(source)) && r in OrderGraph(source, snapshotId, policy) && FansOutward(r, EntityRef("o", "orders"), EntityRef("l", "lines"))
    ensures r.definition.child.columns == [["a", "b", "c", "d"][k]]
  {
    var seeds := OrderSeeds(source);
    assert seeds[k] in seeds;
    r := LineMeetsOrder(source, snapshotId, policy, seeds[k].definition.relationshipId, seeds[k].definition.child.columns[0]);
  }

  lemma DifferentColumns(a: Authorized, b: Authorized, i: nat, j: nat)
    requires i < j < 4 && a.definition.child.columns == [["a", "b", "c", "d"][i]] && b.definition.child.columns == [["a", "b", "c", "d"][j]]
    ensures a != b
  {
    var columns := ["a", "b", "c", "d"];
    assert columns[i][0] != columns[j][0];
    assert a.definition.child.columns[0] == columns[i] && b.definition.child.columns[0] == columns[j];
  }

  ghost predicate IsLine(source: string, snapshotId: string, policy: string, r: Authorized, k: nat) {
    && k < 4 && ValidSeeds(OrderSeeds(source)) && r in OrderGraph(source, snapshotId, policy)
    && FansOutward(r, EntityRef("o", "orders"), EntityRef("l", "lines")) && r.definition.child.columns == [["a", "b", "c", "d"][k]]
  }

  lemma {:induction false} LinesFrom(source: string, snapshotId: string, policy: string, n: nat) returns (lines: seq<Authorized>)
    requires n <= 4
    ensures |lines| == n && forall i :: 0 <= i < n ==> IsLine(source, snapshotId, policy, lines[i], i)
  {
    if n == 0 {
      lines := [];
    } else {
      var before := LinesFrom(source, snapshotId, policy, n - 1);
      var r := LineAt(source, snapshotId, policy, n - 1);
      assert IsLine(source, snapshotId, policy, r, n - 1);
      lines := before + [r];
    }
  }

  lemma FourLinesAhead(source: string, snapshotId: string, policy: string) returns (ahead: seq<Authorized>)
    ensures ValidSeeds(OrderSeeds(source)) && |ahead| == 4
    ensures forall i :: 0 <= i < 4 ==> ahead[i] in OrderGraph(source, snapshotId, policy) && FansOutward(ahead[i], EntityRef("o", "orders"), EntityRef("l", "lines"))
    ensures forall i, j :: 0 <= i < j < 4 ==> ahead[i] != ahead[j]
  {
    OrderSeedsValid(source);
    ahead := LinesFrom(source, snapshotId, policy, 4);
    forall i, j | 0 <= i < j < 4 ensures ahead[i] != ahead[j] {
      assert IsLine(source, snapshotId, policy, ahead[i], i) && IsLine(source, snapshotId, policy, ahead[j], j);
      DifferentColumns(ahead[i], ahead[j], i, j);
    }
    forall i | 0 <= i < 4
      ensures ahead[i] in OrderGraph(source, snapshotId, policy) && FansOutward(ahead[i], EntityRef("o", "orders"), EntityRef("l", "lines"))
    {
      assert IsLine(source, snapshotId, policy, ahead[i], i);
    }
  }

  lemma OrderRequestAsks(definitions: seq<EntityDefinition>)
    ensures AsksFor(OrderRequest(definitions), EntityRef("o", "orders"), EntityRef("l", "lines"))
  {
    var q := OrderRequest(definitions);
    assert q.refs[0].ref == "o" && q.refs[1].ref == "l" && "o"[0] != "l"[0];
    DistinctExactly(q.refs);
    EntityMapFinds(q.refs, "o");
    assert q.refs[0] in q.refs;
    assert |"orders"| != |"lines"|;
  }

  /** From the order to its lines a safe tree exists, and the planner answers that no path is verified. */
  lemma LimitHidesSafeTree(source: string, snapshotId: string, policy: string, definitions: seq<EntityDefinition>)
    requires definitions == [] || StableGrain("orders", definitions)
    ensures DistinctSeeds(OrderSeeds(source)) && ValidSeeds(OrderSeeds(source)) && ValidRequest(OrderRequest(definitions))
    ensures Plan(OrderRequest(definitions), OrderGraph(source, snapshotId, policy)) == Err("NO_VERIFIED_PATH")
    ensures SafeTreeExists(OrderRequest(definitions), OrderGraph(source, snapshotId, policy))
  {
    OrderSeedsValid(source);
    OrderRequestAsks(definitions);
    var ahead := FourLinesAhead(source, snapshotId, policy);
    var safe := OrderMeetsLine(source, snapshotId, policy);
    OrderCrowds(source, snapshotId, policy, ahead, safe);
    NotRefused(LinesOfOrder(), OrderSeeds(source), source, snapshotId, policy, OrderRequest(definitions));
    CrowdedHides(OrderRequest(definitions), OrderGraph(source, snapshotId, policy), EntityRef("o", "orders"), EntityRef("l", "lines"), ahead, safe);
  }

  // ---------------------------------------------------------------- a cached record that is not fresh

  /** Both lines name one order, so a record cached when many lines were declared has no finding where
      a fresh verification for a declaration of one line finds drift; the selector is the same. */
  lemma CachedIsNotFresh(source: string, snapshotId: string)
    ensures var stored := LineToOrder(source, "r1", "a");
      var asked := stored.(declared := OneToOne);
      && Wanted(stored, snapshotId) == Wanted(asked, snapshotId)
      && Verify(LinesOfOrder(), stored, snapshotId) != Verify(LinesOfOrder(), asked, snapshotId)
  {
    var stored := LineToOrder(source, "r1", "a");
    LineReads("a");
    LinesShareOrder("a");
    UniqueOneColumn(TableOf(LinesOfOrder(), "orders"), "id");
    LargestGroupAtMostOne(TableOf(LinesOfOrder(), "orders"), ["id"]);
    CachedIsFreshExactly(LinesOfOrder(), stored, stored.(declared := OneToOne), snapshotId);
  }
}
