/** A query with left joins that passes and repeats its grain. */
module LeftWitnesses {
  import opened Domain
  import opened Relational
  import opened Evidence
  import opened CandidateEdges
  import opened Planner
  import opened JoinSafety
  import opened SqlGraph
  import opened SqlCanonical
  import opened SqlMatching
  import opened SqlValidation
  import opened SqlSafety
  import opened ProoflessSql
  import opened UniformRows
  import opened Witnesses
  import opened SqlWitnesses
  import opened LeftJoins
  import opened LeftRows

  /** Two lines without an order, and no order. */
  function BareLines(): Database {
    map["lines" := [map[], map[]], "orders" := []]
  }

  function BareRelationship(source: string, snapshotId: string, policy: string): Authorized {
    var record := Verify(BareLines(), LineSeed(source), snapshotId);
    Authorized(LineSeed(source).definition, record, Authorize(record, snapshotId, policy), LineSeed(source).declared)
  }

  function FillEdge(left: string): NormalizedEdge {
    NormalizedEdge(left, "i2", [("lines.a", "orders.id")], LeftOuter)
  }

  /** Two lines, and the order that both name, if there is one. */
  function Meeting(source: string): NormalizedGraph {
    NormalizedGraph(source, [EntityRef("i0", "lines"), EntityRef("i1", "lines"), EntityRef("i2", "orders")], [FillEdge("i0"), FillEdge("i1")])
  }

  lemma BareTables()
    ensures TableOf(BareLines(), "lines") == [map[], map[]] && TableOf(BareLines(), "orders") == []
  {
    assert "lines" != "orders" by { assert |"lines"| != |"orders"|; }
  }

  lemma NoKeys(t: Table, columns: seq<string>)
    requires columns != [] && forall i :: 0 <= i < |t| ==> t[i] == map[]
    ensures UniqueKey(t, columns)
  {
    forall i: nat | i < |t| ensures !HasKey(t[i], columns) {
      assert !Read(t[i], columns[0]).Known?;
    }
    assert KeyedRows(t, columns) == {};
  }

  lemma BareFacts(source: string, snapshotId: string, policy: string)
    ensures var r := BareRelationship(source, snapshotId, policy);
      && ValidDefinition(r.definition) && MeasuredOn(BareLines(), r) && r.authorization.usable
      && r.evidence.measurements.maxParentsPerChild <= 1 && r.evidence.measurements.maxChildrenPerParent <= 1
  {
    var lines, orders, d := TableOf(BareLines(), "lines"), TableOf(BareLines(), "orders"), LineSeed(source).definition;
    BareTables();
    NoKeys(lines, d.child.columns);
    NoKeys(orders, d.parent.columns);
    assert forall i: nat :: i < |lines| ==> !Read(lines[i], "a").Known?;
    assert NoOrphans(lines, orders, d) by {
      forall i: nat | i < |lines| ensures !HasKey(lines[i], d.child.columns) {
        assert !Read(lines[i], d.child.columns[0]).Known?;
      }
    }
    AuthorizedExactly(BareLines(), LineSeed(source), snapshotId, snapshotId, policy);
    LargestGroupAtMostOne(lines, d.child.columns);
    LargestGroupAtMostOne(orders, d.parent.columns);
  }

  ghost predicate BareOnly(current: seq<Authorized>, source: string) {
    |current| == 1 && current[0].definition == LineSeed(source).definition
    && current[0].evidence.measurements.maxParentsPerChild <= 1 && current[0].evidence.measurements.maxChildrenPerParent <= 1
  }

  lemma MeetingMatched(source: string, current: seq<Authorized>)
    requires BareOnly(current, source)
    ensures Unmatched(Meeting(source).edges, current) == 0 && AllOneToOne(current)
    ensures NullableRefs(AllMatched(Meeting(source).edges, current)) == {"i2"}
  {
    var edges := Meeting(source).edges;
    forall i | 0 <= i < |edges| ensures MatchRelationship(edges[i], current).Some? {
      LineReadsLeft(edges[i], current[0], source);
      assert current[0] in current;
    }
    NoneUnmatched(edges, current);
    forall n ensures n in NullableRefs(AllMatched(edges, current)) <==> n == "i2" {
      RefusedExactly(edges, current, n);
      if n == "i2" { assert FillsIn(edges, 0, n); }
    }
  }

  lemma MeetingWellFormed(source: string)
    ensures WellFormedGraph(Meeting(source))
    ensures EntityMap(Meeting(source).entityRefs) == map["i0" := "lines", "i1" := "lines", "i2" := "orders"]
  {
    var refs := Meeting(source).entityRefs;
    PartNamesApart();
    assert refs[0] in refs && refs[1] in refs && refs[2] in refs;
    assert refs[..2] == [refs[0], refs[1]] && refs[..2][..1] == [refs[0]];
    assert [refs[0]][..0] == [];
    assert EntityMap([refs[0]]) == map["i0" := "lines"];
    assert EntityMap([refs[0], refs[1]]) == map["i0" := "lines", "i1" := "lines"];
  }

  lemma MeetingNamed(source: string)
    ensures forall k :: ExpectedAt(Meeting(source).entityRefs, None, None, Some("i0"), k) <==> k == "i0"
  {
    var refs := Meeting(source).entityRefs;
    PartNamesApart();
    LastPartOf("lines");
    LastPartOf("orders");
    assert refs[0] in refs;
    assert OnlyNamed(refs, "i0", refs[0]);
  }

  lemma MeetingTyped(source: string)
    ensures forall i :: 0 <= i < 2 ==> TypedEndpoints(EntityMap(Meeting(source).entityRefs), Meeting(source).edges[i])
  {
    MeetingWellFormed(source);
    PartNamesApart();
    ColumnOfName("lines", "a");
    ColumnOfName("orders", "id");
  }

  lemma MeetingEntities(source: string, current: seq<Authorized>)
    requires BareOnly(current, source)
    ensures AllEntities(Meeting(source), current) <= {"lines", "orders"}
  {
    assert forall r :: r in Meeting(source).entityRefs ==> r.entity in {"lines", "orders"};
    assert forall r :: r in current ==> r.definition.child.entity == "lines" && r.definition.parent.entity == "orders";
  }

  lemma MeetingRead(source: string, current: seq<Authorized>)
    requires BareOnly(current, source)
    ensures Unmistakable(Meeting(source), current) && AllApart(Meeting(source), current)
  {
    MeetingTyped(source);
    MeetingEntities(source, current);
    LinesOrdersApart();
    ApartAmongFewer({"lines", "orders"}, AllEntities(Meeting(source), current));
  }

  lemma MeetingAccepted(source: string, current: seq<Authorized>, definitions: seq<EntityDefinition>)
    requires BareOnly(current, source) && (definitions == [] || StableGrain("lines", definitions))
    ensures GrainAccepted(Meeting(source).entityRefs, AllMatched(Meeting(source).edges, current), definitions, "i0")
  {
    MeetingMatched(source, current);
    PartNamesApart();
    OneToOneNeverFans(Meeting(source), current, "i0");
    EntityMapFinds(Meeting(source).entityRefs, "i0");
    MeetingWellFormed(source);
  }

  lemma MeetingPasses(source: string, current: seq<Authorized>, definitions: seq<EntityDefinition>)
    requires BareOnly(current, source) && (definitions == [] || StableGrain("lines", definitions))
    ensures PassesAlone(Meeting(source), current, definitions, Some("i0"), "i0")
  {
    var g := Meeting(source);
    MeetingWellFormed(source);
    MeetingMatched(source, current);
    MeetingNamed(source);
    MeetingAccepted(source, current, definitions);
    AcceptedAlone(g.entityRefs, AllMatched(g.edges, current), definitions, Some("i0"), "i0");
    MeetingRead(source, current);
  }

  function MeetingRow(j: nat): map<string, nat> { map["i0" := 0, "i1" := j] }

  lemma MeetingRowHolds(source: string, j: nat)
    requires j < 2
    ensures ResultRow(BareLines(), EntityMap(Meeting(source).entityRefs), Meeting(source).edges, MeetingRow(j))
  {
    var edges := Meeting(source).edges;
    MeetingWellFormed(source);
    BareTables();
    PartNamesApart();
    assert FillsIn(edges, 0, "i2");
    assert Unfilled(BareLines(), EntityMap(Meeting(source).entityRefs), edges, "i2", MeetingRow(j));
    forall n, i: nat | n in MeetingRow(j) ensures !FillsIn(edges, i, n) {}
  }

  lemma MeetingRowsRepeat(source: string)
    ensures !NeverRepeatsResult(BareLines(), Meeting(source), "i0")
  {
    MeetingRowHolds(source, 0);
    MeetingRowHolds(source, 1);
    PartNamesApart();
    assert MeetingRow(0)["i1"] != MeetingRow(1)["i1"] && MeetingRow(0)["i0"] == MeetingRow(1)["i0"];
  }

  lemma BareIsOnly(source: string, snapshotId: string, policy: string)
    ensures var current := [BareRelationship(source, snapshotId, policy)];
      BareOnly(current, source) && AllMeasuredOn(BareLines(), current) && AllUsable(current)
  {
    BareFacts(source, snapshotId, policy);
  }

  /** Two lines with no order: left joins that meet at the order leave it out, nothing then ties the one line to the
      other, and each row of the named grain is repeated. */
  lemma MeetingRepeats(source: string, snapshotId: string, policy: string, definitions: seq<EntityDefinition>)
    requires definitions == [] || StableGrain("lines", definitions)
    ensures var g, current := Meeting(source), [BareRelationship(source, snapshotId, policy)];
      && PassesAlone(g, current, definitions, Some("i0"), "i0") && AllMeasuredOn(BareLines(), current) && AllUsable(current)
      && !NeverRepeatsResult(BareLines(), g, "i0")
  {
    BareIsOnly(source, snapshotId, policy);
    MeetingPasses(source, [BareRelationship(source, snapshotId, policy)], definitions);
    MeetingRowsRepeat(source);
  }

  /** A line, the order it may have, and another line of that order. */
  function Rejoined(source: string): NormalizedGraph {
    NormalizedGraph(source, [EntityRef("i0", "lines"), EntityRef("i1", "lines"), EntityRef("i2", "orders")], [FillEdge("i0"), LineEdge("i1", "i2")])
  }

  /** The order is refused as a grain because a left join fills it in, and yet no row of the result lacks it. */
  lemma RefusedButThere(source: string, current: seq<Authorized>)
    requires BareOnly(current, source)
    ensures var g := Rejoined(source);
      && Unmatched(g.edges, current) == 0 && "i2" in NullableRefs(AllMatched(g.edges, current))
      && forall db, row :: ResultRow(db, EntityMap(g.entityRefs), g.edges, row) ==> "i2" in row
  {
    var g := Rejoined(source);
    forall i | 0 <= i < |g.edges| ensures MatchRelationship(g.edges[i], current).Some? {
      LineReadsLeft(g.edges[i], current[0], source);
      assert current[0] in current;
    }
    NoneUnmatched(g.edges, current);
    RefusedExactly(g.edges, current, "i2");
    assert FillsIn(g.edges, 0, "i2") && g.edges[1].kind != LeftOuter && g.edges[1].rightRef == "i2";
    forall db, row | ResultRow(db, EntityMap(g.entityRefs), g.edges, row) ensures "i2" in row {
      TouchedIsThere(db, EntityMap(g.entityRefs), g.edges, "i2", row);
    }
  }
}
