/** Queries that validation lets through, or never answers, shown on rows. */
module SqlWitnesses {
  import opened Domain
  import opened Ordering
  import opened Sorting
  import opened Relational
  import opened Evidence
  import opened Bijections
  import opened CandidateEdges
  import opened SpanningTrees
  import opened GrainWalk
  import opened QueueWalk
  import opened Rings
  import opened JoinSafety
  import opened Planner
  import opened PlanSafety
  import opened SqlGraph
  import opened InstanceGroups
  import opened SqlCanonical
  import opened SqlMatching
  import opened SqlValidation
  import opened SqlSafety
  import opened ProofBoundSql
  import opened ProoflessSql
  import opened MixedSides
  import opened Witnesses

  // ---------------------------------------------------------------- a ring of instances

  /** One employee, who mentors themselves. */
  function Mentors(): Database {
    map["staff" := [map["id" := Known(1), "mentor" := Known(1)]]]
  }

  function MentorSeed(source: string): Seed {
    Seed(Definition("r1", source, Endpoint("staff", ["mentor"]), Endpoint("staff", ["id"])), Declared, ManyToOne)
  }

  function MentorGraph(source: string, snapshotId: string, policy: string): seq<Authorized> {
    AuthorizedGraph([MentorSeed(source)], VerifyAll(Mentors(), [MentorSeed(source)], snapshotId), snapshotId, policy)
  }

  function MentorEdge(left: string, right: string): NormalizedEdge {
    NormalizedEdge(left, right, [("staff.id", "staff.mentor")], Inner)
  }

  /** Three instances: the first mentors the other two, and the second the third. */
  function MentorRing(source: string): NormalizedGraph {
    NormalizedGraph(source, [EntityRef("i0", "staff"), EntityRef("i1", "staff"), EntityRef("i2", "staff")],
                    [MentorEdge("i0", "i1"), MentorEdge("i0", "i2"), MentorEdge("i1", "i2")])
  }

  lemma MentorUsable(source: string, snapshotId: string, policy: string) returns (r: Authorized)
    ensures r in MentorGraph(source, snapshotId, policy) && r.definition == MentorSeed(source).definition
  {
    var db, s := Mentors(), MentorSeed(source);
    var staff := TableOf(db, "staff");
    UniqueOneColumn(staff, "id");
    assert Read(staff[0], "mentor") == Known(1) == Read(staff[0], "id");
    r := OneColumnUsable(db, [s], s, "mentor", "id", snapshotId, policy);
  }

  lemma MentorBounds(source: string, snapshotId: string, policy: string, r: Authorized)
    requires r in MentorGraph(source, snapshotId, policy)
    ensures r.definition == MentorSeed(source).definition
    ensures r.evidence.measurements.maxParentsPerChild <= 1 && r.evidence.measurements.maxChildrenPerParent <= 1
  {
    MentorSeedValid(source);
    OnlySeed(Mentors(), MentorSeed(source), snapshotId, policy, r);
    MentorGroups();
  }

  lemma MentorSeedValid(source: string)
    ensures ValidSeeds([MentorSeed(source)])
  {
  }

  lemma MentorGroups()
    ensures var staff := TableOf(Mentors(), "staff");
      LargestGroup(staff, ["id"], |staff|) <= 1 && LargestGroup(staff, ["mentor"], |staff|) <= 1
  {
    var staff := TableOf(Mentors(), "staff");
    UniqueOneColumn(staff, "id");
    UniqueOneColumn(staff, "mentor");
    LargestGroupAtMostOne(staff, ["id"]);
    LargestGroupAtMostOne(staff, ["mentor"]);
  }

  lemma MentorEdgeMatches(source: string, snapshotId: string, policy: string, left: string, right: string)
    ensures MatchRelationship(MentorEdge(left, right), MentorGraph(source, snapshotId, policy)).Some?
  {
    var e := MentorEdge(left, right);
    var r := MentorUsable(source, snapshotId, policy);
    MentorReads(e, r, source);
  }

  lemma OnePair(e: NormalizedEdge, p: Pair)
    requires e.pairs == [p]
    ensures Observed(e.pairs) == {CanonicalPair(p.0, p.1)} && LeftNames(e) == {p.0}
  {
    assert e.pairs[0] in e.pairs;
  }

  lemma OneColumnEach(d: Definition, child: string, parent: string)
    requires d.child.columns == [child] && d.parent.columns == [parent]
    ensures ChildNames(d) == {EndpointName(d.child.entity, child)}
    ensures ExpectedPairs(d) == {CanonicalPair(EndpointName(d.child.entity, child), EndpointName(d.parent.entity, parent))}
  {
    assert d.child.columns[0] in d.child.columns;
    assert DefinitionPairs(d) == {(ChildName(d, 0), ParentName(d, 0))};
  }

  lemma MentorReads(e: NormalizedEdge, r: Authorized, source: string)
    requires e.pairs == [("staff.id", "staff.mentor")] && r.definition == MentorSeed(source).definition
    ensures EdgeMatches(e, r) && RelationshipRefs(e, r) == (e.rightRef, e.leftRef)
  {
    OnePair(e, ("staff.id", "staff.mentor"));
    OneColumnEach(r.definition, "mentor", "id");
    StaffNames();
    EndsInOrder();
    assert "staff.mentor" !in LeftNames(e);
  }

  lemma StaffNames()
    ensures EndpointName("staff", "mentor") == "staff.mentor" && EndpointName("staff", "id") == "staff.id"
  {
    assert "staff" + "." == "staff.";
  }

  lemma EndsInOrder()
    ensures CanonicalPair("staff.id", "staff.mentor") == CanonicalPair("staff.mentor", "staff.id") && "staff.id" != "staff.mentor"
  {
    assert "staff.id"[6] == 'i' && "staff.mentor"[6] == 'm';
    NameLeTotal("staff.id", "staff.mentor");
  }

  /** The edges of a query are all this relationship's, read from the right, and no row meets two. */
  ghost predicate ReadSafely(edges: seq<NormalizedEdge>, current: seq<Authorized>) {
    forall i :: 0 <= i < |edges| ==>
      && MatchRelationship(edges[i], current).Some? && edges[i].kind == Inner
      && ReadsRight(edges[i], MatchRelationship(edges[i], current).value)
  }

  ghost predicate ReadsRight(e: NormalizedEdge, r: Authorized) {
    && RelationshipRefs(e, r) == (e.rightRef, e.leftRef)
    && r.evidence.measurements.maxParentsPerChild <= 1 && r.evidence.measurements.maxChildrenPerParent <= 1
  }

  lemma RingReads(source: string, snapshotId: string, policy: string)
    ensures ReadSafely(MentorRing(source).edges, MentorGraph(source, snapshotId, policy))
  {
    var edges, current := MentorRing(source).edges, MentorGraph(source, snapshotId, policy);
    forall i | 0 <= i < |edges|
      ensures MatchRelationship(edges[i], current).Some? && edges[i].kind == Inner
      ensures ReadsRight(edges[i], MatchRelationship(edges[i], current).value)
    {
      RingRead(source, snapshotId, policy, edges[i]);
    }
  }

  lemma RingRead(source: string, snapshotId: string, policy: string, e: NormalizedEdge)
    requires e == MentorEdge(e.leftRef, e.rightRef)
    ensures MatchRelationship(e, MentorGraph(source, snapshotId, policy)).Some?
    ensures ReadsRight(e, MatchRelationship(e, MentorGraph(source, snapshotId, policy)).value)
  {
    MentorEdgeMatches(source, snapshotId, policy, e.leftRef, e.rightRef);
    var r := MatchRelationship(e, MentorGraph(source, snapshotId, policy)).value;
    MentorBounds(source, snapshotId, policy, r);
    MentorReads(e, r, source);
  }

  /** Every edge is matched, and no link between the matched sides multiplies rows. */
  lemma SafeReadings(edges: seq<NormalizedEdge>, current: seq<Authorized>)
    requires ReadSafely(edges, current)
    ensures Unmatched(edges, current) == 0 && NullableRefs(AllMatched(edges, current)) == {}
    ensures var links := Links(BoundMatched(AllMatched(edges, current)));
      |links| == |edges| && forall i :: 0 <= i < |edges| ==>
        links[i].a == edges[i].rightRef && links[i].b == edges[i].leftRef && links[i].ab <= 1 && links[i].ba <= 1
  {
    NoneUnmatched(edges, current);
    AllMatchedFacts(edges, current);
  }

  lemma SafeLinksAreSafe(links: seq<Link>, grain: string)
    requires forall i :: 0 <= i < |links| ==> links[i].ab <= 1 && links[i].ba <= 1
    ensures NeverFansOut(grain, links)
  {
  }

  lemma LinkJoins(links: seq<Link>, i: nat)
    requires i < |links|
    ensures Joined(links, links[i].a, links[i].b) && Joined(links, links[i].b, links[i].a)
  {
    assert links[i] in links;
    assert Step(links, links[i].a, links[i].b, links[i].ab) && Step(links, links[i].b, links[i].a, links[i].ba);
  }

  lemma TriangleIsRing(links: seq<Link>, a: string, b: string, c: string)
    requires a != b && b != c && a != c && |links| == 3
    requires links[0].a == b && links[0].b == a && links[1].a == c && links[1].b == a && links[2].a == c && links[2].b == b
    ensures ReachesRing(links, a)
  {
    LinkJoins(links, 0);
    LinkJoins(links, 1);
    LinkJoins(links, 2);
    var ring, w := [a, b, c], [a];
    assert ring[0] == a && ring[1] == b && ring[2] == c;
    assert Ring(links, ring) && Walk(links, w) && w[0] in ring;
  }

  /** A query without a proof that closes a ring over one-to-one rows is never answered: all its edges
      are matched, the named instance is found, and the walk from it has no end. */
  lemma RingIsNeverAnswered(source: string, snapshotId: string, policy: string, definitions: seq<EntityDefinition>)
    requires definitions == [] || StableGrain("staff", definitions)
    ensures var g, current := MentorRing(source), MentorGraph(source, snapshotId, policy);
      && WellFormedGraph(g) && Unmatched(g.edges, current) == 0
      && ExpectedAt(g.entityRefs, None, None, Some("i0"), "i0")
      && !WalkEnds(Links(BoundMatched(AllMatched(g.edges, current))), "i0")
      && !WalkDecided(g.entityRefs, AllMatched(g.edges, current), definitions, None, None, Some("i0"))
  {
    var g, current := MentorRing(source), MentorGraph(source, snapshotId, policy);
    var links := Links(BoundMatched(AllMatched(g.edges, current)));
    RingWellFormed(source);
    RingReads(source, snapshotId, policy);
    SafeReadings(g.edges, current);
    SafeLinksAreSafe(links, "i0");
    NamesApart();
    TriangleIsRing(links, "i0", "i1", "i2");
    ProoflessEndsExactly(g, current, "i0");
    assert GrainDecided("i0", AllMatched(g.edges, current)) == false;
    EntityMapFinds(g.entityRefs, "i0");
    RingEntities(source);
  }

  lemma RingEntities(source: string)
    ensures forall n :: n in EntityMap(MentorRing(source).entityRefs) ==> EntityMap(MentorRing(source).entityRefs)[n] == "staff"
    ensures Find(MentorRing(source).entityRefs, "i0").Some?
  {
    var refs := MentorRing(source).entityRefs;
    assert refs[0] in refs;
    EntityMapFinds(refs, "i0");
    forall n | n in EntityMap(refs) ensures EntityMap(refs)[n] == "staff" {
      EntityMapFinds(refs, n);
    }
  }

  lemma NamesApart()
    ensures "i0" != "i1" && "i1" != "i2" && "i0" != "i2" && |"staff"| != |"i0"|
  {
    assert "i0"[1] == '0' && "i1"[1] == '1' && "i2"[1] == '2';
  }

  lemma RingWellFormed(source: string)
    ensures WellFormedGraph(MentorRing(source))
    ensures ExpectedAt(MentorRing(source).entityRefs, None, None, Some("i0"), "i0")
  {
    NamesApart();
    var refs := MentorRing(source).entityRefs;
    assert refs[0] in refs && refs[1] in refs && refs[2] in refs;
    LastPartOf("staff");
    assert OnlyNamed(refs, "i0", refs[0]);
  }

  lemma {:induction false} LastPartOf(name: string)
    requires forall i :: 0 <= i < |name| ==> name[i] != '.'
    ensures LastPart(name) == name
  {
    if name != "" {
      LastPartOf(name[..|name| - 1]);
    }
  }

  // ---------------------------------------------------------------- planning over one self-relationship

  lemma FanningIsLater(a: Candidate, b: Candidate)
    requires a.maxMatches > 1 && b.maxMatches <= 1 && a.relationship.evidence.provenance == b.relationship.evidence.provenance
    ensures !CandidateLe(a, b)
  {
    var x, y := CandidateKey(a), CandidateKey(b);
    assert !NameLe("1", "0");
    assert x[0] == y[0] && x[1..][0] == "1" && y[1..][0] == "0";
    assert !KeyLe(x[1..], y[1..]);
  }

  /** Among candidates of one provenance those that fan out come last. */
  lemma SafeComesFirst(q: Request, graph: seq<Authorized>, t: Tree, u: Tree)
    requires |t| == 1 && |u| == 1 && t[0].maxMatches > 1 && u[0].maxMatches <= 1
    requires t[0].relationship.evidence.provenance == u[0].relationship.evidence.provenance
    ensures !FoundBefore(Candidates(q.refs, graph), t, u)
  {
    var candidates := Candidates(q.refs, graph);
    if FoundBefore(candidates, t, u) {
      var k, p, r :| 0 <= k < |t| && k < |u| && t[..k] == u[..k]
        && 0 <= p < r < |candidates| && candidates[p] == t[k] && candidates[r] == u[k];
      CandidateLeIsTotalPreorder();
      SortedFacts(Unsorted(q.refs, graph), CandidateLe);
      assert CandidateLe(t[0], u[0]);
      FanningIsLater(t[0], u[0]);
    }
  }

  /** Every relationship of the graph is declared, joins the entity to itself, and fans out only from parent to child. */
  ghost predicate OnlyClimbs(graph: seq<Authorized>, entity: string) {
    forall r :: r in graph ==>
      && r.evidence.provenance == Declared && r.definition.child.entity == entity && r.definition.parent.entity == entity
      && r.evidence.measurements.maxParentsPerChild <= 1 && r.evidence.measurements.maxChildrenPerParent > 1
  }

  lemma SelfTree(q: Request, graph: seq<Authorized>, from: EntityRef, to: EntityRef, t: Tree)
    requires AsksFor(q, from, to) && from.entity == to.entity && OnlyClimbs(graph, from.entity)
    requires Spanning(SearchOf(q, graph), q.startRef, t)
    ensures |t| == 1 && t[0].relationship in graph && t[0].fromRef == from.ref && t[0].toRef == to.ref
    ensures t[0].relationship.evidence.provenance == Declared
    ensures SafeTree(Expected(q), t) <==> t[0].traversal == Forward
    ensures t[0].maxMatches <= 1 <==> t[0].traversal == Forward
  {
    TwoRefTree(q, graph, from, to, t);
    AskedRefs(q, from, to);
    CandidatesExactly(q.refs, graph, t[0]);
    assert t == [t[0]];
    if t[0].maxMatches > 1 { FirstStepFans(from.ref, to.ref, t[0]); } else { SingleSafeStep(from.ref, to.ref, t[0]); }
  }

  lemma SafeIsFirst(q: Request, graph: seq<Authorized>, from: EntityRef, to: EntityRef, i: nat)
    requires AsksFor(q, from, to) && from.entity == to.entity && OnlyClimbs(graph, from.entity)
    requires FirstSafeAt(q, graph, i)
    ensures i == 0
  {
    if i > 0 {
      var t, u := AllGrowths(q, graph)[0], AllGrowths(q, graph)[i];
      GrowthSpans(q, graph, 0);
      GrowthSpans(q, graph, i);
      SelfTree(q, graph, from, to, t);
      SelfTree(q, graph, from, to, u);
      SafeComesFirst(q, graph, t, u);
    }
  }

  /** The planner offers the climb from child to parent. */
  lemma ClimbIsPlanned(q: Request, graph: seq<Authorized>, from: EntityRef, to: EntityRef) returns (p: JoinProof, t: Tree)
    requires AsksFor(q, from, to) && from.entity == to.entity && OnlyClimbs(graph, from.entity) && Refusal(q, graph).None? && graph != []
    ensures Plan(q, graph) == Ok(p) && p.edges == ProofEdges(t) && p.entityRefs == Sorted(q.refs, RefLe) && p.expectedGrainRef == from.ref
    ensures |t| == 1 && t[0].relationship in graph && t[0].fromRef == from.ref && t[0].toRef == to.ref && t[0].traversal == Forward
  {
    PlanIsFound(q, graph, from, to);
    p := Plan(q, graph).value;
    t := OfferedTree(q, graph, p, p);
    SelfTree(q, graph, from, to, t);
  }

  /** The one step up is a safe spanning tree. */
  lemma ClimbExists(q: Request, graph: seq<Authorized>, from: EntityRef, to: EntityRef)
    requires AsksFor(q, from, to) && from.entity == to.entity && OnlyClimbs(graph, from.entity) && graph != []
    ensures ValidRequest(q) && SafeTreeExists(q, graph)
  {
    AskedRefs(q, from, to);
    var c := ForwardEdge(graph[0], from, to);
    assert graph[0] in graph && Connects(c, from, to) && q.refs[0] == from && q.refs[1] == to;
    CandidatesExactly(q.refs, graph, c);
    TwoRefTree(q, graph, from, to, [c]);
    SelfTree(q, graph, from, to, [c]);
  }

  /** Safe trees come first, so the first growth is safe. */
  lemma FirstIsSafe(q: Request, graph: seq<Authorized>, from: EntityRef, to: EntityRef)
    requires AsksFor(q, from, to) && from.entity == to.entity && OnlyClimbs(graph, from.entity) && graph != []
    ensures ValidRequest(q) && FirstSafeAt(q, graph, 0)
  {
    ClimbExists(q, graph, from, to);
    SafeTreeHasPlace(q, graph);
    var i: nat :| FirstSafeAt(q, graph, i);
    SafeIsFirst(q, graph, from, to, i);
  }

  lemma PlanIsFound(q: Request, graph: seq<Authorized>, from: EntityRef, to: EntityRef)
    requires AsksFor(q, from, to) && from.entity == to.entity && OnlyClimbs(graph, from.entity) && Refusal(q, graph).None? && graph != []
    ensures Plan(q, graph).Ok?
  {
    FirstIsSafe(q, graph, from, to);
    NoneConsidered(q, graph);
    var safe := SafeTrees(Expected(q), Considered(q, graph));
    if safe != [] {
      OneSnapshot(q, graph, from, to, safe[0]);
    }
  }

  lemma OneSnapshot(q: Request, graph: seq<Authorized>, from: EntityRef, to: EntityRef, t: Tree)
    requires AsksFor(q, from, to) && t in Considered(q, graph)
    ensures |Snapshots(t)| == 1
  {
    ConsideredSpan(q, graph);
    var k :| 0 <= k < |Considered(q, graph)| && Considered(q, graph)[k] == t;
    TwoRefTree(q, graph, from, to, t);
    OneEdgeSnapshot(t);
  }

  lemma OneEdgeSnapshot(t: Tree)
    requires |t| == 1
    ensures |Snapshots(t)| == 1
  {
    assert t[0] in t && forall c :: c in t ==> c == t[0];
    assert Snapshots(t) == {t[0].relationship.evidence.snapshotId};
  }

  // ---------------------------------------------------------------- a mixed edge that repeats rows

  /** Both parts name the first one, by the two columns a and b; c and d are the columns named. */
  function Parts(): Database {
    map["parts" := [map["a" := Known(1), "b" := Known(2), "c" := Known(1), "d" := Known(2)],
                    map["a" := Known(1), "b" := Known(2), "c" := Known(5), "d" := Known(2)]]]
  }

  function PartSeed(source: string): Seed {
    Seed(Definition("r1", source, Endpoint("parts", ["a", "b"]), Endpoint("parts", ["c", "d"])), Declared, ManyToOne)
  }

  lemma PartSeedValid(source: string)
    ensures ValidSeeds([PartSeed(source)])
  {
  }

  function PartGraph(source: string, snapshotId: string, policy: string): seq<Authorized> {
    AuthorizedGraph([PartSeed(source)], VerifyAll(Parts(), [PartSeed(source)], snapshotId), snapshotId, policy)
  }

  lemma PartKeys()
    ensures var parts := TableOf(Parts(), "parts");
      && |parts| == 2 && Cells(parts[0], ["a", "b"]) == [Known(1), Known(2)] == Cells(parts[1], ["a", "b"])
      && Cells(parts[0], ["c", "d"]) == [Known(1), Known(2)] && Cells(parts[1], ["c", "d"]) == [Known(5), Known(2)]
      && HasKey(parts[0], ["a", "b"]) && HasKey(parts[1], ["a", "b"]) && HasKey(parts[0], ["c", "d"]) && HasKey(parts[1], ["c", "d"])
  {
    var parts := TableOf(Parts(), "parts");
    assert ["a", "b"][0] == "a" && ["a", "b"][1] == "b" && ["c", "d"][0] == "c" && ["c", "d"][1] == "d";
  }

  lemma PartsUnique()
    ensures UniqueKey(TableOf(Parts(), "parts"), ["c", "d"]) && !UniqueKey(TableOf(Parts(), "parts"), ["a", "b"])
  {
    var parts := TableOf(Parts(), "parts");
    PartKeys();
    assert [Known(1), Known(2)][0] != [Known(5), Known(2)][0];
    assert 0 in KeyedRows(parts, ["a", "b"]) && 1 in KeyedRows(parts, ["a", "b"]);
    assert KeyAt(parts, ["a", "b"], 0) == KeyAt(parts, ["a", "b"], 1);
  }

  lemma PartsMeet(source: string)
    ensures NoOrphans(TableOf(Parts(), "parts"), TableOf(Parts(), "parts"), PartSeed(source).definition)
  {
    var d, parts := PartSeed(source).definition, TableOf(Parts(), "parts");
    PartKeys();
    forall i: nat | i < |parts| && HasKey(parts[i], d.child.columns) ensures exists j :: 0 <= j < |parts| && Matches(d, parts[i], parts[j]) {
      MatchesByKey(d, parts[i], parts[0]);
    }
  }

  lemma PartUsable(source: string, snapshotId: string, policy: string) returns (r: Authorized)
    ensures r in PartGraph(source, snapshotId, policy) && r.definition == PartSeed(source).definition
  {
    PartsMeet(source);
    PartsUnique();
    FreshGraphKeeps(Parts(), [PartSeed(source)], snapshotId, policy, PartSeed(source));
    r :| r in PartGraph(source, snapshotId, policy) && r.definition == PartSeed(source).definition;
  }

  lemma PartGroups()
    ensures var parts := TableOf(Parts(), "parts");
      LargestGroup(parts, ["c", "d"], |parts|) <= 1 && LargestGroup(parts, ["a", "b"], |parts|) > 1
  {
    PartsUnique();
    LargestGroupAtMostOne(TableOf(Parts(), "parts"), ["a", "b"]);
    LargestGroupAtMostOne(TableOf(Parts(), "parts"), ["c", "d"]);
  }

  lemma OnlySeed(db: Database, s: Seed, snapshotId: string, policy: string, r: Authorized)
    requires ValidSeeds([s]) && r in AuthorizedGraph([s], VerifyAll(db, [s], snapshotId), snapshotId, policy)
    ensures r.definition == s.definition && r.evidence.provenance == s.provenance && MeasuredOn(db, r)
    ensures var child, parent := TableOf(db, s.definition.child.entity), TableOf(db, s.definition.parent.entity);
      && r.evidence.measurements.maxParentsPerChild == LargestGroup(parent, s.definition.parent.columns, |parent|)
      && r.evidence.measurements.maxChildrenPerParent == LargestGroup(child, s.definition.child.columns, |child|)
  {
    var other := FreshGraphFromSeed(db, [s], snapshotId, policy, r);
    assert other == s;
  }

  lemma PartBounds(source: string, snapshotId: string, policy: string, r: Authorized)
    requires r in PartGraph(source, snapshotId, policy)
    ensures r.definition == PartSeed(source).definition && r.evidence.provenance == Declared && MeasuredOn(Parts(), r)
    ensures r.evidence.measurements.maxParentsPerChild <= 1 && r.evidence.measurements.maxChildrenPerParent > 1
  {
    PartSeedValid(source);
    OnlySeed(Parts(), PartSeed(source), snapshotId, policy, r);
    PartGroups();
  }

  /** The query equates a with c, but d with b: its first instance gives a and d. */
  function MixedEdge(): NormalizedEdge {
    NormalizedEdge("i0", "i1", [("parts.a", "parts.c"), ("parts.d", "parts.b")], Inner)
  }

  function MixedQuery(source: string): NormalizedGraph {
    NormalizedGraph(source, [EntityRef("i0", "parts"), EntityRef("i1", "parts")], [MixedEdge()])
  }

  function PartRequest(definitions: seq<EntityDefinition>): Request {
    Request([EntityRef("u", "parts"), EntityRef("v", "parts")], "u", None, 1, false, "policy", definitions, "now")
  }

  lemma PartNames()
    ensures EndpointName("parts", "a") == "parts.a" && EndpointName("parts", "b") == "parts.b"
    ensures EndpointName("parts", "c") == "parts.c" && EndpointName("parts", "d") == "parts.d"
    ensures "parts.d" != "parts.b" && "parts.d" != "parts.a" && "a" != "b" && "a" != "c" && "a" != "d" && "b" != "c" && "b" != "d" && "c" != "d"
  {
    assert "parts.d"[6] == 'd' && "parts.b"[6] == 'b' && "parts.a"[6] == 'a';
    assert "a"[0] == 'a' && "b"[0] == 'b' && "c"[0] == 'c' && "d"[0] == 'd';
  }

  /** The edge is matched, and its second instance is taken for the child. */
  lemma MixedIsRead(r: Authorized, source: string)
    requires r.definition == PartSeed(source).definition
    ensures EdgeMatches(MixedEdge(), r) && RelationshipRefs(MixedEdge(), r) == ("i1", "i0")
  {
    PartNames();
    assert "i0"[1] != "i1"[1];
    MixedSidesMatch(r, MixedEdge(), "parts", "a", "b", "c", "d");
    assert MixedEdge().pairs[1] in MixedEdge().pairs;
    assert "parts.d" in LeftNames(MixedEdge());
    assert ["a", "b"][0] == "a" && ["a", "b"][1] == "b";
    assert "parts.d" !in ChildNames(r.definition);
  }

  /** Two rows of the query's join: both parts beside the first. */
  function MixedRow(x: nat): map<string, nat> { map["i0" := x, "i1" := 0] }

  lemma MixedRowHolds(source: string, x: nat)
    requires x < 2
    ensures SqlJoinRow(Parts(), EntityMap(MixedQuery(source).entityRefs), MixedQuery(source).edges, MixedRow(x))
  {
    var entities, parts, e := EntityMap(MixedQuery(source).entityRefs), TableOf(Parts(), "parts"), MixedEdge();
    MixedEntities(source);
    MixedPairsHold(x);
    forall p | p in PairSet(e.pairs) ensures PairHolds(parts[x], parts[0], "parts", "parts", p) {
      assert p == ("parts.a", "parts.c") || p == ("parts.d", "parts.b");
    }
    assert SqlEdgeHolds(Parts(), entities, e, MixedRow(x));
  }

  lemma MixedEntities(source: string)
    ensures EntityMap(MixedQuery(source).entityRefs) == map["i0" := "parts", "i1" := "parts"] && WellFormedGraph(MixedQuery(source))
  {
    var refs := MixedQuery(source).entityRefs;
    assert "i0"[1] != "i1"[1];
    assert refs[..1] == [refs[0]] && refs[..1][..0] == [];
    assert EntityMap([]) == map[] && EntityMap(refs[..1]) == map["i0" := "parts"];
    assert refs[0] in refs && refs[1] in refs;
  }

  lemma MixedPairsHold(x: nat)
    requires x < 2
    ensures var parts := TableOf(Parts(), "parts");
      && |parts| == 2 && PairHolds(parts[x], parts[0], "parts", "parts", ("parts.a", "parts.c"))
      && PairHolds(parts[x], parts[0], "parts", "parts", ("parts.d", "parts.b"))
  {
    PartNames();
    ColumnOfName("parts", "a");
    ColumnOfName("parts", "b");
    ColumnOfName("parts", "c");
    ColumnOfName("parts", "d");
  }

  lemma MixedRepeats(source: string)
    ensures !NeverRepeats(Parts(), MixedQuery(source), "i1")
  {
    MixedRowHolds(source, 0);
    MixedRowHolds(source, 1);
    assert MixedRow(0)["i0"] != MixedRow(1)["i0"] && MixedRow(0)["i1"] == MixedRow(1)["i1"];
  }

  lemma PartRequestAsks(definitions: seq<EntityDefinition>)
    ensures AsksFor(PartRequest(definitions), EntityRef("u", "parts"), EntityRef("v", "parts"))
  {
    var q := PartRequest(definitions);
    assert q.refs[0].ref == "u" && q.refs[1].ref == "v" && "u"[0] != "v"[0];
    DistinctExactly(q.refs);
    EntityMapFinds(q.refs, "u");
    assert q.refs[0] in q.refs;
  }

  lemma PartsClimb(source: string, snapshotId: string, policy: string)
    ensures OnlyClimbs(PartGraph(source, snapshotId, policy), "parts") && PartGraph(source, snapshotId, policy) != []
    ensures AllMeasuredOn(Parts(), PartGraph(source, snapshotId, policy))
  {
    forall r | r in PartGraph(source, snapshotId, policy)
      ensures r.definition == PartSeed(source).definition && r.evidence.provenance == Declared && MeasuredOn(Parts(), r)
      ensures r.evidence.measurements.maxParentsPerChild <= 1 && r.evidence.measurements.maxChildrenPerParent > 1
    {
      PartBounds(source, snapshotId, policy, r);
    }
    var r := PartUsable(source, snapshotId, policy);
  }

  lemma PartsPlanned(source: string, snapshotId: string, policy: string, definitions: seq<EntityDefinition>) returns (p: JoinProof, t: Tree)
    requires definitions == [] || StableGrain("parts", definitions)
    ensures Plan(PartRequest(definitions), PartGraph(source, snapshotId, policy)) == Ok(p)
    ensures p.edges == ProofEdges(t) && p.entityRefs == Sorted(PartRequest(definitions).refs, RefLe) && p.expectedGrainRef == "u"
    ensures |t| == 1 && t[0].relationship in PartGraph(source, snapshotId, policy)
    ensures t[0].fromRef == "u" && t[0].toRef == "v" && t[0].traversal == Forward
  {
    PartRequestAsks(definitions);
    PartsClimb(source, snapshotId, policy);
    PartSeedValid(source);
    NotRefused(Parts(), [PartSeed(source)], source, snapshotId, policy, PartRequest(definitions));
    p, t := ClimbIsPlanned(PartRequest(definitions), PartGraph(source, snapshotId, policy), EntityRef("u", "parts"), EntityRef("v", "parts"));
  }

  lemma MixedMatched(source: string, snapshotId: string, policy: string)
    ensures Unmatched([MixedEdge()], PartGraph(source, snapshotId, policy)) == 0
    ensures var matched := AllMatched([MixedEdge()], PartGraph(source, snapshotId, policy));
      && |matched| == 1 && matched[0].normalized == MixedEdge() && matched[0].childRef == "i1" && matched[0].parentRef == "i0"
      && matched[0].relationship in PartGraph(source, snapshotId, policy)
  {
    var current := PartGraph(source, snapshotId, policy);
    var r := PartUsable(source, snapshotId, policy);
    MixedIsRead(r, source);
    NoneUnmatched([MixedEdge()], current);
    AllMatchedFacts([MixedEdge()], current);
    var chosen := MatchRelationship(MixedEdge(), current).value;
    PartBounds(source, snapshotId, policy, chosen);
    MixedIsRead(chosen, source);
  }

  /** One matched edge from i1 to i0 and one proof edge from u to v bind exactly by sending i1 to u and i0 to v. */
  lemma OneEdgeBinds(matched: seq<MatchedEdge>, p: JoinProof, t: Tree, m: map<string, string>)
    requires |matched| == 1 && matched[0].childRef == "i1" && matched[0].parentRef == "i0" && "i0" in m && "i1" in m
    requires p.edges == ProofEdges(t) && |t| == 1 && t[0].fromRef == "u" && t[0].toRef == "v" && t[0].traversal == Forward
    requires t[0].relationship.definition.relationshipId == matched[0].relationship.definition.relationshipId
    ensures SameTriples(matched, p.edges, m) <==> m["i1"] == "u" && m["i0"] == "v"
  {
    var id := matched[0].relationship.definition.relationshipId;
    assert SqlTriples(matched, m) == [[id, m["i1"], m["i0"]]];
    assert ProofTriples(p.edges) == [[id, "u", "v"]];
    if SameTriples(matched, p.edges, m) {
      assert [id, m["i1"], m["i0"]] in multiset(ProofTriples(p.edges));
      SameTriple(id, m["i1"], m["i0"], id, "u", "v");
    }
  }

  lemma PartRefs(entityRefs: seq<EntityRef>, source: string, definitions: seq<EntityDefinition>)
    requires entityRefs == Sorted(PartRequest(definitions).refs, RefLe)
    ensures forall r :: r in entityRefs <==> r == EntityRef("u", "parts") || r == EntityRef("v", "parts")
    ensures RefNames(entityRefs) == {"u", "v"} && RefNames(MixedQuery(source).entityRefs) == {"i0", "i1"}
  {
    RefLeFacts();
    SortedKeepsMembers(PartRequest(definitions).refs, RefLe);
    var refs := PartRequest(definitions).refs;
    assert refs[0] in refs && refs[1] in refs;
    assert EntityRef("u", "parts") in entityRefs && EntityRef("v", "parts") in entityRefs;
    var named := MixedQuery(source).entityRefs;
    assert named[0] in named && named[1] in named;
  }

  function MixedMapping(): map<string, string> { map["i0" := "v", "i1" := "u"] }

  lemma MixedRenames(entityRefs: seq<EntityRef>, source: string, definitions: seq<EntityDefinition>)
    requires entityRefs == Sorted(PartRequest(definitions).refs, RefLe)
    ensures Renames(MixedMapping(), MixedQuery(source).entityRefs, entityRefs)
  {
    PartRefs(entityRefs, source, definitions);
    var m := MixedMapping();
    assert "u"[0] != "v"[0] && "i0"[1] != "i1"[1];
    assert m["i0"] == "v" && m["i1"] == "u" && m.Values == {"u", "v"};
  }

  lemma MixedGrainOk(source: string, snapshotId: string, policy: string, definitions: seq<EntityDefinition>)
    requires definitions == [] || StableGrain("parts", definitions)
    ensures GrainAccepted(MixedQuery(source).entityRefs, AllMatched([MixedEdge()], PartGraph(source, snapshotId, policy)), definitions, "i1")
  {
    var matched := AllMatched([MixedEdge()], PartGraph(source, snapshotId, policy));
    MixedMatched(source, snapshotId, policy);
    PartBounds(source, snapshotId, policy, matched[0].relationship);
    assert "i0"[1] != "i1"[1];
    OneLinkSafe(matched[0]);
    assert matched == [matched[0]];
    EntityMapFinds(MixedQuery(source).entityRefs, "i1");
    MixedEntities(source);
  }

  /** With the grain bound to one instance, acceptance is about that instance. */
  lemma AcceptedAt(refs: seq<EntityRef>, definitions: seq<EntityDefinition>, matched: seq<MatchedEdge>, p: JoinProof, m: map<string, string>, k: string)
    requires GrainAccepted(refs, matched, definitions, k) && forall j :: j in m && m[j] == p.expectedGrainRef ==> j == k
    ensures GrainAcceptedFor(refs, matched, definitions, Some(p), Some(m), None)
  {
  }

  lemma MixedIsAccepted(refs: seq<EntityRef>, definitions: seq<EntityDefinition>, matched: seq<MatchedEdge>, p: JoinProof, m: map<string, string>)
    requires GrainAccepted(refs, matched, definitions, "i1") && m.Keys == {"i0", "i1"} && m["i1"] == "u" && m["i0"] == "v" && p.expectedGrainRef == "u"
    ensures GrainAcceptedFor(refs, matched, definitions, Some(p), Some(m), None)
  {
    assert "u"[0] != "v"[0];
    AcceptedAt(refs, definitions, matched, p, m, "i1");
  }

  ghost predicate OnlyAt(m: map<string, string>, target: string, k: string) {
    forall j :: j in m && m[j] == target ==> j == k
  }

  lemma MixedBinding(source: string, definitions: seq<EntityDefinition>, matched: seq<MatchedEdge>, p: JoinProof, t: Tree, m: map<string, string>)
    requires |matched| == 1 && matched[0].childRef == "i1" && matched[0].parentRef == "i0"
    requires GrainAccepted(MixedQuery(source).entityRefs, matched, definitions, "i1")
    requires p.edges == ProofEdges(t) && |t| == 1 && t[0].fromRef == "u" && t[0].toRef == "v" && t[0].traversal == Forward
    requires t[0].relationship.definition.relationshipId == matched[0].relationship.definition.relationshipId
    requires p.entityRefs == Sorted(PartRequest(definitions).refs, RefLe) && p.expectedGrainRef == "u"
    requires Binds(MixedQuery(source).entityRefs, matched, p, m)
    ensures GrainAcceptedFor(MixedQuery(source).entityRefs, matched, definitions, Some(p), Some(m), None) && OnlyAt(m, "u", "i1")
  {
    PartRefs(p.entityRefs, source, definitions);
    OneEdgeBinds(matched, p, t, m);
    MixedIsAccepted(MixedQuery(source).entityRefs, definitions, matched, p, m);
    assert "u"[0] != "v"[0];
  }

  lemma MixedBinds(source: string, definitions: seq<EntityDefinition>, matched: seq<MatchedEdge>, p: JoinProof, t: Tree)
    requires |matched| == 1 && matched[0].childRef == "i1" && matched[0].parentRef == "i0"
    requires p.edges == ProofEdges(t) && |t| == 1 && t[0].fromRef == "u" && t[0].toRef == "v" && t[0].traversal == Forward
    requires t[0].relationship.definition.relationshipId == matched[0].relationship.definition.relationshipId
    requires p.entityRefs == Sorted(PartRequest(definitions).refs, RefLe)
    ensures Binds(MixedQuery(source).entityRefs, matched, p, MixedMapping())
  {
    MixedRenames(p.entityRefs, source, definitions);
    OneEdgeBinds(matched, p, t, MixedMapping());
  }

  lemma PartIds(source: string, snapshotId: string, policy: string, a: Authorized, b: Authorized)
    requires a in PartGraph(source, snapshotId, policy) && b in PartGraph(source, snapshotId, policy)
    ensures a.definition.relationshipId == b.definition.relationshipId
  {
    PartBounds(source, snapshotId, policy, a);
    PartBounds(source, snapshotId, policy, b);
  }

  /** Under every binding the grain is accepted, and only `k` stands for the target. */
  ghost predicate AlwaysAcceptedAt(refs: seq<EntityRef>, matched: seq<MatchedEdge>, p: JoinProof, definitions: seq<EntityDefinition>, k: string) {
    forall m :: Binds(refs, matched, p, m) ==>
      GrainAcceptedFor(refs, matched, definitions, Some(p), Some(m), None) && OnlyAt(m, Target(p, None), k)
  }

  lemma MixedAlwaysAccepted(source: string, definitions: seq<EntityDefinition>, matched: seq<MatchedEdge>, p: JoinProof, t: Tree)
    requires |matched| == 1 && matched[0].childRef == "i1" && matched[0].parentRef == "i0"
    requires GrainAccepted(MixedQuery(source).entityRefs, matched, definitions, "i1")
    requires p.edges == ProofEdges(t) && |t| == 1 && t[0].fromRef == "u" && t[0].toRef == "v" && t[0].traversal == Forward
    requires t[0].relationship.definition.relationshipId == matched[0].relationship.definition.relationshipId
    requires p.entityRefs == Sorted(PartRequest(definitions).refs, RefLe) && p.expectedGrainRef == "u"
    ensures AlwaysAcceptedAt(MixedQuery(source).entityRefs, matched, p, definitions, "i1")
  {
    var refs := MixedQuery(source).entityRefs;
    forall m | Binds(refs, matched, p, m)
      ensures GrainAcceptedFor(refs, matched, definitions, Some(p), Some(m), None) && OnlyAt(m, Target(p, None), "i1")
    {
      MixedBinding(source, definitions, matched, p, t, m);
    }
  }

  lemma NotKept(db: Database, g: NormalizedGraph, current: seq<Authorized>, p: JoinProof, definitions: seq<EntityDefinition>, k: string)
    requires AlwaysAcceptedAt(g.entityRefs, AllMatched(g.edges, current), p, definitions, k) && !NeverRepeats(db, g, k)
    ensures !GrainKept(db, g, current, p, Target(p, None))
  {
  }

  lemma MixedPasses(source: string, snapshotId: string, policy: string, definitions: seq<EntityDefinition>, p: JoinProof, t: Tree)
    requires definitions == [] || StableGrain("parts", definitions)
    requires p.edges == ProofEdges(t) && |t| == 1 && t[0].fromRef == "u" && t[0].toRef == "v" && t[0].traversal == Forward
    requires t[0].relationship in PartGraph(source, snapshotId, policy)
    requires p.entityRefs == Sorted(PartRequest(definitions).refs, RefLe) && p.expectedGrainRef == "u"
    ensures var matched := AllMatched(MixedQuery(source).edges, PartGraph(source, snapshotId, policy));
      && AlwaysAcceptedAt(MixedQuery(source).entityRefs, matched, p, definitions, "i1")
      && Binds(MixedQuery(source).entityRefs, matched, p, MixedMapping())
  {
    var matched := AllMatched([MixedEdge()], PartGraph(source, snapshotId, policy));
    MixedMatched(source, snapshotId, policy);
    PartIds(source, snapshotId, policy, t[0].relationship, matched[0].relationship);
    MixedGrainOk(source, snapshotId, policy, definitions);
    MixedBinds(source, definitions, matched, p, t);
    MixedAlwaysAccepted(source, definitions, matched, p, t);
  }

  /** Validation against a planned proof accepts the mixed edge, whichever binding it finds, and the rows
      of the promised grain are repeated: the demand that no edge can be read two ways is needed. */
  lemma MixedQueryRepeats(source: string, snapshotId: string, policy: string, definitions: seq<EntityDefinition>) returns (p: JoinProof)
    requires definitions == [] || StableGrain("parts", definitions)
    ensures var g, current := MixedQuery(source), PartGraph(source, snapshotId, policy);
      && Plan(PartRequest(definitions), current) == Ok(p) && AllMeasuredOn(Parts(), current)
      && WellFormedGraph(g) && Unmatched(g.edges, current) == 0
      && (exists m :: Binds(g.entityRefs, AllMatched(g.edges, current), p, m))
      && (forall m :: Binds(g.entityRefs, AllMatched(g.edges, current), p, m) ==>
            GrainAcceptedFor(g.entityRefs, AllMatched(g.edges, current), definitions, Some(p), Some(m), None))
      && !GrainKept(Parts(), g, current, p, Target(p, None))
  {
    var t;
    p, t := PartsPlanned(source, snapshotId, policy, definitions);
    PartsClimb(source, snapshotId, policy);
    MixedEntities(source);
    MixedMatched(source, snapshotId, policy);
    MixedPasses(source, snapshotId, policy, definitions, p, t);
    MixedRepeats(source);
    NotKept(Parts(), MixedQuery(source), PartGraph(source, snapshotId, policy), p, definitions, "i1");
  }

  // ---------------------------------------------------------------- joins in two parts

  function LineSeed(source: string): Seed {
    LineToOrder(source, "r1", "a")
  }

  function LineGraph(source: string, snapshotId: string, policy: string): seq<Authorized> {
    AuthorizedGraph([LineSeed(source)], VerifyAll(LinesOfOrder(), [LineSeed(source)], snapshotId), snapshotId, policy)
  }

  function LineEdge(left: string, right: string): NormalizedEdge {
    NormalizedEdge(left, right, [("lines.a", "orders.id")], Inner)
  }

  /** A line with its order, and, joined to neither, another line with its order. */
  function TwoParts(source: string): NormalizedGraph {
    NormalizedGraph(source, [EntityRef("i0", "lines"), EntityRef("i1", "lines"), EntityRef("i2", "orders"), EntityRef("i3", "orders")],
                    [LineEdge("i0", "i2"), LineEdge("i1", "i3")])
  }

  lemma LineSeedValid(source: string)
    ensures ValidSeeds([LineSeed(source)]) && DistinctSeeds([LineSeed(source)])
  {
  }

  lemma LineReadsLeft(e: NormalizedEdge, r: Authorized, source: string)
    requires e.pairs == [("lines.a", "orders.id")] && r.definition == LineSeed(source).definition
    ensures EdgeMatches(e, r) && RelationshipRefs(e, r) == (e.leftRef, e.rightRef)
  {
    OnePair(e, ("lines.a", "orders.id"));
    OneColumnEach(r.definition, "a", "id");
    assert EndpointName("lines", "a") == "lines.a" && EndpointName("orders", "id") == "orders.id";
  }

  lemma LineUsable(source: string, snapshotId: string, policy: string) returns (r: Authorized)
    ensures r in LineGraph(source, snapshotId, policy) && r.definition == LineSeed(source).definition
  {
    LineSeedValid(source);
    LineReads("a");
    UniqueOneColumn(TableOf(LinesOfOrder(), "orders"), "id");
    r := OneColumnUsable(LinesOfOrder(), [LineSeed(source)], LineSeed(source), "a", "id", snapshotId, policy);
  }

  lemma LineBounds(source: string, snapshotId: string, policy: string, r: Authorized)
    requires r in LineGraph(source, snapshotId, policy)
    ensures r.definition == LineSeed(source).definition && MeasuredOn(LinesOfOrder(), r) && r.evidence.measurements.maxParentsPerChild <= 1
  {
    LineSeedValid(source);
    OnlySeed(LinesOfOrder(), LineSeed(source), snapshotId, policy, r);
    LineReads("a");
    UniqueOneColumn(TableOf(LinesOfOrder(), "orders"), "id");
    LargestGroupAtMostOne(TableOf(LinesOfOrder(), "orders"), ["id"]);
  }

  ghost predicate LinesOnly(current: seq<Authorized>, source: string) {
    current != [] && forall r :: r in current ==>
      (r.definition == LineSeed(source).definition && MeasuredOn(LinesOfOrder(), r) && r.evidence.measurements.maxParentsPerChild <= 1)
  }

  lemma LineGraphIsLines(source: string, snapshotId: string, policy: string)
    ensures LinesOnly(LineGraph(source, snapshotId, policy), source)
  {
    forall r | r in LineGraph(source, snapshotId, policy)
      ensures r.definition == LineSeed(source).definition && MeasuredOn(LinesOfOrder(), r) && r.evidence.measurements.maxParentsPerChild <= 1
    {
      LineBounds(source, snapshotId, policy, r);
    }
    var r := LineUsable(source, snapshotId, policy);
  }

  lemma LineMatched(e: NormalizedEdge, current: seq<Authorized>, source: string)
    requires LinesOnly(current, source) && e.pairs == [("lines.a", "orders.id")]
    ensures MatchRelationship(e, current).Some?
    ensures RelationshipRefs(e, MatchRelationship(e, current).value) == (e.leftRef, e.rightRef)
  {
    LineReadsLeft(e, current[0], source);
    assert current[0] in current;
    LineReadsLeft(e, MatchRelationship(e, current).value, source);
  }

  lemma LinesMatched(edges: seq<NormalizedEdge>, current: seq<Authorized>, source: string)
    requires LinesOnly(current, source) && forall i :: 0 <= i < |edges| ==> edges[i].pairs == [("lines.a", "orders.id")]
    ensures Unmatched(edges, current) == 0 && |AllMatched(edges, current)| == |edges|
    ensures forall i :: 0 <= i < |edges| ==>
      var m := AllMatched(edges, current)[i];
      && m.normalized == edges[i] && m.childRef == edges[i].leftRef && m.parentRef == edges[i].rightRef && m.relationship in current
  {
    forall i | 0 <= i < |edges| ensures MatchRelationship(edges[i], current).Some? {
      LineMatched(edges[i], current, source);
    }
    NoneUnmatched(edges, current);
    AllMatchedFacts(edges, current);
    forall i | 0 <= i < |edges|
      ensures var m := AllMatched(edges, current)[i];
        && m.normalized == edges[i] && m.childRef == edges[i].leftRef && m.parentRef == edges[i].rightRef && m.relationship in current
    {
      LineMatched(edges[i], current, source);
    }
  }

  lemma LoneEnds(links: seq<Link>, x: string, y: string)
    requires |links| == 2 && Joined(links, x, y)
    ensures (x, y) == (links[0].a, links[0].b) || (x, y) == (links[0].b, links[0].a)
      || (x, y) == (links[1].a, links[1].b) || (x, y) == (links[1].b, links[1].a)
  {
  }

  lemma LoneWalk(links: seq<Link>, w: seq<string>)
    requires |links| == 2 && Walk(links, w) && w[0] == links[0].a
    requires links[1].a != links[0].a && links[1].b != links[0].a && links[1].a != links[0].b && links[1].b != links[0].b && links[0].a != links[0].b
    ensures |w| <= 2 && (|w| == 2 ==> w[1] == links[0].b)
  {
    if |w| > 1 {
      LoneEnds(links, w[0], w[0 + 1]);
    }
    if |w| > 2 {
      LoneEnds(links, w[1], w[1 + 1]);
    }
  }

  /** From one end of a link that nothing else touches, one can only go to the other. */
  lemma LoneLinkSafe(links: seq<Link>)
    requires |links| == 2 && links[0].ab <= 1
    requires links[1].a != links[0].a && links[1].b != links[0].a && links[1].a != links[0].b && links[1].b != links[0].b && links[0].a != links[0].b
    ensures NeverFansOut(links[0].a, links)
  {
    forall w, bound | EndsWith(links, links[0].a, w, bound) ensures bound <= 1 {
      LoneWalk(links, w);
    }
  }

  lemma PartNamesApart()
    ensures "i0" != "i1" && "i0" != "i2" && "i0" != "i3" && "i1" != "i2" && "i1" != "i3" && "i2" != "i3"
    ensures |"lines"| != |"i0"| && |"orders"| != |"i0"|
  {
    assert "i0"[1] == '0' && "i1"[1] == '1' && "i2"[1] == '2' && "i3"[1] == '3';
  }

  lemma TwoPartsGrainOk(source: string, current: seq<Authorized>)
    requires LinesOnly(current, source)
    ensures GrainOk("i0", AllMatched(TwoParts(source).edges, current))
  {
    var matched := AllMatched(TwoParts(source).edges, current);
    LinesMatched(TwoParts(source).edges, current, source);
    assert matched[0].normalized == TwoParts(source).edges[0] && matched[1].normalized == TwoParts(source).edges[1];
    assert matched[0].relationship in current;
    LonePairGrainOk(matched);
  }

  lemma LonePairGrainOk(matched: seq<MatchedEdge>)
    requires |matched| == 2 && matched[0].normalized.kind == Inner && matched[1].normalized.kind == Inner
    requires matched[0].childRef == "i0" && matched[0].parentRef == "i2" && matched[1].childRef == "i1" && matched[1].parentRef == "i3"
    requires matched[0].relationship.evidence.measurements.maxParentsPerChild <= 1
    ensures GrainOk("i0", matched)
  {
    PartNamesApart();
    LoneLinkSafe(Links(BoundMatched(matched)));
    assert NullableRefs(matched) == {};
  }

  lemma TwoPartsWellFormed(source: string)
    ensures WellFormedGraph(TwoParts(source))
  {
    var refs := TwoParts(source).entityRefs;
    PartNamesApart();
    assert refs[0] in refs && refs[1] in refs && refs[2] in refs && refs[3] in refs;
  }

  lemma TwoPartsNamed(source: string)
    ensures forall k :: ExpectedAt(TwoParts(source).entityRefs, None, None, Some("i0"), k) <==> k == "i0"
  {
    var refs := TwoParts(source).entityRefs;
    PartNamesApart();
    LastPartOf("lines");
    LastPartOf("orders");
    assert refs[0] in refs;
    assert OnlyNamed(refs, "i0", refs[0]);
  }

  lemma TwoPartsEntities(source: string)
    ensures EntityMap(TwoParts(source).entityRefs) == map["i0" := "lines", "i1" := "lines", "i2" := "orders", "i3" := "orders"]
  {
    var refs := TwoParts(source).entityRefs;
    PartNamesApart();
    assert refs[..3] == [refs[0], refs[1], refs[2]] && refs[..3][..2] == [refs[0], refs[1]] && refs[..3][..2][..1] == [refs[0]];
    assert [refs[0]][..0] == [];
    assert EntityMap([refs[0]]) == map["i0" := "lines"];
    assert EntityMap([refs[0], refs[1]]) == map["i0" := "lines", "i1" := "lines"];
    assert EntityMap([refs[0], refs[1], refs[2]]) == map["i0" := "lines", "i1" := "lines", "i2" := "orders"];
  }

  lemma LinesOrdersApart()
    ensures Unambiguous("lines", "orders") && Unambiguous("orders", "lines")
  {
    forall s ensures !(ColumnOf("lines", s).Some? && ColumnOf("orders", s).Some?) {
      assert ColumnOf("lines", s).Some? ==> s[0] == "lines"[0];
      assert ColumnOf("orders", s).Some? ==> s[0] == "orders"[0];
    }
  }

  lemma TwoPartsTyped(source: string)
    ensures forall i :: 0 <= i < 2 ==> TypedEndpoints(EntityMap(TwoParts(source).entityRefs), TwoParts(source).edges[i])
  {
    TwoPartsEntities(source);
    ColumnOfName("lines", "a");
    ColumnOfName("orders", "id");
  }

  lemma TwoPartsApart(source: string, current: seq<Authorized>)
    requires LinesOnly(current, source)
    ensures AllApart(TwoParts(source), current)
  {
    LinesOrdersApart();
    LineEntities(source, current);
    ApartAmongFewer({"lines", "orders"}, AllEntities(TwoParts(source), current));
  }

  lemma LineEntities(source: string, current: seq<Authorized>)
    requires LinesOnly(current, source)
    ensures AllEntities(TwoParts(source), current) <= {"lines", "orders"}
  {
    var g := TwoParts(source);
    assert forall r :: r in g.entityRefs ==> r.entity in {"lines", "orders"};
    assert forall r :: r in current ==> r.definition.child.entity == "lines" && r.definition.parent.entity == "orders";
  }

  function PartsRow(m: nat): map<string, nat> { map["i0" := 0, "i1" := m, "i2" := 0, "i3" := 0] }

  lemma PartsRowHolds(source: string, m: nat)
    requires m < 2
    ensures SqlJoinRow(LinesOfOrder(), EntityMap(TwoParts(source).entityRefs), TwoParts(source).edges, PartsRow(m))
  {
    TwoPartsEntities(source);
    LinesPairHolds(0);
    LinesPairHolds(m);
    PartNamesApart();
    var entities, edges := EntityMap(TwoParts(source).entityRefs), TwoParts(source).edges;
    assert SqlEdgeHolds(LinesOfOrder(), entities, edges[0], PartsRow(m));
    assert SqlEdgeHolds(LinesOfOrder(), entities, edges[1], PartsRow(m));
  }

  lemma LinesPairHolds(i: nat)
    requires i < 2
    ensures var lines, orders := TableOf(LinesOfOrder(), "lines"), TableOf(LinesOfOrder(), "orders");
      && |lines| == 2 && |orders| == 1
      && PairsHold(lines[i], orders[0], "lines", "orders", PairSet([("lines.a", "orders.id")]))
  {
    LineReads("a");
    ColumnOfName("lines", "a");
    ColumnOfName("orders", "id");
    assert EndpointName("lines", "a") == "lines.a" && EndpointName("orders", "id") == "orders.id";
  }

  lemma TwoPartsAccepted(source: string, current: seq<Authorized>, definitions: seq<EntityDefinition>)
    requires LinesOnly(current, source) && (definitions == [] || StableGrain("lines", definitions))
    ensures GrainAccepted(TwoParts(source).entityRefs, AllMatched(TwoParts(source).edges, current), definitions, "i0")
  {
    TwoPartsGrainOk(source, current);
    EntityMapFinds(TwoParts(source).entityRefs, "i0");
    TwoPartsEntities(source);
  }

  lemma AcceptedAlone(refs: seq<EntityRef>, matched: seq<MatchedEdge>, definitions: seq<EntityDefinition>, wanted: Option<string>, k: string)
    requires GrainAccepted(refs, matched, definitions, k) && forall j :: ExpectedAt(refs, None, None, wanted, j) <==> j == k
    ensures ExpectedAt(refs, None, None, wanted, k) && GrainAcceptedFor(refs, matched, definitions, None, None, wanted)
  {
  }

  lemma TwoPartsPass(source: string, current: seq<Authorized>, definitions: seq<EntityDefinition>)
    requires LinesOnly(current, source) && (definitions == [] || StableGrain("lines", definitions))
    ensures PassesAlone(TwoParts(source), current, definitions, Some("i0"), "i0")
  {
    var g := TwoParts(source);
    TwoPartsWellFormed(source);
    LinesMatched(g.edges, current, source);
    TwoPartsNamed(source);
    TwoPartsAccepted(source, current, definitions);
    AcceptedAlone(g.entityRefs, AllMatched(g.edges, current), definitions, Some("i0"), "i0");
    TwoPartsRead(source, current);
    TwoPartsApart(source, current);
  }

  lemma LinesMeasured(current: seq<Authorized>, source: string)
    requires LinesOnly(current, source)
    ensures AllMeasuredOn(LinesOfOrder(), current)
  {
  }

  lemma TwoPartsRead(source: string, current: seq<Authorized>)
    requires LinesOnly(current, source)
    ensures Unmistakable(TwoParts(source), current)
  {
    TwoPartsTyped(source);
  }

  lemma TwoPartsRepeat(source: string)
    ensures !NeverRepeats(LinesOfOrder(), TwoParts(source), "i0")
  {
    PartsRowHolds(source, 0);
    PartsRowHolds(source, 1);
    assert PartsRow(0)["i1"] != PartsRow(1)["i1"] && PartsRow(0)["i0"] == PartsRow(1)["i0"];
  }

  /** The validator asks that every instance takes part in some join, not that the joins connect them: a query
      in two parts passes, and each row of the named grain is repeated for every row of the other part. */
  lemma PartsApartRepeat(source: string, snapshotId: string, policy: string, definitions: seq<EntityDefinition>)
    requires definitions == [] || StableGrain("lines", definitions)
    ensures var g, current := TwoParts(source), LineGraph(source, snapshotId, policy);
      && PassesAlone(g, current, definitions, Some("i0"), "i0") && AllMeasuredOn(LinesOfOrder(), current)
      && !NeverRepeats(LinesOfOrder(), g, "i0")
  {
    LineGraphIsLines(source, snapshotId, policy);
    LinesMeasured(LineGraph(source, snapshotId, policy), source);
    TwoPartsPass(source, LineGraph(source, snapshotId, policy), definitions);
    TwoPartsRepeat(source);
  }
}
