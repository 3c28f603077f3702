/** Planning a join: the first safe spanning trees of the request, as proofs. */
module Planner {
  import opened Domain
  import opened Ordering
  import opened Sorting
  import opened CandidateEdges
  import opened SpanningTrees
  import opened GrainWalk
  import opened QueueWalk

  datatype Column = Column(name: string, nullable: bool)

  datatype EntityDefinition = EntityDefinition(entityId: string, columns: seq<Column>, primaryKey: seq<string>, uniqueKeys: seq<seq<string>>)

  datatype ProofEdge = ProofEdge(
    fromRef: string,
    toRef: string,
    relationshipId: string,
    evidenceId: EvidenceId,
    child: Endpoint,
    parent: Endpoint,
    traversal: Traversal,
    cardinality: Cardinality,
    provenance: Provenance,
    predicates: seq<string>)

  /** The content hashed into a plan id; provenance and predicates are not part of it. */
  datatype PlanEdge = PlanEdge(
    fromRef: string,
    toRef: string,
    relationshipId: string,
    evidenceId: EvidenceId,
    traversal: Traversal,
    cardinality: Cardinality,
    child: Endpoint,
    parent: Endpoint)

  datatype PlanId = PlanId(
    sourceId: string,
    snapshotId: string,
    policyVersion: string,
    entityRefs: seq<EntityRef>,
    startRef: string,
    expectedGrainRef: string,
    maxDepth: int,
    edges: seq<PlanEdge>)

  datatype JoinProof = JoinProof(
    planId: PlanId,
    sourceId: string,
    snapshotId: string,
    policyVersion: string,
    entityRefs: seq<EntityRef>,
    startRef: string,
    expectedGrainRef: string,
    maxDepth: int,
    edges: seq<ProofEdge>,
    alternatives: seq<JoinProof>,
    verifiedAt: string)

  // ---------------------------------------------------------------- the request

  /** Later entries replace earlier ones with the same ref. */
  function EntityMap(refs: seq<EntityRef>): map<string, string> {
    if refs == [] then map[]
    else EntityMap(refs[..|refs| - 1])[refs[|refs| - 1].ref := refs[|refs| - 1].entity]
  }

  lemma {:induction false} EntityMapFinds(refs: seq<EntityRef>, name: string)
    ensures name in EntityMap(refs) <==> Find(refs, name).Some?
    ensures name in EntityMap(refs) ==> EntityMap(refs)[name] == Find(refs, name).value.entity
    ensures name in EntityMap(refs) <==> exists r :: r in refs && r.ref == name
  {
    if refs != [] {
      EntityMapFinds(refs[..|refs| - 1], name);
      assert refs == refs[..|refs| - 1] + [refs[|refs| - 1]];
    }
  }

  lemma {:induction false} DistinctExactly(refs: seq<EntityRef>)
    ensures |EntityMap(refs)| <= |refs|
    ensures |EntityMap(refs)| == |refs| <==> DistinctRefs(refs)
  {
    if refs != [] {
      var n := |refs| - 1;
      DistinctExactly(refs[..n]);
      OneMoreEntity(EntityMap(refs[..n]), refs[n].ref, refs[n].entity);
      DistinctOneMore(refs);
    }
  }

  lemma OneMoreEntity(before: map<string, string>, name: string, entity: string)
    ensures |before[name := entity]| == |before| + if name in before then 0 else 1
  {
    var after := before[name := entity];
    assert after.Keys == before.Keys + {name};
    assert |after.Keys| == |before.Keys| + if name in before then 0 else 1;
  }

  lemma DistinctOneMore(refs: seq<EntityRef>)
    requires refs != []
    ensures DistinctRefs(refs) <==> DistinctRefs(refs[..|refs| - 1]) && refs[|refs| - 1].ref !in EntityMap(refs[..|refs| - 1])
  {
    var n := |refs| - 1;
    EntityMapFinds(refs[..n], refs[n].ref);
    if refs[n].ref in EntityMap(refs[..n]) {
      var r :| r in refs[..n] && r.ref == refs[n].ref;
      var i :| 0 <= i < n && refs[i] == r;
    } else {
      forall i | 0 <= i < n ensures refs[i].ref != refs[n].ref {
        assert refs[..n][i] in refs[..n];
      }
      assert DistinctRefs(refs[..n]) ==> forall i, j :: 0 <= i < j < n ==> refs[..n][i].ref != refs[..n][j].ref;
    }
  }

  function FindEntity(definitions: seq<EntityDefinition>, entity: string): Option<EntityDefinition> {
    if definitions == [] then None
    else if definitions[0].entityId == entity then Some(definitions[0])
    else FindEntity(definitions[1..], entity)
  }

  /** A primary key, or a unique key that no nullable column takes part in. */
  predicate StableGrain(entity: string, definitions: seq<EntityDefinition>) {
    match FindEntity(definitions, entity)
    case None => false
    case Some(e) =>
      || e.primaryKey != []
      || exists key :: key in e.uniqueKeys && forall c :: c in key ==> !(exists k :: k in e.columns && k.name == c && k.nullable)
  }

  function SourceIds(graph: seq<Authorized>): set<string> {
    set r | r in graph :: r.definition.sourceId
  }

  // ---------------------------------------------------------------- safety of a tree

  function ReverseMatches(c: Candidate): int {
    var m := c.relationship.evidence.measurements;
    if c.traversal == Forward then m.maxChildrenPerParent else m.maxParentsPerChild
  }

  function TreeLinks(t: Tree): (r: seq<Link>)
    ensures |r| == |t| && forall i :: 0 <= i < |t| ==> r[i] == Link(t[i].fromRef, t[i].toRef, t[i].maxMatches, ReverseMatches(t[i]))
  {
    seq(|t|, i requires 0 <= i < |t| => Link(t[i].fromRef, t[i].toRef, t[i].maxMatches, ReverseMatches(t[i])))
  }

  function FanoutEdges(t: Tree): nat {
    if t == [] then 0 else FanoutEdges(t[..|t| - 1]) + if t[|t| - 1].maxMatches > 1 then 1 else 0
  }

  ghost predicate SafeTree(expected: string, t: Tree) {
    FanoutEdges(t) <= 1 && NeverFansOut(expected, TreeLinks(t))
  }

  lemma {:induction false} GrowthIsGrown(s: Search, start: string, t: Tree)
    requires Growth(s, start, t)
    ensures Grown(start, TreeLinks(t)) && Nodes(start, TreeLinks(t)) == Depths(start, t).Keys
  {
    if t != [] {
      var n := |t| - 1;
      GrowthIsGrown(s, start, t[..n]);
      assert TreeLinks(t)[..n] == TreeLinks(t[..n]);
    }
  }

  lemma SpanningIsTree(s: Search, start: string, t: Tree)
    requires Spanning(s, start, t)
    ensures SpanningTree(s.refs, TreeLinks(t))
  {
    GrowthIsGrown(s, start, t);
  }

  method TreeIsSafe(expected: string, t: Tree, ghost nodes: set<string>) returns (safe: bool)
    requires SpanningTree(nodes, TreeLinks(t)) && expected in nodes
    ensures safe <==> SafeTree(expected, t)
  {
    TreeWalkEnds(nodes, TreeLinks(t), expected);
    var compatible := FanoutFree(expected, TreeLinks(t));
    safe := FanoutEdges(t) <= 1 && compatible;
  }

  ghost function SafeTrees(expected: string, trees: seq<Tree>): (r: seq<Tree>)
    ensures forall t :: t in r <==> t in trees && SafeTree(expected, t)
  {
    if trees == [] then []
    else
      var n := |trees| - 1;
      assert trees == trees[..n] + [trees[n]];
      SafeTrees(expected, trees[..n]) + if SafeTree(expected, trees[n]) then [trees[n]] else []
  }

  method KeepSafe(expected: string, trees: seq<Tree>, ghost nodes: set<string>) returns (safe: seq<Tree>)
    requires expected in nodes && forall i :: 0 <= i < |trees| ==> SpanningTree(nodes, TreeLinks(trees[i]))
    ensures safe == SafeTrees(expected, trees)
  {
    safe := [];
    for i := 0 to |trees|
      invariant safe == SafeTrees(expected, trees[..i])
    {
      assert trees[..i + 1][..i] == trees[..i];
      var ok := TreeIsSafe(expected, trees[i], nodes);
      if ok {
        safe := safe + [trees[i]];
      }
    }
    assert trees[..|trees|] == trees;
  }

  // ---------------------------------------------------------------- proofs

  function Predicates(child: Endpoint, parent: Endpoint, n: nat): seq<string>
    requires n <= |child.columns| && n <= |parent.columns|
  {
    if n == 0 then []
    else Predicates(child, parent, n - 1)
         + [child.entity + "." + child.columns[n - 1] + " = " + parent.entity + "." + parent.columns[n - 1]]
  }

  function ProofEdgeOf(c: Candidate): ProofEdge {
    var d := c.relationship.definition;
    var pairs := if |d.child.columns| <= |d.parent.columns| then |d.child.columns| else |d.parent.columns|;
    ProofEdge(c.fromRef, c.toRef, d.relationshipId, c.relationship.evidence.evidenceId, d.child, d.parent,
              c.traversal, c.cardinality, c.relationship.evidence.provenance, Predicates(d.child, d.parent, pairs))
  }

  function ProofEdges(t: Tree): (r: seq<ProofEdge>)
    ensures |r| == |t| && forall i :: 0 <= i < |t| ==> r[i] == ProofEdgeOf(t[i])
  {
    seq(|t|, i requires 0 <= i < |t| => ProofEdgeOf(t[i]))
  }

  function PlanEdgeOf(e: ProofEdge): PlanEdge {
    PlanEdge(e.fromRef, e.toRef, e.relationshipId, e.evidenceId, e.traversal, e.cardinality, e.child, e.parent)
  }

  function PlanEdges(edges: seq<ProofEdge>): (r: seq<PlanEdge>)
    ensures |r| == |edges| && forall i :: 0 <= i < |edges| ==> r[i] == PlanEdgeOf(edges[i])
  {
    seq(|edges|, i requires 0 <= i < |edges| => PlanEdgeOf(edges[i]))
  }

  /** Two edges of a tree never share both refs, so the evidence id, last in the source's key, never decides. */
  function PlanEdgeKey(e: PlanEdge): seq<string> {
    [e.fromRef, e.toRef, e.relationshipId]
  }

  predicate PlanEdgeLe(a: PlanEdge, b: PlanEdge) {
    KeyLe(PlanEdgeKey(a), PlanEdgeKey(b))
  }

  function ProofOf(sourceId: string, snapshotId: string, policy: string, refs: seq<EntityRef>, start: string,
                   expected: string, maxDepth: int, t: Tree, now: string): JoinProof
  {
    var ordered := Sorted(refs, RefLe);
    var edges := ProofEdges(t);
    JoinProof(
      PlanId(sourceId, snapshotId, policy, ordered, start, expected, maxDepth, Sorted(PlanEdges(edges), PlanEdgeLe)),
      sourceId, snapshotId, policy, ordered, start, expected, maxDepth, edges, [], now)
  }

  function Snapshots(t: Tree): set<string> {
    set c | c in t :: c.relationship.evidence.snapshotId
  }

  function SnapshotOf(t: Tree): string {
    if t == [] then "" else t[0].relationship.evidence.snapshotId
  }

  datatype Request = Request(
    refs: seq<EntityRef>,
    startRef: string,
    expectedGrainRef: Option<string>,
    maxDepth: int,
    includeAlternatives: bool,
    policyVersion: string,
    definitions: seq<EntityDefinition>,
    now: string)

  /** An absent or empty expected grain means the start. */
  function Expected(q: Request): string {
    if q.expectedGrainRef.Some? && q.expectedGrainRef.value != "" then q.expectedGrainRef.value else q.startRef
  }

  predicate ValidRequest(q: Request) {
    && 2 <= |EntityMap(q.refs)| <= 8 && |EntityMap(q.refs)| == |q.refs|
    && 1 <= q.maxDepth <= 4 && q.startRef in EntityMap(q.refs)
    && Expected(q) in EntityMap(q.refs)
  }

  /** The error raised before the search, if any. */
  function Refusal(q: Request, graph: seq<Authorized>): Option<string> {
    if !ValidRequest(q) then Some("INVALID_ARGUMENT")
    else if q.definitions != [] && !StableGrain(EntityMap(q.refs)[Expected(q)], q.definitions) then Some("NO_VERIFIED_PATH")
    else if graph == [] then Some("NO_VERIFIED_PATH")
    else if |SourceIds(graph)| != 1 then Some("CROSS_SOURCE_UNSUPPORTED")
    else None
  }

  const TREE_LIMIT := 4

  function SearchOf(q: Request, graph: seq<Authorized>): Search
    requires q.maxDepth >= 0
  {
    Search(EntityMap(q.refs).Keys, q.maxDepth, Candidates(q.refs, graph))
  }

  lemma CandidatesWithinRequest(q: Request, graph: seq<Authorized>)
    requires q.maxDepth >= 0
    ensures ValidSearch(SearchOf(q, graph))
  {
    forall c | c in Candidates(q.refs, graph) ensures c.fromRef in EntityMap(q.refs) && c.toRef in EntityMap(q.refs) {
      CandidatesExactly(q.refs, graph, c);
      EntityMapFinds(q.refs, c.fromRef);
      EntityMapFinds(q.refs, c.toRef);
    }
  }

  /** Every growth sequence, in search order. */
  ghost function AllGrowths(q: Request, graph: seq<Authorized>): seq<Tree>
    requires ValidRequest(q)
  {
    CandidatesWithinRequest(q, graph);
    Growths(SearchOf(q, graph), map[q.startRef := 0], [])
  }

  /** The trees the planner looks at: the first four in search order. */
  ghost function Considered(q: Request, graph: seq<Authorized>): seq<Tree>
    requires ValidRequest(q)
  {
    Take(TREE_LIMIT, AllGrowths(q, graph))
  }

  function Proofs(q: Request, sourceId: string, snapshotId: string, trees: seq<Tree>): (r: seq<JoinProof>)
    ensures |r| == |trees|
    ensures forall i :: 0 <= i < |trees| ==>
      r[i] == ProofOf(sourceId, snapshotId, q.policyVersion, q.refs, q.startRef, Expected(q), q.maxDepth, trees[i], q.now)
  {
    seq(|trees|, i requires 0 <= i < |trees| =>
      ProofOf(sourceId, snapshotId, q.policyVersion, q.refs, q.startRef, Expected(q), q.maxDepth, trees[i], q.now))
  }

  function Bundle(q: Request, proofs: seq<JoinProof>): JoinProof
    requires proofs != []
  {
    proofs[0].(alternatives := if q.includeAlternatives then proofs[1..if |proofs| < 4 then |proofs| else 4] else [])
  }

  ghost function Plan(q: Request, graph: seq<Authorized>): Result<JoinProof> {
    if Refusal(q, graph).Some? then Err(Refusal(q, graph).value)
    else PlanFrom(q, graph, SafeTrees(Expected(q), Considered(q, graph)))
  }

  /** The answer, once the safe trees are known. */
  ghost function PlanFrom(q: Request, graph: seq<Authorized>, safe: seq<Tree>): Result<JoinProof>
    requires graph != []
  {
    if safe == [] then Err("NO_VERIFIED_PATH")
    else if |Snapshots(safe[0])| != 1 then Err("EVIDENCE_UNVERIFIABLE")
    else Ok(Bundle(q, Proofs(q, graph[0].definition.sourceId, SnapshotOf(safe[0]), safe)))
  }

  method PlanJoin(q: Request, graph: seq<Authorized>) returns (r: Result<JoinProof>)
    ensures r == Plan(q, graph)
  {
    var refused := Refusal(q, graph);
    if refused.Some? {
      return Err(refused.value);
    }
    var candidates := BuildCandidates(q.refs, graph);
    var search := Search(EntityMap(q.refs).Keys, q.maxDepth, candidates);
    CandidatesWithinRequest(q, graph);
    var trees := FindSpanningTrees(search, q.startRef, TREE_LIMIT);
    assert trees == Considered(q, graph);
    ConsideredSpan(q, graph);
    var safe := KeepSafe(Expected(q), trees, EntityMap(q.refs).Keys);
    if safe == [] {
      return Err("NO_VERIFIED_PATH");
    }
    if |Snapshots(safe[0])| != 1 {
      return Err("EVIDENCE_UNVERIFIABLE");
    }
    return Ok(Bundle(q, Proofs(q, graph[0].definition.sourceId, SnapshotOf(safe[0]), safe)));
  }

  lemma ConsideredSpan(q: Request, graph: seq<Authorized>)
    requires ValidRequest(q)
    ensures forall i :: 0 <= i < |Considered(q, graph)| ==>
      && Spanning(SearchOf(q, graph), q.startRef, Considered(q, graph)[i])
      && SpanningTree(EntityMap(q.refs).Keys, TreeLinks(Considered(q, graph)[i]))
      && |Considered(q, graph)[i]| == |q.refs| - 1
  {
    CandidatesWithinRequest(q, graph);
    var s := SearchOf(q, graph);
    var all := AllGrowths(q, graph);
    forall i | 0 <= i < |Considered(q, graph)|
      ensures Spanning(s, q.startRef, Considered(q, graph)[i])
      ensures SpanningTree(EntityMap(q.refs).Keys, TreeLinks(Considered(q, graph)[i]))
      ensures |Considered(q, graph)[i]| == |q.refs| - 1
    {
      assert all[i] in all;
      RecordedExactly(s, q.startRef, all[i]);
      SpanningIsTree(s, q.startRef, all[i]);
      assert |s.refs| == |EntityMap(q.refs)|;
    }
  }
}
