/** What a returned plan guarantees, and when a plan is returned. */
module PlanSafety {
  import Sets
  import opened Domain
  import opened Relational
  import opened Evidence
  import opened Ordering
  import opened Sorting
  import opened CandidateEdges
  import opened SpanningTrees
  import opened GrainWalk
  import opened JoinSafety
  import opened Planner

  // ---------------------------------------------------------------- the proof and its alternatives

  ghost predicate Offered(proof: JoinProof, p: JoinProof) {
    p == proof || p in proof.alternatives
  }

  /** Behind everything offered stands a safe spanning tree the search found. */
  lemma OfferedTree(q: Request, graph: seq<Authorized>, proof: JoinProof, p: JoinProof) returns (t: Tree)
    requires Plan(q, graph) == Ok(proof) && Offered(proof, p)
    ensures ValidRequest(q) && graph != [] && |SourceIds(graph)| == 1
    ensures Spanning(SearchOf(q, graph), q.startRef, t) && t in Considered(q, graph) && SafeTree(Expected(q), t)
    ensures p.edges == ProofEdges(t) && p.sourceId == graph[0].definition.sourceId && p.expectedGrainRef == Expected(q)
    ensures p.planId == ProofOf(p.sourceId, p.snapshotId, q.policyVersion, q.refs, q.startRef, Expected(q), q.maxDepth, t, q.now).planId
    ensures p.entityRefs == Sorted(q.refs, RefLe)
  {
    t := OfferedSafeTree(q, graph, proof, p);
    ConsideredSpan(q, graph);
    var k :| 0 <= k < |Considered(q, graph)| && Considered(q, graph)[k] == t;
  }

  lemma OfferedSafeTree(q: Request, graph: seq<Authorized>, proof: JoinProof, p: JoinProof) returns (t: Tree)
    requires Plan(q, graph) == Ok(proof) && Offered(proof, p)
    ensures ValidRequest(q) && graph != [] && |SourceIds(graph)| == 1
    ensures t in Considered(q, graph) && SafeTree(Expected(q), t)
    ensures var described := ProofOf(graph[0].definition.sourceId, p.snapshotId, q.policyVersion, q.refs, q.startRef, Expected(q), q.maxDepth, t, q.now);
      p == described.(alternatives := p.alternatives)
  {
    var safe := SafeTrees(Expected(q), Considered(q, graph));
    var proofs := Proofs(q, graph[0].definition.sourceId, SnapshotOf(safe[0]), safe);
    var i := 0;
    if p != proof {
      i :| 0 < i < |proofs| && proofs[i] == p;
    }
    t := safe[i];
    assert t in safe;
  }

  // ---------------------------------------------------------------- from candidates to join edges

  function BoundOf(c: Candidate): BoundEdge {
    if c.traversal == Forward then BoundEdge(c.relationship, c.fromRef, c.toRef)
    else BoundEdge(c.relationship, c.toRef, c.fromRef)
  }

  function BoundTree(t: Tree): (r: seq<BoundEdge>)
    ensures |r| == |t| && forall i :: 0 <= i < |t| ==> r[i] == BoundOf(t[i])
  {
    seq(|t|, i requires 0 <= i < |t| => BoundOf(t[i]))
  }

  /** The join edges a proof describes. */
  function ProofJoin(sourceId: string, e: ProofEdge): JoinEdge {
    var d := Definition(e.relationshipId, sourceId, e.child, e.parent);
    if e.traversal == Forward then JoinEdge(d, e.fromRef, e.toRef) else JoinEdge(d, e.toRef, e.fromRef)
  }

  function ProofJoins(p: JoinProof): (r: seq<JoinEdge>)
    ensures |r| == |p.edges| && forall i :: 0 <= i < |p.edges| ==> r[i] == ProofJoin(p.sourceId, p.edges[i])
  {
    seq(|p.edges|, i requires 0 <= i < |p.edges| => ProofJoin(p.sourceId, p.edges[i]))
  }

  lemma OneSource(graph: seq<Authorized>, r: Authorized)
    requires |SourceIds(graph)| == 1 && r in graph
    ensures graph != [] && r.definition.sourceId == graph[0].definition.sourceId
  {
    var ids := SourceIds(graph);
    assert graph[0] in graph;
    assert r.definition.sourceId in ids && graph[0].definition.sourceId in ids;
    var id :| id in ids;
    Sets.SubsetSize({id}, ids);
  }

  lemma RefEntity(refs: seq<EntityRef>, r: EntityRef)
    requires DistinctRefs(refs) && r in refs
    ensures r.ref in EntityMap(refs) && EntityMap(refs)[r.ref] == r.entity
  {
    EntityMapFinds(refs, r.ref);
    FindFacts(refs, r.ref);
    var i :| 0 <= i < |refs| && refs[i] == r;
    var j :| 0 <= j < |refs| && refs[j] == Find(refs, r.ref).value;
    assert i == j;
  }

  lemma TreeEdgeFacts(q: Request, graph: seq<Authorized>, t: Tree, i: nat)
    requires ValidRequest(q) && Growth(SearchOf(q, graph), q.startRef, t) && i < |t|
    ensures t[i].relationship in graph && Typed(EntityMap(q.refs), BoundOf(t[i]))
    ensures LinkOf(BoundOf(t[i])) == TreeLinks(t)[i] || LinkOf(BoundOf(t[i])) == Flip(TreeLinks(t)[i])
  {
    GrowthMembers(SearchOf(q, graph), q.startRef, t, i);
    CandidatesExactly(q.refs, graph, t[i]);
    DistinctExactly(q.refs);
    var left, right :| left in q.refs && right in q.refs && Connects(t[i], left, right);
    RefEntity(q.refs, left);
    RefEntity(q.refs, right);
  }

  /** Over freshly authorised relationships only the way from parent to child can multiply rows. */
  lemma ForwardNeverFansOut(refs: seq<EntityRef>, db: Database, seeds: seq<Seed>, snapshotId: string, policy: string, c: Candidate)
    requires DistinctSeeds(seeds) && ValidSeeds(seeds)
    requires c in Candidates(refs, AuthorizedGraph(seeds, VerifyAll(db, seeds, snapshotId), snapshotId, policy))
    ensures c.maxMatches > 1 ==> c.traversal == Reverse
  {
    var graph := AuthorizedGraph(seeds, VerifyAll(db, seeds, snapshotId), snapshotId, policy);
    CandidatesExactly(refs, graph, c);
    FreshGraphClimbsOne(db, seeds, snapshotId, policy, c.relationship);
  }

  /** The tree of a plan as authorised relationships between typed instances. */
  lemma BoundTreeFacts(q: Request, graph: seq<Authorized>, t: Tree)
    requires ValidRequest(q) && Spanning(SearchOf(q, graph), q.startRef, t)
    ensures SpanningTree(EntityMap(q.refs).Keys, Links(BoundTree(t))) && AllTyped(EntityMap(q.refs), BoundTree(t))
    ensures forall i :: 0 <= i < |t| ==> t[i].relationship in graph
    ensures NeverFansOut(Expected(q), TreeLinks(t)) ==> NeverFansOut(Expected(q), Links(BoundTree(t)))
  {
    var links := Links(BoundTree(t));
    forall i | 0 <= i < |t|
      ensures t[i].relationship in graph && Typed(EntityMap(q.refs), BoundOf(t[i]))
      ensures links[i] == TreeLinks(t)[i] || links[i] == Flip(TreeLinks(t)[i])
    {
      TreeEdgeFacts(q, graph, t, i);
    }
    GrowthIsGrown(SearchOf(q, graph), q.startRef, t);
    ReorientedGrown(q.startRef, TreeLinks(t), links);
    if NeverFansOut(Expected(q), TreeLinks(t)) {
      ReorientedSafe(Expected(q), TreeLinks(t), links);
    }
  }

  lemma ProofJoinsAreTree(q: Request, graph: seq<Authorized>, p: JoinProof, t: Tree)
    requires ValidRequest(q) && Spanning(SearchOf(q, graph), q.startRef, t) && |SourceIds(graph)| == 1
    requires graph != [] && p.edges == ProofEdges(t) && p.sourceId == graph[0].definition.sourceId
    ensures ProofJoins(p) == JoinEdges(BoundTree(t))
  {
    BoundTreeFacts(q, graph, t);
    forall i | 0 <= i < |t| ensures ProofJoins(p)[i] == JoinEdges(BoundTree(t))[i] {
      OneSource(graph, t[i].relationship);
    }
  }

  /** `p` describes the spanning tree `t` of the request. */
  ghost predicate Describes(q: Request, graph: seq<Authorized>, p: JoinProof, t: Tree) {
    && ValidRequest(q) && graph != [] && |SourceIds(graph)| == 1
    && Spanning(SearchOf(q, graph), q.startRef, t) && SafeTree(Expected(q), t)
    && p.edges == ProofEdges(t) && p.sourceId == graph[0].definition.sourceId
  }

  /** What the join theorems ask of the edges behind a proof. */
  ghost predicate SoundEdges(db: Database, entities: map<string, string>, grain: string, edges: seq<BoundEdge>) {
    && SpanningTree(entities.Keys, Links(edges)) && grain in entities && NeverFansOut(grain, Links(edges))
    && AllTyped(entities, edges) && EdgesMeasuredOn(db, edges)
  }

  lemma DescribedEdges(q: Request, graph: seq<Authorized>, db: Database, p: JoinProof, t: Tree)
    requires Describes(q, graph, p, t) && AllMeasuredOn(db, graph)
    ensures SoundEdges(db, EntityMap(q.refs), Expected(q), BoundTree(t)) && ProofJoins(p) == JoinEdges(BoundTree(t))
  {
    BoundTreeFacts(q, graph, t);
    ProofJoinsAreTree(q, graph, p, t);
  }

  lemma SoundEdgesKeepGrain(db: Database, entities: map<string, string>, grain: string, edges: seq<BoundEdge>, x: map<string, nat>, y: map<string, nat>)
    requires SoundEdges(db, entities, grain, edges)
    requires JoinRow(db, entities, JoinEdges(edges), x) && JoinRow(db, entities, JoinEdges(edges), y) && x[grain] == y[grain]
    ensures x == y
  {
    AtMostOneJoinRow(db, entities, edges, grain, x, y);
  }

  lemma OfferedEdges(q: Request, graph: seq<Authorized>, db: Database, proof: JoinProof, p: JoinProof) returns (edges: seq<BoundEdge>)
    requires Plan(q, graph) == Ok(proof) && Offered(proof, p) && AllMeasuredOn(db, graph)
    ensures SoundEdges(db, EntityMap(q.refs), Expected(q), edges) && ProofJoins(p) == JoinEdges(edges)
  {
    var t := OfferedTree(q, graph, proof, p);
    DescribedEdges(q, graph, db, p, t);
    edges := BoundTree(t);
  }

  /** The promise of a plan: on any database whose evidence authorised it, the inner join along
      the proof, or along any offered alternative, contains each row of the expected grain at most once. */
  lemma PlanKeepsGrain(q: Request, graph: seq<Authorized>, db: Database, proof: JoinProof, p: JoinProof, x: map<string, nat>, y: map<string, nat>)
    requires Plan(q, graph) == Ok(proof) && Offered(proof, p) && AllMeasuredOn(db, graph)
    requires JoinRow(db, EntityMap(q.refs), ProofJoins(p), x) && JoinRow(db, EntityMap(q.refs), ProofJoins(p), y)
    requires Expected(q) in x && Expected(q) in y && x[Expected(q)] == y[Expected(q)]
    ensures x == y
  {
    var edges := OfferedEdges(q, graph, db, proof, p);
    SoundEdgesKeepGrain(db, EntityMap(q.refs), Expected(q), edges, x, y);
  }

  /** When moreover every edge leads from child to parent away from the grain and no child key
      is null, each grain row appears exactly once. */
  lemma PlanKeepsEveryRow(q: Request, graph: seq<Authorized>, db: Database, p: JoinProof, t: Tree, i: nat)
    returns (row: map<string, nat>)
    requires Describes(q, graph, p, t) && AllMeasuredOn(db, graph)
    requires AlwaysForward(Expected(q), Links(BoundTree(t))) && AllComplete(db, BoundTree(t))
    requires i < |TableOf(db, EntityMap(q.refs)[Expected(q)])|
    ensures JoinRow(db, EntityMap(q.refs), ProofJoins(p), row) && row[Expected(q)] == i
    ensures forall other :: JoinRow(db, EntityMap(q.refs), ProofJoins(p), other) && other[Expected(q)] == i ==> other == row
  {
    DescribedEdges(q, graph, db, p, t);
    row := ExactlyOneJoinRow(db, EntityMap(q.refs), BoundTree(t), Expected(q), i);
  }

  /** A returned proof spans the request within the depth bound and holds at most one fan-out edge. */
  lemma PlanShape(q: Request, graph: seq<Authorized>, proof: JoinProof, p: JoinProof) returns (t: Tree)
    requires Plan(q, graph) == Ok(proof) && Offered(proof, p)
    ensures Describes(q, graph, p, t) && FanoutEdges(t) <= 1 && |p.edges| == |q.refs| - 1
    ensures forall r :: r in EntityMap(q.refs) ==> r in Depths(q.startRef, t) && Depths(q.startRef, t)[r] <= q.maxDepth
  {
    t := OfferedTree(q, graph, proof, p);
    CandidatesWithinRequest(q, graph);
    RecordedExactly(SearchOf(q, graph), q.startRef, t);
    assert |SearchOf(q, graph).refs| == |EntityMap(q.refs)|;
  }

  /** What the validators of proofs and their edges ask for. */
  ghost predicate ValidProof(p: JoinProof) {
    && 2 <= |p.entityRefs| <= 8 && DistinctRefs(p.entityRefs) && p.edges != []
    && (exists r :: r in p.entityRefs && r.ref == p.startRef)
    && (exists r :: r in p.entityRefs && r.ref == p.expectedGrainRef)
    && forall i :: 0 <= i < |p.edges| ==> |p.edges[i].predicates| == |p.edges[i].child.columns|
  }

  lemma {:induction false} OnePredicatePerPair(child: Endpoint, parent: Endpoint, n: nat)
    requires n <= |child.columns| && n <= |parent.columns|
    ensures |Predicates(child, parent, n)| == n
  {
    if n > 0 {
      OnePredicatePerPair(child, parent, n - 1);
    }
  }

  lemma OfferedRefsNamed(q: Request, entityRefs: seq<EntityRef>, name: string)
    requires ValidRequest(q) && name in EntityMap(q.refs) && entityRefs == Sorted(q.refs, RefLe)
    ensures exists r :: r in entityRefs && r.ref == name
  {
    EntityMapFinds(q.refs, name);
    var r :| r in q.refs && r.ref == name;
    NameLeIsTotalOrder();
    SortedKeepsMembers(q.refs, RefLe);
    assert r in entityRefs;
  }

  /** Everything offered passes the validators of proofs, so building a proof never fails. */
  lemma OfferedIsValid(q: Request, graph: seq<Authorized>, proof: JoinProof, p: JoinProof)
    requires Plan(q, graph) == Ok(proof) && Offered(proof, p)
    requires forall r :: r in graph ==> ValidDefinition(r.definition)
    ensures ValidProof(p)
  {
    var shape := PlanShape(q, graph, proof, p);
    var t := OfferedTree(q, graph, proof, p);
    var described := OfferedSafeTree(q, graph, proof, p);
    OfferedRefsNamed(q, p.entityRefs, q.startRef);
    OfferedRefsNamed(q, p.entityRefs, Expected(q));
    OrderedRequest(q);
    OnePredicateEach(q, graph, t);
  }

  lemma OrderedRequest(q: Request)
    requires ValidRequest(q)
    ensures DistinctRefs(Sorted(q.refs, RefLe)) && |Sorted(q.refs, RefLe)| == |q.refs|
  {
    DistinctExactly(q.refs);
    NameLeIsTotalOrder();
    SortedFacts(q.refs, RefLe);
    DistinctnessIgnoresOrder(q.refs, Sorted(q.refs, RefLe));
  }

  lemma OnePredicateEach(q: Request, graph: seq<Authorized>, t: Tree)
    requires ValidRequest(q) && Growth(SearchOf(q, graph), q.startRef, t)
    requires forall r :: r in graph ==> ValidDefinition(r.definition)
    ensures forall i :: 0 <= i < |t| ==> |ProofEdges(t)[i].predicates| == |ProofEdges(t)[i].child.columns|
  {
    forall i | 0 <= i < |t| ensures |ProofEdges(t)[i].predicates| == |ProofEdges(t)[i].child.columns| {
      TreeEdgeFacts(q, graph, t, i);
      var d := t[i].relationship.definition;
      OnePredicatePerPair(d.child, d.parent, |d.child.columns|);
    }
  }

  // ---------------------------------------------------------------- when no plan is returned

  /** Some spanning tree within the depth bound is safe. */
  ghost predicate SafeTreeExists(q: Request, graph: seq<Authorized>)
    requires ValidRequest(q)
  {
    exists t :: Spanning(SearchOf(q, graph), q.startRef, t) && SafeTree(Expected(q), t)
  }

  /** The search meets its first safe tree at this position, and everything before it for a reason:
      it chose an earlier candidate where the two first part. */
  ghost predicate FirstSafeAt(q: Request, graph: seq<Authorized>, i: nat)
    requires ValidRequest(q)
  {
    var all := AllGrowths(q, graph);
    && i < |all| && SafeTree(Expected(q), all[i])
    && forall j :: 0 <= j < i ==> !SafeTree(Expected(q), all[j]) && FoundBefore(Candidates(q.refs, graph), all[j], all[i])
  }

  lemma NoneConsidered(q: Request, graph: seq<Authorized>)
    requires Refusal(q, graph).None?
    ensures Plan(q, graph) == Err("NO_VERIFIED_PATH") <==>
      forall i :: 0 <= i < |AllGrowths(q, graph)| && i < TREE_LIMIT ==> !SafeTree(Expected(q), AllGrowths(q, graph)[i])
  {
    var safe, all := SafeTrees(Expected(q), Considered(q, graph)), AllGrowths(q, graph);
    if safe != [] {
      assert safe[0] in safe;
      var i :| 0 <= i < |Considered(q, graph)| && Considered(q, graph)[i] == safe[0];
      assert all[i] == safe[0];
    } else {
      forall i | 0 <= i < |all| && i < TREE_LIMIT ensures !SafeTree(Expected(q), all[i]) {
        assert Considered(q, graph)[i] == all[i] && all[i] in Considered(q, graph);
      }
    }
  }

  lemma {:induction false} FirstSafe(q: Request, graph: seq<Authorized>, i: nat) returns (first: nat)
    requires ValidRequest(q) && i < |AllGrowths(q, graph)| && SafeTree(Expected(q), AllGrowths(q, graph)[i])
    ensures FirstSafeAt(q, graph, first)
  {
    if j :| 0 <= j < i && SafeTree(Expected(q), AllGrowths(q, graph)[j]) {
      first := FirstSafe(q, graph, j);
    } else {
      first := i;
      CandidatesWithinRequest(q, graph);
      SearchOrder(SearchOf(q, graph), q.startRef);
    }
  }

  lemma SafeTreeHasPlace(q: Request, graph: seq<Authorized>)
    requires ValidRequest(q)
    ensures SafeTreeExists(q, graph) <==> exists i: nat :: FirstSafeAt(q, graph, i)
  {
    CandidatesWithinRequest(q, graph);
    if t :| Spanning(SearchOf(q, graph), q.startRef, t) && SafeTree(Expected(q), t) {
      RecordedExactly(SearchOf(q, graph), q.startRef, t);
      var i :| 0 <= i < |AllGrowths(q, graph)| && AllGrowths(q, graph)[i] == t;
      var first := FirstSafe(q, graph, i);
    }
    if i: nat :| FirstSafeAt(q, graph, i) {
      RecordedExactly(SearchOf(q, graph), q.startRef, AllGrowths(q, graph)[i]);
    }
  }

  /** The answer hides a safe tree exactly when the first one, in the order of the search, comes
      after as many unsafe growths as the search may record. */
  lemma LimitHidesExactly(q: Request, graph: seq<Authorized>)
    requires Refusal(q, graph).None?
    ensures Plan(q, graph) == Err("NO_VERIFIED_PATH") && SafeTreeExists(q, graph) <==>
      exists i: nat :: i >= TREE_LIMIT && FirstSafeAt(q, graph, i)
  {
    NoneConsidered(q, graph);
    SafeTreeHasPlace(q, graph);
  }

  lemma NothingToFind(q: Request, graph: seq<Authorized>)
    requires Refusal(q, graph).None? && !SafeTreeExists(q, graph)
    ensures Plan(q, graph) == Err("NO_VERIFIED_PATH")
  {
    NoneConsidered(q, graph);
    CandidatesWithinRequest(q, graph);
    var all := AllGrowths(q, graph);
    forall i | 0 <= i < |all| ensures !SafeTree(Expected(q), all[i]) {
      RecordedExactly(SearchOf(q, graph), q.startRef, all[i]);
    }
  }

  /** With at most four growths nothing is cut off, and the answer is about all spanning trees. */
  lemma NoPathComplete(q: Request, graph: seq<Authorized>)
    requires Refusal(q, graph).None?
    requires |AllGrowths(q, graph)| <= TREE_LIMIT
    ensures Plan(q, graph) == Err("NO_VERIFIED_PATH") <==> !SafeTreeExists(q, graph)
  {
    LimitHidesExactly(q, graph);
    if !SafeTreeExists(q, graph) {
      NothingToFind(q, graph);
    }
  }

  // ---------------------------------------------------------------- order of the request

  lemma DistinctnessIgnoresOrder(refs: seq<EntityRef>, other: seq<EntityRef>)
    requires multiset(refs) == multiset(other) && DistinctRefs(refs)
    ensures DistinctRefs(other)
  {
    forall i, j | 0 <= i < j < |other| ensures other[i].ref != other[j].ref {
      OnceThroughPermutation(other, refs, i, j);
    }
  }

  lemma EntityMapIgnoresOrder(refs: seq<EntityRef>, other: seq<EntityRef>)
    requires multiset(refs) == multiset(other) && DistinctRefs(refs) && DistinctRefs(other)
    ensures EntityMap(refs) == EntityMap(other)
  {
    forall n ensures n in EntityMap(refs) <==> n in EntityMap(other)
             ensures n in EntityMap(refs) ==> EntityMap(refs)[n] == EntityMap(other)[n]
    {
      EntityMapFinds(refs, n);
      EntityMapFinds(other, n);
      FindIgnoresOrder(refs, other, n);
    }
  }

  lemma OrderedRefsIgnoreOrder(refs: seq<EntityRef>, other: seq<EntityRef>)
    requires multiset(refs) == multiset(other) && DistinctRefs(refs)
    ensures Sorted(refs, RefLe) == Sorted(other, RefLe)
  {
    NameLeIsTotalOrder();
    forall i, j | 0 <= i < |refs| && 0 <= j < |refs| && RefLe(refs[i], refs[j]) && RefLe(refs[j], refs[i]) ensures refs[i] == refs[j] {
      assert refs[i].ref == refs[j].ref;
    }
    SortedPermutation(refs, other, RefLe);
  }

  lemma SameProofs(q: Request, other: seq<EntityRef>, sourceId: string, snapshotId: string, trees: seq<Tree>)
    requires Sorted(q.refs, RefLe) == Sorted(other, RefLe)
    ensures Proofs(q.(refs := other), sourceId, snapshotId, trees) == Proofs(q, sourceId, snapshotId, trees)
  {
  }

  lemma SameRefusal(q: Request, other: seq<EntityRef>, graph: seq<Authorized>)
    requires |q.refs| == |other| && EntityMap(q.refs) == EntityMap(other)
    ensures Refusal(q.(refs := other), graph) == Refusal(q, graph) && Expected(q.(refs := other)) == Expected(q)
  {
  }

  lemma SameConsidered(q: Request, other: seq<EntityRef>, graph: seq<Authorized>)
    requires ValidRequest(q) && ValidRequest(q.(refs := other))
    requires EntityMap(q.refs) == EntityMap(other) && Candidates(q.refs, graph) == Candidates(other, graph)
    ensures Considered(q.(refs := other), graph) == Considered(q, graph)
  {
    assert SearchOf(q.(refs := other), graph) == SearchOf(q, graph);
  }

  lemma SameAnswer(q: Request, other: seq<EntityRef>, graph: seq<Authorized>, safe: seq<Tree>)
    requires graph != [] && Sorted(q.refs, RefLe) == Sorted(other, RefLe)
    ensures PlanFrom(q.(refs := other), graph, safe) == PlanFrom(q, graph, safe)
  {
    if safe != [] {
      SameProofs(q, other, graph[0].definition.sourceId, SnapshotOf(safe[0]), safe);
    }
  }

  lemma SameInputsSamePlan(q: Request, other: seq<EntityRef>, graph: seq<Authorized>)
    requires |q.refs| == |other| && EntityMap(q.refs) == EntityMap(other)
    requires Candidates(q.refs, graph) == Candidates(other, graph) && Sorted(q.refs, RefLe) == Sorted(other, RefLe)
    ensures Plan(q.(refs := other), graph) == Plan(q, graph)
  {
    SameRefusal(q, other, graph);
    if Refusal(q, graph).None? {
      SameConsidered(q, other, graph);
      SameAnswer(q, other, graph, SafeTrees(Expected(q), Considered(q, graph)));
    }
  }

  /** Listing the instances in another order changes nothing: same result, same edges, same plan id. */
  lemma PlanIgnoresRequestOrder(q: Request, other: seq<EntityRef>, graph: seq<Authorized>)
    requires multiset(q.refs) == multiset(other)
    ensures Plan(q.(refs := other), graph) == Plan(q, graph)
  {
    var q' := q.(refs := other);
    assert |q.refs| == |multiset(q.refs)| == |multiset(other)| == |other|;
    DistinctExactly(q.refs);
    DistinctExactly(other);
    if DistinctRefs(q.refs) {
      DistinctnessIgnoresOrder(q.refs, other);
      EntityMapIgnoresOrder(q.refs, other);
      CandidatesIgnoreRequestOrder(q.refs, other, graph);
      OrderedRefsIgnoreOrder(q.refs, other);
      SameInputsSamePlan(q, other, graph);
    } else if DistinctRefs(other) {
      DistinctnessIgnoresOrder(other, q.refs);
    }
  }

  // ---------------------------------------------------------------- growth order and plan ids

  lemma PlanEdgesTogether(t: Tree, u: Tree)
    requires multiset(t) == multiset(u)
    ensures multiset(PlanEdges(ProofEdges(t))) == multiset(PlanEdges(ProofEdges(u)))
  {
    assert PlanEdges(ProofEdges(t)) == Mapped(t, c => PlanEdgeOf(ProofEdgeOf(c)));
    assert PlanEdges(ProofEdges(u)) == Mapped(u, c => PlanEdgeOf(ProofEdgeOf(c)));
    MappedTogether(t, u, c => PlanEdgeOf(ProofEdgeOf(c)));
  }

  lemma TreePlanEdgesUntied(s: Search, start: string, t: Tree)
    requires Growth(s, start, t)
    ensures TotalPreorder(PlanEdgeLe) && Untied(PlanEdges(ProofEdges(t)), PlanEdgeLe)
  {
    ComparedByKey(PlanEdgeLe, PlanEdgeKey);
    GrowthIsGrown(s, start, t);
    GrownHasNoParallels(start, TreeLinks(t));
    NoParallelsUntied(t);
  }

  lemma NoParallelsUntied(t: Tree)
    requires NoParallels(TreeLinks(t))
    ensures Untied(PlanEdges(ProofEdges(t)), PlanEdgeLe)
  {
    var edges := PlanEdges(ProofEdges(t));
    forall i, j | 0 <= i < |edges| && 0 <= j < |edges| && PlanEdgeLe(edges[i], edges[j]) && PlanEdgeLe(edges[j], edges[i])
      ensures edges[i] == edges[j]
    {
      TiedShareEnds(t, i, j);
      SameEndsSamePlace(TreeLinks(t), i, j);
    }
  }

  ghost predicate NoParallels(links: seq<Link>) {
    forall i, j :: 0 <= i < j < |links| ==> Ends(links[i]) != Ends(links[j])
  }

  lemma SameEndsSamePlace(links: seq<Link>, i: nat, j: nat)
    requires NoParallels(links) && i < |links| && j < |links| && Ends(links[i]) == Ends(links[j])
    ensures i == j
  {
  }

  lemma TiedShareEnds(t: Tree, i: nat, j: nat)
    requires i < |t| && j < |t|
    requires var edges := PlanEdges(ProofEdges(t)); PlanEdgeLe(edges[i], edges[j]) && PlanEdgeLe(edges[j], edges[i])
    ensures Ends(TreeLinks(t)[i]) == Ends(TreeLinks(t)[j])
  {
    var edges := PlanEdges(ProofEdges(t));
    KeyLeTotal(PlanEdgeKey(edges[i]), PlanEdgeKey(edges[j]));
    SameKeySameEnds(t, i, j);
  }

  lemma SameKeySameEnds(t: Tree, i: nat, j: nat)
    requires i < |t| && j < |t| && PlanEdgeKey(PlanEdges(ProofEdges(t))[i]) == PlanEdgeKey(PlanEdges(ProofEdges(t))[j])
    ensures Ends(TreeLinks(t)[i]) == Ends(TreeLinks(t)[j])
  {
    var a, b := PlanEdgeKey(PlanEdges(ProofEdges(t))[i]), PlanEdgeKey(PlanEdges(ProofEdges(t))[j]);
    assert a[0] == b[0] && a[1] == b[1];
  }

  /** The same edges grown in another order get the same plan id, so they count as two results
      of the search but name one plan. */
  lemma GrowthOrderKeepsPlanId(q: Request, graph: seq<Authorized>, sourceId: string, snapshotId: string, t: Tree, u: Tree)
    requires ValidRequest(q) && Spanning(SearchOf(q, graph), q.startRef, t) && multiset(t) == multiset(u)
    ensures ProofOf(sourceId, snapshotId, q.policyVersion, q.refs, q.startRef, Expected(q), q.maxDepth, t, q.now).planId
         == ProofOf(sourceId, snapshotId, q.policyVersion, q.refs, q.startRef, Expected(q), q.maxDepth, u, q.now).planId
  {
    PlanEdgesTogether(t, u);
    TreePlanEdgesUntied(SearchOf(q, graph), q.startRef, t);
    SortedPermutation(PlanEdges(ProofEdges(t)), PlanEdges(ProofEdges(u)), PlanEdgeLe);
  }

  /** A candidate is determined by what the plan id records of it. */
  lemma PlanEdgeDetermines(q: Request, graph: seq<Authorized>, c: Candidate, d: Candidate)
    requires DistinctRelationships(graph) && c in Candidates(q.refs, graph) && d in Candidates(q.refs, graph)
    requires PlanEdgeOf(ProofEdgeOf(c)) == PlanEdgeOf(ProofEdgeOf(d))
    ensures c == d
  {
    CandidatesExactly(q.refs, graph, c);
    CandidatesExactly(q.refs, graph, d);
    var i :| 0 <= i < |graph| && graph[i] == c.relationship;
    var j :| 0 <= j < |graph| && graph[j] == d.relationship;
    assert i == j;
  }

  ghost predicate DistinctRelationships(graph: seq<Authorized>) {
    forall i, j :: 0 <= i < j < |graph| ==> graph[i].definition.relationshipId != graph[j].definition.relationshipId
  }

  lemma TreeFromPlanEdges(q: Request, graph: seq<Authorized>, t: Tree, u: Tree)
    requires ValidRequest(q) && DistinctRelationships(graph)
    requires Growth(SearchOf(q, graph), q.startRef, t) && Growth(SearchOf(q, graph), q.startRef, u)
    requires multiset(PlanEdges(ProofEdges(t))) == multiset(PlanEdges(ProofEdges(u)))
    ensures multiset(t) == multiset(u)
  {
    var f := (c: Candidate) => PlanEdgeOf(ProofEdgeOf(c));
    assert PlanEdges(ProofEdges(t)) == Mapped(t, f) && PlanEdges(ProofEdges(u)) == Mapped(u, f);
    forall i, j | 0 <= i < |t| && 0 <= j < |u| && f(t[i]) == f(u[j]) ensures t[i] == u[j] {
      GrowthMembers(SearchOf(q, graph), q.startRef, t, i);
      GrowthMembers(SearchOf(q, graph), q.startRef, u, j);
      PlanEdgeDetermines(q, graph, t[i], u[j]);
    }
    MappedApart(t, u, f);
  }

  /** Within one request two trees get the same plan id exactly when they have the same edges. */
  lemma PlanIdExactly(q: Request, graph: seq<Authorized>, sourceId: string, snapshotId: string, t: Tree, u: Tree)
    requires ValidRequest(q) && DistinctRelationships(graph)
    requires Spanning(SearchOf(q, graph), q.startRef, t) && Spanning(SearchOf(q, graph), q.startRef, u)
    ensures ProofOf(sourceId, snapshotId, q.policyVersion, q.refs, q.startRef, Expected(q), q.maxDepth, t, q.now).planId
         == ProofOf(sourceId, snapshotId, q.policyVersion, q.refs, q.startRef, Expected(q), q.maxDepth, u, q.now).planId
      <==> multiset(t) == multiset(u)
  {
    if multiset(t) == multiset(u) {
      GrowthOrderKeepsPlanId(q, graph, sourceId, snapshotId, t, u);
    }
    var a, b := PlanEdges(ProofEdges(t)), PlanEdges(ProofEdges(u));
    if Sorted(a, PlanEdgeLe) == Sorted(b, PlanEdgeLe) {
      ComparedByKey(PlanEdgeLe, PlanEdgeKey);
      SortedEqualMeansPermutation(a, b, PlanEdgeLe);
      TreeFromPlanEdges(q, graph, t, u);
    }
  }

  lemma {:induction false} FewSafeTrees(expected: string, trees: seq<Tree>)
    ensures |SafeTrees(expected, trees)| <= |trees|
  {
    if trees != [] {
      FewSafeTrees(expected, trees[..|trees| - 1]);
    }
  }

  /** When alternatives are asked for, no safe tree the search returned is held back. */
  lemma EverySafeTreeOffered(q: Request, graph: seq<Authorized>, proof: JoinProof, t: Tree) returns (p: JoinProof)
    requires Plan(q, graph) == Ok(proof) && q.includeAlternatives && t in Considered(q, graph) && SafeTree(Expected(q), t)
    ensures Offered(proof, p) && p.edges == ProofEdges(t)
  {
    var safe := SafeTrees(Expected(q), Considered(q, graph));
    FewSafeTrees(Expected(q), Considered(q, graph));
    var i :| 0 <= i < |safe| && safe[i] == t;
    var proofs := Proofs(q, graph[0].definition.sourceId, SnapshotOf(safe[0]), safe);
    assert proof == Bundle(q, proofs) && proofs[i].edges == ProofEdges(t);
    p := BundleHolds(q, proofs, i);
  }

  lemma BundleHolds(q: Request, proofs: seq<JoinProof>, i: nat) returns (p: JoinProof)
    requires i < |proofs| <= 4 && q.includeAlternatives
    ensures Offered(Bundle(q, proofs), p) && p.edges == proofs[i].edges
  {
    p := if i == 0 then Bundle(q, proofs) else Bundle(q, proofs).alternatives[i - 1];
  }

  // ---------------------------------------------------------------- the limit hides safe trees

  /** A curated relationship along which one row of `from` meets several rows of `to`. */
  ghost predicate FansOutward(r: Authorized, from: EntityRef, to: EntityRef) {
    && r.evidence.provenance == Curated && r.definition.parent.entity == from.entity && r.definition.child.entity == to.entity
    && r.evidence.measurements.maxChildrenPerParent > 1
  }

  ghost predicate SafeOutward(r: Authorized, from: EntityRef, to: EntityRef) {
    && r.evidence.provenance != Curated && r.definition.child.entity == from.entity && r.definition.parent.entity == to.entity
    && r.evidence.measurements.maxParentsPerChild <= 1
  }

  /** A request for two instances, whose grain is its start. */
  ghost predicate AsksFor(q: Request, from: EntityRef, to: EntityRef) {
    && ValidRequest(q) && q.refs == [from, to] && q.startRef == from.ref && Expected(q) == from.ref
  }

  lemma AskedRefs(q: Request, from: EntityRef, to: EntityRef)
    requires AsksFor(q, from, to)
    ensures from.ref != to.ref && EntityMap(q.refs).Keys == {from.ref, to.ref}
  {
    DistinctExactly(q.refs);
    assert q.refs[0] == from && q.refs[1] == to;
    forall n ensures n in EntityMap(q.refs) <==> n in {from.ref, to.ref} {
      EntityMapFinds(q.refs, n);
    }
  }

  /** With two instances each edge from the start is a spanning tree of its own, and there are no others. */
  lemma TwoRefTree(q: Request, graph: seq<Authorized>, from: EntityRef, to: EntityRef, t: Tree)
    requires AsksFor(q, from, to)
    ensures Spanning(SearchOf(q, graph), q.startRef, t) <==>
      |t| == 1 && t[0] in Candidates(q.refs, graph) && t[0].fromRef == from.ref && t[0].toRef == to.ref
  {
    var s := SearchOf(q, graph);
    AskedRefs(q, from, to);
    CandidatesWithinRequest(q, graph);
    if Growth(s, q.startRef, t) && |t| == 1 {
      assert t[..0] == [];
    }
    if Spanning(s, q.startRef, t) {
      RecordedExactly(s, q.startRef, t);
      assert t[..0] == [];
    }
    if |t| == 1 && t[0] in s.candidates && t[0].fromRef == from.ref && t[0].toRef == to.ref {
      assert t[..0] == [] && t == [] + [t[0]];
      GrowthStep(s, q.startRef, map[q.startRef := 0], [], t[0]);
    }
  }

  /** Between the two instances, a tree from a curated relationship that fans out is not safe. */
  lemma OutwardTree(q: Request, graph: seq<Authorized>, from: EntityRef, to: EntityRef, r: Authorized) returns (t: Tree)
    requires AsksFor(q, from, to) && r in graph && (FansOutward(r, from, to) || SafeOutward(r, from, to))
    ensures Spanning(SearchOf(q, graph), q.startRef, t) && |t| == 1 && t[0].relationship == r
    ensures SafeTree(Expected(q), t) <==> SafeOutward(r, from, to)
  {
    AskedRefs(q, from, to);
    var c := if FansOutward(r, from, to) then ReverseEdge(r, from, to) else ForwardEdge(r, from, to);
    assert Connects(c, from, to) && q.refs[0] == from && q.refs[1] == to;
    CandidatesExactly(q.refs, graph, c);
    t := [c];
    TwoRefTree(q, graph, from, to, t);
    if FansOutward(r, from, to) { FirstStepFans(from.ref, to.ref, c); } else { SingleSafeStep(from.ref, to.ref, c); }
  }

  lemma CuratedFirst(q: Request, graph: seq<Authorized>, t: Tree, u: Tree)
    requires |t| == 1 && |u| == 1 && t[0].relationship.evidence.provenance != Curated && u[0].relationship.evidence.provenance == Curated
    ensures !FoundBefore(Candidates(q.refs, graph), t, u)
  {
    var candidates := Candidates(q.refs, graph);
    if FoundBefore(candidates, t, u) {
      var k, p, r :| 0 <= k < |t| && k < |u| && t[..k] == u[..k]
        && 0 <= p < r < |candidates| && candidates[p] == t[k] && candidates[r] == u[k];
      CandidateLeIsTotalPreorder();
      SortedFacts(Unsorted(q.refs, graph), CandidateLe);
      assert CandidateLe(t[0], u[0]);
      assert CandidateKey(t[0])[0] == "1" && CandidateKey(u[0])[0] == "0";
      NameLeTotal("0", "1");
    }
  }

  /** Four curated relationships fan out from the start, no curated one leads safely away from it,
      and a declared one does. */
  ghost predicate Crowds(graph: seq<Authorized>, from: EntityRef, to: EntityRef, ahead: seq<Authorized>, safe: Authorized) {
    && |ahead| == TREE_LIMIT && (forall i, j :: 0 <= i < j < |ahead| ==> ahead[i] != ahead[j])
    && (forall i :: 0 <= i < |ahead| ==> ahead[i] in graph && FansOutward(ahead[i], from, to))
    && safe in graph && SafeOutward(safe, from, to)
    && (forall r :: r in graph && r.evidence.provenance == Curated ==> NotSafeOutward(r, from, to))
  }

  ghost predicate NotSafeOutward(r: Authorized, from: EntityRef, to: EntityRef) {
    && (r.definition.parent.entity == from.entity && r.definition.child.entity == to.entity ==>
          r.evidence.measurements.maxChildrenPerParent > 1)
    && (r.definition.child.entity == from.entity && r.definition.parent.entity == to.entity ==>
          r.evidence.measurements.maxParentsPerChild > 1)
  }

  lemma SafeIsDeclared(q: Request, graph: seq<Authorized>, from: EntityRef, to: EntityRef, t: Tree)
    requires AsksFor(q, from, to) && Spanning(SearchOf(q, graph), q.startRef, t) && SafeTree(Expected(q), t)
    requires forall r :: r in graph && r.evidence.provenance == Curated ==> NotSafeOutward(r, from, to)
    ensures |t| == 1 && t[0].relationship.evidence.provenance != Curated
  {
    TwoRefTree(q, graph, from, to, t);
    AskedRefs(q, from, to);
    CandidatesExactly(q.refs, graph, t[0]);
    assert t == [t[0]];
    if t[0].maxMatches > 1 {
      FirstStepFans(from.ref, to.ref, t[0]);
    }
  }

  lemma GrowthPlace(q: Request, graph: seq<Authorized>, t: Tree) returns (k: nat)
    requires ValidRequest(q) && Spanning(SearchOf(q, graph), q.startRef, t)
    ensures k < |AllGrowths(q, graph)| && AllGrowths(q, graph)[k] == t
  {
    CandidatesWithinRequest(q, graph);
    RecordedExactly(SearchOf(q, graph), q.startRef, t);
    k :| 0 <= k < |AllGrowths(q, graph)| && AllGrowths(q, graph)[k] == t;
  }

  lemma GrowthSpans(q: Request, graph: seq<Authorized>, k: nat)
    requires ValidRequest(q) && k < |AllGrowths(q, graph)|
    ensures Spanning(SearchOf(q, graph), q.startRef, AllGrowths(q, graph)[k])
  {
    CandidatesWithinRequest(q, graph);
    RecordedExactly(SearchOf(q, graph), q.startRef, AllGrowths(q, graph)[k]);
  }

  lemma GrowthsInSearchOrder(q: Request, graph: seq<Authorized>, j: nat, k: nat)
    requires ValidRequest(q) && j < k < |AllGrowths(q, graph)|
    ensures FoundBefore(Candidates(q.refs, graph), AllGrowths(q, graph)[j], AllGrowths(q, graph)[k])
  {
    CandidatesWithinRequest(q, graph);
    SearchOrder(SearchOf(q, graph), q.startRef);
  }

  lemma CuratedEarlier(q: Request, graph: seq<Authorized>, i: nat, k: nat)
    requires ValidRequest(q) && i < |AllGrowths(q, graph)| && k < |AllGrowths(q, graph)|
    requires var t := AllGrowths(q, graph)[i]; |t| == 1 && t[0].relationship.evidence.provenance != Curated
    requires var u := AllGrowths(q, graph)[k]; |u| == 1 && u[0].relationship.evidence.provenance == Curated
    ensures k < i
  {
    if i < k {
      GrowthsInSearchOrder(q, graph, i, k);
      CuratedFirst(q, graph, AllGrowths(q, graph)[i], AllGrowths(q, graph)[k]);
    }
  }

  /** The growth over a crowding relationship comes before any safe one. */
  lemma CrowdingIsAhead(q: Request, graph: seq<Authorized>, from: EntityRef, to: EntityRef, ahead: seq<Authorized>,
                        safe: Authorized, i: nat, n: nat) returns (k: nat)
    requires AsksFor(q, from, to) && Crowds(graph, from, to, ahead, safe) && FirstSafeAt(q, graph, i) && n < |ahead|
    ensures k < i && k < |AllGrowths(q, graph)| && GrowsOver(AllGrowths(q, graph)[k], [ahead[n]])
  {
    GrowthSpans(q, graph, i);
    SafeIsDeclared(q, graph, from, to, AllGrowths(q, graph)[i]);
    var t := OutwardTree(q, graph, from, to, ahead[n]);
    k := GrowthPlace(q, graph, t);
    CuratedEarlier(q, graph, i, k);
  }

  ghost predicate GrowsOver(t: Tree, relationships: seq<Authorized>) {
    |t| == 1 && t[0].relationship in relationships
  }

  /** Positions below `i` that grow over these relationships. */
  ghost predicate Ahead(all: seq<Tree>, i: nat, at: set<nat>, relationships: seq<Authorized>) {
    forall k :: k in at ==> k < i && k < |all| && GrowsOver(all[k], relationships)
  }

  ghost predicate HasPlace(all: seq<Tree>, i: nat, r: Authorized) {
    exists k: nat :: k < i && k < |all| && GrowsOver(all[k], [r])
  }

  lemma OneMoreAhead(all: seq<Tree>, i: nat, at: set<nat>, relationships: seq<Authorized>, r: Authorized) returns (more: set<nat>)
    requires Ahead(all, i, at, relationships) && HasPlace(all, i, r) && r !in relationships
    ensures Ahead(all, i, more, relationships + [r]) && |more| == |at| + 1
  {
    var k: nat :| k < i && k < |all| && GrowsOver(all[k], [r]);
    more := at + {k};
  }

  /** Distinct positions below `i`, one for each of the first `n` relationships. */
  lemma {:induction false} AheadPositions(all: seq<Tree>, i: nat, ahead: seq<Authorized>, n: nat) returns (at: set<nat>)
    requires n <= |ahead| && forall j, k :: 0 <= j < k < |ahead| ==> ahead[j] != ahead[k]
    requires forall j :: 0 <= j < |ahead| ==> HasPlace(all, i, ahead[j])
    ensures |at| == n && Ahead(all, i, at, ahead[..n])
  {
    if n == 0 {
      at := {};
    } else {
      var before := AheadPositions(all, i, ahead, n - 1);
      at := OneMoreAhead(all, i, before, ahead[..n - 1], ahead[n - 1]);
      PrefixGrows(ahead, n);
    }
  }

  lemma PrefixGrows<T>(xs: seq<T>, n: nat)
    requires 0 < n <= |xs|
    ensures xs[..n] == xs[..n - 1] + [xs[n - 1]]
  {
  }

  /** The first safe growth stands behind one growth for each crowding relationship. */
  lemma CrowdedOut(q: Request, graph: seq<Authorized>, from: EntityRef, to: EntityRef, ahead: seq<Authorized>, safe: Authorized, i: nat)
    requires AsksFor(q, from, to) && Crowds(graph, from, to, ahead, safe) && FirstSafeAt(q, graph, i)
    ensures |ahead| <= i
  {
    var all := AllGrowths(q, graph);
    forall n | 0 <= n < |ahead| ensures HasPlace(all, i, ahead[n]) {
      var k := CrowdingIsAhead(q, graph, from, to, ahead, safe, i, n);
    }
    var at := AheadPositions(all, i, ahead, |ahead|);
    Sets.BoundedSize(at, i);
  }

  /** A family of requests on which the answer hides a safe tree, whatever else the graph holds. */
  lemma CrowdedHides(q: Request, graph: seq<Authorized>, from: EntityRef, to: EntityRef, ahead: seq<Authorized>, safe: Authorized)
    requires Refusal(q, graph).None? && AsksFor(q, from, to) && Crowds(graph, from, to, ahead, safe)
    ensures Plan(q, graph) == Err("NO_VERIFIED_PATH") && SafeTreeExists(q, graph)
  {
    var t := OutwardTree(q, graph, from, to, safe);
    SafeTreeHasPlace(q, graph);
    var i: nat :| FirstSafeAt(q, graph, i);
    CrowdedOut(q, graph, from, to, ahead, safe, i);
    LimitHidesExactly(q, graph);
  }

  lemma FirstStepFans(a: string, b: string, c: Candidate)
    requires c.fromRef == a && c.toRef == b && c.maxMatches > 1
    ensures !SafeTree(a, [c])
  {
    assert TreeLinks([c])[0] in TreeLinks([c]);
    assert Step(TreeLinks([c]), a, b, c.maxMatches);
    assert Joined(TreeLinks([c]), a, b);
    assert EndsWith(TreeLinks([c]), a, [a, b], c.maxMatches);
  }

  /** A single link cannot be walked twice without turning back. */
  lemma SingleWalk(links: seq<Link>, w: seq<string>)
    requires |links| == 1 && links[0].a != links[0].b && Walk(links, w)
    ensures |w| <= 2
  {
    if |w| > 2 {
      SingleLinkEnds(links, w[0], w[1]);
      SingleLinkEnds(links, w[1], w[2]);
    }
  }

  lemma SingleLinkEnds(links: seq<Link>, x: string, y: string)
    requires |links| == 1
    ensures Joined(links, x, y) ==> (x, y) == (links[0].a, links[0].b) || (x, y) == (links[0].b, links[0].a)
  {
  }

  lemma SingleSafeStep(a: string, b: string, c: Candidate)
    requires a != b && c.fromRef == a && c.toRef == b && c.maxMatches <= 1
    ensures SafeTree(a, [c])
  {
    var links := TreeLinks([c]);
    assert links == [links[0]];
    forall w, bound | EndsWith(links, a, w, bound) ensures bound <= 1 {
      assert Joined(links, w[0], w[1]);
      SingleWalk(links, w);
    }
    assert [c][..0] == [];
  }
}
