/** Which tree becomes the proof, what a proof says of it, and what its id stands for. */
module PlanChoice {
  import Sets
  import opened Domain
  import opened Ordering
  import opened Sorting
  import opened Relational
  import opened Evidence
  import opened CandidateEdges
  import opened SpanningTrees
  import opened GrainWalk
  import opened Planner
  import opened PlanSafety

  // ---------------------------------------------------------------- candidates, and which come first

  /** Curated before declared, then edges that do not fan out, then by relationship id, start and end. */
  ghost predicate Prefers(a: Candidate, b: Candidate) {
    var x, y := a.relationship, b.relationship;
    if (x.evidence.provenance == Curated) != (y.evidence.provenance == Curated) then x.evidence.provenance == Curated
    else if (a.maxMatches > 1) != (b.maxMatches > 1) then a.maxMatches <= 1
    else if x.definition.relationshipId != y.definition.relationshipId then NameLe(x.definition.relationshipId, y.definition.relationshipId)
    else if a.fromRef != b.fromRef then NameLe(a.fromRef, b.fromRef)
    else NameLe(a.toRef, b.toRef)
  }

  lemma RanksCompare(a: bool, b: bool)
    ensures (Rank(a) == Rank(b) <==> a == b) && (NameLe(Rank(a), Rank(b)) <==> a ==> b)
  {
    assert "0"[0] < "1"[0];
  }

  lemma PrefersExactly(a: Candidate, b: Candidate)
    ensures CandidateLe(a, b) <==> Prefers(a, b)
  {
    var x, y := CandidateKey(a), CandidateKey(b);
    RanksCompare(a.relationship.evidence.provenance != Curated, b.relationship.evidence.provenance != Curated);
    RanksCompare(a.maxMatches > 1, b.maxMatches > 1);
    LastDiffers(a.toRef, b.toRef);
    KeyLeFirst(a.fromRef, b.fromRef, [a.toRef], [b.toRef]);
    KeyLeFirst(x[2], y[2], [a.fromRef, a.toRef], [b.fromRef, b.toRef]);
    KeyLeFirst(x[1], y[1], [x[2], a.fromRef, a.toRef], [y[2], b.fromRef, b.toRef]);
    KeyLeFirst(x[0], y[0], [x[1], x[2], a.fromRef, a.toRef], [y[1], y[2], b.fromRef, b.toRef]);
    assert x == [x[0]] + [x[1], x[2], a.fromRef, a.toRef] && y == [y[0]] + [y[1], y[2], b.fromRef, b.toRef];
    assert [x[1]] + [x[2], a.fromRef, a.toRef] == [x[1], x[2], a.fromRef, a.toRef] && [y[1]] + [y[2], b.fromRef, b.toRef] == [y[1], y[2], b.fromRef, b.toRef];
    assert [x[2]] + [a.fromRef, a.toRef] == [x[2], a.fromRef, a.toRef] && [y[2]] + [b.fromRef, b.toRef] == [y[2], b.fromRef, b.toRef];
    assert [a.fromRef] + [a.toRef] == [a.fromRef, a.toRef] && [b.fromRef] + [b.toRef] == [b.fromRef, b.toRef];
  }

  lemma LastDiffers(a: string, b: string)
    ensures KeyLe([a], [b]) <==> NameLe(a, b)
  {
    assert [a][1..] == [] && [b][1..] == [];
    NameLeTotal(a, b);
  }

  /** The list of candidates stands in the order of preference, so the search meets preferred edges first. */
  lemma CandidatesByPreference(refs: seq<EntityRef>, graph: seq<Authorized>, i: nat, j: nat)
    requires i < j < |Candidates(refs, graph)|
    ensures Prefers(Candidates(refs, graph)[i], Candidates(refs, graph)[j])
  {
    CandidateLeIsTotalPreorder();
    SortedFacts(Unsorted(refs, graph), CandidateLe);
    assert CandidateLe(Candidates(refs, graph)[i], Candidates(refs, graph)[j]);
    PrefersExactly(Candidates(refs, graph)[i], Candidates(refs, graph)[j]);
  }

  /** A candidate runs from child to parent or back; the bound and the cardinality are read in its own direction:
      many on the far side when one near row may meet several far ones, many on the near side in the opposite case. */
  lemma CandidateReads(refs: seq<EntityRef>, graph: seq<Authorized>, db: Database, c: Candidate)
    requires c in Candidates(refs, graph) && AllMeasuredOn(db, graph)
    ensures c.relationship in graph
    ensures var d, m := c.relationship.definition, c.relationship.evidence.measurements;
      && EntityRef(c.fromRef, if c.traversal == Forward then d.child.entity else d.parent.entity) in refs
      && EntityRef(c.toRef, if c.traversal == Forward then d.parent.entity else d.child.entity) in refs
      && c.fromRef != c.toRef
      && c.maxMatches == (if c.traversal == Forward then m.maxParentsPerChild else m.maxChildrenPerParent)
      && ReverseMatches(c) == (if c.traversal == Forward then m.maxChildrenPerParent else m.maxParentsPerChild)
      && (c.cardinality in {OneToMany, ManyToMany} <==> c.maxMatches > 1)
      && (c.cardinality in {ManyToOne, ManyToMany} <==> ReverseMatches(c) > 1)
  {
    CandidatesExactly(refs, graph, c);
    var left, right :| left in refs && right in refs && Connects(c, left, right);
    MeasuredCardinality(db, c.relationship);
    ConnectedReads(c, left, right);
  }

  lemma MeasuredCardinality(db: Database, r: Authorized)
    requires MeasuredOn(db, r)
    ensures var m := r.evidence.measurements; m.observed == ObservedCardinality(m.maxChildrenPerParent, m.maxParentsPerChild)
  {
  }

  lemma ConnectedReads(c: Candidate, left: EntityRef, right: EntityRef)
    requires Connects(c, left, right)
    requires var m := c.relationship.evidence.measurements; m.observed == ObservedCardinality(m.maxChildrenPerParent, m.maxParentsPerChild)
    ensures var d, m := c.relationship.definition, c.relationship.evidence.measurements;
      && EntityRef(c.fromRef, if c.traversal == Forward then d.child.entity else d.parent.entity) == left
      && EntityRef(c.toRef, if c.traversal == Forward then d.parent.entity else d.child.entity) == right
      && c.maxMatches == (if c.traversal == Forward then m.maxParentsPerChild else m.maxChildrenPerParent)
      && ReverseMatches(c) == (if c.traversal == Forward then m.maxChildrenPerParent else m.maxParentsPerChild)
      && (c.cardinality in {OneToMany, ManyToMany} <==> c.maxMatches > 1)
      && (c.cardinality in {ManyToOne, ManyToMany} <==> ReverseMatches(c) > 1)
  {
  }

  // ---------------------------------------------------------------- what an edge of a proof says

  /** The edge as the proof records it, field by field. */
  ghost predicate Recorded(c: Candidate, e: ProofEdge) {
    var d, m := c.relationship.definition, c.relationship.evidence.measurements;
    && e.fromRef == c.fromRef && e.toRef == c.toRef && e.traversal == c.traversal
    && e.relationshipId == d.relationshipId && e.child == d.child && e.parent == d.parent
    && e.evidenceId == c.relationship.evidence.evidenceId && e.provenance == c.relationship.evidence.provenance
    && e.cardinality == c.cardinality
    && (|d.child.columns| == |d.parent.columns| ==>
          |e.predicates| == |d.child.columns| && forall i :: 0 <= i < |e.predicates| ==>
            e.predicates[i] == d.child.entity + "." + d.child.columns[i] + " = " + d.parent.entity + "." + d.parent.columns[i])
  }

  ghost predicate AllRecorded(t: Tree, edges: seq<ProofEdge>) {
    |edges| == |t| && forall i :: 0 <= i < |t| ==> Recorded(t[i], edges[i])
  }

  lemma {:induction false} PredicateAt(child: Endpoint, parent: Endpoint, n: nat, i: nat)
    requires n <= |child.columns| && n <= |parent.columns| && i < n
    ensures |Predicates(child, parent, n)| == n
    ensures Predicates(child, parent, n)[i] == child.entity + "." + child.columns[i] + " = " + parent.entity + "." + parent.columns[i]
  {
    OnePredicatePerPair(child, parent, n - 1);
    if i < n - 1 {
      PredicateAt(child, parent, n - 1, i);
    }
  }

  lemma EdgeIsRecorded(c: Candidate)
    ensures Recorded(c, ProofEdgeOf(c))
  {
    var d := c.relationship.definition;
    if |d.child.columns| == |d.parent.columns| {
      OnePredicatePerPair(d.child, d.parent, |d.child.columns|);
      forall i | 0 <= i < |d.child.columns|
        ensures ProofEdgeOf(c).predicates[i] == d.child.entity + "." + d.child.columns[i] + " = " + d.parent.entity + "." + d.parent.columns[i]
      {
        PredicateAt(d.child, d.parent, |d.child.columns|, i);
      }
    }
  }

  lemma EdgesAreRecorded(t: Tree)
    ensures AllRecorded(t, ProofEdges(t))
  {
    forall i | 0 <= i < |t| ensures Recorded(t[i], ProofEdges(t)[i]) {
      EdgeIsRecorded(t[i]);
    }
  }

  // ---------------------------------------------------------------- the chosen trees

  ghost predicate Rising(at: seq<nat>) {
    forall i, j :: 0 <= i < j < |at| ==> at[i] < at[j]
  }

  /** `at` are the places, in order, of the safe trees. */
  ghost predicate SafePlaces(expected: string, trees: seq<Tree>, at: seq<nat>) {
    Rising(at) && forall n: nat :: n in at <==> n < |trees| && SafeTree(expected, trees[n])
  }

  /** `picked` are the trees at these places. */
  ghost predicate StandAt(trees: seq<Tree>, at: seq<nat>, picked: seq<Tree>) {
    |at| == |picked| && forall j :: 0 <= j < |at| ==> at[j] < |trees| && picked[j] == trees[at[j]]
  }

  lemma OnePlaceMore(expected: string, trees: seq<Tree>, last: Tree, before: seq<nat>)
    requires SafePlaces(expected, trees, before)
    ensures SafePlaces(expected, trees + [last], if SafeTree(expected, last) then before + [|trees|] else before)
  {
    forall j | 0 <= j < |before| ensures before[j] < |trees| {
      assert before[j] in before;
    }
    var at := if SafeTree(expected, last) then before + [|trees|] else before;
    forall n: nat ensures n in at <==> n < |trees + [last]| && SafeTree(expected, (trees + [last])[n]) {
      assert n in at <==> n in before || (SafeTree(expected, last) && n == |trees|);
    }
  }

  lemma StandAtLonger(trees: seq<Tree>, last: Tree, at: seq<nat>, picked: seq<Tree>)
    requires StandAt(trees, at, picked)
    ensures StandAt(trees + [last], at, picked) && StandAt(trees + [last], at + [|trees|], picked + [last])
  {
  }

  lemma {:induction false} SafeTreesStandAt(expected: string, trees: seq<Tree>) returns (at: seq<nat>)
    ensures SafePlaces(expected, trees, at) && StandAt(trees, at, SafeTrees(expected, trees))
  {
    if trees == [] {
      at := [];
    } else {
      var n := |trees| - 1;
      at := SafeTreesStandAt(expected, trees[..n]);
      assert trees == trees[..n] + [trees[n]];
      OnePlaceMore(expected, trees[..n], trees[n], at);
      StandAtLonger(trees[..n], trees[n], at, SafeTrees(expected, trees[..n]));
      at := if SafeTree(expected, trees[n]) then at + [n] else at;
    }
  }

  /** A safe tree: at most one edge fans out in the direction planned, and no walk from the grain crosses one that does. */
  lemma SafeTreeExactly(expected: string, t: Tree)
    ensures SafeTree(expected, t) <==>
      && (forall i, j :: 0 <= i < j < |t| ==> t[i].maxMatches <= 1 || t[j].maxMatches <= 1)
      && NeverFansOut(expected, TreeLinks(t))
  {
    FanoutsCounted(t);
  }

  lemma {:induction false} NoFanout(t: Tree)
    ensures FanoutEdges(t) == 0 <==> forall i :: 0 <= i < |t| ==> t[i].maxMatches <= 1
  {
    if t != [] {
      NoFanout(t[..|t| - 1]);
    }
  }

  lemma {:induction false} FanoutsCounted(t: Tree)
    ensures FanoutEdges(t) <= 1 <==> forall i, j :: 0 <= i < j < |t| ==> t[i].maxMatches <= 1 || t[j].maxMatches <= 1
  {
    if t != [] {
      FanoutsCounted(t[..|t| - 1]);
      NoFanout(t[..|t| - 1]);
    }
  }

  /** The head of everything offered: the graph's one source, the snapshot of the chosen tree's evidence, and the
      request itself, with its instances in the order of their names. */
  ghost predicate Headed(q: Request, graph: seq<Authorized>, chosen: Tree, p: JoinProof) {
    && (forall r :: r in graph ==> r.definition.sourceId == p.sourceId)
    && (forall c :: c in chosen ==> c.relationship.evidence.snapshotId == p.snapshotId)
    && p.policyVersion == q.policyVersion && p.startRef == q.startRef && p.maxDepth == q.maxDepth && p.verifiedAt == q.now
    && p.expectedGrainRef == (if q.expectedGrainRef.Some? && q.expectedGrainRef.value != "" then q.expectedGrainRef.value else q.startRef)
    && multiset(p.entityRefs) == multiset(q.refs)
    && forall i, j :: 0 <= i < j < |p.entityRefs| ==> NameLe(p.entityRefs[i].ref, p.entityRefs[j].ref)
  }

  /** The proof records the first safe growth; the alternatives, asked for, the later ones in their order. */
  ghost predicate Picks(q: Request, graph: seq<Authorized>, proof: JoinProof, at: seq<nat>)
    requires ValidRequest(q)
  {
    var all := AllGrowths(q, graph);
    && Rising(at) && at != []
    && (forall n: nat :: n in at <==> n < 4 && n < |all| && SafeTree(Expected(q), all[n]))
    && (forall j :: 0 <= j < |at| ==> at[j] < |all|)
    && AllRecorded(all[at[0]], proof.edges) && Headed(q, graph, all[at[0]], proof)
    && |proof.alternatives| == (if q.includeAlternatives then |at| - 1 else 0)
    && forall j :: 0 <= j < |proof.alternatives| ==>
         && AllRecorded(all[at[j + 1]], proof.alternatives[j].edges) && Headed(q, graph, all[at[0]], proof.alternatives[j])
         && proof.alternatives[j].alternatives == []
  }

  lemma OneSnapshotOnly(t: Tree, c: Candidate)
    requires |Snapshots(t)| == 1 && c in t
    ensures c.relationship.evidence.snapshotId == SnapshotOf(t)
  {
    var s := Snapshots(t);
    assert t[0] in t;
    assert c.relationship.evidence.snapshotId in s && SnapshotOf(t) in s;
    var only :| only in s;
    Sets.SubsetSize({only}, s);
  }

  lemma ProofIsHeaded(q: Request, graph: seq<Authorized>, chosen: Tree, t: Tree, p: JoinProof)
    requires graph != [] && |SourceIds(graph)| == 1 && |Snapshots(chosen)| == 1
    requires p == ProofOf(graph[0].definition.sourceId, SnapshotOf(chosen), q.policyVersion, q.refs, q.startRef, Expected(q), q.maxDepth, t, q.now).(alternatives := p.alternatives)
    ensures Headed(q, graph, chosen, p) && AllRecorded(t, p.edges)
  {
    forall r | r in graph ensures r.definition.sourceId == p.sourceId { OneSource(graph, r); }
    forall c | c in chosen ensures c.relationship.evidence.snapshotId == p.snapshotId { OneSnapshotOnly(chosen, c); }
    EdgesAreRecorded(t);
    RefsInOrder(q.refs);
  }

  lemma RefsInOrder(refs: seq<EntityRef>)
    ensures var sorted := Sorted(refs, RefLe);
      multiset(sorted) == multiset(refs) && forall i, j :: 0 <= i < j < |sorted| ==> NameLe(sorted[i].ref, sorted[j].ref)
  {
    NameLeIsTotalOrder();
    SortedFacts(refs, RefLe);
    var sorted := Sorted(refs, RefLe);
    forall i, j | 0 <= i < j < |sorted| ensures NameLe(sorted[i].ref, sorted[j].ref) {
      assert RefLe(sorted[i], sorted[j]);
    }
  }

  lemma PlacesAmongGrowths(q: Request, graph: seq<Authorized>, at: seq<nat>)
    requires ValidRequest(q) && SafePlaces(Expected(q), Considered(q, graph), at)
    ensures forall n: nat :: n in at <==> n < 4 && n < |AllGrowths(q, graph)| && SafeTree(Expected(q), AllGrowths(q, graph)[n])
  {
  }

  lemma StandAmongGrowths(q: Request, graph: seq<Authorized>, at: seq<nat>, picked: seq<Tree>)
    requires ValidRequest(q) && StandAt(Considered(q, graph), at, picked) && |picked| <= 4
    ensures StandAt(AllGrowths(q, graph), at, picked)
  {
  }

  lemma OfferedRecords(q: Request, graph: seq<Authorized>, safe: seq<Tree>, proof: JoinProof)
    requires graph != [] && |SourceIds(graph)| == 1 && safe != [] && |safe| <= 4 && |Snapshots(safe[0])| == 1
    requires proof == Bundle(q, Proofs(q, graph[0].definition.sourceId, SnapshotOf(safe[0]), safe))
    ensures AllRecorded(safe[0], proof.edges) && Headed(q, graph, safe[0], proof)
    ensures |proof.alternatives| == if q.includeAlternatives then |safe| - 1 else 0
    ensures forall j :: 0 <= j < |proof.alternatives| ==> AlternativeFor(q, graph, safe, j, proof.alternatives[j])
  {
    var proofs := Proofs(q, graph[0].definition.sourceId, SnapshotOf(safe[0]), safe);
    ProofIsHeaded(q, graph, safe[0], safe[0], proof);
    forall j | 0 <= j < |proof.alternatives| ensures AlternativeFor(q, graph, safe, j, proof.alternatives[j]) {
      assert proof.alternatives[j] == proofs[j + 1];
      ProofIsHeaded(q, graph, safe[0], safe[j + 1], proofs[j + 1]);
    }
  }

  ghost predicate AlternativeFor(q: Request, graph: seq<Authorized>, safe: seq<Tree>, j: nat, p: JoinProof) {
    j + 1 < |safe| && AllRecorded(safe[j + 1], p.edges) && Headed(q, graph, safe[0], p) && p.alternatives == []
  }

  /** Which trees a returned plan offers, and what it says of them. */
  lemma PlanPicks(q: Request, graph: seq<Authorized>, proof: JoinProof) returns (at: seq<nat>)
    requires Plan(q, graph) == Ok(proof)
    ensures ValidRequest(q) && Picks(q, graph, proof, at)
    ensures FirstSafeAt(q, graph, at[0]) && at[0] < TREE_LIMIT
  {
    var safe := SafeTrees(Expected(q), Considered(q, graph));
    at := SafeTreesStandAt(Expected(q), Considered(q, graph));
    FewSafeTrees(Expected(q), Considered(q, graph));
    PlacesAmongGrowths(q, graph, at);
    StandAmongGrowths(q, graph, at, safe);
    FirstPlace(q, graph, at);
    OfferedRecords(q, graph, safe, proof);
    PicksFrom(q, graph, proof, at, safe);
  }

  lemma PicksFrom(q: Request, graph: seq<Authorized>, proof: JoinProof, at: seq<nat>, safe: seq<Tree>)
    requires ValidRequest(q) && Rising(at) && at != [] && StandAt(AllGrowths(q, graph), at, safe)
    requires forall n: nat :: n in at <==> n < 4 && n < |AllGrowths(q, graph)| && SafeTree(Expected(q), AllGrowths(q, graph)[n])
    requires AllRecorded(safe[0], proof.edges) && Headed(q, graph, safe[0], proof)
    requires |proof.alternatives| == if q.includeAlternatives then |safe| - 1 else 0
    requires forall j :: 0 <= j < |proof.alternatives| ==> AlternativeFor(q, graph, safe, j, proof.alternatives[j])
    ensures Picks(q, graph, proof, at)
  {
    forall j | 0 <= j < |proof.alternatives|
      ensures AllRecorded(AllGrowths(q, graph)[at[j + 1]], proof.alternatives[j].edges)
      ensures Headed(q, graph, AllGrowths(q, graph)[at[0]], proof.alternatives[j]) && proof.alternatives[j].alternatives == []
    {
      assert AlternativeFor(q, graph, safe, j, proof.alternatives[j]);
    }
  }

  /** The first of the places is where the search meets its first safe tree. */
  lemma FirstPlace(q: Request, graph: seq<Authorized>, at: seq<nat>)
    requires ValidRequest(q) && Rising(at) && at != []
    requires forall n: nat :: n in at <==> n < 4 && n < |AllGrowths(q, graph)| && SafeTree(Expected(q), AllGrowths(q, graph)[n])
    ensures FirstSafeAt(q, graph, at[0]) && at[0] < 4
  {
    assert at[0] in at;
    var first := FirstSafe(q, graph, at[0]);
    assert first <= at[0];
    assert first in at;
    var j :| 0 <= j < |at| && at[j] == first;
  }

  // ---------------------------------------------------------------- errors

  /** What the request must be: 2 to 8 instances of different names, a depth of 1 to 4, and start and grain among the names. */
  ghost predicate Acceptable(q: Request) {
    && 2 <= |q.refs| <= 8 && DistinctRefs(q.refs) && 1 <= q.maxDepth <= 4
    && (exists r :: r in q.refs && r.ref == q.startRef) && (exists r :: r in q.refs && r.ref == Expected(q))
  }

  lemma AcceptableExactly(q: Request)
    ensures ValidRequest(q) <==> Acceptable(q)
  {
    DistinctExactly(q.refs);
    EntityMapFinds(q.refs, q.startRef);
    EntityMapFinds(q.refs, Expected(q));
  }

  /** Definitions were given and the grain's entity has no stable key among them. */
  ghost predicate Unstable(q: Request) {
    q.definitions != [] && forall r :: r in q.refs && r.ref == Expected(q) ==> !StableGrain(r.entity, q.definitions)
  }

  ghost predicate TwoSources(graph: seq<Authorized>) {
    exists a, b :: a in graph && b in graph && a.definition.sourceId != b.definition.sourceId
  }

  ghost predicate TwoSnapshots(t: Tree) {
    exists a, b :: a in t && b in t && a.relationship.evidence.snapshotId != b.relationship.evidence.snapshotId
  }

  /** The first safe growth below the limit. */
  ghost predicate Chosen(q: Request, graph: seq<Authorized>, i: nat)
    requires ValidRequest(q)
  {
    i < 4 && FirstSafeAt(q, graph, i)
  }

  lemma TwoSourcesExactly(graph: seq<Authorized>)
    requires graph != []
    ensures |SourceIds(graph)| != 1 <==> TwoSources(graph)
  {
    var ids := SourceIds(graph);
    assert graph[0] in graph;
    var first := graph[0].definition.sourceId;
    if !TwoSources(graph) {
      assert ids == {first};
    } else {
      var a, b :| a in graph && b in graph && a.definition.sourceId != b.definition.sourceId;
      Sets.SubsetSize({a.definition.sourceId, b.definition.sourceId}, ids);
    }
  }

  lemma TwoSnapshotsExactly(t: Tree)
    requires t != []
    ensures |Snapshots(t)| != 1 <==> TwoSnapshots(t)
  {
    var ids := Snapshots(t);
    assert t[0] in t;
    if !TwoSnapshots(t) {
      assert ids == {t[0].relationship.evidence.snapshotId};
    } else {
      var a, b :| a in t && b in t && a.relationship.evidence.snapshotId != b.relationship.evidence.snapshotId;
      Sets.SubsetSize({a.relationship.evidence.snapshotId, b.relationship.evidence.snapshotId}, ids);
    }
  }

  lemma UnstableExactly(q: Request)
    requires ValidRequest(q)
    ensures Unstable(q) <==> q.definitions != [] && !StableGrain(EntityMap(q.refs)[Expected(q)], q.definitions)
  {
    DistinctExactly(q.refs);
    EntityMapFinds(q.refs, Expected(q));
    forall r | r in q.refs && r.ref == Expected(q) ensures EntityMap(q.refs)[Expected(q)] == r.entity {
      RefEntity(q.refs, r);
    }
  }

  /** The tree that the answer is about, where one is chosen. */
  lemma ChosenTree(q: Request, graph: seq<Authorized>) returns (i: nat)
    requires ValidRequest(q) && SafeTrees(Expected(q), Considered(q, graph)) != []
    ensures Chosen(q, graph, i) && AllGrowths(q, graph)[i] == SafeTrees(Expected(q), Considered(q, graph))[0]
    ensures AllGrowths(q, graph)[i] != []
  {
    var at := SafeTreesStandAt(Expected(q), Considered(q, graph));
    PlacesAmongGrowths(q, graph, at);
    FirstPlace(q, graph, at);
    i := at[0];
    GrowthSpans(q, graph, i);
  }

  lemma SameChoice(q: Request, graph: seq<Authorized>, i: nat, j: nat)
    requires ValidRequest(q) && FirstSafeAt(q, graph, i) && FirstSafeAt(q, graph, j)
    ensures i == j
  {
  }

  /** Every way the planner can answer, each under its own condition. */
  lemma PlanOutcomes(q: Request, graph: seq<Authorized>)
    ensures Plan(q, graph) == Err("INVALID_ARGUMENT") <==> !Acceptable(q)
    ensures Acceptable(q) ==> ValidRequest(q)
    ensures Acceptable(q) && (Unstable(q) || graph == []) ==> Plan(q, graph) == Err("NO_VERIFIED_PATH")
    ensures Acceptable(q) && !Unstable(q) && graph != [] ==>
      && (Plan(q, graph) == Err("CROSS_SOURCE_UNSUPPORTED") <==> TwoSources(graph))
      && (!TwoSources(graph) ==>
            && (Plan(q, graph) == Err("NO_VERIFIED_PATH") <==> forall i: nat :: !Chosen(q, graph, i))
            && (Plan(q, graph) == Err("EVIDENCE_UNVERIFIABLE") <==> exists i: nat :: Chosen(q, graph, i) && TwoSnapshots(AllGrowths(q, graph)[i]))
            && (Plan(q, graph).Ok? <==> exists i: nat :: Chosen(q, graph, i) && !TwoSnapshots(AllGrowths(q, graph)[i])))
  {
    AcceptableExactly(q);
    assert "INVALID_ARGUMENT"[0] == 'I' && "NO_VERIFIED_PATH"[0] == 'N' && "CROSS_SOURCE_UNSUPPORTED"[0] == 'C' && "EVIDENCE_UNVERIFIABLE"[0] == 'E';
    if Acceptable(q) {
      UnstableExactly(q);
      if graph != [] {
        TwoSourcesExactly(graph);
        if !Unstable(q) && !TwoSources(graph) { PlanOutcomesFrom(q, graph); }
      }
    }
  }

  lemma ChosenIsSafe(q: Request, graph: seq<Authorized>, i: nat)
    requires ValidRequest(q) && Chosen(q, graph, i)
    ensures SafeTrees(Expected(q), Considered(q, graph)) != []
  {
    assert Considered(q, graph)[i] == AllGrowths(q, graph)[i];
    assert AllGrowths(q, graph)[i] in Considered(q, graph);
  }

  lemma PlanOutcomesFrom(q: Request, graph: seq<Authorized>)
    requires Refusal(q, graph).None?
    ensures ValidRequest(q)
    ensures Plan(q, graph) == Err("NO_VERIFIED_PATH") <==> forall i: nat :: !Chosen(q, graph, i)
    ensures Plan(q, graph) == Err("EVIDENCE_UNVERIFIABLE") <==> exists i: nat :: Chosen(q, graph, i) && TwoSnapshots(AllGrowths(q, graph)[i])
    ensures Plan(q, graph).Ok? <==> exists i: nat :: Chosen(q, graph, i) && !TwoSnapshots(AllGrowths(q, graph)[i])
    ensures Plan(q, graph).Err? ==> Plan(q, graph).code in {"NO_VERIFIED_PATH", "EVIDENCE_UNVERIFIABLE"}
  {
    assert "NO_VERIFIED_PATH"[0] == 'N' && "EVIDENCE_UNVERIFIABLE"[0] == 'E';
    var safe := SafeTrees(Expected(q), Considered(q, graph));
    forall i: nat | Chosen(q, graph, i) ensures safe != [] { ChosenIsSafe(q, graph, i); }
    if safe != [] {
      var i := ChosenTree(q, graph);
      TwoSnapshotsExactly(safe[0]);
      forall j: nat | Chosen(q, graph, j) ensures j == i { SameChoice(q, graph, i, j); }
    }
  }

  // ---------------------------------------------------------------- plan ids across requests

  /** What a plan id keeps of an edge: everything but provenance and predicates. */
  type EdgeContent = (string, string, string, EvidenceId, Traversal, Cardinality, Endpoint, Endpoint)

  function ContentOf(e: ProofEdge): EdgeContent {
    (e.fromRef, e.toRef, e.relationshipId, e.evidenceId, e.traversal, e.cardinality, e.child, e.parent)
  }

  /** The two proofs agree on their heads and, in any order, on the content of their edges. */
  ghost predicate SameContent(a: JoinProof, b: JoinProof) {
    && a.sourceId == b.sourceId && a.snapshotId == b.snapshotId && a.policyVersion == b.policyVersion
    && multiset(a.entityRefs) == multiset(b.entityRefs)
    && a.startRef == b.startRef && a.expectedGrainRef == b.expectedGrainRef && a.maxDepth == b.maxDepth
    && multiset(Mapped(a.edges, ContentOf)) == multiset(Mapped(b.edges, ContentOf))
  }

  function Content(e: PlanEdge): EdgeContent {
    (e.fromRef, e.toRef, e.relationshipId, e.evidenceId, e.traversal, e.cardinality, e.child, e.parent)
  }

  function EdgeWith(c: EdgeContent): PlanEdge {
    PlanEdge(c.0, c.1, c.2, c.3, c.4, c.5, c.6, c.7)
  }

  lemma ContentsTogether(a: seq<ProofEdge>, b: seq<ProofEdge>)
    ensures multiset(PlanEdges(a)) == multiset(PlanEdges(b)) <==> multiset(Mapped(a, ContentOf)) == multiset(Mapped(b, ContentOf))
  {
    assert Mapped(PlanEdges(a), Content) == Mapped(a, ContentOf) && Mapped(PlanEdges(b), Content) == Mapped(b, ContentOf);
    assert Mapped(Mapped(a, ContentOf), EdgeWith) == PlanEdges(a) && Mapped(Mapped(b, ContentOf), EdgeWith) == PlanEdges(b);
    if multiset(PlanEdges(a)) == multiset(PlanEdges(b)) {
      MappedTogether(PlanEdges(a), PlanEdges(b), Content);
    }
    if multiset(Mapped(a, ContentOf)) == multiset(Mapped(b, ContentOf)) {
      MappedTogether(Mapped(a, ContentOf), Mapped(b, ContentOf), EdgeWith);
    }
  }

  lemma RefsTogether(a: seq<EntityRef>, b: seq<EntityRef>)
    requires DistinctRefs(a)
    ensures Sorted(a, RefLe) == Sorted(b, RefLe) <==> multiset(a) == multiset(b)
  {
    NameLeIsTotalOrder();
    if multiset(a) == multiset(b) {
      OrderedRefsIgnoreOrder(a, b);
    }
    if Sorted(a, RefLe) == Sorted(b, RefLe) {
      SortedEqualMeansPermutation(a, b, RefLe);
    }
  }

  /** The id holds what the proof holds beside it. */
  ghost predicate IdMirrors(p: JoinProof) {
    && p.planId.sourceId == p.sourceId && p.planId.snapshotId == p.snapshotId && p.planId.policyVersion == p.policyVersion
    && p.planId.entityRefs == p.entityRefs == Sorted(p.entityRefs, RefLe)
    && p.planId.startRef == p.startRef && p.planId.expectedGrainRef == p.expectedGrainRef && p.planId.maxDepth == p.maxDepth
    && p.planId.edges == Sorted(PlanEdges(p.edges), PlanEdgeLe)
  }

  lemma ProofMirrors(sourceId: string, snapshotId: string, policy: string, refs: seq<EntityRef>, start: string,
                     expected: string, maxDepth: int, t: Tree, now: string, p: JoinProof)
    requires DistinctRefs(refs) && p == ProofOf(sourceId, snapshotId, policy, refs, start, expected, maxDepth, t, now).(alternatives := p.alternatives)
    ensures IdMirrors(p) && p.edges == ProofEdges(t)
  {
    SortedTwice(refs);
  }

  lemma IdOfOffered(q: Request, graph: seq<Authorized>, proof: JoinProof, p: JoinProof) returns (t: Tree)
    requires Plan(q, graph) == Ok(proof) && Offered(proof, p)
    ensures ValidRequest(q) && Growth(SearchOf(q, graph), q.startRef, t) && p.edges == ProofEdges(t)
    ensures IdMirrors(p) && DistinctRefs(p.entityRefs)
  {
    t := OfferedSafeTree(q, graph, proof, p);
    ConsideredTree(q, graph, t);
    OrderedRequest(q);
    DistinctExactly(q.refs);
    ProofMirrors(graph[0].definition.sourceId, p.snapshotId, q.policyVersion, q.refs, q.startRef, Expected(q), q.maxDepth, t, q.now, p);
  }

  lemma ConsideredTree(q: Request, graph: seq<Authorized>, t: Tree)
    requires ValidRequest(q) && t in Considered(q, graph)
    ensures Growth(SearchOf(q, graph), q.startRef, t)
  {
    ConsideredSpan(q, graph);
    var k :| 0 <= k < |Considered(q, graph)| && Considered(q, graph)[k] == t;
  }

  lemma SortedTwice(refs: seq<EntityRef>)
    requires DistinctRefs(refs)
    ensures Sorted(Sorted(refs, RefLe), RefLe) == Sorted(refs, RefLe)
  {
    NameLeIsTotalOrder();
    SortedFacts(refs, RefLe);
    OrderedRefsIgnoreOrder(refs, Sorted(refs, RefLe));
  }

  lemma IdsByContent(a: JoinProof, b: JoinProof, s: Search, start: string, t: Tree)
    requires Growth(s, start, t) && a.edges == ProofEdges(t)
    ensures Sorted(PlanEdges(a.edges), PlanEdgeLe) == Sorted(PlanEdges(b.edges), PlanEdgeLe) <==>
      multiset(Mapped(a.edges, ContentOf)) == multiset(Mapped(b.edges, ContentOf))
  {
    ContentsTogether(a.edges, b.edges);
    TreePlanEdgesUntied(s, start, t);
    if multiset(PlanEdges(a.edges)) == multiset(PlanEdges(b.edges)) {
      SortedPermutation(PlanEdges(a.edges), PlanEdges(b.edges), PlanEdgeLe);
    }
    if Sorted(PlanEdges(a.edges), PlanEdgeLe) == Sorted(PlanEdges(b.edges), PlanEdgeLe) {
      SortedEqualMeansPermutation(PlanEdges(a.edges), PlanEdges(b.edges), PlanEdgeLe);
    }
  }

  /** Of all proofs that any two requests over any two graphs are offered, two have one id exactly when they have the
      same source, snapshot, policy, instances, start, grain and depth, and the same edges in any order. */
  lemma PlanIdsExactly(q: Request, graph: seq<Authorized>, proof: JoinProof, p: JoinProof,
                       q': Request, graph': seq<Authorized>, proof': JoinProof, p': JoinProof)
    requires Plan(q, graph) == Ok(proof) && Offered(proof, p) && Plan(q', graph') == Ok(proof') && Offered(proof', p')
    ensures p.planId == p'.planId <==> SameContent(p, p')
    ensures p.expectedGrainRef == Expected(q) && p.startRef == q.startRef && multiset(p.entityRefs) == multiset(q.refs)
    ensures p.policyVersion == q.policyVersion && p.maxDepth == q.maxDepth
  {
    var t := IdOfOffered(q, graph, proof, p);
    var t' := IdOfOffered(q', graph', proof', p');
    IdsByContent(p, p', SearchOf(q, graph), q.startRef, t);
    RefsTogether(p.entityRefs, p'.entityRefs);
    OfferedHead(q, graph, proof, p);
  }

  lemma OfferedHead(q: Request, graph: seq<Authorized>, proof: JoinProof, p: JoinProof)
    requires Plan(q, graph) == Ok(proof) && Offered(proof, p)
    ensures p.expectedGrainRef == Expected(q) && p.startRef == q.startRef && multiset(p.entityRefs) == multiset(q.refs)
    ensures p.policyVersion == q.policyVersion && p.maxDepth == q.maxDepth
  {
    var t := OfferedSafeTree(q, graph, proof, p);
    RefsInOrder(q.refs);
  }
}
