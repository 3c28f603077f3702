/** When a stored proof may still be relied on, and what that is worth. */
module ProofLifecycle {
  import opened Domain
  import opened Ordering
  import opened Sorting
  import opened Relational
  import opened Evidence
  import opened CandidateEdges
  import opened SpanningTrees
  import opened GrainWalk
  import opened JoinSafety
  import opened Planner
  import opened PlanSafety
  import opened SqlSafety

  datatype Status = Current | Stale(reason: string) | Unverifiable(reason: string)

  method StatusOf(p: JoinProof, snapshotId: string, policy: string, available: seq<EvidenceId>) returns (s: Status)
    ensures s == Current <==>
      p.snapshotId == snapshotId && p.policyVersion == policy && forall i :: 0 <= i < |p.edges| ==> p.edges[i].evidenceId in available
    ensures s.Stale? <==> p.snapshotId != snapshotId || p.policyVersion != policy
    ensures s == Stale("SOURCE_SNAPSHOT_CHANGED") <==> p.snapshotId != snapshotId
    ensures s == Stale("POLICY_CHANGED") <==> p.snapshotId == snapshotId && p.policyVersion != policy
    ensures s.Unverifiable? ==> s.reason == "EVIDENCE_UNAVAILABLE"
  {
    if p.snapshotId != snapshotId {
      return Stale("SOURCE_SNAPSHOT_CHANGED");
    }
    if p.policyVersion != policy {
      assert "SOURCE_SNAPSHOT_CHANGED"[0] == 'S' && "POLICY_CHANGED"[0] == 'P';
      return Stale("POLICY_CHANGED");
    }
    if exists e :: e in p.edges && e.evidenceId !in available {
      return Unverifiable("EVIDENCE_UNAVAILABLE");
    }
    return Current;
  }

  /** What the validators of authorised relationships and the hashing of records guarantee. */
  ghost predicate BoundGraph(graph: seq<Authorized>) {
    forall r :: r in graph ==> r.definition.relationshipId == r.evidence.relationshipId && OwnId(r.evidence)
  }

  lemma {:induction false} LastRecordsByOwnId(evidence: seq<EvidenceRecord>, id: string)
    requires id in LastRecords(evidence)
    ensures LastRecords(evidence)[id].relationshipId == id && LastRecords(evidence)[id] in evidence
  {
    var n := |evidence| - 1;
    if evidence[n].relationshipId != id {
      LastRecordsByOwnId(evidence[..n], id);
    }
  }

  /** Graphs built from hashed records bind each relationship to its own evidence. */
  lemma AuthorizedGraphIsBound(seeds: seq<Seed>, evidence: seq<EvidenceRecord>, snapshotId: string, policy: string)
    requires forall i :: 0 <= i < |evidence| ==> OwnId(evidence[i])
    ensures BoundGraph(AuthorizedGraph(seeds, evidence, snapshotId, policy))
  {
    var kept := Kept(seeds, LastRecords(evidence), snapshotId, policy);
    RelationshipLeIsTotalPreorder();
    SortedKeepsMembers(kept, RelationshipLe);
    forall r | r in kept ensures r.definition.relationshipId == r.evidence.relationshipId && OwnId(r.evidence) {
      KeptMembers(seeds, LastRecords(evidence), snapshotId, policy, r);
      LastRecordsByOwnId(evidence, r.definition.relationshipId);
    }
  }

  function AvailableIds(graph: seq<Authorized>): (ids: seq<EvidenceId>)
    ensures |ids| == |graph| && forall i :: 0 <= i < |graph| ==> ids[i] == graph[i].evidence.evidenceId
  {
    seq(|graph|, i requires 0 <= i < |graph| => graph[i].evidence.evidenceId)
  }

  /** The evidence id of a proof edge, found again, carries the same measurements of the same relationship. */
  lemma FoundAgain(planned: seq<Authorized>, current: seq<Authorized>, db: Database, r: Authorized)
    requires BoundGraph(planned) && BoundGraph(current) && IdsIdentify(planned, current) && AllMeasuredOn(db, current)
    requires r in planned && r.evidence.evidenceId in AvailableIds(current)
    ensures MeasuredOn(db, r)
  {
    var ids := AvailableIds(current);
    var i :| 0 <= i < |ids| && ids[i] == r.evidence.evidenceId;
    assert current[i] in current && OwnId(current[i].evidence) && OwnId(r.evidence);
    assert MeasuredOn(db, current[i]);
  }

  lemma EdgesFoundAgain(planned: seq<Authorized>, t: Tree, current: seq<Authorized>, db: Database)
    requires BoundGraph(planned) && BoundGraph(current) && IdsIdentify(planned, current) && AllMeasuredOn(db, current)
    requires forall i :: 0 <= i < |t| ==> t[i].relationship in planned
    requires forall i :: 0 <= i < |t| ==> ProofEdges(t)[i].evidenceId in AvailableIds(current)
    ensures EdgesMeasuredOn(db, BoundTree(t))
  {
    forall i | 0 <= i < |t| ensures MeasuredOn(db, BoundTree(t)[i].relationship) {
      assert ProofEdges(t)[i] == ProofEdgeOf(t[i]);
      FoundAgain(planned, current, db, t[i].relationship);
    }
  }

  lemma CurrentEdges(q: Request, planned: seq<Authorized>, plan: JoinProof, p: JoinProof, current: seq<Authorized>, db: Database)
    returns (edges: seq<BoundEdge>)
    requires Plan(q, planned) == Ok(plan) && Offered(plan, p)
    requires BoundGraph(planned) && BoundGraph(current) && IdsIdentify(planned, current) && AllMeasuredOn(db, current)
    requires forall i :: 0 <= i < |p.edges| ==> p.edges[i].evidenceId in AvailableIds(current)
    ensures SoundEdges(db, EntityMap(q.refs), Expected(q), edges) && ProofJoins(p) == JoinEdges(edges)
  {
    var t := OfferedTree(q, planned, plan, p);
    BoundTreeFacts(q, planned, t);
    ProofJoinsAreTree(q, planned, p, t);
    EdgesFoundAgain(planned, t, current, db);
    edges := BoundTree(t);
  }

  /** A proof whose evidence is all still available keeps its grain on the current database,
      whatever the rest of the graph it was planned from was measured on. */
  lemma CurrentProofKeepsGrain(q: Request, planned: seq<Authorized>, plan: JoinProof, p: JoinProof, current: seq<Authorized>,
                               db: Database, x: map<string, nat>, y: map<string, nat>)
    requires Plan(q, planned) == Ok(plan) && Offered(plan, p)
    requires BoundGraph(planned) && BoundGraph(current) && IdsIdentify(planned, current) && AllMeasuredOn(db, current)
    requires forall i :: 0 <= i < |p.edges| ==> p.edges[i].evidenceId in AvailableIds(current)
    requires JoinRow(db, EntityMap(q.refs), ProofJoins(p), x) && JoinRow(db, EntityMap(q.refs), ProofJoins(p), y)
    requires Expected(q) in x && Expected(q) in y && x[Expected(q)] == y[Expected(q)]
    ensures x == y
  {
    var edges := CurrentEdges(q, planned, plan, p, current, db);
    SoundEdgesKeepGrain(db, EntityMap(q.refs), Expected(q), edges, x, y);
  }
}
