/** Validating a query against a stored proof, as the service does it. */
module ProofBoundSql {
  import opened Domain
  import opened Ordering
  import opened Sorting
  import opened Relational
  import opened Evidence
  import opened JoinSafety
  import opened Planner
  import opened PlanSafety
  import opened InstanceGroups
  import opened SqlGraph
  import opened SqlCanonical
  import opened SqlMatching
  import opened SqlValidation
  import opened SqlSafety
  import opened ProofLifecycle
  import opened GrainWalk
  import opened AnyBinding

  /** No two rows of the query's inner join show the same row of the instance `grain`. */
  ghost predicate NeverRepeats(db: Database, graph: NormalizedGraph, grain: string) {
    forall x, y ::
      (SqlJoinRow(db, EntityMap(graph.entityRefs), graph.edges, x) && SqlJoinRow(db, EntityMap(graph.entityRefs), graph.edges, y)
       && grain in x && grain in y && x[grain] == y[grain]) ==> x == y
  }

  lemma RepeatedBy(db: Database, g: NormalizedGraph, k: string, x: map<string, nat>, y: map<string, nat>)
    requires SqlJoinRow(db, EntityMap(g.entityRefs), g.edges, x) && SqlJoinRow(db, EntityMap(g.entityRefs), g.edges, y)
    requires k in x && k in y && x[k] == y[k] && x != y
    ensures !NeverRepeats(db, g, k)
  {
  }

  /** Some instance stands for `target` of the proof, and its rows are never repeated. */
  ghost predicate GrainKept(db: Database, graph: NormalizedGraph, current: seq<Authorized>, p: JoinProof, target: string) {
    exists m, k ::
      && Binds(graph.entityRefs, AllMatched(graph.edges, current), p, m)
      && k in m && m[k] == target && NeverRepeats(db, graph, k)
  }

  lemma AcceptedNeverRepeats(q: Request, planned: seq<Authorized>, plan: JoinProof, p: JoinProof, graph: NormalizedGraph,
                             current: seq<Authorized>, db: Database, m: map<string, string>, grain: string)
    requires Plan(q, planned) == Ok(plan) && Offered(plan, p) && IdsIdentify(planned, current) && AllMeasuredOn(db, current)
    requires Accepted(graph, current, p, m, grain) && AllCovered(graph.edges, current)
    ensures NeverRepeats(db, graph, grain)
  {
    var entities := EntityMap(graph.entityRefs);
    forall x, y | SqlJoinRow(db, entities, graph.edges, x) && SqlJoinRow(db, entities, graph.edges, y)
        && grain in x && grain in y && x[grain] == y[grain]
      ensures x == y
    {
      AcceptedSqlKeepsGrain(q, planned, plan, p, graph, current, db, m, grain, x, y);
    }
  }

  /** Whichever binding is taken, the rows of the instance that stands for `target` are never repeated. */
  ghost predicate GrainKeptByAll(db: Database, graph: NormalizedGraph, current: seq<Authorized>, p: JoinProof, target: string) {
    forall m, k :: Binds(graph.entityRefs, AllMatched(graph.edges, current), p, m) && k in m && m[k] == target ==> NeverRepeats(db, graph, k)
  }

  lemma PassedKeepsGrainByAll(q: Request, planned: seq<Authorized>, plan: JoinProof, p: JoinProof, graph: NormalizedGraph,
                              current: seq<Authorized>, db: Database, m: map<string, string>, k: string, target: string)
    requires Plan(q, planned) == Ok(plan) && Offered(plan, p) && IdsIdentify(planned, current) && AllMeasuredOn(db, current)
    requires WellFormedGraph(graph) && Unmatched(graph.edges, current) == 0 && AllCovered(graph.edges, current)
    requires Binds(graph.entityRefs, AllMatched(graph.edges, current), p, m) && k in m && m[k] == target && DistinctRelationships(current)
    requires NeverFansOut(k, Links(BoundMatched(AllMatched(graph.edges, current))))
    ensures GrainKeptByAll(db, graph, current, p, target)
  {
    var matched := AllMatched(graph.edges, current);
    MatchedEndsNamed(graph.entityRefs, graph.edges, current);
    MatchedFromCurrent(graph.edges, current);
    forall other, j | Binds(graph.entityRefs, matched, p, other) && j in other && other[j] == target ensures NeverRepeats(db, graph, j) {
      SafeUnderAny(graph.entityRefs, matched, current, p, m, k, other, j);
      AcceptedNeverRepeats(q, planned, plan, p, graph, current, db, other, j);
    }
  }

  lemma MatchedFromCurrent(edges: seq<NormalizedEdge>, current: seq<Authorized>)
    requires Unmatched(edges, current) == 0
    ensures FromCurrent(AllMatched(edges, current), current)
  {
    AllMatchedFacts(edges, current);
  }

  /** A binding covers every ref of the proof. */
  lemma TargetIsBound(graph: NormalizedGraph, matched: seq<MatchedEdge>, p: JoinProof, m: map<string, string>, target: string) returns (k: string)
    requires Binds(graph.entityRefs, matched, p, m) && target in RefNames(p.entityRefs)
    ensures k in m && m[k] == target
  {
    assert target in m.Values;
    k :| k in m && m[k] == target;
  }

  lemma PassedKeepsGrain(q: Request, planned: seq<Authorized>, plan: JoinProof, p: JoinProof, graph: NormalizedGraph,
                         current: seq<Authorized>, db: Database, m: map<string, string>, definitions: seq<EntityDefinition>,
                         expectedGrainRef: Option<string>)
    requires Plan(q, planned) == Ok(plan) && Offered(plan, p) && IdsIdentify(planned, current) && AllMeasuredOn(db, current)
    requires WellFormedGraph(graph) && Unmatched(graph.edges, current) == 0 && AllCovered(graph.edges, current)
    requires Binds(graph.entityRefs, AllMatched(graph.edges, current), p, m) && Target(p, expectedGrainRef) in RefNames(p.entityRefs)
    requires GrainAcceptedFor(graph.entityRefs, AllMatched(graph.edges, current), definitions, Some(p), Some(m), expectedGrainRef)
    ensures GrainKept(db, graph, current, p, Target(p, expectedGrainRef))
    ensures DistinctRelationships(current) ==> GrainKeptByAll(db, graph, current, p, Target(p, expectedGrainRef))
  {
    var k := TargetIsBound(graph, AllMatched(graph.edges, current), p, m, Target(p, expectedGrainRef));
    assert ExpectedAt(graph.entityRefs, Some(p), Some(m), expectedGrainRef, k);
    assert GrainAccepted(graph.entityRefs, AllMatched(graph.edges, current), definitions, k);
    AcceptedNeverRepeats(q, planned, plan, p, graph, current, db, m, k);
    if DistinctRelationships(current) {
      PassedKeepsGrainByAll(q, planned, plan, p, graph, current, db, m, k, Target(p, expectedGrainRef));
    }
  }

  /** What a passing outcome reports. */
  ghost predicate PassedUnder(graph: NormalizedGraph, current: seq<Authorized>, p: JoinProof, definitions: seq<EntityDefinition>,
                              expectedGrainRef: Option<string>) {
    && Unmatched(graph.edges, current) == 0
    && exists m ::
      && Binds(graph.entityRefs, AllMatched(graph.edges, current), p, m)
      && GrainAcceptedFor(graph.entityRefs, AllMatched(graph.edges, current), definitions, Some(p), Some(m), expectedGrainRef)
  }

  method Decide(graph: NormalizedGraph, current: seq<Authorized>, p: JoinProof, expectedGrainRef: Option<string>,
                definitions: seq<EntityDefinition>) returns (out: Outcome)
    requires WellFormedGraph(graph) && ProofIsTree(p)
    ensures out.pass ==> PassedUnder(graph, current, p, definitions, expectedGrainRef)
  {
    TreeProofEnds(graph, current, p, expectedGrainRef, definitions);
    out := ValidateSql(graph, current, Some(p), expectedGrainRef, definitions);
  }

  /** The checks before the query is looked at. */
  method Gate(p: JoinProof, current: seq<Authorized>, snapshotId: string, policy: string, sourceId: Option<string>,
              expectedGrainRef: Option<string>)
    returns (refused: Option<string>)
    ensures refused == Some("INVALID_ARGUMENT") <==>
      || (sourceId.Some? && sourceId.value != p.sourceId)
      || (p.snapshotId == snapshotId && p.policyVersion == policy
          && (forall i :: 0 <= i < |p.edges| ==> p.edges[i].evidenceId in AvailableIds(current))
          && expectedGrainRef.Some? && expectedGrainRef.value !in RefNames(p.entityRefs))
    ensures refused == Some("PROOF_STALE") <==>
      !(sourceId.Some? && sourceId.value != p.sourceId) && (p.snapshotId != snapshotId || p.policyVersion != policy)
    ensures refused.None? <==>
      && (sourceId.Some? ==> sourceId.value == p.sourceId)
      && p.snapshotId == snapshotId && p.policyVersion == policy
      && (forall i :: 0 <= i < |p.edges| ==> p.edges[i].evidenceId in AvailableIds(current))
      && (expectedGrainRef.Some? ==> expectedGrainRef.value in RefNames(p.entityRefs))
    ensures refused.Some? ==> refused.value in {"INVALID_ARGUMENT", "PROOF_STALE", "PROOF_UNVERIFIABLE"}
  {
    assert |"PROOF_STALE"| != |"PROOF_UNVERIFIABLE"| && |"PROOF_STALE"| != |"INVALID_ARGUMENT"|
      && |"PROOF_UNVERIFIABLE"| != |"INVALID_ARGUMENT"|;
    if sourceId.Some? && sourceId.value != p.sourceId {
      return Some("INVALID_ARGUMENT");
    }
    var status := StatusOf(p, snapshotId, policy, AvailableIds(current));
    if status.Stale? {
      return Some("PROOF_STALE");
    }
    if status.Unverifiable? {
      return Some("PROOF_UNVERIFIABLE");
    }
    if expectedGrainRef.Some? && expectedGrainRef.value !in RefNames(p.entityRefs) {
      return Some("INVALID_ARGUMENT");
    }
    return None;
  }

  lemma GrainKeptWhenPassed(q: Request, planned: seq<Authorized>, plan: JoinProof, p: JoinProof, graph: NormalizedGraph,
                            current: seq<Authorized>, db: Database, expectedGrainRef: Option<string>, definitions: seq<EntityDefinition>)
    requires Plan(q, planned) == Ok(plan) && Offered(plan, p) && IdsIdentify(planned, current) && AllMeasuredOn(db, current)
    requires WellFormedGraph(graph) && AllCovered(graph.edges, current)
    requires Target(p, expectedGrainRef) in RefNames(p.entityRefs)
    requires PassedUnder(graph, current, p, definitions, expectedGrainRef)
    ensures GrainKept(db, graph, current, p, Target(p, expectedGrainRef))
    ensures DistinctRelationships(current) ==> GrainKeptByAll(db, graph, current, p, Target(p, expectedGrainRef))
  {
    var m :| Binds(graph.entityRefs, AllMatched(graph.edges, current), p, m)
      && GrainAcceptedFor(graph.entityRefs, AllMatched(graph.edges, current), definitions, Some(p), Some(m), expectedGrainRef);
    PassedKeepsGrain(q, planned, plan, p, graph, current, db, m, definitions, expectedGrainRef);
  }

  /** The proof was returned by some planning run over a graph whose ids mean what they mean now. */
  ghost predicate FromPlan(q: Request, planned: seq<Authorized>, plan: JoinProof, p: JoinProof, current: seq<Authorized>) {
    Plan(q, planned) == Ok(plan) && Offered(plan, p) && IdsIdentify(planned, current)
  }

  lemma FromPlanIsTree(q: Request, planned: seq<Authorized>, plan: JoinProof, p: JoinProof, current: seq<Authorized>)
    requires FromPlan(q, planned, plan, p, current)
    ensures ProofIsTree(p)
  {
    OfferedProofIsTree(q, planned, plan, p);
  }

  /** A caller can tell, before asking, that no edge can be read two ways: every endpoint is written
      with its instance's entity, and each relationship has one key column or joins two entities. */
  lemma UnmistakableIsCovered(q: Request, planned: seq<Authorized>, plan: JoinProof, p: JoinProof, graph: NormalizedGraph, current: seq<Authorized>)
    requires FromPlan(q, planned, plan, p, current) && WellFormedGraph(graph) && Unmistakable(graph, current)
    requires Unmatched(graph.edges, current) == 0 && exists m :: Binds(graph.entityRefs, AllMatched(graph.edges, current), p, m)
    ensures AllCovered(graph.edges, current)
  {
    var m :| Binds(graph.entityRefs, AllMatched(graph.edges, current), p, m);
    AcceptedTyped(q, planned, plan, p, graph, current, m);
    TypedIsCovered(graph, current);
  }

  lemma PassedWithPlan(q: Request, planned: seq<Authorized>, plan: JoinProof, p: JoinProof, graph: NormalizedGraph,
                       current: seq<Authorized>, db: Database, expectedGrainRef: Option<string>, definitions: seq<EntityDefinition>)
    requires FromPlan(q, planned, plan, p, current) && AllMeasuredOn(db, current)
    requires WellFormedGraph(graph) && AllCovered(graph.edges, current)
    requires expectedGrainRef.Some? ==> expectedGrainRef.value in RefNames(p.entityRefs)
    requires PassedUnder(graph, current, p, definitions, expectedGrainRef)
    ensures GrainKept(db, graph, current, p, Target(p, expectedGrainRef))
    ensures DistinctRelationships(current) ==> GrainKeptByAll(db, graph, current, p, Target(p, expectedGrainRef))
  {
    TargetIsRef(q, planned, plan, p, expectedGrainRef);
    GrainKeptWhenPassed(q, planned, plan, p, graph, current, db, expectedGrainRef, definitions);
  }

  lemma TargetIsRef(q: Request, planned: seq<Authorized>, plan: JoinProof, p: JoinProof, expectedGrainRef: Option<string>)
    requires Plan(q, planned) == Ok(plan) && Offered(plan, p)
    requires expectedGrainRef.Some? ==> expectedGrainRef.value in RefNames(p.entityRefs)
    ensures Target(p, expectedGrainRef) in RefNames(p.entityRefs)
  {
    TargetNamed(q, planned, plan, p);
  }

  /** Nothing passes but queries that keep the grain: for a proof some planning run returned, a
      passing answer means that the current rows of the wanted instance are never repeated. */
  method ValidateWithProof(graph: NormalizedGraph, current: seq<Authorized>, p: JoinProof, snapshotId: string, policy: string,
                           sourceId: Option<string>, expectedGrainRef: Option<string>, definitions: seq<EntityDefinition>,
                           ghost q: Request, ghost planned: seq<Authorized>, ghost plan: JoinProof, ghost db: Database)
    returns (r: Result<Outcome>)
    requires FromPlan(q, planned, plan, p, current) && AllMeasuredOn(db, current) && WellFormedGraph(graph)
    ensures r.Ok? && r.value.pass && (Unmistakable(graph, current) || AllCovered(graph.edges, current)) ==>
      && GrainKept(db, graph, current, p, Target(p, expectedGrainRef))
      && (DistinctRelationships(current) ==> GrainKeptByAll(db, graph, current, p, Target(p, expectedGrainRef)))
    ensures r.Ok? && r.value.pass ==> PassedUnder(graph, current, p, definitions, expectedGrainRef)
    ensures r.Ok? && r.value.pass && Unmistakable(graph, current) ==> AllCovered(graph.edges, current)
    ensures r.Ok? && expectedGrainRef.Some? ==> expectedGrainRef.value in RefNames(p.entityRefs)
    ensures r.Ok? ==> p.snapshotId == snapshotId && p.policyVersion == policy && (sourceId.Some? ==> sourceId.value == p.sourceId)
    ensures r == Err("PROOF_STALE") <==>
      !(sourceId.Some? && sourceId.value != p.sourceId) && (p.snapshotId != snapshotId || p.policyVersion != policy)
  {
    var refused := Gate(p, current, snapshotId, policy, sourceId, expectedGrainRef);
    if refused.Some? {
      return Err(refused.value);
    }
    FromPlanIsTree(q, planned, plan, p, current);
    var out := Decide(graph, current, p, expectedGrainRef, definitions);
    if out.pass && Unmistakable(graph, current) {
      UnmistakableIsCovered(q, planned, plan, p, graph, current);
    }
    if out.pass && AllCovered(graph.edges, current) {
      PassedWithPlan(q, planned, plan, p, graph, current, db, expectedGrainRef, definitions);
    }
    return Ok(out);
  }

  lemma OfferedRefs(q: Request, planned: seq<Authorized>, plan: JoinProof, p: JoinProof)
    requires Plan(q, planned) == Ok(plan) && Offered(plan, p)
    ensures p.expectedGrainRef == Expected(q) && p.entityRefs == Sorted(q.refs, RefLe) && Expected(q) in EntityMap(q.refs)
  {
    var t := OfferedTree(q, planned, plan, p);
  }

  /** The proof's own grain is one of its refs. */
  lemma TargetNamed(q: Request, planned: seq<Authorized>, plan: JoinProof, p: JoinProof)
    requires Plan(q, planned) == Ok(plan) && Offered(plan, p)
    ensures p.expectedGrainRef in RefNames(p.entityRefs)
  {
    OfferedRefs(q, planned, plan, p);
    EntityMapFinds(q.refs, Expected(q));
    var r :| r in q.refs && r.ref == Expected(q);
    RefLeFacts();
    SortedKeepsMembers(q.refs, RefLe);
    assert r in p.entityRefs;
  }
}
