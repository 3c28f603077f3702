/** Planning from cached evidence: old records may be answered, the promise about rows still holds. */
module CachedPlanning {
  import opened Domain
  import opened Relational
  import opened Evidence
  import opened EvidenceCache
  import opened JoinSafety
  import opened Planner
  import opened PlanSafety

  /** The records found again under the ids of the seeds. */
  lemma CurrentRecords(db: Database, seeds: seq<Seed>, snapshotId: string, records: seq<EvidenceRecord>, i: nat)
    requires DistinctSeeds(seeds) && AllCurrent(db, seeds, snapshotId, records) && i < |seeds|
    ensures var id := seeds[i].definition.relationshipId;
      id in LastRecords(records) && LastRecords(records)[id] == records[i]
  {
    forall j | 0 <= j < |seeds| ensures records[j].relationshipId == seeds[j].definition.relationshipId {
      assert Current(db, seeds[j], snapshotId, records[j]);
    }
    LastRecordsOfDistinct(records, i);
  }

  /** A graph built from current records carries measurements of this very database. */
  lemma CachedGraphIsMeasured(db: Database, seeds: seq<Seed>, snapshotId: string, records: seq<EvidenceRecord>, policy: string)
    requires DistinctSeeds(seeds) && AllCurrent(db, seeds, snapshotId, records)
    ensures AllMeasuredOn(db, AuthorizedGraph(seeds, records, snapshotId, policy))
  {
    var kept := Kept(seeds, LastRecords(records), snapshotId, policy);
    RelationshipLeIsTotalPreorder();
    SortedKeepsMembers(kept, RelationshipLe);
    forall r | r in kept ensures MeasuredOn(db, r) {
      KeptMembers(seeds, LastRecords(records), snapshotId, policy, r);
      var s :| s in seeds && r.definition == s.definition && s.definition.relationshipId in LastRecords(records)
        && r.evidence == LastRecords(records)[s.definition.relationshipId];
      var i :| 0 <= i < |seeds| && seeds[i] == s;
      CurrentRecords(db, seeds, snapshotId, records, i);
      assert Current(db, seeds[i], snapshotId, records[i]);
    }
  }

  /** The inner join along the proof holds each row of the grain at most once. */
  ghost predicate KeepsGrain(db: Database, entities: map<string, string>, grain: string, p: JoinProof) {
    forall x, y :: (JoinRow(db, entities, ProofJoins(p), x) && JoinRow(db, entities, ProofJoins(p), y)
        && grain in x && grain in y && x[grain] == y[grain]) ==> x == y
  }

  lemma OfferedKeepsGrain(q: Request, graph: seq<Authorized>, db: Database, proof: JoinProof, p: JoinProof)
    requires Plan(q, graph) == Ok(proof) && Offered(proof, p) && AllMeasuredOn(db, graph)
    ensures KeepsGrain(db, EntityMap(q.refs), Expected(q), p)
  {
    var grain, entities := Expected(q), EntityMap(q.refs);
    forall x, y | JoinRow(db, entities, ProofJoins(p), x) && JoinRow(db, entities, ProofJoins(p), y)
        && grain in x && grain in y && x[grain] == y[grain]
      ensures x == y
    {
      PlanKeepsGrain(q, graph, db, proof, p, x, y);
    }
  }

  /** From the cache to the plan: whatever honest files the lookups meet, a returned proof and
      each of its alternatives keep the grain on the database of the snapshot. */
  method PlanFromCache(cache: RuntimeCache, db: Database, seeds: seq<Seed>, snapshotId: string, arrivals: seq<Contents>,
                       q: Request, ghost w: World) returns (r: Result<JoinProof>)
    requires DistinctSeeds(seeds) && ValidSeeds(seeds) && AllOfWorld(w, db, seeds, snapshotId)
    requires Honest(w, cache.Now()) && |arrivals| == |seeds| && forall i :: 0 <= i < |arrivals| ==> Honest(w, arrivals[i])
    modifies cache
    ensures Honest(w, cache.Now())
    ensures r.Ok? ==> forall p :: Offered(r.value, p) ==> KeepsGrain(db, EntityMap(q.refs), Expected(q), p)
  {
    var records := cache.GatherEvidence(db, seeds, snapshotId, arrivals, w);
    CachedGraphIsMeasured(db, seeds, snapshotId, records, q.policyVersion);
    var graph := BuildAuthorizedGraph(seeds, records, snapshotId, q.policyVersion);
    r := PlanJoin(q, graph);
    if r.Ok? {
      forall p | Offered(r.value, p) ensures KeepsGrain(db, EntityMap(q.refs), Expected(q), p) {
        OfferedKeepsGrain(q, graph, db, r.value, p);
      }
    }
  }
}
