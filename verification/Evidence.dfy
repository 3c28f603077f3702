/** Measuring a relationship, deriving findings, and keeping the relationships that may be used. */
module Evidence {
  import opened Domain
  import opened Relational
  import opened Sets
  import opened Ordering
  import opened Sorting

  const VERIFIER_VERSION := "sqlite-exact-v1"

  /** Child rows whose key is complete and equals the key of some parent row. */
  function Included(child: Table, parent: Table, d: Definition): set<nat>
    requires |d.child.columns| == |d.parent.columns|
  {
    set i | i in KeyedRows(child, d.child.columns)
      && exists j :: 0 <= j < |parent| && Matches(d, child[i], parent[j])
  }

  function ObservedCardinality(maxChildren: int, maxParents: int): Cardinality {
    if maxChildren <= 1 && maxParents <= 1 then OneToOne
    else if maxChildren <= 1 then OneToMany
    else if maxParents <= 1 then ManyToOne
    else ManyToMany
  }

  function Measure(child: Table, parent: Table, d: Definition): Measurements
    requires |d.child.columns| == |d.parent.columns|
  {
    var nonNull := |KeyedRows(child, d.child.columns)|;
    var included := |Included(child, parent, d)|;
    var maxChildren := LargestGroup(child, d.child.columns, |child|);
    var maxParents := LargestGroup(parent, d.parent.columns, |parent|);
    Measurements(
      |child|, |parent|,
      nonNull, |child| - nonNull,
      |Keys(child, d.child.columns)|, |Keys(parent, d.parent.columns)|,
      included, nonNull, nonNull - included,
      |KeyedRows(parent, d.parent.columns)| == |Keys(parent, d.parent.columns)|,
      ObservedCardinality(maxChildren, maxParents),
      maxChildren, maxParents)
  }

  /** Measuring never trips the consistency checks made when measurements are built. */
  lemma MeasureIsConsistent(child: Table, parent: Table, d: Definition)
    requires |d.child.columns| == |d.parent.columns|
    ensures ValidCounts(Measure(child, parent, d))
    ensures var m := Measure(child, parent, d);
      && m.childRowCount == m.childNonNullCount + m.childNullCount && m.inclusionDenominator == m.childNonNullCount
      && m.childNonNullCount == m.inclusionNumerator + m.orphanCount && m.childNullCount >= 0 && m.orphanCount >= 0
    ensures Measure(child, parent, d).childNullCount == 0 <==> forall i: nat :: i < |child| ==> HasKey(child[i], d.child.columns)
  {
    KeyedCount(child, d.child.columns);
    SubsetSize(Included(child, parent, d), KeyedRows(child, d.child.columns));
  }

  predicate CardinalityAllowed(observed: Cardinality, declared: Cardinality) {
    match declared
    case OneToOne => observed == OneToOne
    case OneToMany => observed == OneToOne || observed == OneToMany
    case ManyToOne => observed == OneToOne || observed == ManyToOne
    case ManyToMany => true
  }

  predicate CodeLe(a: Finding, b: Finding) {
    NameLe(a.code, b.code)
  }

  function When(condition: bool, code: string, severity: Severity): seq<Finding> {
    if condition then [Finding(code, severity)] else []
  }

  function FindingsOf(m: Measurements, declared: Cardinality): seq<Finding> {
    Sorted(
      When(!m.parentUnique, "REFERENCED_KEY_NOT_UNIQUE", Blocking)
      + When(m.childNullCount != 0, "CHILD_KEY_NULL", Warning)
      + When(m.orphanCount != 0, "ORPHAN_CHILD_ROW", Blocking)
      + When(!CardinalityAllowed(m.observed, declared), "CARDINALITY_DRIFT", Blocking)
      + When(m.observed == ManyToMany, "MANY_TO_MANY_FANOUT", Blocking),
      CodeLe)
  }

  function Verify(db: Database, seed: Seed, snapshotId: string): EvidenceRecord
    requires |seed.definition.child.columns| == |seed.definition.parent.columns|
  {
    var d := seed.definition;
    var m := Measure(TableOf(db, d.child.entity), TableOf(db, d.parent.entity), d);
    var findings := FindingsOf(m, seed.declared);
    EvidenceRecord(
      EvidenceId(d.relationshipId, snapshotId, seed.provenance, VERIFIER_VERSION, m, findings),
      d.relationshipId, snapshotId, seed.provenance, VERIFIER_VERSION, m, findings)
  }

  /** The id is the hash of the record's own content. */
  predicate OwnId(r: EvidenceRecord) {
    r.evidenceId == EvidenceId(r.relationshipId, r.snapshotId, r.provenance, r.verifierVersion, r.measurements, r.findings)
  }

  function BlockingCodes(findings: seq<Finding>): seq<string> {
    if findings == [] then []
    else (if findings[0].severity == Blocking then [findings[0].code] else []) + BlockingCodes(findings[1..])
  }

  function Authorize(record: EvidenceRecord, currentSnapshotId: string, policyVersion: string): Authorization {
    var blocking := BlockingCodes(Sorted(record.findings, CodeLe));
    var current := record.snapshotId == currentSnapshotId;
    Authorization(policyVersion, current, current && blocking == [], blocking)
  }

  lemma {:induction false} NoBlockingCodes(findings: seq<Finding>)
    ensures BlockingCodes(findings) == [] <==> forall f :: f in findings ==> f.severity != Blocking
  {
    if findings != [] {
      NoBlockingCodes(findings[1..]);
      assert findings == [findings[0]] + findings[1..];
    }
  }

  lemma CodeLeIsTotalPreorder()
    ensures TotalPreorder(CodeLe)
  {
    NameLeIsTotalOrder();
  }

  lemma SortedKeepsMembers<T(!new)>(xs: seq<T>, le: (T, T) -> bool)
    requires TotalPreorder(le)
    ensures forall x :: x in Sorted(xs, le) <==> x in xs
  {
    SortedFacts(xs, le);
    forall x ensures x in Sorted(xs, le) <==> x in xs {
      assert x in multiset(Sorted(xs, le)) <==> x in multiset(xs);
    }
  }

  lemma UsableMeansNoBlocking(record: EvidenceRecord, currentSnapshotId: string, policyVersion: string)
    ensures Authorize(record, currentSnapshotId, policyVersion).usable <==>
              record.snapshotId == currentSnapshotId && NoneBlocks(record.findings)
  {
    CodeLeIsTotalPreorder();
    SortedKeepsMembers(record.findings, CodeLe);
    NoBlockingCodes(Sorted(record.findings, CodeLe));
  }

  /** Every child row with a complete key finds a parent row. */
  ghost predicate NoOrphans(child: Table, parent: Table, d: Definition)
    requires |d.child.columns| == |d.parent.columns|
  {
    forall i: nat :: i < |child| && HasKey(child[i], d.child.columns) ==>
      exists j :: 0 <= j < |parent| && Matches(d, child[i], parent[j])
  }

  lemma OrphanCountZero(child: Table, parent: Table, d: Definition)
    requires |d.child.columns| == |d.parent.columns|
    ensures Measure(child, parent, d).orphanCount == 0 <==> NoOrphans(child, parent, d)
  {
    var keyed := KeyedRows(child, d.child.columns);
    var included := Included(child, parent, d);
    SubsetSize(included, keyed);
    if NoOrphans(child, parent, d) {
      assert included == keyed;
    }
    if |included| == |keyed| {
      forall i: nat | i < |child| && HasKey(child[i], d.child.columns)
        ensures exists j :: 0 <= j < |parent| && Matches(d, child[i], parent[j])
      {
        assert i in keyed && i in included;
      }
    }
  }

  ghost predicate NoneBlocks(findings: seq<Finding>) {
    forall f :: f in findings ==> f.severity != Blocking
  }

  lemma NoneBlocksAppend(xs: seq<Finding>, condition: bool, code: string, severity: Severity)
    ensures NoneBlocks(xs + When(condition, code, severity)) <==> NoneBlocks(xs) && (condition ==> severity != Blocking)
  {
    var ys := xs + When(condition, code, severity);
    assert forall f :: f in ys <==> f in xs || (condition && f == Finding(code, severity));
  }

  lemma FindingsBlock(m: Measurements, declared: Cardinality)
    ensures NoneBlocks(FindingsOf(m, declared)) <==>
              m.parentUnique && m.orphanCount == 0 && CardinalityAllowed(m.observed, declared) && m.observed != ManyToMany
  {
    var a := When(!m.parentUnique, "REFERENCED_KEY_NOT_UNIQUE", Blocking);
    var b := a + When(m.childNullCount != 0, "CHILD_KEY_NULL", Warning);
    var c := b + When(m.orphanCount != 0, "ORPHAN_CHILD_ROW", Blocking);
    var d := c + When(!CardinalityAllowed(m.observed, declared), "CARDINALITY_DRIFT", Blocking);
    NoneBlocksAppend(a, m.childNullCount != 0, "CHILD_KEY_NULL", Warning);
    NoneBlocksAppend(b, m.orphanCount != 0, "ORPHAN_CHILD_ROW", Blocking);
    NoneBlocksAppend(c, !CardinalityAllowed(m.observed, declared), "CARDINALITY_DRIFT", Blocking);
    NoneBlocksAppend(d, m.observed == ManyToMany, "MANY_TO_MANY_FANOUT", Blocking);
    CodeLeIsTotalPreorder();
    SortedKeepsMembers(d + When(m.observed == ManyToMany, "MANY_TO_MANY_FANOUT", Blocking), CodeLe);
  }

  /** Authorisation, decided from counts, says exactly this about the rows. */
  lemma AuthorizedExactly(db: Database, seed: Seed, snapshotId: string, currentSnapshotId: string, policyVersion: string)
    requires |seed.definition.child.columns| == |seed.definition.parent.columns|
    ensures
      var d := seed.definition;
      var child, parent := TableOf(db, d.child.entity), TableOf(db, d.parent.entity);
      Authorize(Verify(db, seed, snapshotId), currentSnapshotId, policyVersion).usable <==>
        && snapshotId == currentSnapshotId
        && UniqueKey(parent, d.parent.columns)
        && NoOrphans(child, parent, d)
        && (seed.declared == OneToOne || seed.declared == OneToMany ==> UniqueKey(child, d.child.columns))
  {
    var d := seed.definition;
    var child, parent := TableOf(db, d.child.entity), TableOf(db, d.parent.entity);
    var record := Verify(db, seed, snapshotId);
    UsableMeansNoBlocking(record, currentSnapshotId, policyVersion);
    FindingsBlock(record.measurements, seed.declared);
    OrphanCountZero(child, parent, d);
    DistinctCountUnique(parent, d.parent.columns);
    LargestGroupAtMostOne(parent, d.parent.columns);
    LargestGroupAtMostOne(child, d.child.columns);
  }

  /** The evidence of `r` was measured on the tables of `db`. */
  ghost predicate MeasuredOn(db: Database, r: Authorized) {
    && ValidDefinition(r.definition)
    && r.evidence.measurements
       == Measure(TableOf(db, r.definition.child.entity), TableOf(db, r.definition.parent.entity), r.definition)
  }

  ghost predicate AllMeasuredOn(db: Database, graph: seq<Authorized>) {
    forall r :: r in graph ==> MeasuredOn(db, r)
  }

  ghost predicate AtMostOneParent(d: Definition, child: Table, parent: Table)
    requires |d.child.columns| == |d.parent.columns|
  {
    forall i: nat, j: nat, k: nat ::
      (i < |child| && j < |parent| && k < |parent| && Matches(d, child[i], parent[j]) && Matches(d, child[i], parent[k])) ==> j == k
  }

  ghost predicate AtMostOneChild(d: Definition, child: Table, parent: Table)
    requires |d.child.columns| == |d.parent.columns|
  {
    forall i: nat, j: nat, k: nat ::
      (i < |parent| && j < |child| && k < |child| && Matches(d, child[j], parent[i]) && Matches(d, child[k], parent[i])) ==> j == k
  }

  lemma UniqueParentKey(d: Definition, child: Table, parent: Table)
    requires |d.child.columns| == |d.parent.columns| && UniqueKey(parent, d.parent.columns)
    ensures AtMostOneParent(d, child, parent)
  {
    forall i: nat, j: nat, k: nat |
        i < |child| && j < |parent| && k < |parent| && Matches(d, child[i], parent[j]) && Matches(d, child[i], parent[k])
      ensures j == k
    {
      MatchesByKey(d, child[i], parent[j]);
      MatchesByKey(d, child[i], parent[k]);
      assert j in KeyedRows(parent, d.parent.columns) && k in KeyedRows(parent, d.parent.columns);
      assert KeyAt(parent, d.parent.columns, j) == KeyAt(parent, d.parent.columns, k);
    }
  }

  lemma UniqueChildKey(d: Definition, child: Table, parent: Table)
    requires |d.child.columns| == |d.parent.columns| && UniqueKey(child, d.child.columns)
    ensures AtMostOneChild(d, child, parent)
  {
    forall i: nat, j: nat, k: nat |
        i < |parent| && j < |child| && k < |child| && Matches(d, child[j], parent[i]) && Matches(d, child[k], parent[i])
      ensures j == k
    {
      MatchesByKey(d, child[j], parent[i]);
      MatchesByKey(d, child[k], parent[i]);
      assert j in KeyedRows(child, d.child.columns) && k in KeyedRows(child, d.child.columns);
      assert KeyAt(child, d.child.columns, j) == KeyAt(child, d.child.columns, k);
    }
  }

  /** A bound of one on parents means one parent row per child row, and likewise for children. */
  lemma BoundsAreRowFacts(db: Database, r: Authorized)
    requires MeasuredOn(db, r)
    ensures
      var d := r.definition;
      var child, parent := TableOf(db, d.child.entity), TableOf(db, d.parent.entity);
      && (r.evidence.measurements.maxParentsPerChild <= 1 ==> AtMostOneParent(d, child, parent))
      && (r.evidence.measurements.maxChildrenPerParent <= 1 ==> AtMostOneChild(d, child, parent))
  {
    var d := r.definition;
    var child, parent := TableOf(db, d.child.entity), TableOf(db, d.parent.entity);
    LargestGroupAtMostOne(parent, d.parent.columns);
    LargestGroupAtMostOne(child, d.child.columns);
    if UniqueKey(parent, d.parent.columns) { UniqueParentKey(d, child, parent); }
    if UniqueKey(child, d.child.columns) { UniqueChildKey(d, child, parent); }
  }

  // ---------------------------------------------------------------- the authorised graph

  /** Later records replace earlier ones with the same relationship id. */
  function LastRecords(evidence: seq<EvidenceRecord>): map<string, EvidenceRecord> {
    if evidence == [] then map[]
    else
      var last := evidence[|evidence| - 1];
      LastRecords(evidence[..|evidence| - 1])[last.relationshipId := last]
  }

  function Kept(seeds: seq<Seed>, records: map<string, EvidenceRecord>, snapshotId: string, policy: string): seq<Authorized> {
    if seeds == [] then []
    else
      var seed := seeds[|seeds| - 1];
      var id := seed.definition.relationshipId;
      Kept(seeds[..|seeds| - 1], records, snapshotId, policy)
      + (if id in records && Authorize(records[id], snapshotId, policy).usable
         then [Authorized(seed.definition, records[id], Authorize(records[id], snapshotId, policy), seed.declared)]
         else [])
  }

  predicate RelationshipLe(a: Authorized, b: Authorized) {
    NameLe(a.definition.relationshipId, b.definition.relationshipId)
  }

  function AuthorizedGraph(seeds: seq<Seed>, evidence: seq<EvidenceRecord>, snapshotId: string, policy: string): seq<Authorized> {
    Sorted(Kept(seeds, LastRecords(evidence), snapshotId, policy), RelationshipLe)
  }

  method BuildAuthorizedGraph(seeds: seq<Seed>, evidence: seq<EvidenceRecord>, snapshotId: string, policy: string)
    returns (graph: seq<Authorized>)
    ensures graph == AuthorizedGraph(seeds, evidence, snapshotId, policy)
  {
    var records: map<string, EvidenceRecord> := map[];
    for i := 0 to |evidence|
      invariant records == LastRecords(evidence[..i])
    {
      assert evidence[..i + 1][..i] == evidence[..i];
      records := records[evidence[i].relationshipId := evidence[i]];
    }
    assert evidence[..|evidence|] == evidence;
    var authorized: seq<Authorized> := [];
    for i := 0 to |seeds|
      invariant authorized == Kept(seeds[..i], records, snapshotId, policy)
    {
      assert seeds[..i + 1][..i] == seeds[..i];
      var seed := seeds[i];
      if seed.definition.relationshipId in records {
        var record := records[seed.definition.relationshipId];
        var projection := Authorize(record, snapshotId, policy);
        if projection.usable {
          authorized := authorized + [Authorized(seed.definition, record, projection, seed.declared)];
        }
      }
    }
    assert seeds[..|seeds|] == seeds;
    graph := Sorted(authorized, RelationshipLe);
  }

  ghost predicate DistinctSeeds(seeds: seq<Seed>) {
    forall i, j :: 0 <= i < j < |seeds| ==>
      seeds[i].definition.relationshipId != seeds[j].definition.relationshipId
  }

  ghost predicate ValidSeeds(seeds: seq<Seed>) {
    forall i :: 0 <= i < |seeds| ==> ValidDefinition(seeds[i].definition)
  }

  function VerifyAll(db: Database, seeds: seq<Seed>, snapshotId: string): (r: seq<EvidenceRecord>)
    requires ValidSeeds(seeds)
    ensures |r| == |seeds|
    ensures forall i :: 0 <= i < |seeds| ==> r[i] == Verify(db, seeds[i], snapshotId)
  {
    seq(|seeds|, i requires 0 <= i < |seeds| => Verify(db, seeds[i], snapshotId))
  }

  lemma {:induction false} LastRecordsOfDistinct(evidence: seq<EvidenceRecord>, i: nat)
    requires i < |evidence|
    requires forall j, k :: 0 <= j < k < |evidence| ==> evidence[j].relationshipId != evidence[k].relationshipId
    ensures evidence[i].relationshipId in LastRecords(evidence)
    ensures LastRecords(evidence)[evidence[i].relationshipId] == evidence[i]
  {
    if i < |evidence| - 1 {
      LastRecordsOfDistinct(evidence[..|evidence| - 1], i);
    }
  }

  lemma {:induction false} KeptMembers(seeds: seq<Seed>, records: map<string, EvidenceRecord>, snapshotId: string, policy: string, a: Authorized)
    ensures a in Kept(seeds, records, snapshotId, policy) <==>
              exists s :: s in seeds && s.definition.relationshipId in records
                && a.definition == s.definition && a.declared == s.declared
                && a.evidence == records[s.definition.relationshipId]
                && a.authorization == Authorize(a.evidence, snapshotId, policy) && a.authorization.usable
  {
    if seeds != [] {
      KeptMembers(seeds[..|seeds| - 1], records, snapshotId, policy, a);
      assert seeds == seeds[..|seeds| - 1] + [seeds[|seeds| - 1]];
    }
  }

  lemma RelationshipLeIsTotalPreorder()
    ensures TotalPreorder(RelationshipLe)
  {
    NameLeIsTotalOrder();
  }

  /** With distinct seeds every record is found again under its relationship id. */
  lemma FreshRecords(db: Database, seeds: seq<Seed>, snapshotId: string, s: Seed)
    requires DistinctSeeds(seeds) && ValidSeeds(seeds) && s in seeds
    ensures ValidDefinition(s.definition)
    ensures var records := LastRecords(VerifyAll(db, seeds, snapshotId));
      s.definition.relationshipId in records && records[s.definition.relationshipId] == Verify(db, s, snapshotId)
  {
    var evidence := VerifyAll(db, seeds, snapshotId);
    var i :| 0 <= i < |seeds| && seeds[i] == s;
    assert ValidDefinition(seeds[i].definition);
    forall j, k | 0 <= j < k < |evidence| ensures evidence[j].relationshipId != evidence[k].relationshipId {
      assert seeds[j].definition.relationshipId != seeds[k].definition.relationshipId;
    }
    LastRecordsOfDistinct(evidence, i);
  }

  /** Everything in the graph built from fresh evidence is some seed with its own fresh record. */
  lemma FreshGraphFromSeed(db: Database, seeds: seq<Seed>, snapshotId: string, policy: string, r: Authorized) returns (s: Seed)
    requires DistinctSeeds(seeds) && ValidSeeds(seeds)
    requires r in AuthorizedGraph(seeds, VerifyAll(db, seeds, snapshotId), snapshotId, policy)
    ensures s in seeds && ValidDefinition(s.definition) && r.definition == s.definition && r.declared == s.declared
    ensures r.evidence == Verify(db, s, snapshotId)
    ensures r.authorization == Authorize(r.evidence, snapshotId, policy) && r.authorization.usable
  {
    var records := LastRecords(VerifyAll(db, seeds, snapshotId));
    RelationshipLeIsTotalPreorder();
    SortedKeepsMembers(Kept(seeds, records, snapshotId, policy), RelationshipLe);
    KeptMembers(seeds, records, snapshotId, policy, r);
    s :| s in seeds && s.definition.relationshipId in records && r.definition == s.definition && r.declared == s.declared
      && r.evidence == records[s.definition.relationshipId];
    FreshRecords(db, seeds, snapshotId, s);
  }

  /** What the graph built from fresh evidence keeps carries measurements of this very database. */
  lemma FreshGraphIsMeasured(db: Database, seeds: seq<Seed>, snapshotId: string, policy: string, r: Authorized)
    requires DistinctSeeds(seeds) && ValidSeeds(seeds)
    requires r in AuthorizedGraph(seeds, VerifyAll(db, seeds, snapshotId), snapshotId, policy)
    ensures MeasuredOn(db, r) && r.authorization.usable && r.evidence.snapshotId == snapshotId
  {
    var s := FreshGraphFromSeed(db, seeds, snapshotId, policy, r);
  }

  /** Evidence that may be used never allows a child row more than one parent row. */
  lemma FreshGraphClimbsOne(db: Database, seeds: seq<Seed>, snapshotId: string, policy: string, r: Authorized)
    requires DistinctSeeds(seeds) && ValidSeeds(seeds)
    requires r in AuthorizedGraph(seeds, VerifyAll(db, seeds, snapshotId), snapshotId, policy)
    ensures r.evidence.measurements.maxParentsPerChild <= 1
  {
    var s := FreshGraphFromSeed(db, seeds, snapshotId, policy, r);
    AuthorizedExactly(db, s, snapshotId, snapshotId, policy);
    LargestGroupAtMostOne(TableOf(db, s.definition.parent.entity), s.definition.parent.columns);
  }

  /** The graph built from fresh evidence keeps a seed exactly when its rows allow the join. */
  lemma FreshGraphKeeps(db: Database, seeds: seq<Seed>, snapshotId: string, policy: string, s: Seed)
    requires DistinctSeeds(seeds) && ValidSeeds(seeds) && s in seeds
    ensures
      var d := s.definition;
      (exists r :: r in AuthorizedGraph(seeds, VerifyAll(db, seeds, snapshotId), snapshotId, policy) && r.definition == d)
      <==>
      && |d.child.columns| == |d.parent.columns|
      && UniqueKey(TableOf(db, d.parent.entity), d.parent.columns)
      && NoOrphans(TableOf(db, d.child.entity), TableOf(db, d.parent.entity), d)
      && (s.declared == OneToOne || s.declared == OneToMany ==> UniqueKey(TableOf(db, d.child.entity), d.child.columns))
  {
    assert ValidDefinition(s.definition) by {
      var i :| 0 <= i < |seeds| && seeds[i] == s;
    }
    KeptWhenUsable(db, seeds, snapshotId, policy, s);
    AuthorizedExactly(db, s, snapshotId, snapshotId, policy);
  }

  lemma UsableIsKept(db: Database, seeds: seq<Seed>, snapshotId: string, policy: string, s: Seed) returns (r: Authorized)
    requires DistinctSeeds(seeds) && ValidSeeds(seeds) && s in seeds && ValidDefinition(s.definition)
    requires Authorize(Verify(db, s, snapshotId), snapshotId, policy).usable
    ensures r in Kept(seeds, LastRecords(VerifyAll(db, seeds, snapshotId)), snapshotId, policy) && r.definition == s.definition
  {
    var record := Verify(db, s, snapshotId);
    FreshRecords(db, seeds, snapshotId, s);
    r := Authorized(s.definition, record, Authorize(record, snapshotId, policy), s.declared);
    KeptMembers(seeds, LastRecords(VerifyAll(db, seeds, snapshotId)), snapshotId, policy, r);
  }

  /** A seed is in the graph exactly when its own fresh record may be used. */
  lemma KeptWhenUsable(db: Database, seeds: seq<Seed>, snapshotId: string, policy: string, s: Seed)
    requires DistinctSeeds(seeds) && ValidSeeds(seeds) && s in seeds && ValidDefinition(s.definition)
    ensures
      (exists r :: r in AuthorizedGraph(seeds, VerifyAll(db, seeds, snapshotId), snapshotId, policy) && r.definition == s.definition)
      <==> Authorize(Verify(db, s, snapshotId), snapshotId, policy).usable
  {
    var records := LastRecords(VerifyAll(db, seeds, snapshotId));
    var kept := Kept(seeds, records, snapshotId, policy);
    RelationshipLeIsTotalPreorder();
    SortedKeepsMembers(kept, RelationshipLe);
    if Authorize(Verify(db, s, snapshotId), snapshotId, policy).usable {
      var a := UsableIsKept(db, seeds, snapshotId, policy, s);
    } else if r :| r in kept && r.definition == s.definition {
      FreshRecords(db, seeds, snapshotId, s);
      KeptIsUsable(seeds, records, snapshotId, policy, s, r);
    }
  }

  lemma KeptIsUsable(seeds: seq<Seed>, records: map<string, EvidenceRecord>, snapshotId: string, policy: string, s: Seed, r: Authorized)
    requires r in Kept(seeds, records, snapshotId, policy) && r.definition == s.definition && s.definition.relationshipId in records
    ensures Authorize(records[s.definition.relationshipId], snapshotId, policy).usable
  {
    KeptMembers(seeds, records, snapshotId, policy, r);
  }
}
