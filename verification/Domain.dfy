/** Values exchanged between the verifier, the planner and the SQL validator. */
module Domain {
  import opened Ordering

  datatype Option<+T> = None | Some(value: T)

  /** The source raises an error carrying a code; here it is the second constructor. */
  datatype Result<+T> = Ok(value: T) | Err(code: string)

  datatype Cardinality = OneToOne | OneToMany | ManyToOne | ManyToMany
  datatype Provenance = Declared | Curated
  datatype Severity = Warning | Blocking

  datatype Finding = Finding(code: string, severity: Severity)

  datatype Endpoint = Endpoint(entity: string, columns: seq<string>)

  datatype Definition = Definition(relationshipId: string, sourceId: string, child: Endpoint, parent: Endpoint)

  /** What the field validators of endpoints and definitions guarantee. */
  predicate ValidEndpoint(e: Endpoint) {
    && e.columns != []
    && (forall i, j :: 0 <= i < j < |e.columns| ==> e.columns[i] != e.columns[j])
  }

  predicate ValidDefinition(d: Definition) {
    ValidEndpoint(d.child) && ValidEndpoint(d.parent) && |d.child.columns| == |d.parent.columns|
  }

  datatype Seed = Seed(definition: Definition, provenance: Provenance, declared: Cardinality)

  datatype Measurements = Measurements(
    childRowCount: int,
    parentRowCount: int,
    childNonNullCount: int,
    childNullCount: int,
    childDistinctCount: int,
    parentDistinctCount: int,
    inclusionNumerator: int,
    inclusionDenominator: int,
    orphanCount: int,
    parentUnique: bool,
    observed: Cardinality,
    maxChildrenPerParent: int,
    maxParentsPerChild: int)

  /** The checks made whenever measurements are built. */
  predicate ValidCounts(m: Measurements) {
    && 0 <= m.childRowCount && 0 <= m.parentRowCount
    && 0 <= m.childNonNullCount && 0 <= m.childNullCount
    && 0 <= m.childDistinctCount && 0 <= m.parentDistinctCount
    && 0 <= m.inclusionNumerator && 0 <= m.inclusionDenominator && 0 <= m.orphanCount
    && 0 <= m.maxChildrenPerParent && 0 <= m.maxParentsPerChild
    && m.childNonNullCount + m.childNullCount == m.childRowCount
    && m.inclusionDenominator == m.childNonNullCount
    && m.inclusionNumerator + m.orphanCount == m.inclusionDenominator
  }

  /** Identifiers that the source derives by hashing are kept as the hashed content. */
  datatype EvidenceId = EvidenceId(
    relationshipId: string,
    snapshotId: string,
    provenance: Provenance,
    verifierVersion: string,
    measurements: Measurements,
    findings: seq<Finding>)

  datatype EvidenceRecord = EvidenceRecord(
    evidenceId: EvidenceId,
    relationshipId: string,
    snapshotId: string,
    provenance: Provenance,
    verifierVersion: string,
    measurements: Measurements,
    findings: seq<Finding>)

  datatype Authorization = Authorization(policyVersion: string, current: bool, usable: bool, blockingReasons: seq<string>)

  datatype Authorized = Authorized(
    definition: Definition,
    evidence: EvidenceRecord,
    authorization: Authorization,
    declared: Cardinality)

  /** One occurrence of an entity in a request or a query. */
  datatype EntityRef = EntityRef(ref: string, entity: string)

  /** Order of instances by name. */
  predicate RefLe(a: EntityRef, b: EntityRef) { NameLe(a.ref, b.ref) }

  ghost predicate DistinctRefs(refs: seq<EntityRef>) {
    forall i, j :: 0 <= i < j < |refs| ==> refs[i].ref != refs[j].ref
  }
}
