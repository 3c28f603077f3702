/** What a record says about the rows: every count, every finding and every blocking reason. */
module EvidenceRows {
  import opened Domain
  import opened Ordering
  import opened Sorting
  import opened Sets
  import opened Bijections
  import opened Relational
  import opened Evidence

  // ---------------------------------------------------------------- counts

  /** `rows` lists, once each, the rows of `t` whose key is complete. */
  ghost predicate ListsRows(t: Table, columns: seq<string>, rows: seq<nat>) {
    Distinct(rows) && forall r: nat :: r in rows <==> r < |t| && HasKey(t[r], columns)
  }

  /** `keys` lists, once each, the complete keys that occur in `t`. */
  ghost predicate ListsKeys(t: Table, columns: seq<string>, keys: seq<seq<Cell>>) {
    Distinct(keys) && forall k :: k in keys <==> exists r: nat :: r < |t| && HasKey(t[r], columns) && Cells(t[r], columns) == k
  }

  /** `rows` lists, once each, the rows of `t` with this complete key. */
  ghost predicate ListsGroup(t: Table, columns: seq<string>, key: seq<Cell>, rows: seq<nat>) {
    Distinct(rows) && forall r: nat :: r in rows <==> r < |t| && HasKey(t[r], columns) && Cells(t[r], columns) == key
  }

  /** `rows` lists, once each, the child rows with a complete key that meet some parent row. */
  ghost predicate ListsIncluded(child: Table, parent: Table, d: Definition, rows: seq<nat>)
    requires |d.child.columns| == |d.parent.columns|
  {
    Distinct(rows) && forall r: nat :: r in rows <==> r < |child| && exists j: nat :: j < |parent| && Matches(d, child[r], parent[j])
  }

  lemma RowsCounted(t: Table, columns: seq<string>, rows: seq<nat>)
    requires ListsRows(t, columns, rows)
    ensures |KeyedRows(t, columns)| == |rows|
  {
    assert KeyedRows(t, columns) == Elements(rows);
    DistinctSize(rows);
  }

  lemma KeysCounted(t: Table, columns: seq<string>, keys: seq<seq<Cell>>)
    requires ListsKeys(t, columns, keys)
    ensures |Keys(t, columns)| == |keys|
  {
    forall k ensures k in Keys(t, columns) <==> k in Elements(keys) {
      if k in Elements(keys) {
        var r: nat :| r < |t| && HasKey(t[r], columns) && Cells(t[r], columns) == k;
        assert r in KeyedRows(t, columns) && KeyAt(t, columns, r) == k;
      }
      if k in Keys(t, columns) {
        var r :| r in KeyedRows(t, columns) && KeyAt(t, columns, r) == k;
      }
    }
    assert Keys(t, columns) == Elements(keys);
    DistinctSize(keys);
  }

  lemma GroupCounted(t: Table, columns: seq<string>, key: seq<Cell>, rows: seq<nat>)
    requires ListsGroup(t, columns, key, rows)
    ensures |Relational.Group(t, columns, key)| == |rows| <= LargestGroup(t, columns, |t|)
  {
    assert Relational.Group(t, columns, key) == Elements(rows);
    DistinctSize(rows);
    if rows != [] {
      assert rows[0] in rows && KeyAt(t, columns, rows[0]) == key;
    }
  }

  lemma IncludedCounted(child: Table, parent: Table, d: Definition, rows: seq<nat>)
    requires |d.child.columns| == |d.parent.columns| && ListsIncluded(child, parent, d, rows)
    ensures |Included(child, parent, d)| == |rows|
  {
    forall r ensures r in Included(child, parent, d) <==> r in Elements(rows) {
      if r in Elements(rows) {
        var j: nat :| j < |parent| && Matches(d, child[r], parent[j]);
      }
    }
    assert Included(child, parent, d) == Elements(rows);
    DistinctSize(rows);
  }

  /** Each count is the length of any list, without repeats, of what it counts. */
  lemma MeasureExactly(child: Table, parent: Table, d: Definition, childRows: seq<nat>, childKeys: seq<seq<Cell>>,
                       parentKeys: seq<seq<Cell>>, included: seq<nat>)
    requires |d.child.columns| == |d.parent.columns|
    requires ListsRows(child, d.child.columns, childRows) && ListsKeys(child, d.child.columns, childKeys)
    requires ListsKeys(parent, d.parent.columns, parentKeys) && ListsIncluded(child, parent, d, included)
    ensures var m := Measure(child, parent, d);
      && m.childRowCount == |child| && m.parentRowCount == |parent|
      && m.childNonNullCount == m.inclusionDenominator == |childRows|
      && m.childDistinctCount == |childKeys| && m.parentDistinctCount == |parentKeys|
      && m.inclusionNumerator == |included|
  {
    RowsCounted(child, d.child.columns, childRows);
    KeysCounted(child, d.child.columns, childKeys);
    KeysCounted(parent, d.parent.columns, parentKeys);
    IncludedCounted(child, parent, d, included);
  }

  /** Some complete key is that of exactly `n` rows. */
  ghost predicate SomeGroup(t: Table, columns: seq<string>, n: int) {
    exists r :: r in KeyedRows(t, columns) && |set q | q in KeyedRows(t, columns) && Cells(t[q], columns) == Cells(t[r], columns)| == n
  }

  /** The bounds are the sizes of the largest groups of rows with one key: none is larger, and one is as large. */
  lemma BoundsExactly(child: Table, parent: Table, d: Definition, key: seq<Cell>, childRows: seq<nat>, parentRows: seq<nat>)
    requires |d.child.columns| == |d.parent.columns|
    requires ListsGroup(child, d.child.columns, key, childRows) && ListsGroup(parent, d.parent.columns, key, parentRows)
    ensures var m := Measure(child, parent, d);
      && |childRows| <= m.maxChildrenPerParent && |parentRows| <= m.maxParentsPerChild
      && (m.maxChildrenPerParent > 0 ==> SomeGroup(child, d.child.columns, m.maxChildrenPerParent))
      && (m.maxParentsPerChild > 0 ==> SomeGroup(parent, d.parent.columns, m.maxParentsPerChild))
  {
    GroupCounted(child, d.child.columns, key, childRows);
    GroupCounted(parent, d.parent.columns, key, parentRows);
    LargestAttained(child, d.child.columns);
    LargestAttained(parent, d.parent.columns);
  }

  lemma LargestAttained(t: Table, columns: seq<string>)
    ensures LargestGroup(t, columns, |t|) > 0 ==> SomeGroup(t, columns, LargestGroup(t, columns, |t|))
  {
    if LargestGroup(t, columns, |t|) > 0 {
      var i :| 0 <= i < |t| && HasKey(t[i], columns) && |Relational.Group(t, columns, KeyAt(t, columns, i))| == LargestGroup(t, columns, |t|);
      assert i in KeyedRows(t, columns);
      assert Relational.Group(t, columns, KeyAt(t, columns, i)) == set q | q in KeyedRows(t, columns) && Cells(t[q], columns) == Cells(t[i], columns);
    }
  }

  // ---------------------------------------------------------------- which findings

  /** A declared bound of one row on either side is broken by two rows with one key there. */
  ghost predicate Drifts(child: Table, parent: Table, d: Definition, declared: Cardinality) {
    match declared
    case OneToOne => !UniqueKey(child, d.child.columns) || !UniqueKey(parent, d.parent.columns)
    case OneToMany => !UniqueKey(child, d.child.columns)
    case ManyToOne => !UniqueKey(parent, d.parent.columns)
    case ManyToMany => false
  }

  /** Some fact about the rows calls for this finding. */
  ghost predicate Justified(child: Table, parent: Table, d: Definition, declared: Cardinality, f: Finding)
    requires |d.child.columns| == |d.parent.columns|
  {
    || (f == Finding("REFERENCED_KEY_NOT_UNIQUE", Blocking) && !UniqueKey(parent, d.parent.columns))
    || (f == Finding("CHILD_KEY_NULL", Warning) && exists i: nat :: i < |child| && !HasKey(child[i], d.child.columns))
    || (f == Finding("ORPHAN_CHILD_ROW", Blocking) && !NoOrphans(child, parent, d))
    || (f == Finding("CARDINALITY_DRIFT", Blocking) && Drifts(child, parent, d, declared))
    || (f == Finding("MANY_TO_MANY_FANOUT", Blocking) && !UniqueKey(child, d.child.columns) && !UniqueKey(parent, d.parent.columns))
  }

  /** The same, read from the counts. */
  ghost predicate Counted(m: Measurements, declared: Cardinality, f: Finding) {
    || (f == Finding("REFERENCED_KEY_NOT_UNIQUE", Blocking) && !m.parentUnique)
    || (f == Finding("CHILD_KEY_NULL", Warning) && m.childNullCount != 0)
    || (f == Finding("ORPHAN_CHILD_ROW", Blocking) && m.orphanCount != 0)
    || (f == Finding("CARDINALITY_DRIFT", Blocking) && !CardinalityAllowed(m.observed, declared))
    || (f == Finding("MANY_TO_MANY_FANOUT", Blocking) && m.observed == ManyToMany)
  }

  lemma MoreFindings(xs: seq<Finding>, condition: bool, code: string, severity: Severity)
    ensures forall f :: f in xs + When(condition, code, severity) <==> f in xs || (condition && f == Finding(code, severity))
  {
  }

  lemma FindingsCounted(m: Measurements, declared: Cardinality)
    ensures forall f :: f in FindingsOf(m, declared) <==> Counted(m, declared, f)
  {
    var a := When(!m.parentUnique, "REFERENCED_KEY_NOT_UNIQUE", Blocking);
    var b := a + When(m.childNullCount != 0, "CHILD_KEY_NULL", Warning);
    var c := b + When(m.orphanCount != 0, "ORPHAN_CHILD_ROW", Blocking);
    var d := c + When(!CardinalityAllowed(m.observed, declared), "CARDINALITY_DRIFT", Blocking);
    var e := d + When(m.observed == ManyToMany, "MANY_TO_MANY_FANOUT", Blocking);
    MoreFindings([], !m.parentUnique, "REFERENCED_KEY_NOT_UNIQUE", Blocking);
    assert [] + a == a;
    MoreFindings(a, m.childNullCount != 0, "CHILD_KEY_NULL", Warning);
    MoreFindings(b, m.orphanCount != 0, "ORPHAN_CHILD_ROW", Blocking);
    MoreFindings(c, !CardinalityAllowed(m.observed, declared), "CARDINALITY_DRIFT", Blocking);
    MoreFindings(d, m.observed == ManyToMany, "MANY_TO_MANY_FANOUT", Blocking);
    CodeLeIsTotalPreorder();
    SortedKeepsMembers(e, CodeLe);
  }

  /** What the counts behind the findings say about the rows. */
  lemma CountsAreFacts(child: Table, parent: Table, d: Definition)
    requires |d.child.columns| == |d.parent.columns|
    ensures var m := Measure(child, parent, d);
      && (m.parentUnique <==> UniqueKey(parent, d.parent.columns))
      && (m.childNullCount != 0 <==> exists i: nat :: i < |child| && !HasKey(child[i], d.child.columns))
      && (m.orphanCount != 0 <==> !NoOrphans(child, parent, d))
  {
    MeasureIsConsistent(child, parent, d);
    OrphanCountZero(child, parent, d);
    DistinctCountUnique(parent, d.parent.columns);
  }

  /** The observed cardinality is one on a side exactly when the key of that side is unique. */
  lemma ObservedExactly(child: Table, parent: Table, d: Definition, declared: Cardinality)
    requires |d.child.columns| == |d.parent.columns|
    ensures var observed := Measure(child, parent, d).observed;
      && (observed == OneToOne || observed == OneToMany <==> UniqueKey(child, d.child.columns))
      && (observed == OneToOne || observed == ManyToOne <==> UniqueKey(parent, d.parent.columns))
      && (CardinalityAllowed(observed, declared) <==> !Drifts(child, parent, d, declared))
  {
    LargestGroupAtMostOne(parent, d.parent.columns);
    LargestGroupAtMostOne(child, d.child.columns);
  }

  /** A record holds exactly the findings that the rows call for, each with its severity. */
  lemma FindingsExactly(db: Database, seed: Seed, snapshotId: string, f: Finding)
    requires |seed.definition.child.columns| == |seed.definition.parent.columns|
    ensures var d := seed.definition;
      f in Verify(db, seed, snapshotId).findings <==>
      Justified(TableOf(db, d.child.entity), TableOf(db, d.parent.entity), d, seed.declared, f)
  {
    var d := seed.definition;
    var child, parent := TableOf(db, d.child.entity), TableOf(db, d.parent.entity);
    FindingsCounted(Measure(child, parent, d), seed.declared);
    CountsAreFacts(child, parent, d);
    ObservedExactly(child, parent, d, seed.declared);
  }

  // ---------------------------------------------------------------- in which order

  function CodesOf(findings: seq<Finding>): seq<string> {
    Mapped(findings, (f: Finding) => f.code)
  }

  /** The codes stand in strictly rising order, so none comes twice. */
  ghost predicate Rising(codes: seq<string>) {
    forall i, j :: 0 <= i < j < |codes| ==> NameLe(codes[i], codes[j]) && codes[i] != codes[j]
  }

  lemma NewCode(xs: seq<Finding>, condition: bool, code: string, severity: Severity)
    requires Distinct(CodesOf(xs)) && forall f :: f in xs ==> |f.code| != |code|
    ensures Distinct(CodesOf(xs + When(condition, code, severity)))
  {
    var ys := xs + When(condition, code, severity);
    forall i, j | 0 <= i < j < |ys| ensures CodesOf(ys)[i] != CodesOf(ys)[j] {
      if j < |xs| {
        assert CodesOf(xs)[i] != CodesOf(xs)[j];
      } else {
        assert xs[i] in xs;
      }
    }
  }

  lemma CodesDiffer(m: Measurements, declared: Cardinality)
    ensures Distinct(CodesOf(FindingsOf(m, declared)))
  {
    var a := When(!m.parentUnique, "REFERENCED_KEY_NOT_UNIQUE", Blocking);
    var b := a + When(m.childNullCount != 0, "CHILD_KEY_NULL", Warning);
    var c := b + When(m.orphanCount != 0, "ORPHAN_CHILD_ROW", Blocking);
    var d := c + When(!CardinalityAllowed(m.observed, declared), "CARDINALITY_DRIFT", Blocking);
    var e := d + When(m.observed == ManyToMany, "MANY_TO_MANY_FANOUT", Blocking);
    NewCode(a, m.childNullCount != 0, "CHILD_KEY_NULL", Warning);
    NewCode(b, m.orphanCount != 0, "ORPHAN_CHILD_ROW", Blocking);
    NewCode(c, !CardinalityAllowed(m.observed, declared), "CARDINALITY_DRIFT", Blocking);
    NewCode(d, m.observed == ManyToMany, "MANY_TO_MANY_FANOUT", Blocking);
    CodeLeIsTotalPreorder();
    SortedFacts(e, CodeLe);
    MappedTogether(e, Sorted(e, CodeLe), (f: Finding) => f.code);
    DistinctPermutation(CodesOf(e), CodesOf(Sorted(e, CodeLe)));
  }

  lemma OrderedByCode(m: Measurements, declared: Cardinality)
    ensures Ordered(FindingsOf(m, declared), CodeLe)
  {
    CodeLeIsTotalPreorder();
    SortedFacts(When(!m.parentUnique, "REFERENCED_KEY_NOT_UNIQUE", Blocking)
      + When(m.childNullCount != 0, "CHILD_KEY_NULL", Warning)
      + When(m.orphanCount != 0, "ORPHAN_CHILD_ROW", Blocking)
      + When(!CardinalityAllowed(m.observed, declared), "CARDINALITY_DRIFT", Blocking)
      + When(m.observed == ManyToMany, "MANY_TO_MANY_FANOUT", Blocking), CodeLe);
  }

  lemma OrderedRise(findings: seq<Finding>)
    requires Ordered(findings, CodeLe) && Distinct(CodesOf(findings))
    ensures Rising(CodesOf(findings))
  {
    forall i, j | 0 <= i < j < |findings| ensures NameLe(CodesOf(findings)[i], CodesOf(findings)[j]) && CodesOf(findings)[i] != CodesOf(findings)[j] {
      assert CodeLe(findings[i], findings[j]);
    }
  }

  lemma FindingsRise(m: Measurements, declared: Cardinality)
    ensures Rising(CodesOf(FindingsOf(m, declared)))
  {
    OrderedByCode(m, declared);
    CodesDiffer(m, declared);
    OrderedRise(FindingsOf(m, declared));
  }

  lemma {:induction false} BlockingRise(findings: seq<Finding>)
    requires Rising(CodesOf(findings))
    ensures Rising(BlockingCodes(findings))
    ensures forall code :: code in BlockingCodes(findings) <==> Finding(code, Blocking) in findings
  {
    if findings != [] {
      var rest := findings[1..];
      assert CodesOf(rest) == CodesOf(findings)[1..];
      BlockingRise(rest);
      assert findings == [findings[0]] + rest;
      forall code | code in BlockingCodes(rest) ensures NameLe(findings[0].code, code) && findings[0].code != code {
        var i :| 0 <= i < |rest| && rest[i] == Finding(code, Blocking);
        assert CodesOf(findings)[0] == findings[0].code && CodesOf(findings)[i + 1] == code;
      }
    }
  }

  lemma FirstStays(first: Finding, rest: seq<Finding>)
    requires Rising(CodesOf([first] + rest))
    ensures Insert(first, rest, CodeLe) == [first] + rest
  {
    var codes := CodesOf([first] + rest);
    assert rest != [] ==> NameLe(codes[0], codes[1]);
  }

  lemma {:induction false} SortedStays(findings: seq<Finding>)
    requires Rising(CodesOf(findings))
    ensures Sorted(findings, CodeLe) == findings
  {
    if findings != [] {
      var rest := findings[1..];
      assert CodesOf(rest) == CodesOf(findings)[1..];
      SortedStays(rest);
      FirstStays(findings[0], rest);
      assert findings == [findings[0]] + rest;
    }
  }

  /** An authorisation reports the policy, whether the snapshot is current, and, in rising order and each once,
      exactly the codes of the blocking facts; the relationship may be used when there is none. */
  lemma ReasonsExactly(db: Database, seed: Seed, snapshotId: string, currentSnapshotId: string, policyVersion: string, code: string)
    requires |seed.definition.child.columns| == |seed.definition.parent.columns|
    ensures var d := seed.definition;
      var a := Authorize(Verify(db, seed, snapshotId), currentSnapshotId, policyVersion);
      && a.policyVersion == policyVersion && (a.current <==> snapshotId == currentSnapshotId)
      && (a.usable <==> a.current && a.blockingReasons == [])
      && Rising(a.blockingReasons) && Rising(CodesOf(Verify(db, seed, snapshotId).findings))
      && (code in a.blockingReasons <==>
            Justified(TableOf(db, d.child.entity), TableOf(db, d.parent.entity), d, seed.declared, Finding(code, Blocking)))
  {
    var record := Verify(db, seed, snapshotId);
    FindingsRise(record.measurements, seed.declared);
    SortedStays(record.findings);
    BlockingRise(record.findings);
    FindingsExactly(db, seed, snapshotId, Finding(code, Blocking));
  }

  // ---------------------------------------------------------------- ids and the graph

  /** A hashed record is known by its id: equal ids are equal records. */
  lemma EvidenceIdExactly(a: EvidenceRecord, b: EvidenceRecord)
    requires OwnId(a) && OwnId(b)
    ensures a.evidenceId == b.evidenceId <==> a == b
  {
  }

  /** `k` is the place of the last record of this relationship. */
  ghost predicate LastAt(evidence: seq<EvidenceRecord>, id: string, k: nat) {
    k < |evidence| && evidence[k].relationshipId == id && forall j :: k < j < |evidence| ==> evidence[j].relationshipId != id
  }

  lemma {:induction false} LastRecordsExactly(evidence: seq<EvidenceRecord>, id: string)
    ensures id in LastRecords(evidence) <==> exists k: nat :: LastAt(evidence, id, k)
    ensures forall k: nat :: LastAt(evidence, id, k) ==> LastRecords(evidence)[id] == evidence[k]
  {
    if evidence != [] {
      var n := |evidence| - 1;
      LastRecordsExactly(evidence[..n], id);
      if evidence[n].relationshipId == id {
        assert LastAt(evidence, id, n);
      } else {
        forall k: nat ensures LastAt(evidence, id, k) <==> LastAt(evidence[..n], id, k) {
        }
      }
    }
  }

  /** A relationship is in the graph exactly when some seed has it, with the last record found for the seed's
      id, and that record is of the current snapshot and free of blocking findings; the graph stands in the order of ids. */
  lemma GraphExactly(seeds: seq<Seed>, evidence: seq<EvidenceRecord>, snapshotId: string, policy: string, a: Authorized)
    ensures a in AuthorizedGraph(seeds, evidence, snapshotId, policy) <==>
      exists s, k: nat ::
        && s in seeds && LastAt(evidence, s.definition.relationshipId, k)
        && a == Authorized(s.definition, evidence[k], Authorize(evidence[k], snapshotId, policy), s.declared)
        && evidence[k].snapshotId == snapshotId && NoneBlocks(evidence[k].findings)
    ensures var graph := AuthorizedGraph(seeds, evidence, snapshotId, policy);
      forall i, j :: 0 <= i < j < |graph| ==> NameLe(graph[i].definition.relationshipId, graph[j].definition.relationshipId)
  {
    var records := LastRecords(evidence);
    RelationshipLeIsTotalPreorder();
    SortedFacts(Kept(seeds, records, snapshotId, policy), RelationshipLe);
    SortedKeepsMembers(Kept(seeds, records, snapshotId, policy), RelationshipLe);
    GraphInOrder(AuthorizedGraph(seeds, evidence, snapshotId, policy));
    KeptMembers(seeds, records, snapshotId, policy, a);
    forall s | s in seeds
      ensures s.definition.relationshipId in records <==> exists k: nat :: LastAt(evidence, s.definition.relationshipId, k)
      ensures forall k: nat :: LastAt(evidence, s.definition.relationshipId, k) ==> records[s.definition.relationshipId] == evidence[k]
    {
      LastRecordsExactly(evidence, s.definition.relationshipId);
    }
    UsableMeansNoBlocking(a.evidence, snapshotId, policy);
  }

  lemma GraphInOrder(graph: seq<Authorized>)
    requires Ordered(graph, RelationshipLe)
    ensures forall i, j :: 0 <= i < j < |graph| ==> NameLe(graph[i].definition.relationshipId, graph[j].definition.relationshipId)
  {
    forall i, j | 0 <= i < j < |graph| ensures NameLe(graph[i].definition.relationshipId, graph[j].definition.relationshipId) {
      assert RelationshipLe(graph[i], graph[j]);
    }
  }
}
