/** The evidence cache: files that may be missing, unreadable or misplaced, and how lookups repair them. */
module EvidenceCache {
  import opened Domain
  import opened Relational
  import opened Evidence
  import opened Ordering
  import opened Sorting

  /** A file as a reader finds it: a symbolic link, unreadable text, or a value. */
  datatype File<+T> = Link | Garbage | Good(value: T)

  /** The hashed lookup key of a record; the declared cardinality is not part of it. */
  datatype Selector = Selector(relationshipId: string, snapshotId: string, provenance: Provenance, verifierVersion: string)

  datatype Contents = Contents(evidence: map<EvidenceId, File<EvidenceRecord>>, index: map<Selector, File<EvidenceId>>)

  function SelectorOf(r: EvidenceRecord): Selector {
    Selector(r.relationshipId, r.snapshotId, r.provenance, r.verifierVersion)
  }

  function Wanted(seed: Seed, snapshotId: string): Selector {
    Selector(seed.definition.relationshipId, snapshotId, seed.provenance, VERIFIER_VERSION)
  }

  // ---------------------------------------------------------------- what a lookup may return

  /** The record filed under its own id, if a reader finds one. */
  function Loaded(evidence: map<EvidenceId, File<EvidenceRecord>>, id: EvidenceId): Option<EvidenceRecord> {
    if id in evidence && evidence[id].Good? && evidence[id].value.evidenceId == id then Some(evidence[id].value) else None
  }

  function Pointed(index: map<Selector, File<EvidenceId>>, s: Selector): Option<EvidenceId> {
    if s in index && index[s].Good? then Some(index[s].value) else None
  }

  /** What the cache answers for a selector. */
  function Answer(c: Contents, s: Selector): Option<EvidenceRecord> {
    var id := Pointed(c.index, s);
    var r := if id.Some? then Loaded(c.evidence, id.value) else None;
    if r.Some? && SelectorOf(r.value) == s then r else None
  }

  /** The contents after a lookup that had to clear away what it could not use. */
  function Repaired(c: Contents, s: Selector): Contents {
    var id := Pointed(c.index, s);
    if Answer(c, s).Some? then c
    else if id.Some? && Loaded(c.evidence, id.value).None? then Contents(c.evidence - {id.value}, c.index - {s})
    else c.(index := c.index - {s})
  }

  function Stored(c: Contents, r: EvidenceRecord): Contents {
    Contents(c.evidence[r.evidenceId := Good(r)], c.index[SelectorOf(r) := Good(r.evidenceId)])
  }

  class RuntimeCache {
    var evidence: map<EvidenceId, File<EvidenceRecord>>
    var index: map<Selector, File<EvidenceId>>

    constructor (c: Contents)
      ensures Now() == c
    {
      evidence, index := c.evidence, c.index;
    }

    ghost function Now(): Contents
      reads this
    {
      Contents(evidence, index)
    }

    method LoadEvidence(id: EvidenceId) returns (record: Option<EvidenceRecord>)
      modifies `evidence
      ensures record == Loaded(old(evidence), id)
      ensures record.Some? ==> evidence == old(evidence)
      ensures record.None? ==> evidence == old(evidence) - {id}
    {
      if id !in evidence {
        return None;
      }
      var file := evidence[id];
      if file.Link? || file.Garbage? {
        evidence := evidence - {id};
        return None;
      }
      if file.value.evidenceId != id {
        evidence := evidence - {id};
        return None;
      }
      return Some(file.value);
    }

    method LoadPointer(s: Selector) returns (id: Option<EvidenceId>)
      modifies `index
      ensures id == Pointed(old(index), s)
      ensures id.Some? ==> index == old(index)
      ensures id.None? ==> index == old(index) - {s}
    {
      if s !in index {
        return None;
      }
      var file := index[s];
      if file.Link? || file.Garbage? {
        index := index - {s};
        return None;
      }
      return Some(file.value);
    }

    method StoreEvidence(r: EvidenceRecord)
      modifies this
      ensures Now() == Stored(old(Now()), r)
    {
      evidence := evidence[r.evidenceId := Good(r)];
      index := index[SelectorOf(r) := Good(r.evidenceId)];
    }

    method LoadEvidenceFor(s: Selector) returns (record: Option<EvidenceRecord>)
      modifies this
      ensures record == Answer(old(Now()), s)
      ensures Now() == Repaired(old(Now()), s)
    {
      var id := LoadPointer(s);
      if id.None? {
        return None;
      }
      record := LoadEvidence(id.value);
      if record.None? {
        index := index - {s};
        return None;
      }
      if SelectorOf(record.value) != s {
        index := index - {s};
        return None;
      }
    }

    /** The lookup around the verifier. Waiting for the lock gives other processes time to change
        the files: `arrived` is what they hold once the lock is taken, and is looked at again. */
    method EvidenceFor(db: Database, seed: Seed, snapshotId: string, arrived: Contents) returns (record: EvidenceRecord)
      requires ValidDefinition(seed.definition)
      modifies this
      ensures var s, before := Wanted(seed, snapshotId), old(Now());
        if Answer(before, s).Some? then record == Answer(before, s).value && Now() == before
        else if Answer(arrived, s).Some? then record == Answer(arrived, s).value && Now() == arrived
        else record == Verify(db, seed, snapshotId) && Now() == Stored(Repaired(arrived, s), record)
      ensures Answer(Now(), Wanted(seed, snapshotId)) == Some(record)
    {
      var s := Wanted(seed, snapshotId);
      var cached := LoadEvidenceFor(s);
      if cached.Some? {
        return cached.value;
      }
      evidence, index := arrived.evidence, arrived.index;
      cached := LoadEvidenceFor(s);
      if cached.Some? {
        return cached.value;
      }
      record := Verify(db, seed, snapshotId);
      StoreEvidence(record);
    }

    /** Evidence for every seed of one snapshot, gathered through the cache. */
    method GatherEvidence(db: Database, seeds: seq<Seed>, snapshotId: string, arrivals: seq<Contents>, ghost w: World)
      returns (records: seq<EvidenceRecord>)
      requires ValidSeeds(seeds) && AllOfWorld(w, db, seeds, snapshotId)
      requires Honest(w, Now()) && |arrivals| == |seeds| && forall i :: 0 <= i < |arrivals| ==> Honest(w, arrivals[i])
      modifies this
      ensures Honest(w, Now()) && AllCurrent(db, seeds, snapshotId, records)
    {
      records := [];
      for i := 0 to |seeds|
        invariant |records| == i && Honest(w, Now())
        invariant forall j :: 0 <= j < i ==> Current(db, seeds[j], snapshotId, records[j])
      {
        assert ValidDefinition(seeds[i].definition) && OfWorld(w, db, seeds[i], snapshotId);
        ghost var before := Now();
        var record := EvidenceFor(db, seeds[i], snapshotId, arrivals[i]);
        LookupIsCurrent(w, before, arrivals[i], db, seeds[i], snapshotId);
        records := records + [record];
      }
    }
  }

  // ---------------------------------------------------------------- self-repair

  /** Whatever the files hold, an answer carries its id and the four requested fields. */
  lemma AnswersMatch(c: Contents, s: Selector)
    ensures Answer(c, s).Some? ==>
      var r := Answer(c, s).value;
      && r.relationshipId == s.relationshipId && r.snapshotId == s.snapshotId
      && r.provenance == s.provenance && r.verifierVersion == s.verifierVersion
      && SelectorOf(r) == s && s in c.index && c.index[s] == Good(r.evidenceId)
      && r.evidenceId in c.evidence && c.evidence[r.evidenceId] == Good(r)
  {
  }

  /** A lookup changes no answer: what it deletes could answer nothing, for any selector. */
  lemma RepairKeepsAnswers(c: Contents, s: Selector, t: Selector)
    ensures Answer(Repaired(c, s), t) == Answer(c, t)
  {
  }

  /** After a lookup the index holds the selector exactly when the lookup answered,
      and every other file is left as it was unless it was a misfiled or unreadable record. */
  lemma RepairIsLocal(c: Contents, s: Selector)
    ensures s in Repaired(c, s).index <==> Answer(c, s).Some?
    ensures Repaired(c, s).index - {s} == c.index - {s}
    ensures forall id :: id in c.evidence && Loaded(c.evidence, id).Some? ==>
      id in Repaired(c, s).evidence && Repaired(c, s).evidence[id] == c.evidence[id]
    ensures forall id :: id in Repaired(c, s).evidence ==> id in c.evidence && Repaired(c, s).evidence[id] == c.evidence[id]
  {
  }

  /** Storing answers its own selector from then on, and silences exactly those others that
      pointed at the overwritten file. */
  lemma StoringAnswers(c: Contents, r: EvidenceRecord, t: Selector)
    ensures Answer(Stored(c, r), SelectorOf(r)) == Some(r)
    ensures t != SelectorOf(r) ==>
      Answer(Stored(c, r), t) == if Pointed(c.index, t) == Some(r.evidenceId) then None else Answer(c, t)
  {
  }

  // ---------------------------------------------------------------- honest contents

  /** What the content hashes stand for: a snapshot id for one database, a relationship id for one definition. */
  datatype World = World(databases: map<string, Database>, definitions: map<string, Definition>)

  /** Some run of the verifier produced the record. */
  ghost predicate Genuine(w: World, r: EvidenceRecord) {
    && r.snapshotId in w.databases && r.relationshipId in w.definitions
    && ValidDefinition(w.definitions[r.relationshipId])
    && w.definitions[r.relationshipId].relationshipId == r.relationshipId
    && exists declared :: r == Verify(w.databases[r.snapshotId], Seed(w.definitions[r.relationshipId], r.provenance, declared), r.snapshotId)
  }

  ghost predicate Honest(w: World, c: Contents) {
    forall id :: id in c.evidence && Loaded(c.evidence, id).Some? ==> Genuine(w, Loaded(c.evidence, id).value)
  }

  ghost predicate OfWorld(w: World, db: Database, seed: Seed, snapshotId: string) {
    && snapshotId in w.databases && w.databases[snapshotId] == db
    && seed.definition.relationshipId in w.definitions && w.definitions[seed.definition.relationshipId] == seed.definition
  }

  ghost predicate AllOfWorld(w: World, db: Database, seeds: seq<Seed>, snapshotId: string) {
    forall i :: 0 <= i < |seeds| ==> OfWorld(w, db, seeds[i], snapshotId)
  }

  /** Equal in everything but the findings, which enter the id too. */
  predicate SameButFindings(a: EvidenceRecord, b: EvidenceRecord) {
    && SelectorOf(a) == SelectorOf(b) && a.measurements == b.measurements
    && a.evidenceId.(findings := b.findings) == b.evidenceId && a.evidenceId.findings == a.findings
  }

  /** The record says what a verification of `seed` would measure now. */
  ghost predicate Current(db: Database, seed: Seed, snapshotId: string, r: EvidenceRecord) {
    ValidDefinition(seed.definition) && SameButFindings(r, Verify(db, seed, snapshotId))
  }

  ghost predicate AllCurrent(db: Database, seeds: seq<Seed>, snapshotId: string, records: seq<EvidenceRecord>) {
    |records| == |seeds| && forall i :: 0 <= i < |seeds| ==> Current(db, seeds[i], snapshotId, records[i])
  }

  lemma GenuineIsCurrent(w: World, db: Database, seed: Seed, snapshotId: string, r: EvidenceRecord)
    requires ValidDefinition(seed.definition) && OfWorld(w, db, seed, snapshotId)
    requires Genuine(w, r) && SelectorOf(r) == Wanted(seed, snapshotId)
    ensures Current(db, seed, snapshotId, r)
  {
    var declared :| r == Verify(w.databases[r.snapshotId], Seed(w.definitions[r.relationshipId], r.provenance, declared), r.snapshotId);
  }

  lemma FreshIsGenuine(w: World, db: Database, seed: Seed, snapshotId: string)
    requires ValidDefinition(seed.definition) && OfWorld(w, db, seed, snapshotId)
    ensures Genuine(w, Verify(db, seed, snapshotId)) && Current(db, seed, snapshotId, Verify(db, seed, snapshotId))
  {
    assert Seed(seed.definition, seed.provenance, seed.declared) == seed;
  }

  lemma StoringKeepsHonest(w: World, c: Contents, s: Selector, r: EvidenceRecord)
    requires Honest(w, c) && Genuine(w, r)
    ensures Honest(w, Stored(Repaired(c, s), r))
  {
    var d := Stored(Repaired(c, s), r);
    RepairIsLocal(c, s);
    forall id | id in d.evidence && Loaded(d.evidence, id).Some? ensures Genuine(w, Loaded(d.evidence, id).value) {
      if id != r.evidenceId {
        assert Loaded(c.evidence, id).Some?;
      }
    }
  }

  /** Every way out of the lookup: the contents stay honest, and the measurements are the ones a
      fresh verification would return. */
  lemma LookupIsCurrent(w: World, before: Contents, arrived: Contents, db: Database, seed: Seed, snapshotId: string)
    requires ValidDefinition(seed.definition) && OfWorld(w, db, seed, snapshotId) && Honest(w, before) && Honest(w, arrived)
    ensures var s, verified := Wanted(seed, snapshotId), Verify(db, seed, snapshotId);
      && (Answer(before, s).Some? ==> Current(db, seed, snapshotId, Answer(before, s).value))
      && (Answer(arrived, s).Some? ==> Current(db, seed, snapshotId, Answer(arrived, s).value))
      && Current(db, seed, snapshotId, verified) && Honest(w, Stored(Repaired(arrived, s), verified))
  {
    var s := Wanted(seed, snapshotId);
    FreshIsGenuine(w, db, seed, snapshotId);
    StoringKeepsHonest(w, arrived, s, Verify(db, seed, snapshotId));
    if Answer(before, s).Some? {
      GenuineIsCurrent(w, db, seed, snapshotId, Answer(before, s).value);
    }
    if Answer(arrived, s).Some? {
      GenuineIsCurrent(w, db, seed, snapshotId, Answer(arrived, s).value);
    }
  }

  // ---------------------------------------------------------------- the declared cardinality is not in the selector

  lemma DriftIsFound(m: Measurements, declared: Cardinality)
    ensures Finding("CARDINALITY_DRIFT", Blocking) in FindingsOf(m, declared) <==> !CardinalityAllowed(m.observed, declared)
  {
    var a := When(!m.parentUnique, "REFERENCED_KEY_NOT_UNIQUE", Blocking);
    var b := When(m.childNullCount != 0, "CHILD_KEY_NULL", Warning);
    var c := When(m.orphanCount != 0, "ORPHAN_CHILD_ROW", Blocking);
    var d := When(!CardinalityAllowed(m.observed, declared), "CARDINALITY_DRIFT", Blocking);
    var e := When(m.observed == ManyToMany, "MANY_TO_MANY_FANOUT", Blocking);
    CodeLeIsTotalPreorder();
    SortedKeepsMembers(a + b + c + d + e, CodeLe);
    var drift := Finding("CARDINALITY_DRIFT", Blocking);
    assert drift in a + b + c + d + e <==> drift in a || drift in b || drift in c || drift in d || drift in e;
    assert "CARDINALITY_DRIFT"[0] == 'C' && "MANY_TO_MANY_FANOUT"[0] == 'M' && "ORPHAN_CHILD_ROW"[0] == 'O';
    assert "REFERENCED_KEY_NOT_UNIQUE"[0] == 'R' && "CARDINALITY_DRIFT"[1] == 'A' && "CHILD_KEY_NULL"[1] == 'H';
  }

  /** A record cached for one declared cardinality is what a fresh verification for another would
      return exactly when both declarations take the observed cardinality alike. */
  lemma CachedIsFreshExactly(db: Database, stored: Seed, asked: Seed, snapshotId: string)
    requires ValidDefinition(asked.definition) && stored.definition == asked.definition && stored.provenance == asked.provenance
    ensures Wanted(stored, snapshotId) == Wanted(asked, snapshotId)
    ensures
      var m := Verify(db, stored, snapshotId).measurements;
      Verify(db, stored, snapshotId) == Verify(db, asked, snapshotId) <==>
        CardinalityAllowed(m.observed, stored.declared) == CardinalityAllowed(m.observed, asked.declared)
  {
    var m := Verify(db, stored, snapshotId).measurements;
    DriftIsFound(m, stored.declared);
    DriftIsFound(m, asked.declared);
  }
}
