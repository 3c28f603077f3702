/** The service's answer to a query: its canonical form is what is validated. */
module QueryVerdict {
  import opened Domain
  import opened Bijections
  import opened Relational
  import opened Evidence
  import opened Planner
  import opened PlanSafety
  import opened JoinSafety
  import opened SqlGraph
  import opened InstanceGroups
  import opened SqlCanonical
  import opened SqlMatching
  import opened SqlValidation
  import opened SqlSafety
  import opened ProofLifecycle
  import opened ProofBoundSql
  import opened RenamedRows
  import opened LeftJoins
  import opened LeftProof
  import opened RenamedResults

  /** The outcome for the canonical form of a query. */
  ghost predicate Answers(encode: NormalizedGraph -> string, written: NormalizedGraph, authorized: seq<Authorized>, proof: Option<JoinProof>,
                          expectedGrainRef: Option<string>, definitions: seq<EntityDefinition>, out: Outcome) {
    exists form :: IsCanonical(encode, written, form) && out == Verdict(form, authorized, proof, expectedGrainRef, definitions)
  }

  /** The check on the canonical form comes to an answer. */
  ghost predicate Answerable(encode: NormalizedGraph -> string, written: NormalizedGraph, authorized: seq<Authorized>, proof: Option<JoinProof>,
                             expectedGrainRef: Option<string>, definitions: seq<EntityDefinition>) {
    forall form :: IsCanonical(encode, written, form) ==> ValidationEnds(form, authorized, proof, expectedGrainRef, definitions)
  }

  /** The canonical form is taken, then validated. */
  method JudgeQuery(encode: NormalizedGraph -> string, written: NormalizedGraph, authorized: seq<Authorized>, proof: Option<JoinProof>,
                    expectedGrainRef: Option<string>, definitions: seq<EntityDefinition>)
    returns (out: Outcome)
    requires WellFormedGraph(written) && (proof.Some? ==> DistinctRefs(proof.value.entityRefs))
    requires Answerable(encode, written, authorized, proof, expectedGrainRef, definitions)
    ensures Answers(encode, written, authorized, proof, expectedGrainRef, definitions, out)
  {
    var form := CanonicalizeInstances(encode, written);
    CanonicalWellFormed(encode, written, form);
    out := ValidateSql(form, authorized, proof, expectedGrainRef, definitions);
  }

  lemma CanonicalWellFormed(encode: NormalizedGraph -> string, g: NormalizedGraph, form: NormalizedGraph)
    requires WellFormedGraph(g) && IsCanonical(encode, g, form)
    ensures WellFormedGraph(form)
  {
    var m :| Fits(m, GroupsOf(g.entityRefs)) && form == Arranged(g, m);
    ArrangedIsIsomorphic(g, m);
  }

  /** The names of a query's instances, the order of its joins and tables, and the side an inner join
      is written from never show in the answer: queries alike up to those get one and the same outcome. */
  lemma AlikeQueriesAlikeAnswers(encode: NormalizedGraph -> string, one: NormalizedGraph, other: NormalizedGraph, authorized: seq<Authorized>,
                                 proof: Option<JoinProof>, expectedGrainRef: Option<string>, definitions: seq<EntityDefinition>,
                                 a: Outcome, b: Outcome)
    requires Faithful(encode) && WellFormedGraph(one) && WellFormedGraph(other) && Isomorphic(one, other)
    requires Answers(encode, one, authorized, proof, expectedGrainRef, definitions, a)
    requires Answers(encode, other, authorized, proof, expectedGrainRef, definitions, b)
    ensures a == b
  {
    var form :| IsCanonical(encode, one, form) && a == Verdict(form, authorized, proof, expectedGrainRef, definitions);
    var alike :| IsCanonical(encode, other, alike) && b == Verdict(alike, authorized, proof, expectedGrainRef, definitions);
    CanonicalExactly(encode, one, other, form, alike);
  }

  // ---------------------------------------------------------------- what the form says about the query as written

  /** The canonical form has the query's rows under other names, so each instance repeats its rows in both or in neither. */
  lemma FormKeepsRows(encode: NormalizedGraph -> string, written: NormalizedGraph, form: NormalizedGraph) returns (f: map<string, string>)
    requires WellFormedGraph(written) && IsCanonical(encode, written, form)
    ensures Renames(f, written.entityRefs, form.entityRefs) && SameEdges(f, written.edges, form.edges)
    ensures forall db, k :: k in f ==> (NeverRepeats(db, written, k) <==> NeverRepeats(db, form, f[k]))
  {
    var m :| Fits(m, GroupsOf(written.entityRefs)) && form == Arranged(written, m);
    ArrangedIsIsomorphic(written, m);
    f :| Renames(f, written.entityRefs, form.entityRefs) && SameEdges(f, written.edges, form.edges);
    forall db, k | k in f ensures NeverRepeats(db, written, k) <==> NeverRepeats(db, form, f[k]) {
      RepeatsAlike(db, f, written, form, k);
    }
  }

  /** An instance of the query as written stands for `target` of the proof, and its rows are never repeated. */
  ghost predicate GrainKeptAsWritten(db: Database, written: NormalizedGraph, form: NormalizedGraph, current: seq<Authorized>,
                                     p: JoinProof, target: string) {
    exists f, m, k ::
      && Renames(f, written.entityRefs, form.entityRefs) && SameEdges(f, written.edges, form.edges)
      && Binds(form.entityRefs, AllMatched(form.edges, current), p, m)
      && k in f && f[k] in m && m[f[k]] == target && NeverRepeats(db, written, k)
  }

  lemma KeptAsWritten(encode: NormalizedGraph -> string, db: Database, written: NormalizedGraph, form: NormalizedGraph,
                      current: seq<Authorized>, p: JoinProof, target: string)
    requires WellFormedGraph(written) && IsCanonical(encode, written, form) && GrainKept(db, form, current, p, target)
    ensures GrainKeptAsWritten(db, written, form, current, p, target)
  {
    var f := FormKeepsRows(encode, written, form);
    var m, j :| Binds(form.entityRefs, AllMatched(form.edges, current), p, m) && j in m && m[j] == target && NeverRepeats(db, form, j);
    assert j in f.Values;
    var k :| k in f && f[k] == j;
    assert NeverRepeats(db, written, k);
  }

  /** Whichever renaming and binding are taken. */
  ghost predicate GrainKeptAsWrittenByAll(db: Database, written: NormalizedGraph, form: NormalizedGraph, current: seq<Authorized>,
                                          p: JoinProof, target: string) {
    forall f, m, k ::
      (Renames(f, written.entityRefs, form.entityRefs) && SameEdges(f, written.edges, form.edges)
       && Binds(form.entityRefs, AllMatched(form.edges, current), p, m)
       && k in f && f[k] in m && m[f[k]] == target) ==> NeverRepeats(db, written, k)
  }

  lemma KeptAsWrittenByAll(db: Database, written: NormalizedGraph, form: NormalizedGraph, current: seq<Authorized>, p: JoinProof, target: string)
    requires WellFormedGraph(written) && WellFormedGraph(form) && GrainKeptByAll(db, form, current, p, target)
    ensures GrainKeptAsWrittenByAll(db, written, form, current, p, target)
  {
    forall f, m, k | Renames(f, written.entityRefs, form.entityRefs) && SameEdges(f, written.edges, form.edges)
        && Binds(form.entityRefs, AllMatched(form.edges, current), p, m) && k in f && f[k] in m && m[f[k]] == target
      ensures NeverRepeats(db, written, k)
    {
      RepeatsAlike(db, f, written, form, k);
    }
  }

  /** An instance of the query as written stands for `target`, is in every row of the result, and its rows are never repeated. */
  ghost predicate ResultKeptAsWritten(db: Database, written: NormalizedGraph, form: NormalizedGraph, current: seq<Authorized>,
                                      p: JoinProof, target: string) {
    exists f, m, k ::
      && Renames(f, written.entityRefs, form.entityRefs) && SameEdges(f, written.edges, form.edges)
      && Binds(form.entityRefs, AllMatched(form.edges, current), p, m)
      && k in f && f[k] in m && m[f[k]] == target && ResultKeeps(db, written, k)
  }

  lemma ResultAsWritten(encode: NormalizedGraph -> string, db: Database, written: NormalizedGraph, form: NormalizedGraph,
                        current: seq<Authorized>, p: JoinProof, target: string)
    requires WellFormedGraph(written) && IsCanonical(encode, written, form) && ResultKept(db, form, current, p, target)
    ensures ResultKeptAsWritten(db, written, form, current, p, target)
  {
    CanonicalWellFormed(encode, written, form);
    var f := FormKeepsRows(encode, written, form);
    var m, j :| Binds(form.entityRefs, AllMatched(form.edges, current), p, m) && j in m && m[j] == target && ResultKeeps(db, form, j);
    assert j in f.Values;
    var k :| k in f && f[k] == j;
    ResultKeptUnder(db, f, written, form, k);
  }

  lemma OneAboveForm(encode: NormalizedGraph -> string, written: NormalizedGraph, form: NormalizedGraph)
    requires WellFormedGraph(written) && IsCanonical(encode, written, form)
    ensures OneAbove(written.edges) ==> OneAbove(form.edges)
  {
    CanonicalWellFormed(encode, written, form);
    var f := FormKeepsRows(encode, written, form);
    if OneAbove(written.edges) { OneAboveUnder(f, written, form); }
  }

  /** The rows of `target` are never repeated by the query as written, nor, left joins included, by its result. */
  ghost predicate KeptFor(db: Database, written: NormalizedGraph, form: NormalizedGraph, current: seq<Authorized>, p: JoinProof, target: string) {
    && GrainKeptAsWritten(db, written, form, current, p, target)
    && (DistinctRelationships(current) ==> GrainKeptAsWrittenByAll(db, written, form, current, p, target))
    && (OneAbove(written.edges) ==> ResultKeptAsWritten(db, written, form, current, p, target))
  }

  lemma FormKept(encode: NormalizedGraph -> string, db: Database, written: NormalizedGraph, form: NormalizedGraph, current: seq<Authorized>,
                 p: JoinProof, target: string)
    requires WellFormedGraph(written) && IsCanonical(encode, written, form) && GrainKept(db, form, current, p, target)
    requires DistinctRelationships(current) ==> GrainKeptByAll(db, form, current, p, target)
    requires OneAbove(form.edges) ==> ResultKept(db, form, current, p, target)
    ensures KeptFor(db, written, form, current, p, target)
  {
    CanonicalWellFormed(encode, written, form);
    KeptAsWritten(encode, db, written, form, current, p, target);
    if DistinctRelationships(current) {
      KeptAsWrittenByAll(db, written, form, current, p, target);
    }
    OneAboveForm(encode, written, form);
    if OneAbove(form.edges) { ResultAsWritten(encode, db, written, form, current, p, target); }
  }

  /** What is kept is what the caller asked for, or else the proof's own grain. */
  ghost predicate JudgedKept(db: Database, written: NormalizedGraph, form: NormalizedGraph, current: seq<Authorized>, p: JoinProof,
                             expectedGrainRef: Option<string>)
  {
    KeptFor(db, written, form, current, p,
            if expectedGrainRef.Some? && expectedGrainRef.value != "" then expectedGrainRef.value else p.expectedGrainRef)
  }

  lemma FormJudged(encode: NormalizedGraph -> string, db: Database, written: NormalizedGraph, form: NormalizedGraph, current: seq<Authorized>,
                   p: JoinProof, expectedGrainRef: Option<string>)
    requires WellFormedGraph(written) && IsCanonical(encode, written, form) && GrainKept(db, form, current, p, Target(p, expectedGrainRef))
    requires DistinctRelationships(current) ==> GrainKeptByAll(db, form, current, p, Target(p, expectedGrainRef))
    requires OneAbove(form.edges) ==> ResultKept(db, form, current, p, Target(p, expectedGrainRef))
    ensures JudgedKept(db, written, form, current, p, expectedGrainRef)
  {
    var target := Target(p, expectedGrainRef);
    FormKept(encode, db, written, form, current, p, target);
  }

  lemma ResultOfForm(q: Request, planned: seq<Authorized>, plan: JoinProof, p: JoinProof, form: NormalizedGraph, current: seq<Authorized>,
                     db: Database, expectedGrainRef: Option<string>, definitions: seq<EntityDefinition>)
    requires FromPlan(q, planned, plan, p, current) && AllMeasuredOn(db, current) && WellFormedGraph(form) && AllCovered(form.edges, current)
    requires expectedGrainRef.Some? ==> expectedGrainRef.value in RefNames(p.entityRefs)
    requires PassedUnder(form, current, p, definitions, expectedGrainRef)
    ensures OneAbove(form.edges) ==> ResultKept(db, form, current, p, Target(p, expectedGrainRef))
  {
    if OneAbove(form.edges) {
      PassedKeepsResult(q, planned, plan, p, form, current, db, expectedGrainRef, definitions);
    }
  }

  /** The service's way with a stored proof: what passes keeps the grain of the query as it was written. */
  method JudgeWithProof(encode: NormalizedGraph -> string, written: NormalizedGraph, current: seq<Authorized>, p: JoinProof,
                        snapshotId: string, policy: string, sourceId: Option<string>, expectedGrainRef: Option<string>,
                        definitions: seq<EntityDefinition>,
                        ghost q: Request, ghost planned: seq<Authorized>, ghost plan: JoinProof, ghost db: Database)
    returns (r: Result<Outcome>, form: NormalizedGraph)
    requires FromPlan(q, planned, plan, p, current) && AllMeasuredOn(db, current) && WellFormedGraph(written)
    ensures IsCanonical(encode, written, form)
    ensures r.Ok? && r.value.pass ==> PassedUnder(form, current, p, definitions, expectedGrainRef)
    ensures r.Ok? && r.value.pass && (Unmistakable(form, current) || AllCovered(form.edges, current)) ==>
      JudgedKept(db, written, form, current, p, expectedGrainRef)
  {
    form := CanonicalizeInstances(encode, written);
    CanonicalWellFormed(encode, written, form);
    r := ValidateWithProof(form, current, p, snapshotId, policy, sourceId, expectedGrainRef, definitions, q, planned, plan, db);
    if r.Ok? && r.value.pass && (Unmistakable(form, current) || AllCovered(form.edges, current)) {
      ResultOfForm(q, planned, plan, p, form, current, db, expectedGrainRef, definitions);
      FormJudged(encode, db, written, form, current, p, expectedGrainRef);
    }
  }
}
