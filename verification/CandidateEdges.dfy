/** The edges the planner may use between request-local refs, in its preference order. */
module CandidateEdges {
  import opened Domain
  import opened Ordering
  import opened Sorting

  datatype Traversal = Forward | Reverse

  datatype Candidate = Candidate(
    fromRef: string,
    toRef: string,
    relationship: Authorized,
    traversal: Traversal,
    cardinality: Cardinality,
    maxMatches: int)

  function Invert(c: Cardinality): Cardinality {
    match c
    case OneToOne => OneToOne
    case OneToMany => ManyToOne
    case ManyToOne => OneToMany
    case ManyToMany => ManyToMany
  }

  function ForwardEdge(r: Authorized, left: EntityRef, right: EntityRef): Candidate {
    var m := r.evidence.measurements;
    Candidate(left.ref, right.ref, r, Forward, m.observed, m.maxParentsPerChild)
  }

  function ReverseEdge(r: Authorized, left: EntityRef, right: EntityRef): Candidate {
    var m := r.evidence.measurements;
    Candidate(left.ref, right.ref, r, Reverse, Invert(m.observed), m.maxChildrenPerParent)
  }

  /** What the innermost loop body appends; a self-relationship appends both directions. */
  function Between(r: Authorized, left: EntityRef, right: EntityRef): seq<Candidate> {
    if left.ref == right.ref then []
    else
      (if left.entity == r.definition.child.entity && right.entity == r.definition.parent.entity
       then [ForwardEdge(r, left, right)] else [])
      + (if left.entity == r.definition.parent.entity && right.entity == r.definition.child.entity
         then [ReverseEdge(r, left, right)] else [])
  }

  function FromLeft(r: Authorized, left: EntityRef, rights: seq<EntityRef>): seq<Candidate> {
    if rights == [] then []
    else FromLeft(r, left, rights[..|rights| - 1]) + Between(r, left, rights[|rights| - 1])
  }

  function ForRelationship(r: Authorized, lefts: seq<EntityRef>, rights: seq<EntityRef>): seq<Candidate> {
    if lefts == [] then []
    else ForRelationship(r, lefts[..|lefts| - 1], rights) + FromLeft(r, lefts[|lefts| - 1], rights)
  }

  function Unsorted(refs: seq<EntityRef>, graph: seq<Authorized>): seq<Candidate> {
    if graph == [] then []
    else Unsorted(refs, graph[..|graph| - 1]) + ForRelationship(graph[|graph| - 1], refs, refs)
  }

  function Rank(late: bool): string { if late then "1" else "0" }

  function CandidateKey(c: Candidate): seq<string> {
    [Rank(c.relationship.evidence.provenance != Curated), Rank(c.maxMatches > 1),
     c.relationship.definition.relationshipId, c.fromRef, c.toRef]
  }

  predicate CandidateLe(a: Candidate, b: Candidate) {
    KeyLe(CandidateKey(a), CandidateKey(b))
  }

  function Candidates(refs: seq<EntityRef>, graph: seq<Authorized>): seq<Candidate> {
    Sorted(Unsorted(refs, graph), CandidateLe)
  }

  /** The innermost loop, over the other instances. */
  method EdgesFrom(r: Authorized, left: EntityRef, refs: seq<EntityRef>, before: seq<Candidate>) returns (found: seq<Candidate>)
    ensures found == before + FromLeft(r, left, refs)
  {
    found := before;
    for k := 0 to |refs|
      invariant found == before + FromLeft(r, left, refs[..k])
    {
      assert refs[..k + 1][..k] == refs[..k];
      found := found + Between(r, left, refs[k]);
    }
    assert refs[..|refs|] == refs;
  }

  /** The two inner loops, over ordered pairs of instances. */
  method RelationshipEdges(r: Authorized, refs: seq<EntityRef>) returns (found: seq<Candidate>)
    ensures found == ForRelationship(r, refs, refs)
  {
    found := [];
    for j := 0 to |refs|
      invariant found == ForRelationship(r, refs[..j], refs)
    {
      assert refs[..j + 1][..j] == refs[..j];
      found := EdgesFrom(r, refs[j], refs, found);
    }
    assert refs[..|refs|] == refs;
  }

  method BuildCandidates(refs: seq<EntityRef>, graph: seq<Authorized>) returns (candidates: seq<Candidate>)
    ensures candidates == Candidates(refs, graph)
  {
    candidates := [];
    for i := 0 to |graph|
      invariant candidates == Unsorted(refs, graph[..i])
    {
      assert graph[..i + 1][..i] == graph[..i];
      var found := RelationshipEdges(graph[i], refs);
      candidates := candidates + found;
    }
    assert graph[..|graph|] == graph;
    candidates := Sorted(candidates, CandidateLe);
  }

  // ---------------------------------------------------------------- which edges there are

  /** The candidate runs between these two instances, along or against its relationship. */
  predicate Connects(c: Candidate, left: EntityRef, right: EntityRef) {
    && left.ref != right.ref
    && match c.traversal
       case Forward =>
         && left.entity == c.relationship.definition.child.entity && right.entity == c.relationship.definition.parent.entity
         && c == ForwardEdge(c.relationship, left, right)
       case Reverse =>
         && left.entity == c.relationship.definition.parent.entity && right.entity == c.relationship.definition.child.entity
         && c == ReverseEdge(c.relationship, left, right)
  }

  ghost predicate ConnectsSome(c: Candidate, lefts: seq<EntityRef>, rights: seq<EntityRef>) {
    exists left, right :: left in lefts && right in rights && Connects(c, left, right)
  }

  ghost predicate Justified(refs: seq<EntityRef>, graph: seq<Authorized>, c: Candidate) {
    c.relationship in graph && ConnectsSome(c, refs, refs)
  }

  lemma BetweenMembers(r: Authorized, left: EntityRef, right: EntityRef, c: Candidate)
    ensures c in Between(r, left, right) <==> c.relationship == r && Connects(c, left, right)
  {
  }

  lemma {:induction false} FromLeftMembers(r: Authorized, left: EntityRef, rights: seq<EntityRef>, c: Candidate)
    ensures c in FromLeft(r, left, rights) <==>
              c.relationship == r && exists right :: right in rights && Connects(c, left, right)
  {
    if rights != [] {
      BetweenMembers(r, left, rights[|rights| - 1], c);
      FromLeftMembers(r, left, rights[..|rights| - 1], c);
      assert rights == rights[..|rights| - 1] + [rights[|rights| - 1]];
    }
  }

  lemma {:induction false} ForRelationshipMembers(r: Authorized, lefts: seq<EntityRef>, rights: seq<EntityRef>, c: Candidate)
    ensures c in ForRelationship(r, lefts, rights) <==> c.relationship == r && ConnectsSome(c, lefts, rights)
  {
    if lefts != [] {
      var n := |lefts| - 1;
      ForRelationshipMembers(r, lefts[..n], rights, c);
      FromLeftMembers(r, lefts[n], rights, c);
      assert lefts == lefts[..n] + [lefts[n]];
    }
  }

  lemma {:induction false} UnsortedMembers(refs: seq<EntityRef>, graph: seq<Authorized>, c: Candidate)
    ensures c in Unsorted(refs, graph) <==> Justified(refs, graph, c)
  {
    if graph != [] {
      var n := |graph| - 1;
      UnsortedMembers(refs, graph[..n], c);
      ForRelationshipMembers(graph[n], refs, refs, c);
      assert c.relationship in graph <==> c.relationship in graph[..n] || c.relationship == graph[n] by {
        assert graph == graph[..n] + [graph[n]];
      }
      assert Unsorted(refs, graph) == Unsorted(refs, graph[..n]) + ForRelationship(graph[n], refs, refs);
    }
  }

  lemma CandidateLeIsTotalPreorder()
    ensures TotalPreorder(CandidateLe)
  {
    ComparedByKey(CandidateLe, CandidateKey);
  }

  /** Every candidate is justified and every justified edge is a candidate. */
  lemma CandidatesExactly(refs: seq<EntityRef>, graph: seq<Authorized>, c: Candidate)
    ensures c in Candidates(refs, graph) <==> Justified(refs, graph, c)
  {
    CandidateLeIsTotalPreorder();
    SortedFacts(Unsorted(refs, graph), CandidateLe);
    assert c in multiset(Candidates(refs, graph)) <==> c in multiset(Unsorted(refs, graph));
    UnsortedMembers(refs, graph, c);
  }

  // ---------------------------------------------------------------- order of the request

  lemma TiedEnds(a: Candidate, b: Candidate)
    requires CandidateLe(a, b) && CandidateLe(b, a)
    ensures a.fromRef == b.fromRef && a.toRef == b.toRef
  {
    KeyLeTotal(CandidateKey(a), CandidateKey(b));
    assert CandidateKey(a)[3] == CandidateKey(b)[3] && CandidateKey(a)[4] == CandidateKey(b)[4];
  }

  lemma {:induction false} NoTies(xs: seq<Candidate>, c: Candidate)
    requires forall x :: x in xs ==> x.fromRef != c.fromRef || x.toRef != c.toRef
    ensures Ties(xs, c, CandidateLe) == []
  {
    if xs != [] {
      NoTies(xs[1..], c);
      if CandidateLe(c, xs[0]) && CandidateLe(xs[0], c) {
        TiedEnds(c, xs[0]);
      }
    }
  }

  function Find(refs: seq<EntityRef>, name: string): Option<EntityRef> {
    if refs == [] then None
    else if refs[|refs| - 1].ref == name then Some(refs[|refs| - 1])
    else Find(refs[..|refs| - 1], name)
  }

  /** The tie group of `c` that the loops produce between the two instances it names. */
  ghost function TiesBetween(r: Authorized, left: Option<EntityRef>, right: Option<EntityRef>, c: Candidate): seq<Candidate> {
    if left.Some? && right.Some? then Ties(Between(r, left.value, right.value), c, CandidateLe) else []
  }

  lemma {:induction false} FindFacts(refs: seq<EntityRef>, name: string)
    ensures Find(refs, name).None? ==> forall r :: r in refs ==> r.ref != name
    ensures Find(refs, name).Some? ==> Find(refs, name).value in refs && Find(refs, name).value.ref == name
  {
    if refs != [] {
      FindFacts(refs[..|refs| - 1], name);
      assert refs == refs[..|refs| - 1] + [refs[|refs| - 1]];
    }
  }

  lemma {:induction false} FromLeftTies(r: Authorized, left: EntityRef, rights: seq<EntityRef>, c: Candidate)
    requires DistinctRefs(rights)
    ensures Ties(FromLeft(r, left, rights), c, CandidateLe)
            == if left.ref == c.fromRef then TiesBetween(r, Some(left), Find(rights, c.toRef), c) else []
  {
    if rights != [] {
      var n := |rights| - 1;
      FromLeftTies(r, left, rights[..n], c);
      TiesAppend(FromLeft(r, left, rights[..n]), Between(r, left, rights[n]), c, CandidateLe);
      if rights[n].ref == c.toRef {
        LastIsNew(rights);
      }
      LastTies(r, left, rights[n], Find(rights[..n], c.toRef), c);
    }
  }

  /** One more instance on the right adds ties only when both refs are the candidate's. */
  lemma LastTies(r: Authorized, left: EntityRef, last: EntityRef, before: Option<EntityRef>, c: Candidate)
    requires last.ref == c.toRef ==> before == None
    ensures
      (if left.ref == c.fromRef then TiesBetween(r, Some(left), before, c) else []) + Ties(Between(r, left, last), c, CandidateLe)
      == if left.ref == c.fromRef then TiesBetween(r, Some(left), if last.ref == c.toRef then Some(last) else before, c) else []
  {
    if left.ref != c.fromRef || last.ref != c.toRef {
      NoTies(Between(r, left, last), c);
    }
  }

  lemma LastIsNew(refs: seq<EntityRef>)
    requires DistinctRefs(refs) && refs != []
    ensures Find(refs[..|refs| - 1], refs[|refs| - 1].ref) == None
  {
    FindFacts(refs[..|refs| - 1], refs[|refs| - 1].ref);
  }

  lemma {:induction false} ForRelationshipTies(r: Authorized, lefts: seq<EntityRef>, rights: seq<EntityRef>, c: Candidate)
    requires DistinctRefs(lefts) && DistinctRefs(rights)
    ensures Ties(ForRelationship(r, lefts, rights), c, CandidateLe)
            == TiesBetween(r, Find(lefts, c.fromRef), Find(rights, c.toRef), c)
  {
    if lefts != [] {
      var n := |lefts| - 1;
      ForRelationshipTies(r, lefts[..n], rights, c);
      FromLeftTies(r, lefts[n], rights, c);
      TiesAppend(ForRelationship(r, lefts[..n], rights), FromLeft(r, lefts[n], rights), c, CandidateLe);
      FindFacts(lefts[..n], c.fromRef);
    }
  }

  lemma FindIgnoresOrder(refs: seq<EntityRef>, other: seq<EntityRef>, name: string)
    requires multiset(refs) == multiset(other) && DistinctRefs(refs) && DistinctRefs(other)
    ensures Find(refs, name) == Find(other, name)
  {
    FindFacts(refs, name);
    FindFacts(other, name);
    if Find(refs, name).Some? {
      assert Find(refs, name).value in multiset(other);
      assert Find(other, name).Some?;
    }
    if Find(other, name).Some? {
      assert Find(other, name).value in multiset(refs);
      var i :| 0 <= i < |refs| && refs[i] == Find(other, name).value;
      var j :| 0 <= j < |refs| && refs[j] == Find(refs, name).value;
    }
  }

  lemma {:induction false} UnsortedTies(refs: seq<EntityRef>, other: seq<EntityRef>, graph: seq<Authorized>, c: Candidate)
    requires multiset(refs) == multiset(other) && DistinctRefs(refs) && DistinctRefs(other)
    ensures Ties(Unsorted(refs, graph), c, CandidateLe) == Ties(Unsorted(other, graph), c, CandidateLe)
  {
    if graph != [] {
      var n := |graph| - 1;
      UnsortedTies(refs, other, graph[..n], c);
      TiesAppend(Unsorted(refs, graph[..n]), ForRelationship(graph[n], refs, refs), c, CandidateLe);
      TiesAppend(Unsorted(other, graph[..n]), ForRelationship(graph[n], other, other), c, CandidateLe);
      ForRelationshipTies(graph[n], refs, refs, c);
      ForRelationshipTies(graph[n], other, other, c);
      FindIgnoresOrder(refs, other, c.fromRef);
      FindIgnoresOrder(refs, other, c.toRef);
    }
  }

  /** The candidate list, ties included, does not depend on the order of the request. */
  lemma CandidatesIgnoreRequestOrder(refs: seq<EntityRef>, other: seq<EntityRef>, graph: seq<Authorized>)
    requires multiset(refs) == multiset(other) && DistinctRefs(refs) && DistinctRefs(other)
    ensures Candidates(refs, graph) == Candidates(other, graph)
  {
    CandidateLeIsTotalPreorder();
    forall c ensures Ties(Unsorted(refs, graph), c, CandidateLe) == Ties(Unsorted(other, graph), c, CandidateLe) {
      UnsortedTies(refs, other, graph, c);
    }
    SortedDeterminedByTies(Unsorted(refs, graph), Unsorted(other, graph), CandidateLe);
  }
}
