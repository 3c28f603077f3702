/** Matching SQL join edges to authorised relationships, and matched edges to a proof. */
module SqlMatching {
  import opened Domain
  import opened Ordering
  import opened Sorting
  import opened Relational
  import opened Bijections
  import opened SqlGraph
  import opened InstanceGroups
  import opened SqlCanonical
  import opened CandidateEdges
  import opened Planner
  import opened JoinSafety

  datatype MatchedEdge = MatchedEdge(normalized: NormalizedEdge, relationship: Authorized, childRef: string, parentRef: string)

  // ---------------------------------------------------------------- endpoints

  function EndpointName(entity: string, column: string): string {
    entity + "." + column
  }

  function CanonicalPair(left: string, right: string): Pair {
    if NameLe(left, right) then (left, right) else (right, left)
  }

  function Observed(pairs: seq<Pair>): set<Pair> {
    set p | p in pairs :: CanonicalPair(p.0, p.1)
  }

  function ChildName(d: Definition, i: nat): string
    requires i < |d.child.columns|
  {
    EndpointName(d.child.entity, d.child.columns[i])
  }

  function ParentName(d: Definition, i: nat): string
    requires i < |d.parent.columns|
  {
    EndpointName(d.parent.entity, d.parent.columns[i])
  }

  /** The column equalities of a relationship, child side first. */
  function DefinitionPairs(d: Definition): set<Pair>
    requires |d.child.columns| == |d.parent.columns|
  {
    set i | 0 <= i < |d.child.columns| :: (ChildName(d, i), ParentName(d, i))
  }

  function ExpectedPairs(d: Definition): set<Pair>
    requires |d.child.columns| == |d.parent.columns|
  {
    set p | p in DefinitionPairs(d) :: CanonicalPair(p.0, p.1)
  }

  predicate EdgeMatches(e: NormalizedEdge, r: Authorized) {
    |r.definition.child.columns| == |r.definition.parent.columns| && Observed(e.pairs) == ExpectedPairs(r.definition)
  }

  /** The matching relationship with the least id; the first one on ties. */
  function MatchRelationship(e: NormalizedEdge, graph: seq<Authorized>): (r: Option<Authorized>)
    ensures r.Some? ==> r.value in graph && EdgeMatches(e, r.value)
    ensures r.None? <==> forall a :: a in graph ==> !EdgeMatches(e, a)
  {
    if graph == [] then None
    else
      var n := |graph| - 1;
      var before := MatchRelationship(e, graph[..n]);
      assert graph == graph[..n] + [graph[n]];
      if EdgeMatches(e, graph[n]) && (before.None? || !NameLe(before.value.definition.relationshipId, graph[n].definition.relationshipId))
      then Some(graph[n]) else before
  }

  lemma {:induction false} MatchHasLeastId(e: NormalizedEdge, graph: seq<Authorized>, a: Authorized)
    requires a in graph && EdgeMatches(e, a)
    ensures MatchRelationship(e, graph).Some?
    ensures NameLe(MatchRelationship(e, graph).value.definition.relationshipId, a.definition.relationshipId)
  {
    var n := |graph| - 1;
    assert graph == graph[..n] + [graph[n]];
    var before := MatchRelationship(e, graph[..n]);
    if a in graph[..n] {
      MatchHasLeastId(e, graph[..n], a);
    }
    if before.Some? {
      NameLeTotal(before.value.definition.relationshipId, graph[n].definition.relationshipId);
      if a in graph[..n] && EdgeMatches(e, graph[n]) && !NameLe(before.value.definition.relationshipId, graph[n].definition.relationshipId) {
        NameLeTransitive(graph[n].definition.relationshipId, before.value.definition.relationshipId, a.definition.relationshipId);
      }
    }
    NameLeTotal(a.definition.relationshipId, a.definition.relationshipId);
  }

  function ChildNames(d: Definition): set<string> {
    set c | c in d.child.columns :: EndpointName(d.child.entity, c)
  }

  function LeftNames(e: NormalizedEdge): set<string> {
    set p | p in e.pairs :: p.0
  }

  /** Which instance plays the child: the left one when its endpoints are the child's. */
  function RelationshipRefs(e: NormalizedEdge, r: Authorized): (string, string) {
    if LeftNames(e) == ChildNames(r.definition) then (e.leftRef, e.rightRef) else (e.rightRef, e.leftRef)
  }

  function MatchEdge(e: NormalizedEdge, r: Authorized): MatchedEdge {
    MatchedEdge(e, r, RelationshipRefs(e, r).0, RelationshipRefs(e, r).1)
  }

  function MatchOne(e: NormalizedEdge, graph: seq<Authorized>): Option<MatchedEdge> {
    var r := MatchRelationship(e, graph);
    if r.Some? then Some(MatchEdge(e, r.value)) else None
  }

  function MatchEach(edges: seq<NormalizedEdge>, graph: seq<Authorized>): (r: seq<Option<MatchedEdge>>)
    ensures |r| == |edges| && forall i :: 0 <= i < |edges| ==> r[i] == MatchOne(edges[i], graph)
  {
    seq(|edges|, i requires 0 <= i < |edges| => MatchOne(edges[i], graph))
  }

  function Present<T>(xs: seq<Option<T>>): seq<T> {
    if xs == [] then []
    else Present(xs[..|xs| - 1]) + if xs[|xs| - 1].Some? then [xs[|xs| - 1].value] else []
  }

  function Missing<T>(xs: seq<Option<T>>): nat {
    if xs == [] then 0 else Missing(xs[..|xs| - 1]) + if xs[|xs| - 1].None? then 1 else 0
  }

  lemma {:induction false} NothingMissing<T>(xs: seq<Option<T>>)
    requires Missing(xs) == 0
    ensures |Present(xs)| == |xs| && forall i :: 0 <= i < |xs| ==> xs[i] == Some(Present(xs)[i])
  {
    if xs != [] {
      NothingMissing(xs[..|xs| - 1]);
    }
  }

  lemma {:induction false} PresentMembers<T>(xs: seq<Option<T>>, j: nat) returns (i: nat)
    requires j < |Present(xs)|
    ensures i < |xs| && xs[i] == Some(Present(xs)[j])
  {
    var n := |xs| - 1;
    if j < |Present(xs[..n])| {
      i := PresentMembers(xs[..n], j);
    } else {
      i := n;
    }
  }

  function AllMatched(edges: seq<NormalizedEdge>, graph: seq<Authorized>): seq<MatchedEdge> {
    Present(MatchEach(edges, graph))
  }

  function Unmatched(edges: seq<NormalizedEdge>, graph: seq<Authorized>): nat {
    Missing(MatchEach(edges, graph))
  }

  method MatchEdges(edges: seq<NormalizedEdge>, graph: seq<Authorized>) returns (matched: seq<MatchedEdge>, findings: seq<string>)
    ensures matched == AllMatched(edges, graph)
    ensures |findings| == Unmatched(edges, graph) && forall i :: 0 <= i < |findings| ==> findings[i] == "UNSUPPORTED_JOIN_EDGE"
  {
    matched, findings := [], [];
    ghost var each := MatchEach(edges, graph);
    for i := 0 to |edges|
      invariant matched == Present(each[..i]) && |findings| == Missing(each[..i])
      invariant forall j :: 0 <= j < |findings| ==> findings[j] == "UNSUPPORTED_JOIN_EDGE"
    {
      assert each[..i + 1][..i] == each[..i];
      var r := MatchRelationship(edges[i], graph);
      assert each[i] == if r.Some? then Some(MatchEdge(edges[i], r.value)) else None;
      if r.None? {
        findings := findings + ["UNSUPPORTED_JOIN_EDGE"];
      } else {
        matched := matched + [MatchEdge(edges[i], r.value)];
      }
    }
    assert each[..|edges|] == each;
  }

  lemma AllMatchedFacts(edges: seq<NormalizedEdge>, graph: seq<Authorized>)
    requires Unmatched(edges, graph) == 0
    ensures |AllMatched(edges, graph)| == |edges|
    ensures forall i :: 0 <= i < |edges| ==>
      && MatchRelationship(edges[i], graph).Some?
      && AllMatched(edges, graph)[i] == MatchEdge(edges[i], MatchRelationship(edges[i], graph).value)
  {
    var each := MatchEach(edges, graph);
    NothingMissing(each);
    forall i | 0 <= i < |edges|
      ensures MatchRelationship(edges[i], graph).Some?
      ensures AllMatched(edges, graph)[i] == MatchEdge(edges[i], MatchRelationship(edges[i], graph).value)
    {
      assert each[i] == MatchOne(edges[i], graph);
    }
  }

  lemma NoneUnmatched(edges: seq<NormalizedEdge>, graph: seq<Authorized>)
    requires forall i :: 0 <= i < |edges| ==> MatchRelationship(edges[i], graph).Some?
    ensures Unmatched(edges, graph) == 0
  {
    NoneMissing(MatchEach(edges, graph));
  }

  lemma {:induction false} NoneMissing<T>(xs: seq<Option<T>>)
    requires forall i :: 0 <= i < |xs| ==> xs[i].Some?
    ensures Missing(xs) == 0
  {
    if xs != [] {
      NoneMissing(xs[..|xs| - 1]);
    }
  }

  // ---------------------------------------------------------------- binding to a proof

  function ProofTriple(e: ProofEdge): seq<string> {
    if e.traversal == Forward then [e.relationshipId, e.fromRef, e.toRef] else [e.relationshipId, e.toRef, e.fromRef]
  }

  function SqlTriple(e: MatchedEdge, m: map<string, string>): seq<string> {
    [e.relationship.definition.relationshipId, At(m, e.childRef), At(m, e.parentRef)]
  }

  function ProofTriples(edges: seq<ProofEdge>): seq<seq<string>> {
    Mapped(edges, ProofTriple)
  }

  function SqlTriples(matched: seq<MatchedEdge>, m: map<string, string>): (r: seq<seq<string>>)
    ensures |r| == |matched| && forall i :: 0 <= i < |matched| ==> r[i] == SqlTriple(matched[i], m)
  {
    seq(|matched|, i requires 0 <= i < |matched| => SqlTriple(matched[i], m))
  }

  ghost predicate SameTriples(matched: seq<MatchedEdge>, edges: seq<ProofEdge>, m: map<string, string>) {
    multiset(SqlTriples(matched, m)) == multiset(ProofTriples(edges))
  }

  /** An entity-preserving bijection of SQL instances onto proof refs under which both describe
      the same relationships between the same instances, with multiplicity. */
  ghost predicate Binds(refs: seq<EntityRef>, matched: seq<MatchedEdge>, proof: JoinProof, m: map<string, string>) {
    Renames(m, refs, proof.entityRefs) && SameTriples(matched, proof.edges, m)
  }

  predicate SameCount(entities: seq<string>, from: seq<EntityRef>, to: seq<EntityRef>) {
    forall i :: 0 <= i < |entities| ==> |Instances(from, entities[i])| == |Instances(to, entities[i])|
  }

  lemma BetweenIsValid(entities: seq<string>, from: seq<EntityRef>, to: seq<EntityRef>)
    requires Distinct(entities) && DistinctRefs(from) && DistinctRefs(to) && SameCount(entities, from, to)
    ensures ValidGroups(EntityGroups(entities, from, to))
    ensures AllValid(EntityGroups(entities, from, to))
  {
    var groups := EntityGroups(entities, from, to);
    forall i | 0 <= i < |groups| ensures ValidGroup(groups[i]) {
      InstancesFacts(from, entities[i]);
      InstancesFacts(to, entities[i]);
    }
    forall i, j | 0 <= i < j < |groups|
      ensures Elements(groups[i].keys) !! Elements(groups[j].keys) && Elements(groups[i].values) !! Elements(groups[j].values)
    {
      InstancesDisjoint(from, entities[i], entities[j]);
      InstancesDisjoint(to, entities[i], entities[j]);
    }
    DisjointGroups(groups);
  }

  lemma BetweenLists(entities: seq<string>, from: seq<EntityRef>, to: seq<EntityRef>, i: nat, k: string)
    requires DistinctRefs(from) && DistinctRefs(to) && i < |entities|
    ensures k in EntityGroups(entities, from, to)[i].keys <==> EntityRef(k, entities[i]) in from
    ensures k in EntityGroups(entities, from, to)[i].values <==> EntityRef(k, entities[i]) in to
  {
    InstancesFacts(from, entities[i]);
    InstancesFacts(to, entities[i]);
  }

  lemma BetweenKeys(from: seq<EntityRef>, to: seq<EntityRef>, k: string)
    requires DistinctRefs(from) && DistinctRefs(to)
    ensures k in AllKeys(EntityGroups(SortedEntities(from), from, to)) <==> k in RefNames(from)
  {
    var entities := SortedEntities(from);
    var groups := EntityGroups(entities, from, to);
    KeysInGroups(groups, k);
    SortedEntitiesFacts(from);
    if k in RefNames(from) {
      var r :| r in from && r.ref == k;
      assert r.entity in entities;
      var i :| 0 <= i < |entities| && entities[i] == r.entity;
      BetweenLists(entities, from, to, i, k);
    }
    if i :| 0 <= i < |groups| && k in groups[i].keys {
      BetweenLists(entities, from, to, i, k);
    }
  }

  lemma InEntities(refs: seq<EntityRef>, r: EntityRef) returns (i: nat)
    requires r in refs
    ensures i < |SortedEntities(refs)| && SortedEntities(refs)[i] == r.entity
  {
    SortedEntitiesFacts(refs);
    assert r.entity in SortedEntities(refs);
    i :| 0 <= i < |SortedEntities(refs)| && SortedEntities(refs)[i] == r.entity;
  }

  /** The groups hold the instances of their entities on both sides. */
  ghost predicate Tables(entities: seq<string>, from: seq<EntityRef>, to: seq<EntityRef>, groups: seq<Group>) {
    && |groups| == |entities|
    && (forall i, k :: 0 <= i < |groups| ==> (k in groups[i].keys <==> EntityRef(k, entities[i]) in from))
    && (forall i, k :: 0 <= i < |groups| ==> (k in groups[i].values <==> EntityRef(k, entities[i]) in to))
  }

  lemma EntityGroupsAreTables(entities: seq<string>, from: seq<EntityRef>, to: seq<EntityRef>)
    requires DistinctRefs(from) && DistinctRefs(to)
    ensures Tables(entities, from, to, EntityGroups(entities, from, to))
  {
    var groups := EntityGroups(entities, from, to);
    forall i, k | 0 <= i < |groups|
      ensures k in groups[i].keys <==> EntityRef(k, entities[i]) in from
      ensures k in groups[i].values <==> EntityRef(k, entities[i]) in to
    {
      BetweenLists(entities, from, to, i, k);
    }
  }

  lemma FitKeepsEntity(m: map<string, string>, from: seq<EntityRef>, to: seq<EntityRef>, r: EntityRef, entities: seq<string>, groups: seq<Group>)
    requires Tables(entities, from, to, groups) && Fits(m, groups) && r in from && r.entity in entities
    ensures r.ref in m && EntityRef(m[r.ref], r.entity) in to
  {
    var i :| 0 <= i < |entities| && entities[i] == r.entity;
    assert r.ref in groups[i].keys;
    assert m[r.ref] in groups[i].values;
  }

  lemma FitIsOnto(m: map<string, string>, from: seq<EntityRef>, to: seq<EntityRef>, s: EntityRef)
    requires DistinctRefs(from) && DistinctRefs(to)
    requires SortedEntities(from) == SortedEntities(to) && SameCount(SortedEntities(from), from, to)
    requires Fits(m, EntityGroups(SortedEntities(from), from, to)) && s in to
    ensures s.ref in m.Values
  {
    var i := InEntities(to, s);
    SortedEntitiesFacts(from);
    BetweenIsValid(SortedEntities(from), from, to);
    BetweenLists(SortedEntities(from), from, to, i, s.ref);
    GroupIsCovered(m, EntityGroups(SortedEntities(from), from, to), i, s.ref);
  }

  lemma FitsRenames(m: map<string, string>, from: seq<EntityRef>, to: seq<EntityRef>)
    requires DistinctRefs(from) && DistinctRefs(to)
    requires SortedEntities(from) == SortedEntities(to) && SameCount(SortedEntities(from), from, to)
    requires Fits(m, EntityGroups(SortedEntities(from), from, to))
    ensures Renames(m, from, to)
  {
    forall k ensures k in m <==> k in RefNames(from) { BetweenKeys(from, to, k); }
    var entities := SortedEntities(from);
    EntityGroupsAreTables(entities, from, to);
    SortedEntitiesFacts(from);
    forall r | r in from ensures r.ref in m && EntityRef(At(m, r.ref), r.entity) in to {
      FitKeepsEntity(m, from, to, r, entities, EntityGroups(entities, from, to));
    }
    forall s | s in to ensures s.ref in m.Values {
      FitIsOnto(m, from, to, s);
    }
    forall v | v in m.Values ensures v in RefNames(to) {
      var k :| k in m && m[k] == v;
      var r :| r in from && r.ref == k;
      assert EntityRef(At(m, r.ref), r.entity) in to;
    }
  }

  /** A mapping that fits uses every value of every group. */
  lemma GroupIsCovered(m: map<string, string>, groups: seq<Group>, i: nat, v: string)
    requires Fits(m, groups) && i < |groups| && ValidGroup(groups[i]) && v in groups[i].values
    ensures v in m.Values
  {
    var g := groups[i];
    assert forall k :: k in g.keys ==> k in m && m[k] in g.values;
    var part := map k | k in Elements(g.keys) :: m[k];
    assert Matching(part, g);
    MatchingCovers(part, g);
    assert v in part.Values;
    var k :| k in part && part[k] == v;
    assert m[k] == v;
  }

  lemma RenamesStayInGroups(m: map<string, string>, from: seq<EntityRef>, to: seq<EntityRef>, entities: seq<string>, groups: seq<Group>)
    requires DistinctRefs(from) && DistinctRefs(to) && Renames(m, from, to)
    requires Tables(entities, from, to, groups) && AllKeys(groups) == m.Keys
    ensures Fits(m, groups)
  {
    forall i, k | 0 <= i < |groups| && k in groups[i].keys ensures k in m && m[k] in groups[i].values {
      assert k in RefNames(from);
      RenamedInstance(m, from, to, k, entities[i]);
    }
  }

  lemma RenamesFits(m: map<string, string>, from: seq<EntityRef>, to: seq<EntityRef>)
    requires DistinctRefs(from) && DistinctRefs(to) && Renames(m, from, to)
    ensures Fits(m, EntityGroups(SortedEntities(from), from, to))
  {
    var groups := EntityGroups(SortedEntities(from), from, to);
    forall k ensures k in AllKeys(groups) <==> k in m { BetweenKeys(from, to, k); }
    EntityGroupsAreTables(SortedEntities(from), from, to);
    RenamesStayInGroups(m, from, to, SortedEntities(from), groups);
  }

  /** The matchings of each group, in the order in which they are tried. */
  ghost function Choices(groups: seq<Group>): (r: seq<seq<map<string, string>>>)
    requires AllValid(groups)
    ensures |r| == |groups| && forall i :: 0 <= i < |groups| ==> r[i] == ByValues(groups[i])
  {
    seq(|groups|, i requires 0 <= i < |groups| => ByValues(groups[i]))
  }

  /** The renamings of `from` onto `to` in the order in which they are tried. */
  ghost function InTurn(from: seq<EntityRef>, to: seq<EntityRef>): seq<map<string, string>> {
    var entities := SortedEntities(from);
    var groups := EntityGroups(entities, from, to);
    if entities == SortedEntities(to) && SameCount(entities, from, to) && AllValid(groups) then Product(Choices(groups)) else []
  }

  lemma ChoicesExactly(groups: seq<Group>, m: map<string, string>)
    requires ValidGroups(groups) && AllValid(groups)
    ensures m in Product(Choices(groups)) <==> Fits(m, groups)
  {
    forall i, a | 0 <= i < |groups| ensures a in Choices(groups)[i] <==> Matching(a, groups[i]) {
      ByValuesExactly(groups[i], a);
    }
    ProductExactly(Choices(groups), groups, m);
  }

  /** Every choice of one matching per group, merged. */
  method Combine(groups: seq<Group>) returns (combinations: seq<map<string, string>>)
    requires ValidGroups(groups) && AllValid(groups)
    ensures combinations == Product(Choices(groups))
    ensures forall m :: m in combinations <==> Fits(m, groups)
  {
    var choices: seq<seq<map<string, string>>> := [];
    for i := 0 to |groups|
      invariant |choices| == i && forall j :: 0 <= j < i ==> choices[j] == ByValues(groups[j])
    {
      choices := choices + [ByValues(groups[i])];
    }
    assert choices == Choices(groups);
    combinations := Product(choices);
    forall m ensures m in combinations <==> Fits(m, groups) {
      ChoicesExactly(groups, m);
    }
  }

  /** The renamings of `from` onto `to`, entity by entity; none when the entities or counts differ. */
  method EntityRenamings(from: seq<EntityRef>, to: seq<EntityRef>) returns (combinations: seq<map<string, string>>)
    requires DistinctRefs(from) && DistinctRefs(to)
    ensures combinations == InTurn(from, to)
    ensures forall m :: m in combinations <==> Renames(m, from, to)
  {
    var entities := SortedEntities(from);
    if entities != SortedEntities(to) || !SameCount(entities, from, to) {
      NoRenaming(from, to);
      return [];
    }
    SortedEntitiesFacts(from);
    BetweenIsValid(entities, from, to);
    combinations := Combine(EntityGroups(entities, from, to));
    forall m ensures m in combinations <==> Renames(m, from, to) {
      FitsExactlyRenames(m, from, to);
    }
  }

  lemma FitsExactlyRenames(m: map<string, string>, from: seq<EntityRef>, to: seq<EntityRef>)
    requires DistinctRefs(from) && DistinctRefs(to) && SortedEntities(from) == SortedEntities(to)
    requires SameCount(SortedEntities(from), from, to)
    ensures Fits(m, EntityGroups(SortedEntities(from), from, to)) <==> Renames(m, from, to)
  {
    if Fits(m, EntityGroups(SortedEntities(from), from, to)) { FitsRenames(m, from, to); }
    if Renames(m, from, to) { RenamesFits(m, from, to); }
  }

  lemma NoRenaming(from: seq<EntityRef>, to: seq<EntityRef>)
    requires DistinctRefs(from) && DistinctRefs(to)
    requires SortedEntities(from) != SortedEntities(to) || !SameCount(SortedEntities(from), from, to)
    ensures forall m :: !Renames(m, from, to)
  {
    forall m ensures !Renames(m, from, to) {
      if Renames(m, from, to) {
        SameEntities(m, from, to);
        forall e ensures |Instances(from, e)| == |Instances(to, e)| { SameCounts(m, from, to, e); }
      }
    }
  }

  lemma SortedTriples(a: seq<seq<string>>, b: seq<seq<string>>)
    ensures Sorted(a, KeyLe) == Sorted(b, KeyLe) <==> multiset(a) == multiset(b)
  {
    KeyLeIsTotalOrder();
    if multiset(a) == multiset(b) {
      SortedPermutation(a, b, KeyLe);
    }
    if Sorted(a, KeyLe) == Sorted(b, KeyLe) {
      SortedEqualMeansPermutation(a, b, KeyLe);
    }
  }

  /** Compares the ordered triples under a mapping with those of the proof. */
  method Agrees(matched: seq<MatchedEdge>, edges: seq<ProofEdge>, m: map<string, string>, expected: seq<seq<string>>) returns (same: bool)
    requires expected == Sorted(ProofTriples(edges), KeyLe)
    ensures same <==> SameTriples(matched, edges, m)
  {
    SortedTriples(SqlTriples(matched, m), ProofTriples(edges));
    same := Sorted(SqlTriples(matched, m), KeyLe) == expected;
  }

  /** The first of these renamings under which the triples are the proof's. */
  ghost function FirstAgreeing(matched: seq<MatchedEdge>, edges: seq<ProofEdge>, combinations: seq<map<string, string>>): Option<map<string, string>> {
    if combinations == [] then None
    else if SameTriples(matched, edges, combinations[0]) then Some(combinations[0])
    else FirstAgreeing(matched, edges, combinations[1..])
  }

  lemma {:induction false} FirstIsAt(matched: seq<MatchedEdge>, edges: seq<ProofEdge>, combinations: seq<map<string, string>>, i: nat)
    requires i <= |combinations|
    requires forall j :: 0 <= j < i ==> !SameTriples(matched, edges, combinations[j])
    ensures i < |combinations| && SameTriples(matched, edges, combinations[i]) ==>
      FirstAgreeing(matched, edges, combinations) == Some(combinations[i])
    ensures i == |combinations| ==> FirstAgreeing(matched, edges, combinations) == None
  {
    if i > 0 {
      FirstIsAt(matched, edges, combinations[1..], i - 1);
    }
  }

  /** The binding that is taken: the first one in the order of trial. */
  ghost function FirstBinding(refs: seq<EntityRef>, matched: seq<MatchedEdge>, proof: JoinProof): Option<map<string, string>> {
    FirstAgreeing(matched, proof.edges, InTurn(refs, proof.entityRefs))
  }

  /** Tries the renamings in turn. */
  method FirstThatAgrees(matched: seq<MatchedEdge>, edges: seq<ProofEdge>, combinations: seq<map<string, string>>)
    returns (found: Option<map<string, string>>)
    ensures found == FirstAgreeing(matched, edges, combinations)
    ensures found.Some? ==> found.value in combinations && SameTriples(matched, edges, found.value)
    ensures found.None? ==> forall j :: 0 <= j < |combinations| ==> !SameTriples(matched, edges, combinations[j])
  {
    var expected := Sorted(ProofTriples(edges), KeyLe);
    for i := 0 to |combinations|
      invariant forall j :: 0 <= j < i ==> !SameTriples(matched, edges, combinations[j])
    {
      var same := Agrees(matched, edges, combinations[i], expected);
      if same {
        FirstIsAt(matched, edges, combinations, i);
        return Some(combinations[i]);
      }
    }
    FirstIsAt(matched, edges, combinations, |combinations|);
    return None;
  }

  /** Finds a binding whenever there is one: the first in the order of trial. */
  method ProofMapping(refs: seq<EntityRef>, matched: seq<MatchedEdge>, proof: JoinProof) returns (found: Option<map<string, string>>)
    requires DistinctRefs(refs) && DistinctRefs(proof.entityRefs)
    ensures found == FirstBinding(refs, matched, proof)
    ensures found.Some? ==> Binds(refs, matched, proof, found.value)
    ensures found.None? ==> forall m :: !Binds(refs, matched, proof, m)
  {
    var combinations := EntityRenamings(refs, proof.entityRefs);
    found := FirstThatAgrees(matched, proof.edges, combinations);
    if found.None? {
      NothingBinds(refs, matched, proof, combinations);
    }
  }

  lemma {:induction false} FirstAgreeingAgrees(matched: seq<MatchedEdge>, edges: seq<ProofEdge>, combinations: seq<map<string, string>>)
    ensures var first := FirstAgreeing(matched, edges, combinations);
      first.Some? ==> first.value in combinations && SameTriples(matched, edges, first.value)
  {
    if combinations != [] && !SameTriples(matched, edges, combinations[0]) {
      FirstAgreeingAgrees(matched, edges, combinations[1..]);
    }
  }

  lemma InTurnRenames(from: seq<EntityRef>, to: seq<EntityRef>, m: map<string, string>)
    requires DistinctRefs(from) && DistinctRefs(to) && m in InTurn(from, to)
    ensures Renames(m, from, to)
  {
    SortedEntitiesFacts(from);
    BetweenIsValid(SortedEntities(from), from, to);
    ChoicesExactly(EntityGroups(SortedEntities(from), from, to), m);
    FitsRenames(m, from, to);
  }

  /** The first binding is one. */
  lemma FirstBindingBinds(refs: seq<EntityRef>, matched: seq<MatchedEdge>, proof: JoinProof)
    requires DistinctRefs(refs) && DistinctRefs(proof.entityRefs) && FirstBinding(refs, matched, proof).Some?
    ensures Binds(refs, matched, proof, FirstBinding(refs, matched, proof).value)
  {
    FirstAgreeingAgrees(matched, proof.edges, InTurn(refs, proof.entityRefs));
    InTurnRenames(refs, proof.entityRefs, FirstBinding(refs, matched, proof).value);
  }

  lemma NothingBinds(refs: seq<EntityRef>, matched: seq<MatchedEdge>, proof: JoinProof, combinations: seq<map<string, string>>)
    requires forall m :: Renames(m, refs, proof.entityRefs) ==> m in combinations
    requires forall j :: 0 <= j < |combinations| ==> !SameTriples(matched, proof.edges, combinations[j])
    ensures forall m :: !Binds(refs, matched, proof, m)
  {
    forall m ensures !Binds(refs, matched, proof, m) {
      if Renames(m, refs, proof.entityRefs) {
        var j :| 0 <= j < |combinations| && combinations[j] == m;
      }
    }
  }
}
