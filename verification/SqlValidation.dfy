/** Validating SQL against a stored proof: matching, binding, and the walk from the grain. */
module SqlValidation {
  import opened Domain
  import opened Ordering
  import opened Sorting
  import opened Relational
  import opened Evidence
  import opened Bijections
  import opened SqlGraph
  import opened InstanceGroups
  import opened SqlCanonical
  import opened SqlMatching
  import opened CandidateEdges
  import opened SpanningTrees
  import opened GrainWalk
  import opened QueueWalk
  import opened Rings
  import opened JoinSafety
  import opened Planner
  import opened PlanSafety

  // ---------------------------------------------------------------- from a binding to a tree

  function BoundMatched(matched: seq<MatchedEdge>): (r: seq<BoundEdge>)
    ensures |r| == |matched|
    ensures forall i :: 0 <= i < |matched| ==> r[i] == BoundEdge(matched[i].relationship, matched[i].childRef, matched[i].parentRef)
  {
    seq(|matched|, i requires 0 <= i < |matched| => BoundEdge(matched[i].relationship, matched[i].childRef, matched[i].parentRef))
  }

  /** The instances a proof edge joins, child first. */
  function ProofLink(e: ProofEdge): Link {
    if e.traversal == Forward then Link(e.fromRef, e.toRef, 0, 0) else Link(e.toRef, e.fromRef, 0, 0)
  }

  ghost predicate ProofIsTree(proof: JoinProof) {
    DistinctRefs(proof.entityRefs) && SpanningTree(RefNames(proof.entityRefs), Mapped(proof.edges, ProofLink))
  }

  lemma TakeKey<T, K>(xs: seq<T>, f: T -> K, k: K) returns (i: nat)
    requires k in multiset(Mapped(xs, f))
    ensures i < |xs| && f(xs[i]) == k
    ensures multiset(Mapped(Without(xs, i), f)) == multiset(Mapped(xs, f)) - multiset{k}
  {
    i :| 0 <= i < |xs| && Mapped(xs, f)[i] == k;
    MappedWithout(xs, i, f);
  }

  lemma DropFirstKey<T, K>(xs: seq<T>, f: T -> K)
    requires xs != []
    ensures f(xs[0]) in multiset(Mapped(xs, f))
    ensures multiset(Mapped(xs[1..], f)) == multiset(Mapped(xs, f)) - multiset{f(xs[0])}
  {
    assert Mapped(xs, f)[0] in Mapped(xs, f);
    assert Mapped(xs, f)[1..] == Mapped(xs[1..], f);
    assert Mapped(xs, f) == [f(xs[0])] + Mapped(xs[1..], f);
  }

  /** Reordering one list so that it matches another, element by element. */
  lemma {:induction false} Reorder<T, U, K>(xs: seq<T>, ys: seq<U>, f: T -> K, g: U -> K) returns (zs: seq<T>)
    requires multiset(Mapped(xs, f)) == multiset(Mapped(ys, g))
    ensures multiset(zs) == multiset(xs) && |zs| == |ys| && forall i :: 0 <= i < |ys| ==> f(zs[i]) == g(ys[i])
  {
    assert |xs| == |multiset(Mapped(xs, f))| == |multiset(Mapped(ys, g))| == |ys|;
    if ys == [] {
      zs := [];
    } else {
      DropFirstKey(ys, g);
      var i := TakeKey(xs, f, g(ys[0]));
      var tail := Reorder(Without(xs, i), ys[1..], f, g);
      zs := [xs[i]] + tail;
    }
  }

  /** Links with the same ends up to a renaming grow the same way. */
  lemma {:induction false} GrownRenamed(start: string, links: seq<Link>, from: string, others: seq<Link>, m: map<string, string>)
    requires Grown(start, links) && |others| == |links| && Injective(m) && from in m && m[from] == start
    requires forall i :: 0 <= i < |links| ==>
      others[i].a in m && others[i].b in m && m[others[i].a] == links[i].a && m[others[i].b] == links[i].b
    ensures Grown(from, others)
    ensures forall k :: k in m ==> (k in Nodes(from, others) <==> m[k] in Nodes(start, links))
    ensures Nodes(from, others) <= m.Keys
  {
    if links != [] {
      var n := |links| - 1;
      GrownRenamed(start, links[..n], from, others[..n], m);
    }
  }

  lemma BoundEnds(refs: seq<EntityRef>, matched: seq<MatchedEdge>, proof: JoinProof, m: map<string, string>)
    requires Binds(refs, matched, proof, m)
    ensures multiset(Mapped(Links(BoundMatched(matched)), (l: Link) => (At(m, l.a), At(m, l.b))))
         == multiset(Mapped(Mapped(proof.edges, ProofLink), (l: Link) => (l.a, l.b)))
  {
    var ends := (t: seq<string>) => if |t| == 3 then (t[1], t[2]) else ("", "");
    MappedTogether(SqlTriples(matched, m), ProofTriples(proof.edges), ends);
    assert Mapped(SqlTriples(matched, m), ends) == Mapped(Links(BoundMatched(matched)), (l: Link) => (At(m, l.a), At(m, l.b)));
    assert Mapped(ProofTriples(proof.edges), ends) == Mapped(Mapped(proof.edges, ProofLink), (l: Link) => (l.a, l.b));
  }

  ghost predicate EndsNamed(refs: seq<EntityRef>, matched: seq<MatchedEdge>) {
    forall i :: 0 <= i < |matched| ==> matched[i].childRef in RefNames(refs) && matched[i].parentRef in RefNames(refs)
  }

  /** The SQL links, reordered to follow the proof's growth order. */
  lemma FollowOrder(refs: seq<EntityRef>, matched: seq<MatchedEdge>, proof: JoinProof, m: map<string, string>, order: seq<Link>) returns (others: seq<Link>)
    requires Binds(refs, matched, proof, m) && EndsNamed(refs, matched) && multiset(order) == multiset(Mapped(proof.edges, ProofLink))
    ensures multiset(others) == multiset(Links(BoundMatched(matched))) && |others| == |order|
    ensures forall i :: 0 <= i < |order| ==>
      others[i].a in m && others[i].b in m && m[others[i].a] == order[i].a && m[others[i].b] == order[i].b
  {
    var sqlLinks := Links(BoundMatched(matched));
    var f, g := (l: Link) => (At(m, l.a), At(m, l.b)), (l: Link) => (l.a, l.b);
    BoundEnds(refs, matched, proof, m);
    MappedTogether(order, Mapped(proof.edges, ProofLink), g);
    others := Reorder(sqlLinks, order, f, g);
    forall i | 0 <= i < |order|
      ensures others[i].a in m && others[i].b in m && m[others[i].a] == order[i].a && m[others[i].b] == order[i].b
    {
      assert f(others[i]) == g(order[i]);
      assert others[i] in multiset(sqlLinks);
      var j :| 0 <= j < |sqlLinks| && sqlLinks[j] == others[i];
    }
  }

  /** The matched edges of a bound query are the proof's spanning tree under other names. */
  lemma BoundIsTree(refs: seq<EntityRef>, matched: seq<MatchedEdge>, proof: JoinProof, m: map<string, string>)
    requires Binds(refs, matched, proof, m) && ProofIsTree(proof) && EndsNamed(refs, matched)
    ensures SpanningTree(RefNames(refs), Links(BoundMatched(matched)))
  {
    var start: string, order: seq<Link> :| Grown(start, order) && Nodes(start, order) == RefNames(proof.entityRefs)
      && multiset(order) == multiset(Mapped(proof.edges, ProofLink));
    var others := FollowOrder(refs, matched, proof, m, order);
    StartIsNode(start, order);
    assert start in m.Values;
    var from :| from in m && m[from] == start;
    GrownRenamed(start, order, from, others, m);
    RenamedOnto(Nodes(from, others), m, Nodes(start, order));
  }

  lemma RenamedOnto(nodes: set<string>, m: map<string, string>, onto: set<string>)
    requires nodes <= m.Keys && m.Values == onto && forall k :: k in m ==> (k in nodes <==> m[k] in onto)
    ensures nodes == m.Keys
  {
    forall k | k in m ensures k in nodes {
      assert m[k] in m.Values;
    }
  }

  lemma {:induction false} StartIsNode(start: string, links: seq<Link>)
    ensures start in Nodes(start, links)
  {
    if links != [] {
      StartIsNode(start, links[..|links| - 1]);
    }
  }

  lemma OrderedNames(refs: seq<EntityRef>)
    requires DistinctRefs(refs)
    ensures RefNames(Sorted(refs, RefLe)) == EntityMap(refs).Keys
  {
    OrderedRefs(refs);
    var ordered := Sorted(refs, RefLe);
    forall n ensures n in RefNames(ordered) <==> n in EntityMap(refs) {
      EntityMapFinds(refs, n);
      if n in RefNames(ordered) {
        var r :| r in ordered && r.ref == n;
        assert r in refs;
      }
      if n in EntityMap(refs) {
        var r :| r in refs && r.ref == n;
        assert r in ordered;
      }
    }
  }

  lemma DescribedIsTree(q: Request, graph: seq<Authorized>, p: JoinProof, t: Tree)
    requires Describes(q, graph, p, t) && p.entityRefs == Sorted(q.refs, RefLe)
    ensures ProofIsTree(p) && RefNames(p.entityRefs) == EntityMap(q.refs).Keys
  {
    DistinctExactly(q.refs);
    OrderedRefs(q.refs);
    OrderedNames(q.refs);
    DescribedLinks(q, graph, p, t);
  }

  lemma DescribedLinks(q: Request, graph: seq<Authorized>, p: JoinProof, t: Tree)
    requires Describes(q, graph, p, t)
    ensures SpanningTree(EntityMap(q.refs).Keys, Mapped(p.edges, ProofLink))
  {
    GrowthIsGrown(SearchOf(q, graph), q.startRef, t);
    SameEndsGrown(q.startRef, TreeLinks(t), Mapped(p.edges, ProofLink));
  }

  /** Whatever the planner offers can be validated against. */
  lemma OfferedProofIsTree(q: Request, graph: seq<Authorized>, proof: JoinProof, p: JoinProof)
    requires Plan(q, graph) == Ok(proof) && Offered(proof, p)
    ensures ProofIsTree(p) && RefNames(p.entityRefs) == EntityMap(q.refs).Keys && p.expectedGrainRef in EntityMap(q.refs)
  {
    var t := OfferedTree(q, graph, proof, p);
    DescribedIsTree(q, graph, p, t);
  }

  lemma OrderedRefs(refs: seq<EntityRef>)
    requires DistinctRefs(refs)
    ensures DistinctRefs(Sorted(refs, RefLe)) && forall r :: r in Sorted(refs, RefLe) <==> r in refs
  {
    RefLeFacts();
    SortedFacts(refs, RefLe);
    forall r ensures r in Sorted(refs, RefLe) <==> r in refs {
      assert r in multiset(Sorted(refs, RefLe)) <==> r in multiset(refs);
    }
    DistinctnessIgnoresOrder(refs, Sorted(refs, RefLe));
  }

  lemma {:induction false} SameEndsGrown(start: string, xs: seq<Link>, ys: seq<Link>)
    requires Grown(start, xs) && |xs| == |ys|
    requires forall i :: 0 <= i < |xs| ==> (ys[i].a == xs[i].a && ys[i].b == xs[i].b) || (ys[i].a == xs[i].b && ys[i].b == xs[i].a)
    ensures Grown(start, ys) && Nodes(start, ys) == Nodes(start, xs)
  {
    if xs != [] {
      SameEndsGrown(start, xs[..|xs| - 1], ys[..|ys| - 1]);
    }
  }

  // ---------------------------------------------------------------- the grain check

  function NullableRefs(matched: seq<MatchedEdge>): set<string> {
    set e | e in matched && e.normalized.kind == LeftOuter :: e.normalized.rightRef
  }

  ghost predicate GrainOk(expected: string, matched: seq<MatchedEdge>) {
    expected !in NullableRefs(matched) && NeverFansOut(expected, Links(BoundMatched(matched)))
  }

  /** Where the walk is reached, it must end for the check to answer. */
  ghost predicate GrainDecided(expected: string, matched: seq<MatchedEdge>) {
    expected in NullableRefs(matched) || WalkEnds(Links(BoundMatched(matched)), expected)
  }

  method GrainCompatible(expected: string, matched: seq<MatchedEdge>) returns (ok: bool)
    requires GrainDecided(expected, matched)
    ensures ok <==> GrainOk(expected, matched)
  {
    if expected in NullableRefs(matched) {
      return false;
    }
    ok := FanoutFree(expected, Links(BoundMatched(matched)));
  }

  predicate StableInstance(refs: seq<EntityRef>, expected: string, definitions: seq<EntityDefinition>) {
    Find(refs, expected).Some? && StableGrain(Find(refs, expected).value.entity, definitions)
  }

  /** What follows the last dot of a name, or the whole name when it has none. */
  function LastPart(name: string): string {
    if name == "" || name[|name| - 1] == '.' then ""
    else LastPart(name[..|name| - 1]) + [name[|name| - 1]]
  }

  /** An instance answers to its own ref, to its entity, and to the last part of its entity. */
  predicate AnswersTo(r: EntityRef, wanted: string) {
    r.ref == wanted || r.entity == wanted || LastPart(r.entity) == wanted
  }

  ghost predicate OnlyNamed(refs: seq<EntityRef>, wanted: string, r: EntityRef) {
    r in refs && AnswersTo(r, wanted) && forall s :: s in refs && AnswersTo(s, wanted) ==> s == r
  }

  /** The ref whose rows must not repeat: the caller's, or else the proof's. */
  function Target(proof: JoinProof, expectedGrainRef: Option<string>): string {
    if expectedGrainRef.Some? && expectedGrainRef.value != "" then expectedGrainRef.value else proof.expectedGrainRef
  }

  /** The instance whose grain is checked: the one bound to the target, or, where nothing is bound,
      the only one that answers to the name the caller gave. */
  ghost predicate ExpectedAt(refs: seq<EntityRef>, proof: Option<JoinProof>, m: Option<map<string, string>>,
                             expectedGrainRef: Option<string>, k: string) {
    if proof.Some? && m.Some? then k in m.value && m.value[k] == Target(proof.value, expectedGrainRef)
    else expectedGrainRef.Some? && exists r :: OnlyNamed(refs, expectedGrainRef.value, r) && r.ref == k
  }

  method NamedRef(refs: seq<EntityRef>, wanted: string) returns (found: Option<string>)
    requires DistinctRefs(refs)
    ensures found.Some? ==> exists r :: OnlyNamed(refs, wanted, r) && r.ref == found.value
    ensures found.None? ==> forall r :: !OnlyNamed(refs, wanted, r)
  {
    var matches: seq<nat> := [];
    for i := 0 to |refs|
      invariant forall a :: 0 <= a < |matches| ==> matches[a] < i && AnswersTo(refs[matches[a]], wanted)
      invariant forall a, b :: 0 <= a < b < |matches| ==> matches[a] != matches[b]
      invariant forall k :: 0 <= k < i && AnswersTo(refs[k], wanted) ==> k in matches
    {
      if AnswersTo(refs[i], wanted) {
        matches := matches + [i];
      }
    }
    if |matches| == 1 {
      assert OnlyNamed(refs, wanted, refs[matches[0]]);
      return Some(refs[matches[0]].ref);
    }
    if |matches| > 1 {
      assert refs[matches[0]].ref != refs[matches[1]].ref;
    }
    return None;
  }

  method ExpectedSqlRef(refs: seq<EntityRef>, proof: Option<JoinProof>, m: Option<map<string, string>>, expectedGrainRef: Option<string>)
    returns (found: Option<string>)
    requires DistinctRefs(refs)
    ensures found.Some? ==> ExpectedAt(refs, proof, m, expectedGrainRef, found.value)
    ensures found.None? ==> forall k :: !ExpectedAt(refs, proof, m, expectedGrainRef, k)
  {
    if proof.Some? && m.Some? {
      var target := Target(proof.value, expectedGrainRef);
      if target in m.value.Values {
        var k :| k in m.value && m.value[k] == target;
        return Some(k);
      }
      return None;
    }
    if expectedGrainRef.None? {
      return None;
    }
    found := NamedRef(refs, expectedGrainRef.value);
  }

  datatype Outcome = Outcome(
    pass: bool,
    matchedRelationshipIds: seq<string>,
    matchedEvidenceIds: seq<EvidenceId>,
    proofMatched: Option<bool>,
    findings: seq<string>)

  /** Grain and stability hold at this instance. */
  ghost predicate GrainAccepted(refs: seq<EntityRef>, matched: seq<MatchedEdge>, definitions: seq<EntityDefinition>, expected: string) {
    (definitions == [] || StableInstance(refs, expected, definitions)) && GrainOk(expected, matched)
  }

  function MatchedIds(matched: seq<MatchedEdge>): seq<string> {
    Mapped(matched, (e: MatchedEdge) => e.relationship.definition.relationshipId)
  }

  function MatchedEvidence(matched: seq<MatchedEdge>): seq<EvidenceId> {
    Mapped(matched, (e: MatchedEdge) => e.relationship.evidence.evidenceId)
  }

  lemma MatchedEndsNamed(refs: seq<EntityRef>, edges: seq<NormalizedEdge>, graph: seq<Authorized>)
    requires WellFormed(refs, edges)
    ensures EndsNamed(refs, AllMatched(edges, graph))
  {
    var matched := AllMatched(edges, graph);
    forall j | 0 <= j < |matched| ensures matched[j].childRef in RefNames(refs) && matched[j].parentRef in RefNames(refs) {
      var i := PresentMembers(MatchEach(edges, graph), j);
      assert MatchEach(edges, graph)[i] == MatchOne(edges[i], graph);
    }
  }

  /** Grain and stability hold at the checked instance; nothing is asked when there is none. */
  ghost predicate GrainAcceptedFor(refs: seq<EntityRef>, matched: seq<MatchedEdge>, definitions: seq<EntityDefinition>,
                                   proof: Option<JoinProof>, m: Option<map<string, string>>, expectedGrainRef: Option<string>) {
    forall k :: ExpectedAt(refs, proof, m, expectedGrainRef, k) ==> GrainAccepted(refs, matched, definitions, k)
  }

  /** If the walk from the checked instance is reached at all, it ends. */
  ghost predicate WalkDecided(refs: seq<EntityRef>, matched: seq<MatchedEdge>, definitions: seq<EntityDefinition>,
                              proof: Option<JoinProof>, m: Option<map<string, string>>, expectedGrainRef: Option<string>) {
    forall k :: ExpectedAt(refs, proof, m, expectedGrainRef, k) && (definitions == [] || StableInstance(refs, k, definitions)) ==>
      GrainDecided(k, matched)
  }

  method CheckGrain(refs: seq<EntityRef>, matched: seq<MatchedEdge>, proof: Option<JoinProof>, m: Option<map<string, string>>,
                    expectedGrainRef: Option<string>, definitions: seq<EntityDefinition>) returns (ok: bool)
    requires DistinctRefs(refs) && (proof.Some? && m.Some? ==> Injective(m.value))
    requires WalkDecided(refs, matched, definitions, proof, m, expectedGrainRef)
    ensures ok <==> GrainAcceptedFor(refs, matched, definitions, proof, m, expectedGrainRef)
  {
    var expected := ExpectedSqlRef(refs, proof, m, expectedGrainRef);
    if expected.None? {
      return true;
    }
    assert forall k :: ExpectedAt(refs, proof, m, expectedGrainRef, k) ==> k == expected.value;
    if definitions != [] && !StableInstance(refs, expected.value, definitions) {
      return false;
    }
    ok := GrainCompatible(expected.value, matched);
  }

  /** Under a binding the walk always ends: the matched edges are a tree. */
  lemma BoundIsDecided(refs: seq<EntityRef>, matched: seq<MatchedEdge>, proof: JoinProof, m: map<string, string>,
                       definitions: seq<EntityDefinition>, expectedGrainRef: Option<string>)
    requires Binds(refs, matched, proof, m) && ProofIsTree(proof) && EndsNamed(refs, matched)
    ensures WalkDecided(refs, matched, definitions, Some(proof), Some(m), expectedGrainRef)
  {
    BoundIsTree(refs, matched, proof, m);
    forall k | ExpectedAt(refs, Some(proof), Some(m), expectedGrainRef, k) ensures GrainDecided(k, matched) {
      TreeWalkEnds(RefNames(refs), Links(BoundMatched(matched)), k);
    }
  }

  /** Without a proof the check goes on for ever exactly when it comes to walk from the named instance,
      no walk from there multiplies rows, and one ends on a ring of three or more instances. */
  lemma ProoflessEndsExactly(graph: NormalizedGraph, authorized: seq<Authorized>, k: string)
    requires WellFormedGraph(graph)
    ensures var matched := AllMatched(graph.edges, authorized);
      GrainDecided(k, matched) <==>
      !(k !in NullableRefs(matched) && NeverFansOut(k, Links(BoundMatched(matched))) && ReachesRing(Links(BoundMatched(matched)), k))
  {
    var matched := AllMatched(graph.edges, authorized);
    var links := Links(BoundMatched(matched));
    forall l | l in links ensures l.a != l.b {
      var j :| 0 <= j < |links| && links[j] == l;
      var i := PresentMembers(MatchEach(graph.edges, authorized), j);
      assert MatchEach(graph.edges, authorized)[i] == MatchOne(graph.edges[i], authorized);
    }
    NeverEndsOnRings(links, k);
  }

  /** The outcome without a proof: one finding for each unmatched edge, or else the grain's. */
  ghost predicate ProoflessFindings(graph: NormalizedGraph, authorized: seq<Authorized>, expectedGrainRef: Option<string>,
                                    definitions: seq<EntityDefinition>, findings: seq<string>) {
    if Unmatched(graph.edges, authorized) > 0
    then |findings| == Unmatched(graph.edges, authorized) && forall i :: 0 <= i < |findings| ==> findings[i] == "UNSUPPORTED_JOIN_EDGE"
    else findings == if GrainAcceptedFor(graph.entityRefs, AllMatched(graph.edges, authorized), definitions, None, None, expectedGrainRef)
                     then [] else ["GRAIN_INCOMPATIBLE"]
  }

  /** The binding that the check goes by: that of the proof, once every edge is matched. */
  ghost function TakenBinding(graph: NormalizedGraph, authorized: seq<Authorized>, proof: Option<JoinProof>): Option<map<string, string>> {
    if proof.Some? && Unmatched(graph.edges, authorized) == 0
    then FirstBinding(graph.entityRefs, AllMatched(graph.edges, authorized), proof.value) else None
  }

  /** Where validation comes to walk from an instance, the walk ends. */
  ghost predicate ValidationEnds(graph: NormalizedGraph, authorized: seq<Authorized>, proof: Option<JoinProof>, expectedGrainRef: Option<string>,
                                 definitions: seq<EntityDefinition>) {
    var m := TakenBinding(graph, authorized, proof);
    Unmatched(graph.edges, authorized) == 0 && (proof.Some? ==> m.Some?) ==>
      WalkDecided(graph.entityRefs, AllMatched(graph.edges, authorized), definitions, proof, m, expectedGrainRef)
  }

  /** With a proof whose edges are a tree it always ends. */
  lemma TreeProofEnds(graph: NormalizedGraph, authorized: seq<Authorized>, proof: JoinProof, expectedGrainRef: Option<string>,
                      definitions: seq<EntityDefinition>)
    requires WellFormedGraph(graph) && ProofIsTree(proof)
    ensures ValidationEnds(graph, authorized, Some(proof), expectedGrainRef, definitions)
  {
    var m := TakenBinding(graph, authorized, Some(proof));
    if m.Some? {
      FirstBindingBinds(graph.entityRefs, AllMatched(graph.edges, authorized), proof);
      MatchedEndsNamed(graph.entityRefs, graph.edges, authorized);
      BoundIsDecided(graph.entityRefs, AllMatched(graph.edges, authorized), proof, m.value, definitions, expectedGrainRef);
    }
  }

  /** The outcome as a function of the query, the graph and what the caller asks for. */
  ghost function Verdict(graph: NormalizedGraph, authorized: seq<Authorized>, proof: Option<JoinProof>, expectedGrainRef: Option<string>,
                         definitions: seq<EntityDefinition>): Outcome {
    var matched, unmatched := AllMatched(graph.edges, authorized), Unmatched(graph.edges, authorized);
    var m := TakenBinding(graph, authorized, proof);
    var findings :=
      if proof.Some? && m.None? then ["PROOF_GRAPH_MISMATCH"]
      else if unmatched > 0 then seq(unmatched, i => "UNSUPPORTED_JOIN_EDGE")
      else if GrainAcceptedFor(graph.entityRefs, matched, definitions, proof, m, expectedGrainRef) then []
      else ["GRAIN_INCOMPATIBLE"];
    Outcome(findings == [], MatchedIds(matched), MatchedEvidence(matched), if proof.None? then None else Some(m.Some?), findings)
  }

  method ValidateSql(graph: NormalizedGraph, authorized: seq<Authorized>, proof: Option<JoinProof>, expectedGrainRef: Option<string>,
                     definitions: seq<EntityDefinition>)
    returns (out: Outcome)
    requires WellFormedGraph(graph) && (proof.Some? ==> DistinctRefs(proof.value.entityRefs))
    requires ValidationEnds(graph, authorized, proof, expectedGrainRef, definitions)
    ensures out == Verdict(graph, authorized, proof, expectedGrainRef, definitions)
    ensures out.matchedRelationshipIds == MatchedIds(AllMatched(graph.edges, authorized))
    ensures out.matchedEvidenceIds == MatchedEvidence(AllMatched(graph.edges, authorized))
    ensures out.pass <==> out.findings == []
    ensures out.proofMatched.None? <==> proof.None?
    ensures proof.Some? ==> (out.proofMatched.value <==>
      Unmatched(graph.edges, authorized) == 0 && exists m :: Binds(graph.entityRefs, AllMatched(graph.edges, authorized), proof.value, m))
    ensures proof.Some? && !out.proofMatched.value ==> out.findings == ["PROOF_GRAPH_MISMATCH"]
    ensures proof.Some? && out.proofMatched.value ==> exists m ::
      && Binds(graph.entityRefs, AllMatched(graph.edges, authorized), proof.value, m)
      && out.findings ==
         if GrainAcceptedFor(graph.entityRefs, AllMatched(graph.edges, authorized), definitions, proof, Some(m), expectedGrainRef)
         then [] else ["GRAIN_INCOMPATIBLE"]
    ensures proof.None? ==> ProoflessFindings(graph, authorized, expectedGrainRef, definitions, out.findings)
  {
    var matched, findings := MatchEdges(graph.edges, authorized);
    MatchedEndsNamed(graph.entityRefs, graph.edges, authorized);
    var ids, evidence := MatchedIds(matched), MatchedEvidence(matched);
    var mapping: Option<map<string, string>> := None;
    if proof.Some? {
      if findings == [] {
        mapping := ProofMapping(graph.entityRefs, matched, proof.value);
      }
      if mapping.None? {
        return Outcome(false, ids, evidence, Some(false), ["PROOF_GRAPH_MISMATCH"]);
      }
    }
    if findings == [] {
      var ok := CheckGrain(graph.entityRefs, matched, proof, mapping, expectedGrainRef, definitions);
      findings := if ok then [] else ["GRAIN_INCOMPATIBLE"];
    }
    return Outcome(findings == [], ids, evidence, if proof.None? then None else Some(true), findings);
  }
}
