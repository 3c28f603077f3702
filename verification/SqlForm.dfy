/** What the canonical form of a query looks like, and what matching and naming read from it. */
module SqlForm {
  import opened Domain
  import opened Ordering
  import opened Sorting
  import opened Sets
  import opened Bijections
  import opened CandidateEdges
  import opened Planner
  import opened SqlGraph
  import opened InstanceGroups
  import opened SqlCanonical
  import opened SqlMatching
  import opened SqlValidation
  import opened SqlSafety

  // ---------------------------------------------------------------- numbered names

  predicate AllDigits(s: string) {
    forall i :: 0 <= i < |s| ==> '0' <= s[i] <= '9'
  }

  /** The number that a text of digits stands for. */
  function NumberOf(s: string): int {
    if s == "" then 0 else 10 * NumberOf(s[..|s| - 1]) + (s[|s| - 1] as int - '0' as int)
  }

  /** Numbers are written in digits, without leading zeros. */
  lemma {:induction false} DecimalReads(n: nat)
    ensures Decimal(n) != "" && AllDigits(Decimal(n)) && NumberOf(Decimal(n)) == n
    ensures |Decimal(n)| > 1 ==> Decimal(n)[0] != '0'
  {
    if n >= 10 {
      var d := Decimal(n);
      DecimalReads(n / 10);
      assert d[..|d| - 1] == Decimal(n / 10);
      if |Decimal(n / 10)| == 1 { assert NumberOf(Decimal(n / 10)[..0]) == 0; }
    } else {
      assert Decimal(n)[..0] == "";
    }
  }

  // ---------------------------------------------------------------- blocks of names

  /** Each group's values are the next names. */
  ghost predicate Consecutive(groups: seq<Group>, next: nat) {
    groups == [] ||
    (groups[0].values == CanonicalNames(next, |groups[0].values|) && Consecutive(groups[1..], next + |groups[0].values|))
  }

  lemma {:induction false} GroupsAreConsecutive(entities: seq<string>, refs: seq<EntityRef>, next: nat)
    ensures Consecutive(CanonicalGroups(entities, refs, next), next)
  {
    if entities != [] {
      var keys := Instances(refs, entities[0]);
      var rest := CanonicalGroups(entities[1..], refs, next + |keys|);
      GroupsAreConsecutive(entities[1..], refs, next + |keys|);
      FirstConsecutive(Group(entities[0], keys, CanonicalNames(next, |keys|)), rest, next);
    }
  }

  lemma FirstConsecutive(first: Group, rest: seq<Group>, next: nat)
    requires first.values == CanonicalNames(next, |first.values|) && Consecutive(rest, next + |first.values|)
    ensures Consecutive([first] + rest, next)
  {
    assert ([first] + rest)[1..] == rest;
  }

  function Total(groups: seq<Group>): nat {
    if groups == [] then 0 else |groups[0].values| + Total(groups[1..])
  }

  lemma NumberAmong(next: nat, n: nat, k: nat)
    ensures CanonicalName(k) in CanonicalNames(next, n) <==> next <= k < next + n
  {
    var names := CanonicalNames(next, n);
    if next <= k < next + n { assert names[k - next] == CanonicalName(k); }
    if CanonicalName(k) in names {
      var i :| 0 <= i < |names| && names[i] == CanonicalName(k);
      CanonicalNameInjective(next + i, k);
    }
  }

  /** The names given out are the next ones, as many as there are values. */
  lemma {:induction false} NamesGiven(groups: seq<Group>, next: nat, k: nat)
    requires Consecutive(groups, next)
    ensures CanonicalName(k) in AllValues(groups) <==> next <= k < next + Total(groups)
  {
    if groups != [] {
      NumberAmong(next, |groups[0].values|, k);
      NamesGiven(groups[1..], next + |groups[0].values|, k);
    }
  }

  lemma {:induction false} GivenLater(groups: seq<Group>, next: nat, i: nat, k: nat)
    requires Consecutive(groups, next) && i < |groups| && CanonicalName(k) in groups[i].values
    ensures next <= k
  {
    if i == 0 {
      NumberAmong(next, |groups[0].values|, k);
    } else {
      GivenLater(groups[1..], next + |groups[0].values|, i - 1, k);
    }
  }

  /** Earlier groups get smaller numbers. */
  lemma {:induction false} BlocksInOrder(groups: seq<Group>, next: nat, i: nat, j: nat, k: nat, l: nat)
    requires Consecutive(groups, next) && i < j < |groups|
    requires CanonicalName(k) in groups[i].values && CanonicalName(l) in groups[j].values
    ensures k < l
  {
    if i == 0 {
      NumberAmong(next, |groups[0].values|, k);
      GivenLater(groups[1..], next + |groups[0].values|, j - 1, l);
    } else {
      BlocksInOrder(groups[1..], next + |groups[0].values|, i - 1, j - 1, k, l);
    }
  }

  lemma {:induction false} KeysCounted(groups: seq<Group>)
    requires ValidGroups(groups)
    ensures |AllKeys(groups)| == Total(groups)
  {
    if groups != [] {
      KeysCounted(groups[1..]);
      DistinctSize(groups[0].keys);
    }
  }

  lemma TotalIsAll(refs: seq<EntityRef>)
    requires DistinctRefs(refs)
    ensures Total(GroupsOf(refs)) == |refs|
  {
    GroupsOfFacts(refs);
    KeysCounted(GroupsOf(refs));
    NamesAreKeys(refs);
    DistinctExactly(refs);
  }

  lemma NamesOfGroups(refs: seq<EntityRef>, m: map<string, string>, v: string)
    requires DistinctRefs(refs) && Fits(m, GroupsOf(refs))
    ensures v in m.Values <==> v in AllValues(GroupsOf(refs))
  {
    var groups := GroupsOf(refs);
    GroupsOfFacts(refs);
    KeysInGroups(groups, v);
    if i :| 0 <= i < |groups| && v in groups[i].values {
      GroupIsCovered(m, groups, i, v);
    }
    if v in m.Values {
      var k :| k in m && m[k] == v;
      KeysInGroups(groups, k);
      var i :| 0 <= i < |groups| && k in groups[i].keys;
      assert m[k] in groups[i].values;
    }
  }

  lemma StaysInGroup(m: map<string, string>, groups: seq<Group>, i: nat, k: string)
    requires Fits(m, groups) && i < |groups| && k in groups[i].keys
    ensures k in m && At(m, k) in groups[i].values
  {
  }

  /** A renamed instance has a name of its entity's block. */
  lemma BlockOf(refs: seq<EntityRef>, m: map<string, string>, s: EntityRef) returns (i: nat)
    requires DistinctRefs(refs) && Fits(m, GroupsOf(refs)) && s in RenamedRefs(refs, m)
    ensures i < |SortedEntities(refs)| && SortedEntities(refs)[i] == s.entity && s.ref in GroupsOf(refs)[i].values
  {
    var a :| 0 <= a < |refs| && RenamedRefs(refs, m)[a] == s;
    i := InEntities(refs, refs[a]);
    InstancesFacts(refs, s.entity);
    StaysInGroup(m, GroupsOf(refs), i, refs[a].ref);
  }

  /** The instances are called i0, i1 and so on, and entities in order have ascending numbers. */
  ghost predicate NumberedByEntity(refs: seq<EntityRef>, n: nat) {
    && |refs| == n && DistinctRefs(refs)
    && (forall k: nat :: "i" + Decimal(k) in RefNames(refs) <==> k < n)
    && (forall k: nat, l: nat, a, b ::
          (k < l && EntityRef("i" + Decimal(k), a) in refs && EntityRef("i" + Decimal(l), b) in refs) ==> NameLe(a, b))
  }

  lemma SortedEntitiesOrdered(refs: seq<EntityRef>)
    ensures Ordered(SortedEntities(refs), NameLe)
  {
    NameLeIsTotalOrder();
    SortedFacts(EntityNames(refs), NameLe);
  }

  lemma PlacesInOrder(groups: seq<Group>, entities: seq<string>, i: nat, j: nat, k: nat, l: nat)
    requires Consecutive(groups, 0) && |groups| == |entities| && Ordered(entities, NameLe) && k < l
    requires i < |groups| && CanonicalName(k) in groups[i].values && j < |groups| && CanonicalName(l) in groups[j].values
    ensures NameLe(entities[i], entities[j])
  {
    NameLeTotal(entities[i], entities[i]);
    if j < i {
      BlocksInOrder(groups, 0, j, i, l, k);
    }
  }

  lemma EntitiesInOrder(refs: seq<EntityRef>, m: map<string, string>, k: nat, l: nat, a: string, b: string)
    requires DistinctRefs(refs) && Fits(m, GroupsOf(refs)) && k < l
    requires EntityRef(CanonicalName(k), a) in RenamedRefs(refs, m) && EntityRef(CanonicalName(l), b) in RenamedRefs(refs, m)
    ensures NameLe(a, b)
  {
    var i := BlockOf(refs, m, EntityRef(CanonicalName(k), a));
    var j := BlockOf(refs, m, EntityRef(CanonicalName(l), b));
    SortedEntitiesOrdered(refs);
    GroupsAreConsecutive(SortedEntities(refs), refs, 0);
    PlacesInOrder(GroupsOf(refs), SortedEntities(refs), i, j, k, l);
  }

  lemma FormIsNumbered(g: NormalizedGraph, m: map<string, string>)
    requires WellFormedGraph(g) && Fits(m, GroupsOf(g.entityRefs))
    ensures NumberedByEntity(Arranged(g, m).entityRefs, |g.entityRefs|) && Ordered(Arranged(g, m).entityRefs, RefLe)
  {
    var refs := Arranged(g, m).entityRefs;
    GroupsOfFacts(g.entityRefs);
    ArrangedNames(g.entityRefs, m);
    ArrangedRefs(g.entityRefs, m);
    RefLeFacts();
    SortedFacts(RenamedRefs(g.entityRefs, m), RefLe);
    TotalIsAll(g.entityRefs);
    GroupsAreConsecutive(SortedEntities(g.entityRefs), g.entityRefs, 0);
    forall k: nat ensures "i" + Decimal(k) in RefNames(refs) <==> k < |g.entityRefs| {
      NamesOfGroups(g.entityRefs, m, CanonicalName(k));
      NamesGiven(GroupsOf(g.entityRefs), 0, k);
    }
    forall k: nat, l: nat, a, b | k < l && EntityRef("i" + Decimal(k), a) in refs && EntityRef("i" + Decimal(l), b) in refs
      ensures NameLe(a, b)
    {
      EntitiesInOrder(g.entityRefs, m, k, l, a, b);
    }
  }

  // ---------------------------------------------------------------- edges

  /** Pairs compare by their left ends, then by their right ones. */
  predicate PairBefore(p: Pair, q: Pair) {
    if p.0 == q.0 then NameLe(p.1, q.1) else NameLe(p.0, q.0)
  }

  predicate PairsBefore(a: seq<Pair>, b: seq<Pair>) {
    a == [] || (b != [] && if a[0] == b[0] then PairsBefore(a[1..], b[1..]) else PairBefore(a[0], b[0]))
  }

  function KindRank(k: JoinKind): nat {
    match k
    case Inner => 0
    case LeftOuter => 1
    case Unsupported => 2
  }

  /** Edges compare by left instance, right instance, kind and pairs. */
  predicate EdgeBefore(a: NormalizedEdge, b: NormalizedEdge) {
    if a.leftRef != b.leftRef then NameLe(a.leftRef, b.leftRef)
    else if a.rightRef != b.rightRef then NameLe(a.rightRef, b.rightRef)
    else if a.kind != b.kind then KindRank(a.kind) < KindRank(b.kind)
    else PairsBefore(a.pairs, b.pairs)
  }

  lemma PairLeExactly(p: Pair, q: Pair)
    ensures PairLe(p, q) <==> PairBefore(p, q)
  {
    KeyLeFirst(p.0, q.0, [p.1], [q.1]);
    KeyLeFirst(p.1, q.1, [], []);
    NameLeTotal(p.1, q.1);
    assert PairKey(p) == [p.0] + ([p.1] + []) && PairKey(q) == [q.0] + ([q.1] + []);
  }

  lemma FlattenFirst(pairs: seq<Pair>)
    requires pairs != []
    ensures Flatten(pairs) == [pairs[0].0] + ([pairs[0].1] + Flatten(pairs[1..]))
  {
  }

  lemma {:induction false} FlattenOrder(a: seq<Pair>, b: seq<Pair>)
    ensures KeyLe(Flatten(a), Flatten(b)) <==> PairsBefore(a, b)
  {
    if a != [] && b != [] {
      FlattenFirst(a);
      FlattenFirst(b);
      KeyLeFirst(a[0].0, b[0].0, [a[0].1] + Flatten(a[1..]), [b[0].1] + Flatten(b[1..]));
      KeyLeFirst(a[0].1, b[0].1, Flatten(a[1..]), Flatten(b[1..]));
      FlattenOrder(a[1..], b[1..]);
    } else if a != [] {
      FlattenFirst(a);
    }
  }

  lemma KindOrder(a: JoinKind, b: JoinKind)
    requires a != b
    ensures KindName(a) != KindName(b) && (NameLe(KindName(a), KindName(b)) <==> KindRank(a) < KindRank(b))
  {
    if KindName(a) == KindName(b) { KindNameInjective(a, b); }
    assert "inner"[0] == 'i' && "left"[0] == 'l' && "unsupported"[0] == 'u';
  }

  lemma EdgeLeExactly(a: NormalizedEdge, b: NormalizedEdge)
    ensures EdgeLe(a, b) <==> EdgeBefore(a, b)
  {
    var x, y := Flatten(a.pairs), Flatten(b.pairs);
    assert EdgeKey(a) == [a.leftRef] + ([a.rightRef] + ([KindName(a.kind)] + x));
    assert EdgeKey(b) == [b.leftRef] + ([b.rightRef] + ([KindName(b.kind)] + y));
    KeyLeFirst(a.leftRef, b.leftRef, [a.rightRef] + ([KindName(a.kind)] + x), [b.rightRef] + ([KindName(b.kind)] + y));
    KeyLeFirst(a.rightRef, b.rightRef, [KindName(a.kind)] + x, [KindName(b.kind)] + y);
    KeyLeFirst(KindName(a.kind), KindName(b.kind), x, y);
    if a.kind != b.kind { KindOrder(a.kind, b.kind); } else { FlattenOrder(a.pairs, b.pairs); }
  }

  /** An inner edge starts at the smaller instance, and pairs are in order. */
  ghost predicate InStandardForm(e: NormalizedEdge) {
    && (e.kind == Inner ==> NameLe(e.leftRef, e.rightRef))
    && forall i, j :: 0 <= i < j < |e.pairs| ==> PairBefore(e.pairs[i], e.pairs[j])
  }

  lemma WrittenIsStandard(e: NormalizedEdge)
    ensures InStandardForm(Written(e))
  {
    PairLeFacts();
    SortedFacts(e.pairs, PairLe);
    SortedFacts(Mapped(e.pairs, Swap), PairLe);
    NameLeTotal(e.leftRef, e.rightRef);
    var pairs := Written(e).pairs;
    forall i, j | 0 <= i < j < |pairs| ensures PairBefore(pairs[i], pairs[j]) { PairLeExactly(pairs[i], pairs[j]); }
  }

  lemma FormEdges(g: NormalizedGraph, m: map<string, string>)
    ensures var edges := Arranged(g, m).edges;
      && (forall i :: 0 <= i < |edges| ==> InStandardForm(edges[i]))
      && forall i, j :: 0 <= i < j < |edges| ==> EdgeBefore(edges[i], edges[j])
  {
    var remapped, edges := RemappedEdges(g.edges, m), Arranged(g, m).edges;
    EdgeLeFacts();
    SortedFacts(remapped, EdgeLe);
    forall i | 0 <= i < |edges| ensures InStandardForm(edges[i]) {
      assert edges[i] in multiset(remapped);
      var j :| 0 <= j < |remapped| && remapped[j] == edges[i];
      WrittenIsStandard(Rename(g.edges[j], m));
    }
    forall i, j | 0 <= i < j < |edges| ensures EdgeBefore(edges[i], edges[j]) { EdgeLeExactly(edges[i], edges[j]); }
  }

  /** The canonical form of a query with `n` instances: they are called i0 to i(n-1), block by block in the order of
      their entities and listed by name; inner edges start at the smaller name; and pairs and edges are in order. */
  lemma FormExactly(encode: NormalizedGraph -> string, g: NormalizedGraph, form: NormalizedGraph)
    requires WellFormedGraph(g) && IsCanonical(encode, g, form)
    ensures form.sourceId == g.sourceId && NumberedByEntity(form.entityRefs, |g.entityRefs|)
    ensures forall i, j :: 0 <= i < j < |form.entityRefs| ==> NameLe(form.entityRefs[i].ref, form.entityRefs[j].ref)
    ensures forall i :: 0 <= i < |form.edges| ==> InStandardForm(form.edges[i])
    ensures forall i, j :: 0 <= i < j < |form.edges| ==> EdgeBefore(form.edges[i], form.edges[j])
  {
    var m :| Fits(m, GroupsOf(g.entityRefs)) && form == Arranged(g, m);
    FormIsNumbered(g, m);
    FormEdges(g, m);
  }

  // ---------------------------------------------------------------- matching

  /** The pair equates the columns at place `i` of the relationship's two keys, written either way round. */
  predicate EquatesAt(d: Definition, p: Pair, i: nat) {
    && i < |d.child.columns| && i < |d.parent.columns|
    && ((p.0 == ChildName(d, i) && p.1 == ParentName(d, i)) || (p.0 == ParentName(d, i) && p.1 == ChildName(d, i)))
  }

  lemma SamePairEitherWay(a: string, b: string, c: string, d: string)
    ensures CanonicalPair(a, b) == CanonicalPair(c, d) <==> (a == c && b == d) || (a == d && b == c)
  {
    NameLeTotal(a, b);
    NameLeTotal(c, d);
  }

  lemma PairIsExpected(d: Definition, p: Pair)
    requires |d.child.columns| == |d.parent.columns|
    ensures CanonicalPair(p.0, p.1) in ExpectedPairs(d) <==> exists i: nat :: EquatesAt(d, p, i)
  {
    if i: nat :| EquatesAt(d, p, i) {
      SamePairEitherWay(p.0, p.1, ChildName(d, i), ParentName(d, i));
      assert (ChildName(d, i), ParentName(d, i)) in DefinitionPairs(d);
    }
    if CanonicalPair(p.0, p.1) in ExpectedPairs(d) {
      var q :| q in DefinitionPairs(d) && CanonicalPair(q.0, q.1) == CanonicalPair(p.0, p.1);
      var i :| 0 <= i < |d.child.columns| && q == (ChildName(d, i), ParentName(d, i));
      SamePairEitherWay(p.0, p.1, ChildName(d, i), ParentName(d, i));
      assert EquatesAt(d, p, i);
    }
  }

  lemma PairIsObserved(pairs: seq<Pair>, d: Definition, i: nat)
    requires i < |d.child.columns| == |d.parent.columns|
    ensures CanonicalPair(ChildName(d, i), ParentName(d, i)) in Observed(pairs) <==> exists p :: p in pairs && EquatesAt(d, p, i)
  {
    if p :| p in pairs && EquatesAt(d, p, i) {
      SamePairEitherWay(p.0, p.1, ChildName(d, i), ParentName(d, i));
    }
    if CanonicalPair(ChildName(d, i), ParentName(d, i)) in Observed(pairs) {
      var p :| p in pairs && CanonicalPair(p.0, p.1) == CanonicalPair(ChildName(d, i), ParentName(d, i));
      SamePairEitherWay(p.0, p.1, ChildName(d, i), ParentName(d, i));
      assert EquatesAt(d, p, i);
    }
  }

  /** The pair equates two columns that correspond. */
  ghost predicate Equates(d: Definition, p: Pair) {
    exists i: nat :: EquatesAt(d, p, i)
  }

  /** The two columns at place `i` are equated. */
  ghost predicate Equated(pairs: seq<Pair>, d: Definition, i: nat) {
    exists p :: p in pairs && EquatesAt(d, p, i)
  }

  /** An edge matches a relationship exactly when each of its pairs equates two columns that correspond, and each two
      that correspond are equated, in whatever order each pair is written. */
  lemma EdgeMatchesExactly(e: NormalizedEdge, r: Authorized)
    requires |r.definition.child.columns| == |r.definition.parent.columns|
    ensures EdgeMatches(e, r) <==>
      && (forall p :: p in e.pairs ==> Equates(r.definition, p))
      && (forall i: nat :: i < |r.definition.child.columns| ==> Equated(e.pairs, r.definition, i))
  {
    var d := r.definition;
    forall p: Pair ensures CanonicalPair(p.0, p.1) in ExpectedPairs(d) <==> Equates(d, p) { PairIsExpected(d, p); }
    forall i: nat | i < |d.child.columns|
      ensures CanonicalPair(ChildName(d, i), ParentName(d, i)) in Observed(e.pairs) <==> Equated(e.pairs, d, i)
    {
      PairIsObserved(e.pairs, d, i);
    }
    ObservedWithin(e, d);
    ExpectedWithin(e, d);
    assert Observed(e.pairs) == ExpectedPairs(d) <==> Observed(e.pairs) <= ExpectedPairs(d) && ExpectedPairs(d) <= Observed(e.pairs);
  }

  lemma ObservedWithin(e: NormalizedEdge, d: Definition)
    requires |d.child.columns| == |d.parent.columns|
    ensures Observed(e.pairs) <= ExpectedPairs(d) <==> forall p :: p in e.pairs ==> CanonicalPair(p.0, p.1) in ExpectedPairs(d)
  {
    forall p | p in e.pairs ensures CanonicalPair(p.0, p.1) in Observed(e.pairs) {}
  }

  lemma ExpectedWithin(e: NormalizedEdge, d: Definition)
    requires |d.child.columns| == |d.parent.columns|
    ensures ExpectedPairs(d) <= Observed(e.pairs) <==>
      forall i: nat :: i < |d.child.columns| ==> CanonicalPair(ChildName(d, i), ParentName(d, i)) in Observed(e.pairs)
  {
    forall i: nat | i < |d.child.columns| ensures CanonicalPair(ChildName(d, i), ParentName(d, i)) in ExpectedPairs(d) {
      var q := (ChildName(d, i), ParentName(d, i));
      assert q in DefinitionPairs(d) && CanonicalPair(q.0, q.1) in ExpectedPairs(d);
    }
  }

  /** The left instance plays the child exactly when the left ends name the child's columns and nothing else. */
  lemma ChildSideExactly(e: NormalizedEdge, r: Authorized)
    requires e.leftRef != e.rightRef
    ensures MatchEdge(e, r).childRef == e.leftRef <==>
      && (forall p :: p in e.pairs ==> exists c :: c in r.definition.child.columns && p.0 == r.definition.child.entity + "." + c)
      && (forall c :: c in r.definition.child.columns ==> exists p :: p in e.pairs && p.0 == r.definition.child.entity + "." + c)
    ensures {MatchEdge(e, r).childRef, MatchEdge(e, r).parentRef} == {e.leftRef, e.rightRef}
  {
    var d := r.definition;
    forall p | p in e.pairs ensures p.0 in LeftNames(e) {}
    forall c | c in d.child.columns ensures d.child.entity + "." + c in ChildNames(d) {
      assert EndpointName(d.child.entity, c) == d.child.entity + "." + c;
    }
    if LeftNames(e) == ChildNames(d) {
      forall p | p in e.pairs ensures exists c :: c in d.child.columns && p.0 == d.child.entity + "." + c {
        assert p.0 in ChildNames(d);
      }
      forall c | c in d.child.columns ensures exists p :: p in e.pairs && p.0 == d.child.entity + "." + c {
        assert d.child.entity + "." + c in LeftNames(e);
      }
    }
  }

  /** Of what matches the edge, `r` has the least id. */
  ghost predicate BestMatch(e: NormalizedEdge, current: seq<Authorized>, r: Authorized) {
    r in current && EdgeMatches(e, r)
    && forall a :: a in current && EdgeMatches(e, a) ==> NameLe(r.definition.relationshipId, a.definition.relationshipId)
  }

  ghost predicate Reports(e: NormalizedEdge, current: seq<Authorized>, id: string, evidenceId: EvidenceId) {
    exists r :: BestMatch(e, current, r) && id == r.definition.relationshipId && evidenceId == r.evidence.evidenceId
  }

  /** When every edge is matched, the outcome reports for each edge in turn the relationship it was matched to and
      that relationship's evidence. */
  lemma ReportedExactly(graph: NormalizedGraph, current: seq<Authorized>, proof: Option<JoinProof>, expectedGrainRef: Option<string>,
                        definitions: seq<EntityDefinition>)
    requires Unmatched(graph.edges, current) == 0
    ensures var out := Verdict(graph, current, proof, expectedGrainRef, definitions);
      && |out.matchedRelationshipIds| == |out.matchedEvidenceIds| == |graph.edges|
      && forall i :: 0 <= i < |graph.edges| ==> Reports(graph.edges[i], current, out.matchedRelationshipIds[i], out.matchedEvidenceIds[i])
  {
    AllMatchedFacts(graph.edges, current);
    var matched := AllMatched(graph.edges, current);
    var out := Verdict(graph, current, proof, expectedGrainRef, definitions);
    forall i | 0 <= i < |graph.edges|
      ensures Reports(graph.edges[i], current, out.matchedRelationshipIds[i], out.matchedEvidenceIds[i])
    {
      var r := MatchRelationship(graph.edges[i], current).value;
      forall a | a in current && EdgeMatches(graph.edges[i], a) ensures NameLe(r.definition.relationshipId, a.definition.relationshipId) {
        MatchHasLeastId(graph.edges[i], current, a);
      }
      assert BestMatch(graph.edges[i], current, r) && matched[i].relationship == r;
    }
  }

  // ---------------------------------------------------------------- naming an instance

  predicate BehindDot(name: string, part: string, k: nat) {
    k < |name| && name[k] == '.' && name[k + 1..] == part
  }

  /** The whole name, or what stands behind one of its dots, and without a dot itself. */
  ghost predicate IsLastPart(name: string, part: string) {
    '.' !in part && (name == part || exists k: nat :: BehindDot(name, part, k))
  }

  lemma {:induction false} LastPartIsOne(name: string)
    ensures IsLastPart(name, LastPart(name))
  {
    if name != "" {
      var n := |name| - 1;
      if name[n] == '.' {
        assert BehindDot(name, "", n);
      } else {
        LastPartIsOne(name[..n]);
        if name[..n] == LastPart(name[..n]) {
          assert name == LastPart(name);
        } else {
          var k: nat :| BehindDot(name[..n], LastPart(name[..n]), k);
          assert name[k + 1..] == name[..n][k + 1..] + [name[n]];
          assert BehindDot(name, LastPart(name), k);
        }
      }
    }
  }

  lemma OneLastPart(name: string, a: string, b: string)
    requires IsLastPart(name, a) && IsLastPart(name, b) && |a| <= |b|
    ensures a == b
  {
    if name != a {
      var k: nat :| BehindDot(name, a, k);
      var start := |name| - |b|;
      assert name[start..] == b;
      assert forall t :: start <= t < |name| ==> name[t] == b[t - start];
      assert k < start;
      assert k + 1 == start;
    }
  }

  /** An instance is also called by the one dotless part of its entity's name that is all of it or follows a dot. */
  lemma LastPartExactly(name: string, part: string)
    ensures part == LastPart(name) <==> IsLastPart(name, part)
  {
    LastPartIsOne(name);
    if IsLastPart(name, part) {
      if |part| <= |LastPart(name)| { OneLastPart(name, part, LastPart(name)); } else { OneLastPart(name, LastPart(name), part); }
    }
  }

  /** The names an instance answers to are its own, its entity's, and the last part of that. */
  lemma AnswersExactly(r: EntityRef, wanted: string)
    ensures AnswersTo(r, wanted) <==> wanted == r.ref || wanted == r.entity || IsLastPart(r.entity, wanted)
  {
    LastPartExactly(r.entity, wanted);
  }
}
