/** A query may be bound to a proof in several ways; the walk from the instance bound to the target is safe
    under all of them or under none. */
module AnyBinding {
  import opened Domain
  import opened Ordering
  import opened Sorting
  import opened Relational
  import opened Evidence
  import opened Bijections
  import opened GrainWalk
  import opened JoinSafety
  import opened Planner
  import opened PlanSafety
  import opened SqlGraph
  import opened InstanceGroups
  import opened SqlMatching
  import opened SqlValidation

  // ---------------------------------------------------------------- links under other names

  lemma RenamedWalk(a: seq<Link>, b: seq<Link>, f: map<string, string>, w: seq<string>)
    requires Injective(f) && Walk(a, w) && (forall k :: 0 <= k < |w| ==> w[k] in f)
    requires forall l :: l in a ==> l.a in f && l.b in f && Link(f[l.a], f[l.b], l.ab, l.ba) in b
    ensures Walk(b, seq(|w|, k requires 0 <= k < |w| => f[w[k]]))
  {
    var v := seq(|w|, k requires 0 <= k < |w| => f[w[k]]);
    forall k | 0 <= k < |v| - 1 ensures Joined(b, v[k], v[k + 1]) {
      assert Joined(a, w[k], w[k + 1]);
      var bound :| Step(a, w[k], w[k + 1], bound);
      RenamedStep(a, b, f, w[k], w[k + 1], bound);
    }
    forall k | 0 <= k < |v| - 2 ensures v[k] != v[k + 2] {
      assert w[k] != w[k + 2];
    }
  }

  lemma RenamedStep(a: seq<Link>, b: seq<Link>, f: map<string, string>, x: string, y: string, bound: int)
    requires Step(a, x, y, bound) && forall l :: l in a ==> l.a in f && l.b in f && Link(f[l.a], f[l.b], l.ab, l.ba) in b
    ensures x in f && y in f && Step(b, f[x], f[y], bound)
  {
    var l :| l in a && ((l.a == x && l.b == y && l.ab == bound) || (l.b == x && l.a == y && l.ba == bound));
    assert Link(f[l.a], f[l.b], l.ab, l.ba) in b;
  }

  lemma WalkIsNamed(a: seq<Link>, f: map<string, string>, w: seq<string>)
    requires Walk(a, w) && w[0] in f && forall l :: l in a ==> l.a in f && l.b in f
    ensures forall k :: 0 <= k < |w| ==> w[k] in f
  {
    forall k | 0 < k < |w| ensures w[k] in f {
      assert Joined(a, w[k - 1], w[k - 1 + 1]);
      var bound :| Step(a, w[k - 1], w[k], bound);
    }
  }

  /** Safety comes back along an injective renaming of the links. */
  lemma SafetyRenamed(a: seq<Link>, b: seq<Link>, f: map<string, string>, start: string)
    requires Injective(f) && start in f && NeverFansOut(f[start], b)
    requires forall l :: l in a ==> l.a in f && l.b in f && Link(f[l.a], f[l.b], l.ab, l.ba) in b
    ensures NeverFansOut(start, a)
  {
    forall w, bound | EndsWith(a, start, w, bound) ensures bound <= 1 {
      WalkIsNamed(a, f, w);
      RenamedWalk(a, b, f, w);
      RenamedStep(a, b, f, w[|w| - 2], w[|w| - 1], bound);
      assert EndsWith(b, f[start], seq(|w|, k requires 0 <= k < |w| => f[w[k]]), bound);
    }
  }

  // ---------------------------------------------------------------- the proof's links, bounded by current evidence

  /** The relationship of this id. */
  function ById(current: seq<Authorized>, id: string): Option<Authorized> {
    if current == [] then None
    else if current[0].definition.relationshipId == id then Some(current[0])
    else ById(current[1..], id)
  }

  lemma {:induction false} ByIdFinds(current: seq<Authorized>, i: nat)
    requires DistinctRelationships(current) && i < |current|
    ensures ById(current, current[i].definition.relationshipId) == Some(current[i])
  {
    if i > 0 {
      forall j, k | 0 <= j < k < |current[1..]| ensures current[1..][j].definition.relationshipId != current[1..][k].definition.relationshipId {
        assert current[j + 1].definition.relationshipId != current[k + 1].definition.relationshipId;
      }
      ByIdFinds(current[1..], i - 1);
    }
  }

  function TripleLink(current: seq<Authorized>, t: seq<string>): Link {
    if |t| == 3 && ById(current, t[0]).Some?
    then LinkOf(BoundEdge(ById(current, t[0]).value, t[1], t[2])) else Link("", "", 0, 0)
  }

  function ProofLinks(current: seq<Authorized>, p: JoinProof): seq<Link> {
    Mapped(ProofTriples(p.edges), (t: seq<string>) => TripleLink(current, t))
  }

  ghost predicate FromCurrent(matched: seq<MatchedEdge>, current: seq<Authorized>) {
    forall i :: 0 <= i < |matched| ==> matched[i].relationship in current
  }

  function RenamedLink(l: Link, m: map<string, string>): Link {
    Link(At(m, l.a), At(m, l.b), l.ab, l.ba)
  }

  /** Under a binding the query's links are the proof's. */
  lemma BoundLinksAreProofs(refs: seq<EntityRef>, matched: seq<MatchedEdge>, current: seq<Authorized>, p: JoinProof, m: map<string, string>)
    requires Binds(refs, matched, p, m) && FromCurrent(matched, current) && DistinctRelationships(current)
    ensures multiset(Mapped(Links(BoundMatched(matched)), (l: Link) => RenamedLink(l, m))) == multiset(ProofLinks(current, p))
  {
    var f := (t: seq<string>) => TripleLink(current, t);
    MappedTogether(SqlTriples(matched, m), ProofTriples(p.edges), f);
    var renamed := Mapped(Links(BoundMatched(matched)), (l: Link) => RenamedLink(l, m));
    forall i | 0 <= i < |matched| ensures Mapped(SqlTriples(matched, m), f)[i] == renamed[i] {
      var j :| 0 <= j < |current| && current[j] == matched[i].relationship;
      ByIdFinds(current, j);
    }
    assert Mapped(SqlTriples(matched, m), f) == renamed;
  }

  /** The same, link by link and both ways. */
  ghost predicate LinksBound(links: seq<Link>, proofLinks: seq<Link>, m: map<string, string>) {
    && (forall l :: l in links ==> l.a in m && l.b in m && Link(m[l.a], m[l.b], l.ab, l.ba) in proofLinks)
    && (forall b :: b in proofLinks ==> exists l :: l in links && l.a in m && l.b in m && b == Link(m[l.a], m[l.b], l.ab, l.ba))
  }

  lemma RenamedLinksBound(links: seq<Link>, proofLinks: seq<Link>, m: map<string, string>)
    requires multiset(Mapped(links, (l: Link) => RenamedLink(l, m))) == multiset(proofLinks)
    requires forall l :: l in links ==> l.a in m && l.b in m
    ensures LinksBound(links, proofLinks, m)
  {
    var renamed := Mapped(links, (l: Link) => RenamedLink(l, m));
    forall l | l in links ensures Link(m[l.a], m[l.b], l.ab, l.ba) in proofLinks {
      var i :| 0 <= i < |links| && links[i] == l;
      assert renamed[i] in multiset(proofLinks);
    }
    forall b | b in proofLinks ensures exists l :: l in links && l.a in m && l.b in m && b == Link(m[l.a], m[l.b], l.ab, l.ba) {
      assert b in multiset(renamed);
      var i :| 0 <= i < |renamed| && renamed[i] == b;
      assert links[i] in links;
    }
  }

  lemma LinksAreBound(refs: seq<EntityRef>, matched: seq<MatchedEdge>, current: seq<Authorized>, p: JoinProof, m: map<string, string>)
    requires Binds(refs, matched, p, m) && EndsNamed(refs, matched) && FromCurrent(matched, current) && DistinctRelationships(current)
    ensures LinksBound(Links(BoundMatched(matched)), ProofLinks(current, p), m)
  {
    BoundLinksAreProofs(refs, matched, current, p, m);
    forall l | l in Links(BoundMatched(matched)) ensures l.a in m && l.b in m {
      var i :| 0 <= i < |matched| && Links(BoundMatched(matched))[i] == l;
      assert matched[i].childRef in RefNames(refs) && matched[i].parentRef in RefNames(refs);
    }
    RenamedLinksBound(Links(BoundMatched(matched)), ProofLinks(current, p), m);
  }

  lemma SafeOnProof(links: seq<Link>, proofLinks: seq<Link>, m: map<string, string>, k: string)
    requires LinksBound(links, proofLinks, m) && Injective(m) && k in m && NeverFansOut(k, links)
    ensures NeverFansOut(m[k], proofLinks)
  {
    var back := Inverse(m);
    forall b | b in proofLinks ensures b.a in back && b.b in back && Link(back[b.a], back[b.b], b.ab, b.ba) in links {
      var l :| l in links && l.a in m && l.b in m && b == Link(m[l.a], m[l.b], l.ab, l.ba);
      assert m[l.a] in m.Values && m[l.b] in m.Values;
      assert Link(back[b.a], back[b.b], b.ab, b.ba) == l;
    }
    InverseIsInjective(m);
    SafetyRenamed(proofLinks, links, back, m[k]);
  }

  lemma InverseIsInjective(m: map<string, string>)
    ensures Injective(Inverse(m))
  {
  }

  /** If the walk from the instance bound to the target is safe under one binding, it is under every other. */
  lemma SafeUnderAny(refs: seq<EntityRef>, matched: seq<MatchedEdge>, current: seq<Authorized>, p: JoinProof,
                     m: map<string, string>, k: string, other: map<string, string>, j: string)
    requires Binds(refs, matched, p, m) && Binds(refs, matched, p, other) && EndsNamed(refs, matched)
    requires FromCurrent(matched, current) && DistinctRelationships(current)
    requires k in m && j in other && m[k] == other[j] && NeverFansOut(k, Links(BoundMatched(matched)))
    ensures NeverFansOut(j, Links(BoundMatched(matched)))
  {
    var links, proofLinks := Links(BoundMatched(matched)), ProofLinks(current, p);
    LinksAreBound(refs, matched, current, p, m);
    LinksAreBound(refs, matched, current, p, other);
    SafeOnProof(links, proofLinks, m, k);
    SafetyRenamed(links, proofLinks, other, j);
  }

  // ---------------------------------------------------------------- the service's graph names each relationship once

  function IdOf(a: Authorized): string { a.definition.relationshipId }

  lemma {:induction false} KeptIdsDistinct(seeds: seq<Seed>, records: map<string, EvidenceRecord>, snapshotId: string, policy: string)
    requires DistinctSeeds(seeds)
    ensures Distinct(Mapped(Kept(seeds, records, snapshotId, policy), IdOf))
  {
    if seeds != [] {
      var n := |seeds| - 1;
      var before := Kept(seeds[..n], records, snapshotId, policy);
      KeptIdsDistinct(seeds[..n], records, snapshotId, policy);
      forall a | a in before ensures IdOf(a) != seeds[n].definition.relationshipId {
        KeptMembers(seeds[..n], records, snapshotId, policy, a);
      }
    }
  }

  /** The graph authorised from distinct seeds, whatever the evidence, has no relationship id twice. */
  lemma AuthorizedIsDistinct(seeds: seq<Seed>, evidence: seq<EvidenceRecord>, snapshotId: string, policy: string)
    requires DistinctSeeds(seeds)
    ensures DistinctRelationships(AuthorizedGraph(seeds, evidence, snapshotId, policy))
  {
    var kept := Kept(seeds, LastRecords(evidence), snapshotId, policy);
    KeptIdsDistinct(seeds, LastRecords(evidence), snapshotId, policy);
    RelationshipLeIsTotalPreorder();
    SortedFacts(kept, RelationshipLe);
    var sorted := Sorted(kept, RelationshipLe);
    MappedTogether(kept, sorted, IdOf);
    DistinctPermutation(Mapped(kept, IdOf), Mapped(sorted, IdOf));
    forall i, j | 0 <= i < j < |sorted| ensures sorted[i].definition.relationshipId != sorted[j].definition.relationshipId {
      assert Mapped(sorted, IdOf)[i] != Mapped(sorted, IdOf)[j];
    }
  }
}
