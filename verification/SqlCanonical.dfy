/** The canonical form of a join graph: the least encoding over all renamings of its instances. */
module SqlCanonical {
  import opened Domain
  import opened Ordering
  import opened Sorting
  import opened Sets
  import opened Bijections
  import opened SqlGraph
  import opened InstanceGroups

  function KindName(k: JoinKind): string {
    match k
    case Inner => "inner"
    case LeftOuter => "left"
    case Unsupported => "unsupported"
  }

  function Flatten(pairs: seq<Pair>): seq<string> {
    if pairs == [] then [] else [pairs[0].0, pairs[0].1] + Flatten(pairs[1..])
  }

  function EdgeKey(e: NormalizedEdge): seq<string> {
    [e.leftRef, e.rightRef, KindName(e.kind)] + Flatten(e.pairs)
  }

  predicate EdgeLe(a: NormalizedEdge, b: NormalizedEdge) { KeyLe(EdgeKey(a), EdgeKey(b)) }

  lemma {:induction false} FlattenInjective(a: seq<Pair>, b: seq<Pair>)
    requires Flatten(a) == Flatten(b)
    ensures a == b
  {
    if a != [] && b != [] {
      assert Flatten(a)[0] == Flatten(b)[0] && Flatten(a)[1] == Flatten(b)[1];
      assert Flatten(a)[2..] == Flatten(a[1..]) && Flatten(b)[2..] == Flatten(b[1..]);
      FlattenInjective(a[1..], b[1..]);
      assert a == [a[0]] + a[1..] && b == [b[0]] + b[1..];
    }
  }

  lemma EdgeKeyInjective(a: NormalizedEdge, b: NormalizedEdge)
    requires EdgeKey(a) == EdgeKey(b)
    ensures a == b
  {
    assert EdgeKey(a)[0] == EdgeKey(b)[0] && EdgeKey(a)[1] == EdgeKey(b)[1] && EdgeKey(a)[2] == EdgeKey(b)[2];
    assert EdgeKey(a)[3..] == Flatten(a.pairs) && EdgeKey(b)[3..] == Flatten(b.pairs);
    FlattenInjective(a.pairs, b.pairs);
    KindNameInjective(a.kind, b.kind);
  }

  lemma KindNameInjective(a: JoinKind, b: JoinKind)
    requires KindName(a) == KindName(b)
    ensures a == b
  {
    assert |"inner"| == 5 && |"left"| == 4 && |"unsupported"| == 11;
  }

  lemma EdgeLeFacts()
    ensures TotalPreorder(EdgeLe) && forall a, b :: EdgeLe(a, b) && EdgeLe(b, a) ==> a == b
  {
    ComparedByKey(EdgeLe, EdgeKey);
    forall a, b | EdgeLe(a, b) && EdgeLe(b, a) ensures a == b {
      EdgeKeyInjective(a, b);
    }
  }

  function RenamedRefs(refs: seq<EntityRef>, m: map<string, string>): (r: seq<EntityRef>)
    ensures |r| == |refs| && forall i :: 0 <= i < |refs| ==> r[i] == EntityRef(At(m, refs[i].ref), refs[i].entity)
  {
    seq(|refs|, i requires 0 <= i < |refs| => EntityRef(At(m, refs[i].ref), refs[i].entity))
  }

  function RemappedEdges(edges: seq<NormalizedEdge>, m: map<string, string>): (r: seq<NormalizedEdge>)
    ensures |r| == |edges| && forall i :: 0 <= i < |edges| ==> r[i] == Remap(edges[i], m)
  {
    seq(|edges|, i requires 0 <= i < |edges| => Remap(edges[i], m))
  }

  /** The graph under one renaming. */
  function Arranged(g: NormalizedGraph, m: map<string, string>): NormalizedGraph {
    NormalizedGraph(g.sourceId, Sorted(RenamedRefs(g.entityRefs, m), RefLe), Sorted(RemappedEdges(g.edges, m), EdgeLe))
  }

  ghost predicate WellFormedGraph(g: NormalizedGraph) {
    WellFormed(g.entityRefs, g.edges)
  }

  /** `best` is an arrangement of `g` with the least encoding among all arrangements. */
  ghost predicate IsCanonical(encode: NormalizedGraph -> string, g: NormalizedGraph, best: NormalizedGraph) {
    && (exists m :: Fits(m, GroupsOf(g.entityRefs)) && best == Arranged(g, m))
    && (forall m :: Fits(m, GroupsOf(g.entityRefs)) ==> NameLe(encode(best), encode(Arranged(g, m))))
  }

  lemma {:induction false} SomethingFits(groups: seq<Group>) returns (m: map<string, string>)
    requires ValidGroups(groups)
    ensures Fits(m, groups)
  {
    if groups == [] {
      m := map[];
    } else {
      var b := SomethingFits(groups[1..]);
      ZipIsMatching(groups[0], groups[0].keys, groups[0].values);
      FitsJoins(Zip(groups[0].keys, groups[0].values), b, groups);
      m := Zip(groups[0].keys, groups[0].values) + b;
    }
  }

  /** All renamings: one list of choices per entity, then their product. */
  method Renamings(groups: seq<Group>) returns (combinations: seq<map<string, string>>)
    requires ValidGroups(groups) && forall i :: 0 <= i < |groups| ==> ValidGroup(groups[i])
    ensures forall m :: m in combinations <==> Fits(m, groups)
    ensures combinations != []
  {
    var choices: seq<seq<map<string, string>>> := [];
    for i := 0 to |groups|
      invariant |choices| == i && forall j :: 0 <= j < i ==> choices[j] == ByKeys(groups[j])
    {
      choices := choices + [ByKeys(groups[i])];
    }
    combinations := Product(choices);
    forall i, a | 0 <= i < |groups| ensures a in choices[i] <==> Matching(a, groups[i]) {
      ByKeysExactly(groups[i], a);
    }
    forall m ensures m in combinations <==> Fits(m, groups) {
      ProductExactly(choices, groups, m);
    }
    ghost var some := SomethingFits(groups);
    assert some in combinations;
  }

  method CanonicalizeInstances(encode: NormalizedGraph -> string, g: NormalizedGraph) returns (best: NormalizedGraph)
    requires WellFormedGraph(g)
    ensures IsCanonical(encode, g, best)
  {
    GroupsOfFacts(g.entityRefs);
    var combinations := Renamings(GroupsOf(g.entityRefs));
    var chosen := combinations[0];
    best := Arranged(g, chosen);
    var bestBytes := encode(best);
    NameLeTotal(bestBytes, bestBytes);
    for i := 1 to |combinations|
      invariant chosen in combinations && best == Arranged(g, chosen) && bestBytes == encode(best)
      invariant NoneBelow(encode, g, combinations[..i], bestBytes)
    {
      var candidate := Arranged(g, combinations[i]);
      var body := encode(candidate);
      StillNoneBelow(encode, g, combinations, i, bestBytes, body);
      if !NameLe(bestBytes, body) {
        best, bestBytes, chosen := candidate, body, combinations[i];
      }
    }
    assert combinations[..|combinations|] == combinations;
  }

  ghost predicate NoneBelow(encode: NormalizedGraph -> string, g: NormalizedGraph, combinations: seq<map<string, string>>, bytes: string) {
    forall m :: m in combinations ==> NameLe(bytes, encode(Arranged(g, m)))
  }

  lemma StillNoneBelow(encode: NormalizedGraph -> string, g: NormalizedGraph, combinations: seq<map<string, string>>, i: nat, bytes: string, body: string)
    requires i < |combinations| && NoneBelow(encode, g, combinations[..i], bytes) && body == encode(Arranged(g, combinations[i]))
    ensures NoneBelow(encode, g, combinations[..i + 1], if NameLe(bytes, body) then bytes else body)
  {
    NameLeTotal(bytes, body);
    NameLeTotal(body, body);
    assert combinations[..i + 1] == combinations[..i] + [combinations[i]];
    forall m | m in combinations[..i + 1]
      ensures NameLe(if NameLe(bytes, body) then bytes else body, encode(Arranged(g, m)))
    {
      if m in combinations[..i] && !NameLe(bytes, body) {
        NameLeTransitive(body, bytes, encode(Arranged(g, m)));
      }
    }
  }

  // ---------------------------------------------------------------- isomorphism

  function Readings(edges: seq<NormalizedEdge>, f: map<string, string>): (r: seq<Reading>)
    ensures |r| == |edges| && forall i :: 0 <= i < |edges| ==> r[i] == ReadingOf(Rename(edges[i], f))
  {
    seq(|edges|, i requires 0 <= i < |edges| => ReadingOf(Rename(edges[i], f)))
  }

  /** `f` turns the edges of `g` into those of `h`, up to their order and to how each is written. */
  ghost predicate SameEdges(f: map<string, string>, g: seq<NormalizedEdge>, h: seq<NormalizedEdge>) {
    multiset(Readings(g, f)) == multiset(Readings(h, map[]))
  }

  ghost predicate Isomorphic(g: NormalizedGraph, h: NormalizedGraph) {
    g.sourceId == h.sourceId &&
    exists f :: Renames(f, g.entityRefs, h.entityRefs) && SameEdges(f, g.edges, h.edges)
  }

  // ---------------------------------------------------------------- corresponding renamings

  function Compose(h: map<string, string>, f: map<string, string>): map<string, string> {
    map k | k in f :: At(h, f[k])
  }

  lemma {:induction false} ImageSize(s: set<string>, f: map<string, string>)
    requires s <= f.Keys && Injective(f)
    ensures |set k | k in s :: At(f, k)| == |s|
  {
    var image := set k | k in s :: At(f, k);
    if s != {} {
      var x :| x in s;
      var rest := set k | k in s - {x} :: At(f, k);
      ImageSize(s - {x}, f);
      assert image == rest + {At(f, x)};
      assert At(f, x) !in rest;
    } else {
      assert image == {};
    }
  }

  lemma RenamedInstance(f: map<string, string>, from: seq<EntityRef>, to: seq<EntityRef>, name: string, entity: string)
    requires Renames(f, from, to) && DistinctRefs(from) && DistinctRefs(to) && name in f
    ensures EntityRef(name, entity) in from <==> EntityRef(f[name], entity) in to
  {
    var r :| r in from && r.ref == name;
    assert EntityRef(f[name], r.entity) in to;
    if EntityRef(f[name], entity) in to {
      OneEntity(to, EntityRef(f[name], entity), EntityRef(f[name], r.entity));
    }
  }

  /** A renaming keeps the number of instances of each entity. */
  lemma SameCounts(f: map<string, string>, from: seq<EntityRef>, to: seq<EntityRef>, entity: string)
    requires Renames(f, from, to) && DistinctRefs(from) && DistinctRefs(to)
    ensures |Instances(from, entity)| == |Instances(to, entity)|
  {
    InstancesFacts(from, entity);
    InstancesFacts(to, entity);
    var a, b := Elements(Instances(from, entity)), Elements(Instances(to, entity));
    DistinctSize(Instances(from, entity));
    DistinctSize(Instances(to, entity));
    assert a <= f.Keys;
    ImageSize(a, f);
    var image := set k | k in a :: At(f, k);
    forall y ensures y in image <==> y in b {
      if y in image {
        var k :| k in a && At(f, k) == y;
        RenamedInstance(f, from, to, k, entity);
      }
      if y in b {
        assert y in RefNames(to);
        var k :| k in f && f[k] == y;
        RenamedInstance(f, from, to, k, entity);
        assert k in a && At(f, k) == y;
      }
    }
    assert image == b;
  }

  lemma SameEntities(f: map<string, string>, from: seq<EntityRef>, to: seq<EntityRef>)
    requires Renames(f, from, to) && DistinctRefs(from) && DistinctRefs(to)
    ensures SortedEntities(from) == SortedEntities(to)
  {
    EntityNamesFacts(from);
    EntityNamesFacts(to);
    forall e ensures e in Elements(EntityNames(from)) <==> e in Elements(EntityNames(to)) {
      if r :| r in from && r.entity == e {
        assert EntityRef(At(f, r.ref), r.entity) in to;
      }
      if s :| s in to && s.entity == e {
        assert s.ref in RefNames(to);
        var k :| k in f && f[k] == s.ref;
        RenamedInstance(f, from, to, k, e);
      }
    }
    assert Elements(EntityNames(from)) == Elements(EntityNames(to));
    DistinctMultiset(EntityNames(from));
    DistinctMultiset(EntityNames(to));
    NameLeIsTotalOrder();
    SortedPermutation(EntityNames(from), EntityNames(to), NameLe);
  }

  lemma {:induction false} SameBlocks(entities: seq<string>, from: seq<EntityRef>, to: seq<EntityRef>, next: nat, i: nat)
    requires forall e :: |Instances(from, e)| == |Instances(to, e)|
    requires i < |entities|
    ensures CanonicalGroups(entities, from, next)[i].values == CanonicalGroups(entities, to, next)[i].values
  {
    var count := |Instances(from, entities[0])|;
    assert CanonicalGroups(entities, from, next)[0].values == CanonicalNames(next, count);
    if i > 0 {
      SameBlocks(entities[1..], from, to, next + |Instances(from, entities[0])|, i - 1);
    }
  }

  /** The same entities in the same order, with the same values to be given out. */
  ghost predicate SameShape(a: seq<Group>, b: seq<Group>) {
    |a| == |b| && forall i :: 0 <= i < |a| ==> a[i].entity == b[i].entity && a[i].values == b[i].values
  }

  lemma SameGroups(f: map<string, string>, from: seq<EntityRef>, to: seq<EntityRef>)
    requires Renames(f, from, to) && DistinctRefs(from) && DistinctRefs(to)
    ensures SameShape(GroupsOf(from), GroupsOf(to))
  {
    SameEntities(f, from, to);
    forall e ensures |Instances(from, e)| == |Instances(to, e)| { SameCounts(f, from, to, e); }
    forall i | 0 <= i < |GroupsOf(from)| ensures GroupsOf(from)[i].values == GroupsOf(to)[i].values {
      SameBlocks(SortedEntities(from), from, to, 0, i);
    }
  }

  lemma ComposeInjective(f: map<string, string>, h: map<string, string>)
    requires Injective(f) && Injective(h) && f.Values == h.Keys
    ensures Injective(Compose(h, f)) && Compose(h, f).Keys == f.Keys
  {
    var m := Compose(h, f);
    forall a, b | a in m && b in m && m[a] == m[b] ensures a == b {
      assert f[a] in f.Values && f[b] in f.Values;
    }
  }

  /** `f` carries the keys of each group to those of its counterpart. */
  ghost predicate Carries(f: map<string, string>, from: seq<Group>, to: seq<Group>) {
    forall i, k :: 0 <= i < |from| && k in from[i].keys ==> i < |to| && k in f && f[k] in to[i].keys
  }

  lemma ComposeFitsGroups(f: map<string, string>, h: map<string, string>, from: seq<Group>, to: seq<Group>)
    requires SameShape(from, to) && Carries(f, from, to) && Fits(h, to) && Injective(f) && f.Values == h.Keys && f.Keys == AllKeys(from)
    ensures Fits(Compose(h, f), from)
  {
    ComposeInjective(f, h);
    forall i, k | 0 <= i < |from| && k in from[i].keys ensures k in Compose(h, f) && Compose(h, f)[k] in from[i].values {
      assert f[k] in to[i].keys;
    }
  }

  /** The groups' keys are the instances of their entities. */
  ghost predicate Lists(refs: seq<EntityRef>, groups: seq<Group>) {
    forall i, k :: 0 <= i < |groups| ==> (k in groups[i].keys <==> EntityRef(k, groups[i].entity) in refs)
  }

  lemma GroupsOfList(refs: seq<EntityRef>)
    requires DistinctRefs(refs)
    ensures Lists(refs, GroupsOf(refs))
  {
    var entities := SortedEntities(refs);
    forall i | 0 <= i < |GroupsOf(refs)|
      ensures forall k :: k in GroupsOf(refs)[i].keys <==> EntityRef(k, GroupsOf(refs)[i].entity) in refs
    {
      InstancesFacts(refs, entities[i]);
    }
  }

  lemma RenamesCarries(f: map<string, string>, from: seq<EntityRef>, to: seq<EntityRef>, a: seq<Group>, b: seq<Group>)
    requires Renames(f, from, to) && DistinctRefs(from) && DistinctRefs(to)
    requires Lists(from, a) && Lists(to, b) && SameShape(a, b)
    ensures Carries(f, a, b)
  {
    forall i, k | 0 <= i < |a| && k in a[i].keys ensures i < |b| && k in f && f[k] in b[i].keys {
      assert k in RefNames(from);
      RenamedInstance(f, from, to, k, a[i].entity);
    }
  }

  lemma ComposeFits(f: map<string, string>, h: map<string, string>, from: seq<EntityRef>, to: seq<EntityRef>)
    requires Renames(f, from, to) && DistinctRefs(from) && DistinctRefs(to) && Fits(h, GroupsOf(to))
    ensures Fits(Compose(h, f), GroupsOf(from))
  {
    GroupsOfFacts(from);
    GroupsOfFacts(to);
    SameGroups(f, from, to);
    GroupsOfList(from);
    GroupsOfList(to);
    RenamesCarries(f, from, to, GroupsOf(from), GroupsOf(to));
    ComposeFitsGroups(f, h, GroupsOf(from), GroupsOf(to));
  }

  /** The inverse of a renaming renames back. */
  lemma InverseRenames(f: map<string, string>, from: seq<EntityRef>, to: seq<EntityRef>)
    requires Renames(f, from, to) && DistinctRefs(from) && DistinctRefs(to)
    ensures Renames(Inverse(f), to, from)
  {
    var inv := Inverse(f);
    assert inv.Values == RefNames(from) by {
      forall k | k in RefNames(from) ensures k in inv.Values { assert inv[f[k]] == k && f[k] in inv; }
    }
    forall s | s in to ensures EntityRef(At(inv, s.ref), s.entity) in from {
      assert s.ref in RefNames(to);
      RenamedInstance(f, from, to, inv[s.ref], s.entity);
    }
  }

  lemma ComposeBack(f: map<string, string>, m: map<string, string>)
    requires Injective(f) && f.Keys == m.Keys
    ensures Compose(Compose(m, Inverse(f)), f) == m
  {
    var h := Compose(m, Inverse(f));
    forall k | k in m ensures k in Compose(h, f) && Compose(h, f)[k] == m[k] {
      assert f[k] in Inverse(f) && Inverse(f)[f[k]] == k;
      assert h[f[k]] == m[k];
    }
  }

  lemma DivideFits(f: map<string, string>, m: map<string, string>, from: seq<EntityRef>, to: seq<EntityRef>)
    requires Renames(f, from, to) && DistinctRefs(from) && DistinctRefs(to) && Fits(m, GroupsOf(from))
    ensures Fits(Compose(m, Inverse(f)), GroupsOf(to)) && Compose(Compose(m, Inverse(f)), f) == m
  {
    InverseRenames(f, from, to);
    ComposeFits(Inverse(f), m, to, from);
    GroupsOfFacts(from);
    ComposeBack(f, m);
  }

  // ---------------------------------------------------------------- corresponding arrangements

  /** Renaming the instances of one list gives the other, up to order. */
  lemma RenamedTogether(f: map<string, string>, from: seq<EntityRef>, to: seq<EntityRef>)
    requires Renames(f, from, to) && DistinctRefs(from) && DistinctRefs(to)
    ensures multiset(RenamedRefs(from, f)) == multiset(to)
  {
    var middle := RenamedRefs(from, f);
    forall i, j | 0 <= i < j < |middle| ensures middle[i] != middle[j] {
      assert from[i] in from && from[j] in from;
      assert from[i].ref in f && from[j].ref in f;
    }
    forall e ensures e in Elements(middle) <==> e in Elements(to) {
      if e in Elements(middle) {
        var i :| 0 <= i < |middle| && middle[i] == e;
        assert from[i] in from;
      }
      if e in Elements(to) {
        assert e.ref in RefNames(to);
        var n :| n in f && f[n] == e.ref;
        RenamedInstance(f, from, to, n, e.entity);
        var i :| 0 <= i < |from| && from[i] == EntityRef(n, e.entity);
        assert middle[i] == e;
      }
    }
    assert Elements(middle) == Elements(to);
    DistinctMultiset(middle);
    DistinctMultiset(to);
  }

  lemma ComposedRefs(f: map<string, string>, h: map<string, string>, from: seq<EntityRef>, to: seq<EntityRef>)
    requires Renames(f, from, to) && DistinctRefs(from) && DistinctRefs(to)
    ensures multiset(RenamedRefs(from, Compose(h, f))) == multiset(RenamedRefs(to, h))
  {
    RenamedTogether(f, from, to);
    var middle := RenamedRefs(from, f);
    var rename := (r: EntityRef) => EntityRef(At(h, r.ref), r.entity);
    MappedTogether(middle, to, rename);
    assert Mapped(to, rename) == RenamedRefs(to, h);
    forall i | 0 <= i < |middle| ensures Mapped(middle, rename)[i] == RenamedRefs(from, Compose(h, f))[i] {
      assert from[i] in from && from[i].ref in f;
    }
    assert Mapped(middle, rename) == RenamedRefs(from, Compose(h, f));
  }

  /** The standard way to write an edge that reads like this. */
  ghost function WriteReading(r: Reading): NormalizedEdge {
    if e :| ReadingOf(e) == r && e.leftRef != e.rightRef then Written(e) else NormalizedEdge("", "", [], Unsupported)
  }

  lemma WriteReadingWrites(e: NormalizedEdge)
    requires e.leftRef != e.rightRef
    ensures WriteReading(ReadingOf(e)) == Written(e)
  {
    var f :| ReadingOf(f) == ReadingOf(e) && f.leftRef != f.rightRef && WriteReading(ReadingOf(e)) == Written(f);
    ReadingsWritten(f, e);
  }

  lemma ComposedRename(e: NormalizedEdge, f: map<string, string>, h: map<string, string>)
    requires e.leftRef in f && e.rightRef in f
    ensures Rename(e, Compose(h, f)) == Rename(Rename(e, f), h)
  {
  }

  lemma ComposedEdges(f: map<string, string>, h: map<string, string>, g: NormalizedGraph, k: NormalizedGraph)
    requires WellFormedGraph(g) && WellFormedGraph(k) && Renames(f, g.entityRefs, k.entityRefs)
    requires Fits(h, GroupsOf(k.entityRefs)) && SameEdges(f, g.edges, k.edges)
    ensures multiset(RemappedEdges(g.edges, Compose(h, f))) == multiset(RemappedEdges(k.edges, h))
  {
    GroupsOfFacts(k.entityRefs);
    var write := (r: Reading) => WriteReading(RenameReading(r, h));
    MappedTogether(Readings(g.edges, f), Readings(k.edges, map[]), write);
    forall i | 0 <= i < |g.edges| ensures write(Readings(g.edges, f)[i]) == Remap(g.edges[i], Compose(h, f)) {
      var e := g.edges[i];
      ComposedRename(e, f, h);
      RenameReads(Rename(e, f), h);
      assert At(f, e.leftRef) in f.Values && At(f, e.rightRef) in f.Values;
      WriteReadingWrites(Rename(Rename(e, f), h));
    }
    forall i | 0 <= i < |k.edges| ensures write(Readings(k.edges, map[])[i]) == Remap(k.edges[i], h) {
      var e := k.edges[i];
      assert Rename(e, map[]) == e;
      RenameReads(e, h);
      WriteReadingWrites(Rename(e, h));
    }
    assert Mapped(Readings(g.edges, f), write) == RemappedEdges(g.edges, Compose(h, f));
    assert Mapped(Readings(k.edges, map[]), write) == RemappedEdges(k.edges, h);
  }

  lemma RenamedRefsUntied(refs: seq<EntityRef>, m: map<string, string>)
    requires DistinctRefs(refs) && RefNames(refs) <= m.Keys && Injective(m)
    ensures DistinctRefs(RenamedRefs(refs, m)) && Untied(RenamedRefs(refs, m), RefLe)
  {
    NameLeIsTotalOrder();
    var r := RenamedRefs(refs, m);
    forall i, j | 0 <= i < j < |r| ensures r[i].ref != r[j].ref {
      assert refs[i].ref in m && refs[j].ref in m;
    }
    forall i, j | 0 <= i < |r| && 0 <= j < |r| && RefLe(r[i], r[j]) && RefLe(r[j], r[i]) ensures r[i] == r[j] {
      assert r[i].ref == r[j].ref;
    }
  }

  lemma RefLeFacts()
    ensures TotalPreorder(RefLe)
  {
    NameLeIsTotalOrder();
  }

  /** Isomorphic graphs have the same arrangements. */
  lemma SameArrangement(f: map<string, string>, h: map<string, string>, g: NormalizedGraph, k: NormalizedGraph)
    requires WellFormedGraph(g) && WellFormedGraph(k) && g.sourceId == k.sourceId
    requires Renames(f, g.entityRefs, k.entityRefs) && SameEdges(f, g.edges, k.edges) && Fits(h, GroupsOf(k.entityRefs))
    ensures Fits(Compose(h, f), GroupsOf(g.entityRefs)) && Arranged(g, Compose(h, f)) == Arranged(k, h)
  {
    ComposeFits(f, h, g.entityRefs, k.entityRefs);
    ComposedRefs(f, h, g.entityRefs, k.entityRefs);
    ComposedEdges(f, h, g, k);
    GroupsOfFacts(g.entityRefs);
    RenamedRefsUntied(g.entityRefs, Compose(h, f));
    RefLeFacts();
    SortedPermutation(RenamedRefs(g.entityRefs, Compose(h, f)), RenamedRefs(k.entityRefs, h), RefLe);
    EdgeLeFacts();
    SortedPermutation(RemappedEdges(g.edges, Compose(h, f)), RemappedEdges(k.edges, h), EdgeLe);
  }

  // ---------------------------------------------------------------- from equal arrangements back

  /** The renaming that sends each instance of one graph to the one with the same canonical name in the other. */
  ghost function Across(m: map<string, string>, h: map<string, string>): map<string, string> {
    Compose(Inverse(h), m)
  }

  lemma RefsCorrespond(m: map<string, string>, h: map<string, string>, from: seq<EntityRef>, to: seq<EntityRef>, r: EntityRef)
    requires Sorted(RenamedRefs(from, m), RefLe) == Sorted(RenamedRefs(to, h), RefLe) && r in from
    ensures exists s :: s in to && s.entity == r.entity && At(h, s.ref) == At(m, r.ref)
  {
    RefLeFacts();
    SortedEqualMeansPermutation(RenamedRefs(from, m), RenamedRefs(to, h), RefLe);
    var i :| 0 <= i < |from| && from[i] == r;
    assert RenamedRefs(from, m)[i] in multiset(RenamedRefs(to, h));
    var j :| 0 <= j < |to| && RenamedRefs(to, h)[j] == RenamedRefs(from, m)[i];
    assert to[j] in to;
  }

  lemma SameNamesGiven(m: map<string, string>, h: map<string, string>, from: seq<EntityRef>, to: seq<EntityRef>)
    requires Sorted(RenamedRefs(from, m), RefLe) == Sorted(RenamedRefs(to, h), RefLe)
    requires m.Keys == RefNames(from) && h.Keys == RefNames(to)
    ensures m.Values <= h.Values
  {
    forall v | v in m.Values ensures v in h.Values {
      var k :| k in m && m[k] == v;
      var r :| r in from && r.ref == k;
      RefsCorrespond(m, h, from, to, r);
      var s :| s in to && At(h, s.ref) == v;
      assert s.ref in h;
    }
  }

  lemma AcrossIsOnto(m: map<string, string>, h: map<string, string>)
    requires Injective(m) && Injective(h) && m.Values == h.Values
    ensures Across(m, h).Keys == m.Keys && Across(m, h).Values == h.Keys && Injective(Across(m, h))
  {
    ComposeInjective(m, Inverse(h));
    var f := Across(m, h);
    forall n ensures n in f.Values <==> n in h.Keys {
      if n in h.Keys {
        assert h[n] in m.Values;
        var k :| k in m && m[k] == h[n];
        assert f[k] == n;
      }
      if n in f.Values {
        var k :| k in f && f[k] == n;
        assert m[k] in h.Values;
      }
    }
  }

  lemma AcrossRenames(m: map<string, string>, h: map<string, string>, from: seq<EntityRef>, to: seq<EntityRef>)
    requires Sorted(RenamedRefs(from, m), RefLe) == Sorted(RenamedRefs(to, h), RefLe)
    requires m.Keys == RefNames(from) && h.Keys == RefNames(to) && Injective(m) && Injective(h)
    ensures Renames(Across(m, h), from, to) && m.Values == h.Values
  {
    SameNamesGiven(m, h, from, to);
    SameNamesGiven(h, m, to, from);
    AcrossIsOnto(m, h);
    forall r | r in from ensures EntityRef(At(Across(m, h), r.ref), r.entity) in to {
      RefsCorrespond(m, h, from, to, r);
      assert r.ref in m;
      var s :| s in to && s.entity == r.entity && At(h, s.ref) == At(m, r.ref);
      assert s.ref in h && Inverse(h)[h[s.ref]] == s.ref;
    }
  }

  lemma ReadAcross(m: map<string, string>, h: map<string, string>, edges: seq<NormalizedEdge>, names: set<string>)
    requires names <= m.Keys && forall i :: 0 <= i < |edges| ==> edges[i].leftRef in names && edges[i].rightRef in names
    ensures Mapped(RemappedEdges(edges, m), (e: NormalizedEdge) => ReadingOf(Rename(e, Inverse(h)))) == Readings(edges, Across(m, h))
  {
    forall i | 0 <= i < |edges| ensures ReadingOf(Rename(Remap(edges[i], m), Inverse(h))) == ReadingOf(Rename(edges[i], Across(m, h))) {
      ReadBack(edges[i], m, Inverse(h));
      ComposedRename(edges[i], m, Inverse(h));
    }
  }

  lemma AcrossItself(h: map<string, string>, edges: seq<NormalizedEdge>)
    requires Injective(h) && forall i :: 0 <= i < |edges| ==> edges[i].leftRef in h && edges[i].rightRef in h
    ensures Readings(edges, Across(h, h)) == Readings(edges, map[])
  {
    forall i | 0 <= i < |edges| ensures Rename(edges[i], Across(h, h)) == Rename(edges[i], map[]) {
      assert h[edges[i].leftRef] in Inverse(h) && h[edges[i].rightRef] in Inverse(h);
    }
  }

  lemma AcrossEdges(m: map<string, string>, h: map<string, string>, g: NormalizedGraph, k: NormalizedGraph)
    requires WellFormedGraph(g) && WellFormedGraph(k)
    requires Sorted(RemappedEdges(g.edges, m), EdgeLe) == Sorted(RemappedEdges(k.edges, h), EdgeLe)
    requires m.Keys == RefNames(g.entityRefs) && h.Keys == RefNames(k.entityRefs) && Injective(h)
    ensures SameEdges(Across(m, h), g.edges, k.edges)
  {
    EdgeLeFacts();
    SortedEqualMeansPermutation(RemappedEdges(g.edges, m), RemappedEdges(k.edges, h), EdgeLe);
    MappedTogether(RemappedEdges(g.edges, m), RemappedEdges(k.edges, h), (e: NormalizedEdge) => ReadingOf(Rename(e, Inverse(h))));
    ReadAcross(m, h, g.edges, m.Keys);
    ReadAcross(h, h, k.edges, h.Keys);
    AcrossItself(h, k.edges);
  }

  lemma ReadBack(e: NormalizedEdge, m: map<string, string>, n: map<string, string>)
    ensures ReadingOf(Rename(Remap(e, m), n)) == ReadingOf(Rename(Rename(e, m), n))
  {
    WrittenReads(Rename(e, m));
    RenameReads(Written(Rename(e, m)), n);
    RenameReads(Rename(e, m), n);
  }

  // ---------------------------------------------------------------- the theorems

  /** Equal encodings come only from equal graphs. */
  ghost predicate Faithful(encode: NormalizedGraph -> string) {
    forall a, b :: encode(a) == encode(b) ==> a == b
  }

  lemma EqualFormsAreIsomorphic(g: NormalizedGraph, k: NormalizedGraph, m: map<string, string>, h: map<string, string>)
    requires WellFormedGraph(g) && WellFormedGraph(k)
    requires Fits(m, GroupsOf(g.entityRefs)) && Fits(h, GroupsOf(k.entityRefs)) && Arranged(g, m) == Arranged(k, h)
    ensures Isomorphic(g, k)
  {
    GroupsOfFacts(g.entityRefs);
    GroupsOfFacts(k.entityRefs);
    AcrossRenames(m, h, g.entityRefs, k.entityRefs);
    AcrossEdges(m, h, g, k);
  }

  /** Every arrangement of one isomorphic graph is an arrangement of the other. */
  lemma IsomorphicArrangements(encode: NormalizedGraph -> string, g: NormalizedGraph, k: NormalizedGraph, f: map<string, string>, a: NormalizedGraph, b: NormalizedGraph)
    requires WellFormedGraph(g) && WellFormedGraph(k) && g.sourceId == k.sourceId
    requires Renames(f, g.entityRefs, k.entityRefs) && SameEdges(f, g.edges, k.edges)
    requires IsCanonical(encode, g, a) && IsCanonical(encode, k, b)
    ensures NameLe(encode(a), encode(b)) && NameLe(encode(b), encode(a))
  {
    var h :| Fits(h, GroupsOf(k.entityRefs)) && b == Arranged(k, h);
    SameArrangement(f, h, g, k);
    var m :| Fits(m, GroupsOf(g.entityRefs)) && a == Arranged(g, m);
    DivideFits(f, m, g.entityRefs, k.entityRefs);
    SameArrangement(f, Compose(m, Inverse(f)), g, k);
  }

  /** The canonical form is one: two join graphs get the same form exactly when renaming the
      instances, entity by entity, turns one into the other. */
  lemma CanonicalExactly(encode: NormalizedGraph -> string, g: NormalizedGraph, k: NormalizedGraph, a: NormalizedGraph, b: NormalizedGraph)
    requires Faithful(encode) && WellFormedGraph(g) && WellFormedGraph(k)
    requires IsCanonical(encode, g, a) && IsCanonical(encode, k, b)
    ensures a == b <==> Isomorphic(g, k)
  {
    if a == b {
      var m :| Fits(m, GroupsOf(g.entityRefs)) && a == Arranged(g, m);
      var h :| Fits(h, GroupsOf(k.entityRefs)) && b == Arranged(k, h);
      EqualFormsAreIsomorphic(g, k, m, h);
    }
    if Isomorphic(g, k) {
      var f :| Renames(f, g.entityRefs, k.entityRefs) && SameEdges(f, g.edges, k.edges);
      IsomorphicArrangements(encode, g, k, f, a, b);
      NameLeTotal(encode(a), encode(b));
    }
  }

  lemma ArrangedNames(refs: seq<EntityRef>, m: map<string, string>)
    requires DistinctRefs(refs) && m.Keys == RefNames(refs) && Injective(m)
    ensures DistinctRefs(Sorted(RenamedRefs(refs, m), RefLe))
    ensures forall s :: s in Sorted(RenamedRefs(refs, m), RefLe) <==> s in RenamedRefs(refs, m)
  {
    var renamed := RenamedRefs(refs, m);
    var sorted := Sorted(renamed, RefLe);
    RefLeFacts();
    SortedFacts(renamed, RefLe);
    RenamedRefsUntied(refs, m);
    assert Distinct(renamed);
    DistinctPermutation(renamed, sorted);
    forall s ensures s in sorted <==> s in renamed {
      assert s in Elements(sorted) <==> s in Elements(renamed);
    }
    DistinctAmong(renamed, sorted);
  }

  lemma DistinctAmong(refs: seq<EntityRef>, among: seq<EntityRef>)
    requires DistinctRefs(refs) && Distinct(among) && forall s :: s in among ==> s in refs
    ensures DistinctRefs(among)
  {
    forall i, j | 0 <= i < j < |among| ensures among[i].ref != among[j].ref {
      assert among[i] in among && among[j] in among && among[i] != among[j];
      var p :| 0 <= p < |refs| && refs[p] == among[i];
      var q :| 0 <= q < |refs| && refs[q] == among[j];
    }
  }

  lemma RenamedMembers(refs: seq<EntityRef>, m: map<string, string>)
    requires m.Keys == RefNames(refs)
    ensures forall r :: r in refs ==> EntityRef(At(m, r.ref), r.entity) in RenamedRefs(refs, m)
    ensures m.Values == RefNames(RenamedRefs(refs, m))
  {
    var renamed := RenamedRefs(refs, m);
    forall r | r in refs ensures EntityRef(At(m, r.ref), r.entity) in renamed {
      var i :| 0 <= i < |refs| && refs[i] == r;
      assert renamed[i] in renamed;
    }
    forall n ensures n in m.Values <==> n in RefNames(renamed) {
      if n in m.Values {
        var k :| k in m && m[k] == n;
        var r :| r in refs && r.ref == k;
        assert EntityRef(At(m, r.ref), r.entity) in renamed;
      }
      if n in RefNames(renamed) {
        var i :| 0 <= i < |renamed| && renamed[i].ref == n;
        assert refs[i] in refs && refs[i].ref in m;
      }
    }
  }

  lemma ArrangedRefs(refs: seq<EntityRef>, m: map<string, string>)
    requires DistinctRefs(refs) && m.Keys == RefNames(refs) && Injective(m)
    ensures DistinctRefs(Sorted(RenamedRefs(refs, m), RefLe)) && Renames(m, refs, Sorted(RenamedRefs(refs, m), RefLe))
  {
    ArrangedNames(refs, m);
    RenamedMembers(refs, m);
  }

  lemma ArrangedEdgesWellFormed(g: NormalizedGraph, m: map<string, string>)
    requires WellFormedGraph(g) && m.Keys == RefNames(g.entityRefs) && Injective(m)
    ensures forall i :: 0 <= i < |Arranged(g, m).edges| ==>
      var e := Arranged(g, m).edges[i];
      e.leftRef in m.Values && e.rightRef in m.Values && e.leftRef != e.rightRef
  {
    var remapped := RemappedEdges(g.edges, m);
    EdgeLeFacts();
    SortedFacts(remapped, EdgeLe);
    var edges := Arranged(g, m).edges;
    forall i | 0 <= i < |edges|
      ensures edges[i].leftRef in m.Values && edges[i].rightRef in m.Values && edges[i].leftRef != edges[i].rightRef
    {
      assert edges[i] in multiset(remapped);
      var j :| 0 <= j < |remapped| && remapped[j] == edges[i];
      assert g.edges[j].leftRef in m && g.edges[j].rightRef in m;
      assert m[g.edges[j].leftRef] in m.Values && m[g.edges[j].rightRef] in m.Values;
    }
  }

  lemma ArrangedEdgesRead(g: NormalizedGraph, m: map<string, string>)
    ensures SameEdges(m, g.edges, Arranged(g, m).edges)
  {
    var remapped := RemappedEdges(g.edges, m);
    EdgeLeFacts();
    SortedFacts(remapped, EdgeLe);
    var read := (e: NormalizedEdge) => ReadingOf(Rename(e, map[]));
    MappedTogether(remapped, Arranged(g, m).edges, read);
    forall i | 0 <= i < |remapped| ensures read(remapped[i]) == ReadingOf(Rename(g.edges[i], m)) {
      WrittenReads(Rename(g.edges[i], m));
      assert Rename(remapped[i], map[]) == remapped[i];
    }
    assert Mapped(remapped, read) == Readings(g.edges, m);
    assert Mapped(Arranged(g, m).edges, read) == Readings(Arranged(g, m).edges, map[]);
  }

  lemma ArrangedIsIsomorphic(g: NormalizedGraph, m: map<string, string>)
    requires WellFormedGraph(g) && Fits(m, GroupsOf(g.entityRefs))
    ensures WellFormedGraph(Arranged(g, m)) && Isomorphic(g, Arranged(g, m))
  {
    GroupsOfFacts(g.entityRefs);
    ArrangedRefs(g.entityRefs, m);
    ArrangedEdgesWellFormed(g, m);
    ArrangedEdgesRead(g, m);
  }

  /** Putting a canonical form in canonical form changes nothing. */
  lemma CanonicalIdempotent(encode: NormalizedGraph -> string, g: NormalizedGraph, a: NormalizedGraph, b: NormalizedGraph)
    requires Faithful(encode) && WellFormedGraph(g) && IsCanonical(encode, g, a)
    ensures WellFormedGraph(a)
    ensures IsCanonical(encode, a, b) ==> b == a
  {
    var m :| Fits(m, GroupsOf(g.entityRefs)) && a == Arranged(g, m);
    ArrangedIsIsomorphic(g, m);
    if IsCanonical(encode, a, b) {
      CanonicalExactly(encode, g, a, a, b);
    }
  }
}
