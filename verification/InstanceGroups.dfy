/** Instances grouped by entity, with the names that the canonical form gives them. */
module InstanceGroups {
  import opened Domain
  import opened Ordering
  import opened Sorting
  import opened Sets
  import opened Bijections
  import opened SqlGraph

  function RefsOf(refs: seq<EntityRef>, entity: string): seq<string> {
    if refs == [] then []
    else
      var last := refs[|refs| - 1];
      RefsOf(refs[..|refs| - 1], entity) + if last.entity == entity then [last.ref] else []
  }

  /** The keys of the dictionary of instances by entity, in insertion order. */
  function EntityNames(refs: seq<EntityRef>): seq<string> {
    if refs == [] then []
    else
      var last := refs[|refs| - 1];
      var before := EntityNames(refs[..|refs| - 1]);
      if last.entity in before then before else before + [last.entity]
  }

  function SortedEntities(refs: seq<EntityRef>): seq<string> {
    Sorted(EntityNames(refs), NameLe)
  }

  lemma {:induction false} RefsOfMembers(refs: seq<EntityRef>, entity: string, name: string)
    ensures name in RefsOf(refs, entity) <==> EntityRef(name, entity) in refs
  {
    if refs != [] {
      RefsOfMembers(refs[..|refs| - 1], entity, name);
      assert refs == refs[..|refs| - 1] + [refs[|refs| - 1]];
    }
  }

  lemma {:induction false} RefsOfDistinct(refs: seq<EntityRef>, entity: string)
    requires DistinctRefs(refs)
    ensures Distinct(RefsOf(refs, entity))
  {
    if refs != [] {
      var n := |refs| - 1;
      RefsOfDistinct(refs[..n], entity);
      if refs[n].ref in RefsOf(refs[..n], entity) {
        RefsOfMembers(refs[..n], entity, refs[n].ref);
      }
    }
  }

  lemma {:induction false} EntityNamesFacts(refs: seq<EntityRef>)
    ensures Distinct(EntityNames(refs))
    ensures forall e :: e in EntityNames(refs) <==> exists r :: r in refs && r.entity == e
  {
    if refs != [] {
      EntityNamesFacts(refs[..|refs| - 1]);
      assert refs == refs[..|refs| - 1] + [refs[|refs| - 1]];
    }
  }

  lemma SortedNames(xs: seq<string>)
    requires Distinct(xs)
    ensures Distinct(Sorted(xs, NameLe)) && |Sorted(xs, NameLe)| == |xs| && forall x :: x in Sorted(xs, NameLe) <==> x in xs
  {
    NameLeIsTotalOrder();
    SortedFacts(xs, NameLe);
    DistinctPermutation(xs, Sorted(xs, NameLe));
    forall x ensures x in Sorted(xs, NameLe) <==> x in xs {
      assert x in Elements(Sorted(xs, NameLe)) <==> x in Elements(xs);
    }
  }

  /** The instances of one entity, sorted by name. */
  function Instances(refs: seq<EntityRef>, entity: string): seq<string> {
    Sorted(RefsOf(refs, entity), NameLe)
  }

  lemma InstancesFacts(refs: seq<EntityRef>, entity: string)
    requires DistinctRefs(refs)
    ensures Distinct(Instances(refs, entity)) && |Instances(refs, entity)| == |RefsOf(refs, entity)|
    ensures forall name :: name in Instances(refs, entity) <==> EntityRef(name, entity) in refs
  {
    RefsOfDistinct(refs, entity);
    SortedNames(RefsOf(refs, entity));
    forall name ensures name in Instances(refs, entity) <==> EntityRef(name, entity) in refs {
      RefsOfMembers(refs, entity, name);
    }
  }

  lemma SortedEntitiesFacts(refs: seq<EntityRef>)
    ensures Distinct(SortedEntities(refs))
    ensures forall e :: e in SortedEntities(refs) <==> exists r :: r in refs && r.entity == e
  {
    EntityNamesFacts(refs);
    SortedNames(EntityNames(refs));
  }

  // ---------------------------------------------------------------- renamings between two lists

  /** A one-to-one renaming of all instances of `from` onto those of `to` that keeps entities. */
  ghost predicate Renames(f: map<string, string>, from: seq<EntityRef>, to: seq<EntityRef>) {
    && f.Keys == RefNames(from) && f.Values == RefNames(to) && Injective(f)
    && forall r :: r in from ==> EntityRef(At(f, r.ref), r.entity) in to
  }

  /** For each entity its instances on the left may become its instances on the right. */
  function EntityGroups(entities: seq<string>, from: seq<EntityRef>, to: seq<EntityRef>): (r: seq<Group>)
    ensures |r| == |entities|
    ensures forall i :: 0 <= i < |entities| ==> r[i] == Group(entities[i], Instances(from, entities[i]), Instances(to, entities[i]))
  {
    seq(|entities|, i requires 0 <= i < |entities| =>
      Group(entities[i], Instances(from, entities[i]), Instances(to, entities[i])))
  }

  ghost predicate Disjoint(groups: seq<Group>) {
    forall i, j :: 0 <= i < j < |groups| ==>
      Elements(groups[i].keys) !! Elements(groups[j].keys) && Elements(groups[i].values) !! Elements(groups[j].values)
  }

  lemma {:induction false} KeysInGroups(groups: seq<Group>, k: string)
    ensures k in AllKeys(groups) <==> exists i :: 0 <= i < |groups| && k in groups[i].keys
    ensures k in AllValues(groups) <==> exists i :: 0 <= i < |groups| && k in groups[i].values
  {
    if groups != [] {
      KeysInGroups(groups[1..], k);
      if i :| 0 <= i < |groups| && k in groups[i].keys && i > 0 {
        assert groups[1..][i - 1] == groups[i];
      }
      if i :| 0 <= i < |groups| && k in groups[i].values && i > 0 {
        assert groups[1..][i - 1] == groups[i];
      }
    }
  }

  lemma {:induction false} DisjointGroups(groups: seq<Group>)
    requires Disjoint(groups) && forall i :: 0 <= i < |groups| ==> ValidGroup(groups[i])
    ensures ValidGroups(groups)
  {
    if groups != [] {
      assert Disjoint(groups[1..]) by {
        forall i, j | 0 <= i < j < |groups[1..]|
          ensures Elements(groups[1..][i].keys) !! Elements(groups[1..][j].keys)
          ensures Elements(groups[1..][i].values) !! Elements(groups[1..][j].values)
        {
          assert groups[1..][i] == groups[i + 1] && groups[1..][j] == groups[j + 1];
        }
      }
      DisjointGroups(groups[1..]);
      forall k ensures !(k in Elements(groups[0].keys) && k in AllKeys(groups[1..]))
               ensures !(k in Elements(groups[0].values) && k in AllValues(groups[1..]))
      {
        KeysInGroups(groups[1..], k);
      }
    }
  }

  // ---------------------------------------------------------------- canonical names

  function Digit(n: nat): char
    requires n < 10
  {
    "0123456789"[n]
  }

  function Decimal(n: nat): string {
    if n < 10 then [Digit(n)] else Decimal(n / 10) + [Digit(n % 10)]
  }

  lemma {:induction false} DecimalInjective(m: nat, n: nat)
    requires Decimal(m) == Decimal(n)
    ensures m == n
  {
    var a, b := Decimal(m), Decimal(n);
    assert a[|a| - 1] == Digit(m % 10) && b[|b| - 1] == Digit(n % 10);
    assert m % 10 == n % 10;
    DecimalSize(m / 10);
    DecimalSize(n / 10);
    if m >= 10 && n >= 10 {
      assert a[..|a| - 1] == Decimal(m / 10) && b[..|b| - 1] == Decimal(n / 10);
      DecimalInjective(m / 10, n / 10);
    }
  }

  lemma DecimalSize(n: nat)
    ensures |Decimal(n)| >= 1
  {
  }

  function CanonicalName(n: nat): string { "i" + Decimal(n) }

  lemma CanonicalNameInjective(m: nat, n: nat)
    ensures CanonicalName(m) == CanonicalName(n) ==> m == n
  {
    if CanonicalName(m) == CanonicalName(n) {
      assert CanonicalName(m)[1..] == Decimal(m) && CanonicalName(n)[1..] == Decimal(n);
      DecimalInjective(m, n);
    }
  }

  function CanonicalNames(next: nat, n: nat): (r: seq<string>)
    ensures |r| == n && forall j :: 0 <= j < n ==> r[j] == CanonicalName(next + j)
  {
    seq(n, j requires 0 <= j < n => CanonicalName(next + j))
  }

  /** Entities in order, each given the next block of names. */
  function CanonicalGroups(entities: seq<string>, refs: seq<EntityRef>, next: nat): (r: seq<Group>)
    ensures |r| == |entities|
    ensures forall i :: 0 <= i < |entities| ==> r[i].entity == entities[i] && r[i].keys == Instances(refs, entities[i])
  {
    if entities == [] then []
    else
      var keys := Instances(refs, entities[0]);
      [Group(entities[0], keys, CanonicalNames(next, |keys|))] + CanonicalGroups(entities[1..], refs, next + |keys|)
  }

  ghost predicate NamedFrom(groups: seq<Group>, next: nat) {
    forall i, v :: 0 <= i < |groups| && v in groups[i].values ==> exists n: nat :: n >= next && v == CanonicalName(n)
  }

  /** The first group's names are the next ones in turn. */
  lemma FirstGroup(entities: seq<string>, refs: seq<EntityRef>, next: nat)
    requires DistinctRefs(refs) && entities != []
    ensures var first := CanonicalGroups(entities, refs, next)[0];
      && ValidGroup(first) && |first.values| == |Instances(refs, entities[0])|
      && forall i :: 0 <= i < |first.values| ==> first.values[i] == CanonicalName(next + i)
  {
    InstancesFacts(refs, entities[0]);
    var keys := Instances(refs, entities[0]);
    var values := CanonicalNames(next, |keys|);
    assert CanonicalGroups(entities, refs, next)[0] == Group(entities[0], keys, values);
    forall i, j | 0 <= i < j < |values| ensures values[i] != values[j] {
      CanonicalNameInjective(next + i, next + j);
    }
  }

  ghost predicate ApartFrom(groups: seq<Group>) {
    forall i, j :: 0 <= i < j < |groups| ==> Elements(groups[i].values) !! Elements(groups[j].values)
  }

  ghost predicate AllValid(groups: seq<Group>) {
    forall i :: 0 <= i < |groups| ==> ValidGroup(groups[i])
  }

  lemma NamesAhead(first: Group, rest: seq<Group>, next: nat, after: nat)
    requires NamedFrom(rest, after) && after == next + |first.values| && ApartFrom(rest)
    requires forall i :: 0 <= i < |first.values| ==> first.values[i] == CanonicalName(next + i)
    ensures NamedFrom([first] + rest, next) && ApartFrom([first] + rest)
  {
    var groups := [first] + rest;
    forall i, v | 0 <= i < |groups| && v in groups[i].values ensures exists n: nat :: n >= next && v == CanonicalName(n) {
      if i == 0 {
        var j :| 0 <= j < |first.values| && first.values[j] == v;
        assert next + j >= next && v == CanonicalName(next + j);
      } else {
        assert v in rest[i - 1].values;
        var n: nat :| n >= after && v == CanonicalName(n);
      }
    }
    forall j | 0 < j < |groups| ensures Elements(first.values) !! Elements(groups[j].values) {
      forall v | v in Elements(first.values) ensures v !in Elements(groups[j].values) {
        var i :| 0 <= i < |first.values| && first.values[i] == v;
        if v in rest[j - 1].values {
          var n: nat :| n >= after && v == CanonicalName(n);
          CanonicalNameInjective(next + i, n);
        }
      }
    }
    forall i, j | 0 <= i < j < |groups| ensures Elements(groups[i].values) !! Elements(groups[j].values) {
      if i > 0 {
        assert groups[i] == rest[i - 1] && groups[j] == rest[j - 1];
      }
    }
  }

  lemma {:induction false} CanonicalGroupsNamed(entities: seq<string>, refs: seq<EntityRef>, next: nat)
    requires DistinctRefs(refs)
    ensures NamedFrom(CanonicalGroups(entities, refs, next), next)
    ensures AllValid(CanonicalGroups(entities, refs, next)) && ApartFrom(CanonicalGroups(entities, refs, next))
  {
    if entities != [] {
      var groups, after := CanonicalGroups(entities, refs, next), next + |Instances(refs, entities[0])|;
      var rest := CanonicalGroups(entities[1..], refs, after);
      CanonicalGroupsNamed(entities[1..], refs, after);
      FirstGroup(entities, refs, next);
      NamesAhead(groups[0], rest, next, after);
      assert groups == [groups[0]] + rest;
    }
  }

  lemma OneEntity(refs: seq<EntityRef>, r: EntityRef, s: EntityRef)
    requires DistinctRefs(refs) && r in refs && s in refs && r.ref == s.ref
    ensures r == s
  {
    var i :| 0 <= i < |refs| && refs[i] == r;
    var j :| 0 <= j < |refs| && refs[j] == s;
    assert i == j;
  }

  lemma InstancesDisjoint(refs: seq<EntityRef>, a: string, b: string)
    requires DistinctRefs(refs) && a != b
    ensures Elements(Instances(refs, a)) !! Elements(Instances(refs, b))
  {
    InstancesFacts(refs, a);
    InstancesFacts(refs, b);
    forall k ensures !(k in Elements(Instances(refs, a)) && k in Elements(Instances(refs, b))) {
      if k in Elements(Instances(refs, a)) && EntityRef(k, b) in refs {
        OneEntity(refs, EntityRef(k, a), EntityRef(k, b));
      }
    }
  }

  function GroupsOf(refs: seq<EntityRef>): seq<Group> {
    CanonicalGroups(SortedEntities(refs), refs, 0)
  }

  lemma GroupsOfFacts(refs: seq<EntityRef>)
    requires DistinctRefs(refs)
    ensures ValidGroups(GroupsOf(refs)) && AllKeys(GroupsOf(refs)) == RefNames(refs)
    ensures forall i :: 0 <= i < |GroupsOf(refs)| ==> ValidGroup(GroupsOf(refs)[i])
  {
    var entities := SortedEntities(refs);
    var groups := GroupsOf(refs);
    SortedEntitiesFacts(refs);
    CanonicalGroupsNamed(entities, refs, 0);
    forall i, j | 0 <= i < j < |groups|
      ensures Elements(groups[i].keys) !! Elements(groups[j].keys) && Elements(groups[i].values) !! Elements(groups[j].values)
    {
      InstancesDisjoint(refs, entities[i], entities[j]);
    }
    DisjointGroups(groups);
    forall k ensures k in AllKeys(groups) <==> k in RefNames(refs) {
      KeysInGroups(groups, k);
      if k in RefNames(refs) {
        var r :| r in refs && r.ref == k;
        assert r.entity in entities;
        var i :| 0 <= i < |entities| && entities[i] == r.entity;
        InstancesFacts(refs, entities[i]);
      }
      if i :| 0 <= i < |groups| && k in groups[i].keys {
        InstancesFacts(refs, entities[i]);
      }
    }
  }
}
