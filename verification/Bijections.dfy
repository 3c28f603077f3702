/** The renamings that the SQL validator enumerates: per entity all permutations, then their product. */
module Bijections {
  import opened Domain
  import opened Sets

  predicate Distinct<T(==)>(xs: seq<T>) {
    forall i, j :: 0 <= i < j < |xs| ==> xs[i] != xs[j]
  }

  function Elements<T>(xs: seq<T>): set<T> {
    set x | x in xs
  }

  lemma {:induction false} DistinctSize<T>(xs: seq<T>)
    requires Distinct(xs)
    ensures |Elements(xs)| == |xs|
  {
    if xs != [] {
      var n := |xs| - 1;
      DistinctSize(xs[..n]);
      assert Elements(xs) == Elements(xs[..n]) + {xs[n]};
    } else {
      assert Elements(xs) == {};
    }
  }

  lemma {:induction false} DistinctMultiset<T>(xs: seq<T>)
    requires Distinct(xs)
    ensures multiset(xs) == multiset(Elements(xs))
  {
    if xs != [] {
      var n := |xs| - 1;
      DistinctMultiset(xs[..n]);
      assert xs == xs[..n] + [xs[n]];
      assert Elements(xs) == Elements(xs[..n]) + {xs[n]};
    } else {
      assert Elements(xs) == {};
    }
  }

  /** Two duplicate-free lists of one length, one within the other, are permutations. */
  lemma SameElements<T>(xs: seq<T>, ys: seq<T>)
    requires Distinct(xs) && Distinct(ys) && |xs| == |ys| && Elements(xs) <= Elements(ys)
    ensures Elements(xs) == Elements(ys) && multiset(xs) == multiset(ys)
  {
    DistinctSize(xs);
    DistinctSize(ys);
    SubsetSize(Elements(xs), Elements(ys));
    DistinctMultiset(xs);
    DistinctMultiset(ys);
  }

  lemma DistinctPermutation<T>(xs: seq<T>, ys: seq<T>)
    requires Distinct(xs) && multiset(xs) == multiset(ys)
    ensures Distinct(ys) && Elements(ys) == Elements(xs) && |xs| == |ys|
  {
    assert |xs| == |multiset(xs)| == |multiset(ys)| == |ys|;
    forall x ensures x in Elements(xs) <==> x in Elements(ys) {
      assert x in multiset(xs) <==> x in multiset(ys);
    }
    DistinctMultiset(xs);
    forall i, j | 0 <= i < j < |ys| ensures ys[i] != ys[j] {
      if ys[i] == ys[j] {
        OccursTwice(ys, ys[i]);
      }
    }
  }

  // ---------------------------------------------------------------- permutations

  function Without<T>(xs: seq<T>, i: nat): (r: seq<T>)
    requires i < |xs|
    ensures |r| == |xs| - 1 && multiset(r) == multiset(xs) - multiset{xs[i]}
  {
    assert xs == xs[..i] + [xs[i]] + xs[i + 1..];
    xs[..i] + xs[i + 1..]
  }

  function Prefixed<T>(x: T, lists: seq<seq<T>>): (r: seq<seq<T>>)
    ensures |r| == |lists| && forall i :: 0 <= i < |lists| ==> r[i] == [x] + lists[i]
  {
    seq(|lists|, i requires 0 <= i < |lists| => [x] + lists[i])
  }

  /** In the order of `itertools.permutations`: every choice of a first element, then the rest. */
  function Permutations<T>(xs: seq<T>): seq<seq<T>>
    decreases |xs|, |xs| + 1
  {
    if xs == [] then [[]] else PermutationsFrom(xs, 0)
  }

  function PermutationsFrom<T>(xs: seq<T>, i: nat): seq<seq<T>>
    requires i <= |xs|
    decreases |xs|, |xs| - i
  {
    if i == |xs| then []
    else Prefixed(xs[i], Permutations(Without(xs, i))) + PermutationsFrom(xs, i + 1)
  }

  lemma {:induction false} PermutationsExactly<T>(xs: seq<T>, p: seq<T>)
    ensures p in Permutations(xs) <==> multiset(p) == multiset(xs)
    decreases |xs|, |xs| + 1
  {
    if xs == [] {
      assert multiset(p) == multiset(xs) ==> |p| == |multiset(p)| == 0;
    } else {
      PermutationsFromExactly(xs, 0, p);
      if multiset(p) == multiset(xs) {
        assert |p| == |multiset(p)| == |multiset(xs)|;
        assert p[0] in multiset(xs);
        var j :| 0 <= j < |xs| && xs[j] == p[0];
      }
    }
  }

  lemma {:induction false} PermutationsFromExactly<T>(xs: seq<T>, i: nat, p: seq<T>)
    requires i <= |xs|
    ensures p in PermutationsFrom(xs, i) <==>
              multiset(p) == multiset(xs) && p != [] && exists j :: i <= j < |xs| && xs[j] == p[0]
    decreases |xs|, |xs| - i
  {
    if i < |xs| {
      PermutationsFromExactly(xs, i + 1, p);
      PrefixedExactly(xs, i, p);
      assert p in PermutationsFrom(xs, i) <==>
          p in Prefixed(xs[i], Permutations(Without(xs, i))) || p in PermutationsFrom(xs, i + 1);
    }
  }

  lemma PrefixedMembers<T>(x: T, tails: seq<seq<T>>, p: seq<T>)
    ensures p in Prefixed(x, tails) <==> p != [] && p[0] == x && p[1..] in tails
  {
    var here := Prefixed(x, tails);
    if p in here {
      var k :| 0 <= k < |here| && here[k] == p;
      assert p == [x] + tails[k] && p[1..] == tails[k];
    }
    if p != [] && p[0] == x && p[1..] in tails {
      var k :| 0 <= k < |tails| && tails[k] == p[1..];
      assert p == [x] + tails[k] && here[k] == p;
    }
  }

  /** The permutations that begin with the element at `i`. */
  lemma {:induction false} PrefixedExactly<T>(xs: seq<T>, i: nat, p: seq<T>)
    requires i < |xs|
    ensures p in Prefixed(xs[i], Permutations(Without(xs, i))) <==> p != [] && p[0] == xs[i] && multiset(p) == multiset(xs)
    decreases |xs|, 0
  {
    PrefixedMembers(xs[i], Permutations(Without(xs, i)), p);
    if p != [] && p[0] == xs[i] {
      PermutationsExactly(Without(xs, i), p[1..]);
      RestOfPermutation(p, multiset(xs));
    }
  }

  lemma RestOfPermutation<T>(p: seq<T>, all: multiset<T>)
    requires p != [] && p[0] in all
    ensures multiset(p[1..]) == all - multiset{p[0]} <==> multiset(p) == all
  {
    assert p == [p[0]] + p[1..];
  }

  // ---------------------------------------------------------------- one entity

  /** `dict(zip(keys, values))`. */
  function Zip(keys: seq<string>, values: seq<string>): map<string, string>
    requires |keys| == |values|
  {
    if keys == [] then map[]
    else Zip(keys[..|keys| - 1], values[..|values| - 1])[keys[|keys| - 1] := values[|values| - 1]]
  }

  lemma {:induction false} ZipFacts(keys: seq<string>, values: seq<string>)
    requires |keys| == |values| && Distinct(keys)
    ensures Zip(keys, values).Keys == Elements(keys)
    ensures forall i :: 0 <= i < |keys| ==> Zip(keys, values)[keys[i]] == values[i]
  {
    if keys != [] {
      var n := |keys| - 1;
      ZipFacts(keys[..n], values[..n]);
      assert Elements(keys) == Elements(keys[..n]) + {keys[n]};
      forall i | 0 <= i < |keys| ensures Zip(keys, values)[keys[i]] == values[i] {
        if i < n {
          assert keys[..n][i] == keys[i] && keys[i] != keys[n];
        }
      }
    } else {
      assert Elements(keys) == {};
    }
  }

  /** The instances of one entity on the two sides of a renaming. */
  datatype Group = Group(entity: string, keys: seq<string>, values: seq<string>)

  ghost predicate ValidGroup(g: Group) {
    Distinct(g.keys) && Distinct(g.values) && |g.keys| == |g.values|
  }

  ghost predicate Injective(m: map<string, string>) {
    forall a, b :: a in m && b in m && m[a] == m[b] ==> a == b
  }

  /** A one-to-one assignment of the group's keys to its values. */
  ghost predicate Matching(m: map<string, string>, g: Group) {
    m.Keys == Elements(g.keys) && Injective(m) && forall k :: k in m ==> m[k] in g.values
  }

  lemma ZipIsMatching(g: Group, keys: seq<string>, values: seq<string>)
    requires ValidGroup(g) && multiset(keys) == multiset(g.keys) && multiset(values) == multiset(g.values)
    ensures |keys| == |values| && Matching(Zip(keys, values), g)
  {
    DistinctPermutation(g.keys, keys);
    DistinctPermutation(g.values, values);
    ZipFacts(keys, values);
    var m := Zip(keys, values);
    forall a, b | a in m && b in m && m[a] == m[b] ensures a == b {
      var i :| 0 <= i < |keys| && keys[i] == a;
      var j :| 0 <= j < |keys| && keys[j] == b;
      assert values[i] == values[j];
    }
    forall k | k in m ensures m[k] in g.values {
      var i :| 0 <= i < |keys| && keys[i] == k;
      assert values[i] in Elements(values);
    }
  }

  /** The values a matching gives to the keys, in key order, are a permutation of the group's. */
  lemma MatchingValues(m: map<string, string>, g: Group) returns (values: seq<string>)
    requires ValidGroup(g) && Matching(m, g)
    ensures multiset(values) == multiset(g.values) && |values| == |g.keys| && Zip(g.keys, values) == m
  {
    assert forall i :: 0 <= i < |g.keys| ==> g.keys[i] in Elements(g.keys);
    values := seq(|g.keys|, i requires 0 <= i < |g.keys| => m[g.keys[i]]);
    assert Distinct(values);
    forall v | v in Elements(values) ensures v in Elements(g.values) {
      var i :| 0 <= i < |values| && values[i] == v;
    }
    SameElements(values, g.values);
    ZipReads(m, g.keys, values);
  }

  /** Zipping keys with what a map gives them is the map. */
  lemma ZipReads(m: map<string, string>, keys: seq<string>, values: seq<string>)
    requires Distinct(keys) && m.Keys == Elements(keys) && |values| == |keys|
    requires forall i :: 0 <= i < |keys| ==> keys[i] in m && values[i] == m[keys[i]]
    ensures Zip(keys, values) == m
  {
    ZipFacts(keys, values);
    forall k | k in m ensures Zip(keys, values)[k] == m[k] {
      var i :| 0 <= i < |keys| && keys[i] == k;
    }
  }

  ghost function KeyFor(m: map<string, string>, value: string): (k: string)
    requires value in m.Values
    ensures k in m && m[k] == value
  {
    var k :| k in m && m[k] == value;
    k
  }

  /** The inverse of a renaming. */
  ghost function Inverse(m: map<string, string>): (inv: map<string, string>)
    ensures inv.Keys == m.Values
    ensures forall v :: v in inv ==> inv[v] in m && m[inv[v]] == v
    ensures Injective(m) ==> forall k :: k in m ==> m[k] in inv && inv[m[k]] == k
  {
    map v | v in m.Values :: KeyFor(m, v)
  }

  lemma MatchingCovers(m: map<string, string>, g: Group)
    requires ValidGroup(g) && Matching(m, g)
    ensures m.Values == Elements(g.values)
  {
    var values := MatchingValues(m, g);
    DistinctPermutation(g.values, values);
    ZipFacts(g.keys, values);
    forall v | v in Elements(g.values) ensures v in m.Values {
      assert v in Elements(values);
      var i :| 0 <= i < |values| && values[i] == v;
      assert g.keys[i] in m && m[g.keys[i]] == v;
    }
  }

  lemma InverseMatching(m: map<string, string>, g: Group)
    requires ValidGroup(g) && Matching(m, g)
    ensures Matching(Inverse(m), Group(g.entity, g.values, g.keys))
  {
    MatchingCovers(m, g);
  }

  /** The keys that a matching sends to the values, in value order, are a permutation of the group's. */
  lemma MatchingKeys(m: map<string, string>, g: Group) returns (keys: seq<string>)
    requires ValidGroup(g) && Matching(m, g)
    ensures multiset(keys) == multiset(g.keys) && |keys| == |g.values| && Zip(keys, g.values) == m
  {
    InverseMatching(m, g);
    var flipped := Group(g.entity, g.values, g.keys);
    keys := MatchingValues(Inverse(m), flipped);
    ZipIsMatching(g, keys, g.values);
    DistinctPermutation(g.keys, keys);
    InverseReads(m, g.values, keys);
    ZipReads(m, keys, g.values);
  }

  lemma InverseReads(m: map<string, string>, values: seq<string>, keys: seq<string>)
    requires Distinct(values) && |keys| == |values| && Zip(values, keys) == Inverse(m)
    ensures forall j :: 0 <= j < |keys| ==> keys[j] in m && m[keys[j]] == values[j]
  {
    ZipFacts(values, keys);
    forall j | 0 <= j < |keys| ensures keys[j] in m && m[keys[j]] == values[j] {
      assert values[j] in Elements(values);
      assert Inverse(m)[values[j]] == keys[j];
    }
  }

  /** `[dict(zip(keys, p)) for p in permutations(values)]` */
  function ByValues(g: Group): (r: seq<map<string, string>>)
    requires ValidGroup(g)
  {
    ZipEach(g.keys, Permutations(g.values))
  }

  function ZipEach(keys: seq<string>, lists: seq<seq<string>>): (r: seq<map<string, string>>)
    ensures |r| == |lists|
    ensures forall i :: 0 <= i < |lists| ==> r[i] == if |keys| == |lists[i]| then Zip(keys, lists[i]) else map[]
  {
    seq(|lists|, i requires 0 <= i < |lists| => if |keys| == |lists[i]| then Zip(keys, lists[i]) else map[])
  }

  /** `[dict(zip(p, values)) for p in permutations(keys)]` */
  function ByKeys(g: Group): (r: seq<map<string, string>>)
    requires ValidGroup(g)
  {
    EachZip(Permutations(g.keys), g.values)
  }

  function EachZip(lists: seq<seq<string>>, values: seq<string>): (r: seq<map<string, string>>)
    ensures |r| == |lists|
    ensures forall i :: 0 <= i < |lists| ==> r[i] == if |lists[i]| == |values| then Zip(lists[i], values) else map[]
  {
    seq(|lists|, i requires 0 <= i < |lists| => if |lists[i]| == |values| then Zip(lists[i], values) else map[])
  }

  lemma ByValuesExactly(g: Group, m: map<string, string>)
    requires ValidGroup(g)
    ensures m in ByValues(g) <==> Matching(m, g)
  {
    var lists := Permutations(g.values);
    if m in ByValues(g) {
      var i :| 0 <= i < |lists| && ByValues(g)[i] == m;
      assert lists[i] in lists;
      PermutationsExactly(g.values, lists[i]);
      ZipIsMatching(g, g.keys, lists[i]);
    }
    if Matching(m, g) {
      var values := MatchingValues(m, g);
      PermutationsExactly(g.values, values);
      var i :| 0 <= i < |lists| && lists[i] == values;
      assert ByValues(g)[i] == m;
    }
  }

  lemma ByKeysExactly(g: Group, m: map<string, string>)
    requires ValidGroup(g)
    ensures m in ByKeys(g) <==> Matching(m, g)
  {
    var lists := Permutations(g.keys);
    if m in ByKeys(g) {
      var i :| 0 <= i < |lists| && ByKeys(g)[i] == m;
      assert lists[i] in lists;
      PermutationsExactly(g.keys, lists[i]);
      ZipIsMatching(g, lists[i], g.values);
    }
    if Matching(m, g) {
      var keys := MatchingKeys(m, g);
      PermutationsExactly(g.keys, keys);
      var i :| 0 <= i < |lists| && lists[i] == keys;
      assert ByKeys(g)[i] == m;
    }
  }

  // ---------------------------------------------------------------- all entities

  function MergeEach(first: map<string, string>, rest: seq<map<string, string>>): (r: seq<map<string, string>>)
    ensures |r| == |rest| && forall i :: 0 <= i < |rest| ==> r[i] == first + rest[i]
  {
    seq(|rest|, i requires 0 <= i < |rest| => first + rest[i])
  }

  function MergeAll(firsts: seq<map<string, string>>, rest: seq<map<string, string>>): seq<map<string, string>> {
    if firsts == [] then [] else MergeEach(firsts[0], rest) + MergeAll(firsts[1..], rest)
  }

  /** `itertools.product` of the choices, each combination merged into one mapping. */
  function Product(choices: seq<seq<map<string, string>>>): seq<map<string, string>> {
    if choices == [] then [map[]] else MergeAll(choices[0], Product(choices[1..]))
  }

  lemma {:induction false} MergeAllMembers(firsts: seq<map<string, string>>, rest: seq<map<string, string>>, m: map<string, string>)
    ensures m in MergeAll(firsts, rest) <==> exists a, b :: a in firsts && b in rest && m == a + b
  {
    if firsts != [] {
      MergeAllMembers(firsts[1..], rest, m);
      assert firsts == [firsts[0]] + firsts[1..];
      var here := MergeEach(firsts[0], rest);
      if m in here {
        var i :| 0 <= i < |here| && here[i] == m;
        assert rest[i] in rest;
      }
      if a, b :| a in firsts && b in rest && m == a + b && a == firsts[0] {
        var i :| 0 <= i < |rest| && rest[i] == b;
        assert here[i] == m;
      }
    }
  }

  function AllKeys(groups: seq<Group>): set<string> {
    if groups == [] then {} else Elements(groups[0].keys) + AllKeys(groups[1..])
  }

  function AllValues(groups: seq<Group>): set<string> {
    if groups == [] then {} else Elements(groups[0].values) + AllValues(groups[1..])
  }

  ghost predicate ValidGroups(groups: seq<Group>) {
    groups == [] ||
    (ValidGroup(groups[0]) && Elements(groups[0].keys) !! AllKeys(groups[1..])
     && Elements(groups[0].values) !! AllValues(groups[1..]) && ValidGroups(groups[1..]))
  }

  /** Each key's value lies in the key's group, for all groups. */
  ghost predicate StaysInGroups(m: map<string, string>, groups: seq<Group>) {
    forall i, k :: 0 <= i < |groups| && k in groups[i].keys ==> k in m && m[k] in groups[i].values
  }

  /** A one-to-one mapping of all keys that respects the groups. */
  ghost predicate Fits(m: map<string, string>, groups: seq<Group>) {
    m.Keys == AllKeys(groups) && Injective(m) && StaysInGroups(m, groups)
  }

  lemma {:induction false} GroupMembers(groups: seq<Group>, i: nat)
    requires i < |groups|
    ensures Elements(groups[i].keys) <= AllKeys(groups) && Elements(groups[i].values) <= AllValues(groups)
  {
    if i > 0 {
      GroupMembers(groups[1..], i - 1);
    }
  }

  lemma {:induction false} InSomeGroup(groups: seq<Group>, k: string) returns (i: nat)
    requires k in AllKeys(groups)
    ensures i < |groups| && k in groups[i].keys
  {
    if k in groups[0].keys {
      i := 0;
    } else {
      i := InSomeGroup(groups[1..], k);
      i := i + 1;
    }
  }

  lemma JoinedStays(a: map<string, string>, b: map<string, string>, first: Group, rest: seq<Group>)
    requires StaysInGroups(a, [first]) && StaysInGroups(b, rest) && a.Keys !! b.Keys
    ensures StaysInGroups(a + b, [first] + rest)
  {
    var groups := [first] + rest;
    forall i, k | 0 <= i < |groups| && k in groups[i].keys ensures k in a + b && (a + b)[k] in groups[i].values {
      if i == 0 {
        assert k in [first][0].keys;
      } else {
        assert k in rest[i - 1].keys;
      }
    }
  }

  lemma RestStays(m: map<string, string>, groups: seq<Group>, b: map<string, string>, i: nat, k: string)
    requires groups != [] && StaysInGroups(m, groups) && i < |groups| - 1 && k in groups[1..][i].keys
    requires forall x :: x in m && x in AllKeys(groups[1..]) ==> x in b && b[x] == m[x]
    ensures k in b && b[k] in groups[1..][i].values
  {
    assert groups[1..][i] == groups[i + 1];
    GroupMembers(groups[1..], i);
    assert k in Elements(groups[1..][i].keys);
  }

  lemma FitsSplits(m: map<string, string>, groups: seq<Group>) returns (a: map<string, string>, b: map<string, string>)
    requires groups != [] && ValidGroups(groups) && Fits(m, groups)
    ensures m == a + b && Matching(a, groups[0]) && Fits(b, groups[1..])
  {
    a := Among(m, Elements(groups[0].keys));
    b := Among(m, AllKeys(groups[1..]));
    assert m == a + b;
    FirstMatches(m, groups);
    RestFits(m, groups);
  }

  ghost function Among(m: map<string, string>, keys: set<string>): map<string, string> {
    map k | k in m && k in keys :: m[k]
  }

  lemma FirstMatches(m: map<string, string>, groups: seq<Group>)
    requires groups != [] && ValidGroups(groups) && Fits(m, groups)
    ensures Matching(Among(m, Elements(groups[0].keys)), groups[0])
  {
    assert forall k :: k in groups[0].keys ==> k in m && m[k] in groups[0].values;
  }

  lemma RestFits(m: map<string, string>, groups: seq<Group>)
    requires groups != [] && ValidGroups(groups) && Fits(m, groups)
    ensures Fits(Among(m, AllKeys(groups[1..])), groups[1..])
  {
    var b := Among(m, AllKeys(groups[1..]));
    forall i, k | 0 <= i < |groups[1..]| && k in groups[1..][i].keys ensures k in b && b[k] in groups[1..][i].values {
      RestStays(m, groups, b, i, k);
    }
  }

  lemma FitsJoins(a: map<string, string>, b: map<string, string>, groups: seq<Group>)
    requires groups != [] && ValidGroups(groups) && Matching(a, groups[0]) && Fits(b, groups[1..])
    ensures Fits(a + b, groups)
  {
    var m := a + b;
    forall k | k in b ensures b[k] in AllValues(groups[1..]) {
      var i := InSomeGroup(groups[1..], k);
      GroupMembers(groups[1..], i);
      assert b[k] in Elements(groups[1..][i].values);
    }
    forall k | k in a ensures a[k] in Elements(groups[0].values) && k !in b && m[k] == a[k] {}
    JoinedStays(a, b, groups[0], groups[1..]);
    assert groups == [groups[0]] + groups[1..];
  }

  lemma {:induction false} ProductExactly(choices: seq<seq<map<string, string>>>, groups: seq<Group>, m: map<string, string>)
    requires ValidGroups(groups) && |choices| == |groups|
    requires forall i, a :: 0 <= i < |groups| ==> (a in choices[i] <==> Matching(a, groups[i]))
    ensures m in Product(choices) <==> Fits(m, groups)
  {
    if groups != [] {
      MergeAllMembers(choices[0], Product(choices[1..]), m);
      forall b ensures b in Product(choices[1..]) <==> Fits(b, groups[1..]) {
        ProductExactly(choices[1..], groups[1..], b);
      }
      if Fits(m, groups) {
        var a, b := FitsSplits(m, groups);
        assert a in choices[0] && b in Product(choices[1..]);
      }
      if m in Product(choices) {
        var a, b :| a in choices[0] && b in Product(choices[1..]) && m == a + b;
        FitsJoins(a, b, groups);
      }
    }
  }
}
