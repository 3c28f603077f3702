/** Orders used as sort keys.  Python compares UTF-8 encoded names byte by byte, which is
    the order of their code points, and compares key tuples position by position. */
module Ordering {

  ghost predicate TotalPreorder<T(!new)>(le: (T, T) -> bool) {
    && (forall a, b :: le(a, b) || le(b, a))
    && (forall a, b, c :: le(a, b) && le(b, c) ==> le(a, c))
  }

  ghost predicate TotalOrder<T(!new)>(le: (T, T) -> bool) {
    && TotalPreorder(le)
    && (forall a, b :: le(a, b) && le(b, a) ==> a == b)
  }

  /** Order of two encoded names. */
  predicate NameLe(a: string, b: string) {
    || a == []
    || (b != [] && (a[0] < b[0] || (a[0] == b[0] && NameLe(a[1..], b[1..]))))
  }

  /** Order of two key tuples whose components are encoded names. */
  predicate KeyLe(a: seq<string>, b: seq<string>) {
    || a == []
    || (b != [] && (if a[0] == b[0] then KeyLe(a[1..], b[1..]) else NameLe(a[0], b[0])))
  }

  lemma {:induction false} NameLeTotal(a: string, b: string)
    ensures NameLe(a, b) || NameLe(b, a)
    ensures NameLe(a, b) && NameLe(b, a) ==> a == b
  {
    if a != [] && b != [] {
      NameLeTotal(a[1..], b[1..]);
      assert a == [a[0]] + a[1..] && b == [b[0]] + b[1..];
    }
  }

  lemma {:induction false} NameLeTransitive(a: string, b: string, c: string)
    requires NameLe(a, b) && NameLe(b, c)
    ensures NameLe(a, c)
  {
    if a != [] && a[0] == b[0] == c[0] {
      NameLeTransitive(a[1..], b[1..], c[1..]);
    }
  }

  lemma {:induction false} KeyLeTotal(a: seq<string>, b: seq<string>)
    ensures KeyLe(a, b) || KeyLe(b, a)
    ensures KeyLe(a, b) && KeyLe(b, a) ==> a == b
  {
    if a != [] && b != [] {
      KeyLeTotal(a[1..], b[1..]);
      NameLeTotal(a[0], b[0]);
      assert a == [a[0]] + a[1..] && b == [b[0]] + b[1..];
    }
  }

  lemma {:induction false} KeyLeTransitive(a: seq<string>, b: seq<string>, c: seq<string>)
    requires KeyLe(a, b) && KeyLe(b, c)
    ensures KeyLe(a, c)
  {
    if a != [] {
      if a[0] == b[0] == c[0] {
        KeyLeTransitive(a[1..], b[1..], c[1..]);
      } else if a[0] != b[0] && b[0] != c[0] {
        NameLeTransitive(a[0], b[0], c[0]);
        NameLeTotal(a[0], b[0]);
      }
    }
  }

  lemma NameLeIsTotalOrder()
    ensures TotalOrder(NameLe)
  {
    forall a, b ensures (NameLe(a, b) || NameLe(b, a)) && (NameLe(a, b) && NameLe(b, a) ==> a == b) {
      NameLeTotal(a, b);
    }
    forall a, b, c | NameLe(a, b) && NameLe(b, c) ensures NameLe(a, c) {
      NameLeTransitive(a, b, c);
    }
  }

  lemma KeyLeIsTotalOrder()
    ensures TotalOrder(KeyLe)
  {
    forall a, b ensures (KeyLe(a, b) || KeyLe(b, a)) && (KeyLe(a, b) && KeyLe(b, a) ==> a == b) {
      KeyLeTotal(a, b);
    }
    forall a, b, c | KeyLe(a, b) && KeyLe(b, c) ensures KeyLe(a, c) {
      KeyLeTransitive(a, b, c);
    }
  }

  /** The first component decides unless it is the same in both. */
  lemma KeyLeFirst(a: string, b: string, s: seq<string>, t: seq<string>)
    ensures KeyLe([a] + s, [b] + t) <==> if a == b then KeyLe(s, t) else NameLe(a, b)
  {
    assert ([a] + s)[1..] == s && ([b] + t)[1..] == t;
  }

  /** `k` is the first place where the names differ, and `a` has the smaller character there. */
  predicate SmallerAt(a: string, b: string, k: nat) {
    k < |a| && k < |b| && a[..k] == b[..k] && a[k] < b[k]
  }

  lemma SmallerLater(a: string, b: string, k: nat)
    requires a != [] && b != []
    ensures SmallerAt(a, b, k + 1) <==> a[0] == b[0] && SmallerAt(a[1..], b[1..], k)
  {
    if k + 1 < |a| && k + 1 < |b| {
      assert a[..k + 1] == [a[0]] + a[1..][..k] && b[..k + 1] == [b[0]] + b[1..][..k];
    }
  }

  /** The order of names: a prefix comes first, and otherwise the first character that differs decides. */
  lemma {:induction false} NameLeExactly(a: string, b: string)
    ensures NameLe(a, b) <==> a <= b || exists k: nat :: SmallerAt(a, b, k)
  {
    if a != [] && b != [] {
      NameLeExactly(a[1..], b[1..]);
      if k: nat :| SmallerAt(a[1..], b[1..], k) { SmallerLater(a, b, k); }
      if k: nat :| SmallerAt(a, b, k) && k > 0 { SmallerLater(a, b, k - 1); }
      assert SmallerAt(a, b, 0) <==> a[0] < b[0];
      assert a <= b <==> a[0] == b[0] && a[1..] <= b[1..] by { PrefixByParts(a, b); }
    }
  }

  lemma PrefixByParts(a: string, b: string)
    requires a != [] && b != []
    ensures a <= b <==> a[0] == b[0] && a[1..] <= b[1..]
  {
    if a[0] == b[0] && a[1..] <= b[1..] {
      assert a == [a[0]] + a[1..] && b[..|a|] == [b[0]] + b[1..][..|a| - 1];
    }
    if a <= b {
      assert a[1..] == b[1..][..|a| - 1];
    }
  }

  /** Comparing by a key. */
  lemma ComparedByKey<T(!new)>(le: (T, T) -> bool, key: T -> seq<string>)
    requires forall a, b :: le(a, b) == KeyLe(key(a), key(b))
    ensures TotalPreorder(le)
    ensures forall a, b :: le(a, b) && le(b, a) ==> key(a) == key(b)
  {
    forall a, b ensures le(a, b) || le(b, a) ensures le(a, b) && le(b, a) ==> key(a) == key(b) {
      KeyLeTotal(key(a), key(b));
    }
    forall a, b, c | le(a, b) && le(b, c) ensures le(a, c) {
      KeyLeTransitive(key(a), key(b), key(c));
    }
  }
}

/** Python's stable `sorted`, as a function, with the facts every caller here relies on. */
module Sorting {
  import opened Ordering

  function Insert<T>(x: T, xs: seq<T>, le: (T, T) -> bool): seq<T> {
    if xs == [] || le(x, xs[0]) then [x] + xs else [xs[0]] + Insert(x, xs[1..], le)
  }

  /** Stable: an element goes in front of the later ones it ties with. */
  function Sorted<T>(xs: seq<T>, le: (T, T) -> bool): seq<T> {
    if xs == [] then [] else Insert(xs[0], Sorted(xs[1..], le), le)
  }

  ghost predicate Ordered<T>(xs: seq<T>, le: (T, T) -> bool) {
    forall i, j :: 0 <= i < j < |xs| ==> le(xs[i], xs[j])
  }

  /** The elements of `xs` that tie with `x`, in the order in which they appear. */
  ghost function Ties<T>(xs: seq<T>, x: T, le: (T, T) -> bool): seq<T> {
    if xs == [] then []
    else (if le(x, xs[0]) && le(xs[0], x) then [xs[0]] else []) + Ties(xs[1..], x, le)
  }

  lemma {:induction false} TiesTie<T>(xs: seq<T>, x: T, le: (T, T) -> bool, y: T)
    ensures y in Ties(xs, x, le) ==> y in xs && le(x, y) && le(y, x)
  {
    if xs != [] {
      TiesTie(xs[1..], x, le, y);
    }
  }

  lemma {:induction false} InsertFacts<T(!new)>(x: T, xs: seq<T>, le: (T, T) -> bool)
    requires TotalPreorder(le) && Ordered(xs, le)
    ensures Ordered(Insert(x, xs, le), le)
    ensures multiset(Insert(x, xs, le)) == multiset{x} + multiset(xs)
  {
    if xs != [] && !le(x, xs[0]) {
      InsertFacts(x, xs[1..], le);
      var r := Insert(x, xs[1..], le);
      assert xs == [xs[0]] + xs[1..];
      forall i | 0 <= i < |r| ensures le(xs[0], r[i]) {
        assert r[i] in multiset(r);
        assert r[i] == x || r[i] in xs[1..];
      }
    } else if xs != [] {
      forall i | 0 <= i < |xs| ensures le(x, xs[i]) {
        assert i == 0 || le(xs[0], xs[i]);
      }
    }
  }

  lemma {:induction false} SortedFacts<T(!new)>(xs: seq<T>, le: (T, T) -> bool)
    requires TotalPreorder(le)
    ensures Ordered(Sorted(xs, le), le)
    ensures multiset(Sorted(xs, le)) == multiset(xs)
    ensures |Sorted(xs, le)| == |xs|
  {
    if xs != [] {
      SortedFacts(xs[1..], le);
      InsertFacts(xs[0], Sorted(xs[1..], le), le);
      assert xs == [xs[0]] + xs[1..];
    }
    assert |Sorted(xs, le)| == |multiset(Sorted(xs, le))| == |multiset(xs)| == |xs|;
  }

  lemma {:induction false} InsertTies<T(!new)>(x: T, xs: seq<T>, y: T, le: (T, T) -> bool)
    requires TotalPreorder(le)
    ensures Ties(Insert(x, xs, le), y, le) == (if le(y, x) && le(x, y) then [x] else []) + Ties(xs, y, le)
  {
    if xs == [] || le(x, xs[0]) {
      assert ([x] + xs)[1..] == xs;
    } else {
      InsertTies(x, xs[1..], y, le);
      TiesBehind(xs[0], Insert(x, xs[1..], le), xs[1..], y, le, if le(y, x) && le(x, y) then [x] else []);
      assert xs == [xs[0]] + xs[1..];
    }
  }

  lemma TiesBehind<T(!new)>(first: T, inserted: seq<T>, rest: seq<T>, y: T, le: (T, T) -> bool, added: seq<T>)
    requires Ties(inserted, y, le) == added + Ties(rest, y, le)
    requires added == [] || !(le(y, first) && le(first, y))
    ensures Ties([first] + inserted, y, le) == added + Ties([first] + rest, y, le)
  {
    TiesFirst(first, inserted, y, le);
    TiesFirst(first, rest, y, le);
  }

  lemma TiesFirst<T(!new)>(x: T, xs: seq<T>, y: T, le: (T, T) -> bool)
    ensures Ties([x] + xs, y, le) == (if le(y, x) && le(x, y) then [x] else []) + Ties(xs, y, le)
  {
    assert ([x] + xs)[1..] == xs;
  }

  lemma {:induction false} TiesAppend<T>(xs: seq<T>, ys: seq<T>, x: T, le: (T, T) -> bool)
    ensures Ties(xs + ys, x, le) == Ties(xs, x, le) + Ties(ys, x, le)
  {
    if xs == [] {
      assert xs + ys == ys;
    } else {
      TiesAppend(xs[1..], ys, x, le);
      assert (xs + ys)[0] == xs[0] && (xs + ys)[1..] == xs[1..] + ys;
      var first := if le(x, xs[0]) && le(xs[0], x) then [xs[0]] else [];
      assert Ties(xs + ys, x, le) == first + (Ties(xs[1..], x, le) + Ties(ys, x, le));
    }
  }

  /** Stability: sorting leaves the order of tying elements alone. */
  lemma {:induction false} SortedTies<T(!new)>(xs: seq<T>, y: T, le: (T, T) -> bool)
    requires TotalPreorder(le)
    ensures Ties(Sorted(xs, le), y, le) == Ties(xs, y, le)
  {
    if xs != [] {
      SortedTies(xs[1..], y, le);
      InsertTies(xs[0], Sorted(xs[1..], le), y, le);
    }
  }

  lemma {:induction false} TiesHasAll<T>(xs: seq<T>, x: T, le: (T, T) -> bool)
    requires le(x, x) && x in xs
    ensures x in Ties(xs, x, le)
  {
    if xs[0] != x {
      TiesHasAll(xs[1..], x, le);
    }
  }

  lemma BothEmpty<T(!new)>(xs: seq<T>, ys: seq<T>)
    requires forall x :: x in xs <==> x in ys
    ensures xs == [] <==> ys == []
  {
    if xs != [] { assert xs[0] in ys; }
    if ys != [] { assert ys[0] in xs; }
  }

  lemma {:induction false} OrderedByTies<T(!new)>(xs: seq<T>, ys: seq<T>, le: (T, T) -> bool)
    requires TotalPreorder(le) && Ordered(xs, le) && Ordered(ys, le)
    requires forall y :: Ties(xs, y, le) == Ties(ys, y, le)
    ensures xs == ys
  {
    forall x ensures x in xs <==> x in ys {
      assert Ties(xs, x, le) == Ties(ys, x, le);
      if x in xs { TiesHasAll(xs, x, le); TiesTie(ys, x, le, x); }
      if x in ys { TiesHasAll(ys, x, le); TiesTie(xs, x, le, x); }
    }
    BothEmpty(xs, ys);
    if xs != [] {
      TiesHasAll(xs, xs[0], le);
      TiesHasAll(ys, ys[0], le);
      assert Ties(xs, xs[0], le) == Ties(ys, xs[0], le);
      assert Ties(xs, ys[0], le) == Ties(ys, ys[0], le);
      TiesTie(ys, xs[0], le, xs[0]);
      TiesTie(xs, ys[0], le, ys[0]);
      assert le(xs[0], ys[0]) && le(ys[0], xs[0]);
      assert Ties(xs, xs[0], le)[0] == xs[0];
      assert Ties(ys, xs[0], le)[0] == ys[0];
      forall y ensures Ties(xs[1..], y, le) == Ties(ys[1..], y, le) {
        assert Ties(xs, y, le) == Ties(ys, y, le);
        var first := if le(y, xs[0]) && le(xs[0], y) then [xs[0]] else [];
        assert Ties(xs, y, le)[|first|..] == Ties(xs[1..], y, le);
        assert Ties(ys, y, le)[|first|..] == Ties(ys[1..], y, le);
      }
      OrderedByTies(xs[1..], ys[1..], le);
      assert xs == [xs[0]] + xs[1..] && ys == [ys[0]] + ys[1..];
    }
  }

  /** Two inputs sort to the same result when every tie group reads the same in both. */
  lemma SortedDeterminedByTies<T(!new)>(xs: seq<T>, ys: seq<T>, le: (T, T) -> bool)
    requires TotalPreorder(le)
    requires forall y :: Ties(xs, y, le) == Ties(ys, y, le)
    ensures Sorted(xs, le) == Sorted(ys, le)
  {
    SortedFacts(xs, le);
    SortedFacts(ys, le);
    forall y ensures Ties(Sorted(xs, le), y, le) == Ties(Sorted(ys, le), y, le) {
      SortedTies(xs, y, le);
      SortedTies(ys, y, le);
      assert Ties(xs, y, le) == Ties(ys, y, le);
    }
    OrderedByTies(Sorted(xs, le), Sorted(ys, le), le);
  }

  /** No two distinct elements tie. */
  ghost predicate Untied<T>(xs: seq<T>, le: (T, T) -> bool) {
    forall i, j :: 0 <= i < |xs| && 0 <= j < |xs| && le(xs[i], xs[j]) && le(xs[j], xs[i]) ==> xs[i] == xs[j]
  }

  lemma HeadsAgree<T(!new)>(xs: seq<T>, ys: seq<T>, le: (T, T) -> bool)
    requires Ordered(xs, le) && Ordered(ys, le) && multiset(xs) == multiset(ys) && Untied(xs, le) && xs != [] && ys != []
    ensures xs[0] == ys[0]
  {
    assert xs[0] in multiset(ys) && ys[0] in multiset(xs);
    var i :| 0 <= i < |xs| && xs[i] == ys[0];
    var j :| 0 <= j < |ys| && ys[j] == xs[0];
    if i != 0 && j != 0 {
      assert le(xs[0], xs[i]) && le(ys[0], ys[j]);
    }
  }

  lemma {:induction false} OrderedPermutationUnique<T(!new)>(xs: seq<T>, ys: seq<T>, le: (T, T) -> bool)
    requires Ordered(xs, le) && Ordered(ys, le) && multiset(xs) == multiset(ys) && Untied(xs, le)
    ensures xs == ys
  {
    assert |xs| == |multiset(xs)| == |multiset(ys)| == |ys|;
    if xs != [] {
      HeadsAgree(xs, ys, le);
      RestsAgree(xs, ys);
      OrderedPermutationUnique(xs[1..], ys[1..], le);
    }
  }

  lemma RestsAgree<T>(xs: seq<T>, ys: seq<T>)
    requires xs != [] && ys != [] && xs[0] == ys[0] && multiset(xs) == multiset(ys)
    ensures multiset(xs[1..]) == multiset(ys[1..])
    ensures xs[1..] == ys[1..] ==> xs == ys
  {
    assert xs == [xs[0]] + xs[1..] && ys == [ys[0]] + ys[1..];
    assert multiset(xs) == multiset{xs[0]} + multiset(xs[1..]) && multiset(ys) == multiset{ys[0]} + multiset(ys[1..]);
    assert multiset(xs[1..]) == multiset(xs) - multiset{xs[0]} && multiset(ys[1..]) == multiset(ys) - multiset{ys[0]};
  }

  /** When no two distinct elements of the input tie, sorting forgets the input's order. */
  lemma SortedPermutation<T(!new)>(xs: seq<T>, ys: seq<T>, le: (T, T) -> bool)
    requires TotalPreorder(le) && multiset(xs) == multiset(ys) && Untied(xs, le)
    ensures Sorted(xs, le) == Sorted(ys, le)
  {
    SortedFacts(xs, le);
    SortedFacts(ys, le);
    var s := Sorted(xs, le);
    forall i, j | 0 <= i < |s| && 0 <= j < |s| && le(s[i], s[j]) && le(s[j], s[i]) ensures s[i] == s[j] {
      assert s[i] in multiset(xs) && s[j] in multiset(xs);
    }
    OrderedPermutationUnique(Sorted(xs, le), Sorted(ys, le), le);
  }

  lemma SortedEqualMeansPermutation<T(!new)>(xs: seq<T>, ys: seq<T>, le: (T, T) -> bool)
    requires TotalPreorder(le) && Sorted(xs, le) == Sorted(ys, le)
    ensures multiset(xs) == multiset(ys)
  {
    SortedFacts(xs, le);
    SortedFacts(ys, le);
  }

  function Mapped<T, U>(xs: seq<T>, f: T -> U): (r: seq<U>)
    ensures |r| == |xs| && forall i :: 0 <= i < |xs| ==> r[i] == f(xs[i])
  {
    seq(|xs|, i requires 0 <= i < |xs| => f(xs[i]))
  }

  lemma MappedWithout<T, U>(xs: seq<T>, i: nat, f: T -> U)
    requires i < |xs|
    ensures multiset(Mapped(xs, f)) == multiset{f(xs[i])} + multiset(Mapped(xs[..i] + xs[i + 1..], f))
  {
    var m := Mapped(xs, f);
    assert m == m[..i] + [m[i]] + m[i + 1..];
    assert Mapped(xs[..i] + xs[i + 1..], f) == m[..i] + m[i + 1..];
  }

  /** Mapping a permutation gives a permutation. */
  lemma {:induction false} MappedTogether<T, U>(xs: seq<T>, ys: seq<T>, f: T -> U)
    requires multiset(xs) == multiset(ys)
    ensures multiset(Mapped(xs, f)) == multiset(Mapped(ys, f))
  {
    if xs == [] {
      assert |ys| == |multiset(ys)| == 0;
    } else {
      assert xs[0] in multiset(ys);
      var i :| 0 <= i < |ys| && ys[i] == xs[0];
      var rest := ys[..i] + ys[i + 1..];
      assert xs == [xs[0]] + xs[1..];
      assert ys == ys[..i] + [ys[i]] + ys[i + 1..];
      assert multiset(ys) == multiset(ys[..i]) + multiset{ys[i]} + multiset(ys[i + 1..]);
      assert multiset(rest) == multiset(ys[..i]) + multiset(ys[i + 1..]);
      assert multiset(xs[1..]) == multiset(xs) - multiset{xs[0]};
      MappedTogether(xs[1..], rest, f);
      MappedWithout(xs, 0, f);
      assert xs[..0] + xs[1..] == xs[1..];
      MappedWithout(ys, i, f);
    }
  }

  ghost predicate ToldApart<T, U>(xs: seq<T>, ys: seq<T>, f: T -> U) {
    forall i, j :: 0 <= i < |xs| && 0 <= j < |ys| && f(xs[i]) == f(ys[j]) ==> xs[i] == ys[j]
  }

  lemma StillToldApart<T, U>(xs: seq<T>, ys: seq<T>, f: T -> U, j: nat)
    requires ToldApart(xs, ys, f) && xs != [] && j < |ys|
    ensures ToldApart(xs[1..], ys[..j] + ys[j + 1..], f)
  {
    var rest := ys[..j] + ys[j + 1..];
    forall i, k | 0 <= i < |xs| - 1 && 0 <= k < |rest| && f(xs[1..][i]) == f(rest[k]) ensures xs[1..][i] == rest[k] {
      assert rest[k] == ys[if k < j then k else k + 1] && xs[1..][i] == xs[i + 1];
    }
  }

  lemma MappedTail<T, U>(xs: seq<T>, ys: seq<T>, f: T -> U, j: nat)
    requires multiset(Mapped(xs, f)) == multiset(Mapped(ys, f)) && xs != [] && j < |ys| && f(ys[j]) == f(xs[0])
    ensures multiset(Mapped(xs[1..], f)) == multiset(Mapped(ys[..j] + ys[j + 1..], f))
  {
    MappedHead(xs, f);
    MappedWithout(ys, j, f);
    var rest := ys[..j] + ys[j + 1..];
    var a, b, x := multiset(Mapped(xs[1..], f)), multiset(Mapped(rest, f)), f(xs[0]);
    assert multiset{x} + a == multiset(Mapped(xs, f));
    assert multiset{x} + b == multiset(Mapped(ys, f));
    CancelOne(a, b, x);
  }

  lemma MappedHead<T, U>(xs: seq<T>, f: T -> U)
    requires xs != []
    ensures multiset(Mapped(xs, f)) == multiset{f(xs[0])} + multiset(Mapped(xs[1..], f))
  {
    assert Mapped(xs, f) == [f(xs[0])] + Mapped(xs[1..], f);
  }

  lemma CancelOne<T>(a: multiset<T>, b: multiset<T>, x: T)
    requires multiset{x} + a == multiset{x} + b
    ensures a == b
  {
    assert a == multiset{x} + a - multiset{x};
    assert b == multiset{x} + b - multiset{x};
  }

  /** A mapping that tells the elements apart can be undone. */
  lemma {:induction false} MappedApart<T, U>(xs: seq<T>, ys: seq<T>, f: T -> U)
    requires multiset(Mapped(xs, f)) == multiset(Mapped(ys, f)) && ToldApart(xs, ys, f)
    ensures multiset(xs) == multiset(ys)
  {
    if xs == [] {
      assert |Mapped(ys, f)| == |multiset(Mapped(ys, f))| == 0;
    } else {
      assert Mapped(xs, f)[0] in multiset(Mapped(ys, f));
      var j :| 0 <= j < |ys| && Mapped(ys, f)[j] == Mapped(xs, f)[0];
      MappedTail(xs, ys, f, j);
      StillToldApart(xs, ys, f, j);
      MappedApart(xs[1..], ys[..j] + ys[j + 1..], f);
      assert xs == [xs[0]] + xs[1..];
      TakenOut(ys, j);
    }
  }

  lemma TakenOut<T>(xs: seq<T>, i: nat)
    requires i < |xs|
    ensures multiset(xs) == multiset{xs[i]} + multiset(xs[..i] + xs[i + 1..])
  {
    assert xs == xs[..i] + [xs[i]] + xs[i + 1..];
  }
}
