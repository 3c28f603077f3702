/** Join graphs extracted from SQL, and their canonical form up to renaming of table instances. */
module SqlGraph {
  import opened Domain
  import opened Ordering
  import opened Sorting
  import opened Bijections

  datatype JoinKind = Inner | LeftOuter | Unsupported

  type Pair = (string, string)

  /** Column equalities between two table instances; endpoints are written entity.column. */
  datatype NormalizedEdge = NormalizedEdge(leftRef: string, rightRef: string, pairs: seq<Pair>, kind: JoinKind)

  datatype NormalizedGraph = NormalizedGraph(sourceId: string, entityRefs: seq<EntityRef>, edges: seq<NormalizedEdge>)

  function RefNames(refs: seq<EntityRef>): set<string> {
    set r | r in refs :: r.ref
  }

  ghost predicate WellFormed(refs: seq<EntityRef>, edges: seq<NormalizedEdge>) {
    && DistinctRefs(refs)
    && forall i :: 0 <= i < |edges| ==>
         edges[i].leftRef in RefNames(refs) && edges[i].rightRef in RefNames(refs) && edges[i].leftRef != edges[i].rightRef
  }

  // ---------------------------------------------------------------- renaming one edge

  function At(m: map<string, string>, k: string): string {
    if k in m then m[k] else k
  }

  function Rename(e: NormalizedEdge, m: map<string, string>): NormalizedEdge {
    e.(leftRef := At(m, e.leftRef), rightRef := At(m, e.rightRef))
  }

  function Swap(p: Pair): Pair { (p.1, p.0) }

  function PairKey(p: Pair): seq<string> { [p.0, p.1] }

  predicate PairLe(a: Pair, b: Pair) { KeyLe(PairKey(a), PairKey(b)) }

  /** An inner edge is written from its smaller to its larger instance; pairs are sorted. */
  function Written(e: NormalizedEdge): NormalizedEdge {
    if e.kind == Inner && !NameLe(e.leftRef, e.rightRef)
    then NormalizedEdge(e.rightRef, e.leftRef, Sorted(Mapped(e.pairs, Swap), PairLe), e.kind)
    else e.(pairs := Sorted(e.pairs, PairLe))
  }

  function Remap(e: NormalizedEdge, m: map<string, string>): NormalizedEdge {
    Written(Rename(e, m))
  }

  /** What an edge says, however it is written: the order of its pairs never matters, and neither
      does the side an inner edge is read from. */
  datatype Reading = Reading(kind: JoinKind, views: set<(string, string, multiset<Pair>)>)

  function ReadingOf(e: NormalizedEdge): Reading {
    if e.kind == Inner
    then Reading(Inner, {(e.leftRef, e.rightRef, multiset(e.pairs)), (e.rightRef, e.leftRef, multiset(Mapped(e.pairs, Swap)))})
    else Reading(e.kind, {(e.leftRef, e.rightRef, multiset(e.pairs))})
  }

  lemma PairLeFacts()
    ensures TotalOrder(PairLe)
  {
    ComparedByKey(PairLe, PairKey);
    forall a, b | PairLe(a, b) && PairLe(b, a) ensures a == b {
      assert PairKey(a)[0] == PairKey(b)[0] && PairKey(a)[1] == PairKey(b)[1];
    }
  }

  lemma SwapTwice(pairs: seq<Pair>)
    ensures Mapped(Mapped(pairs, Swap), Swap) == pairs
  {
  }

  lemma SameSortedPairs(a: seq<Pair>, b: seq<Pair>)
    requires multiset(a) == multiset(b)
    ensures Sorted(a, PairLe) == Sorted(b, PairLe)
  {
    PairLeFacts();
    SortedPermutation(a, b, PairLe);
  }

  /** Writing an edge in its standard form keeps what it says. */
  lemma WrittenReads(e: NormalizedEdge)
    ensures ReadingOf(Written(e)) == ReadingOf(e)
  {
    PairLeFacts();
    SortedFacts(e.pairs, PairLe);
    SortedFacts(Mapped(e.pairs, Swap), PairLe);
    MappedTogether(Sorted(e.pairs, PairLe), e.pairs, Swap);
    MappedTogether(Sorted(Mapped(e.pairs, Swap), PairLe), Mapped(e.pairs, Swap), Swap);
    SwapTwice(e.pairs);
  }

  /** Edges that say the same are written the same. */
  lemma ReadingsWritten(e: NormalizedEdge, f: NormalizedEdge)
    requires ReadingOf(e) == ReadingOf(f) && e.leftRef != e.rightRef
    ensures Written(e) == Written(f)
  {
    var view := (e.leftRef, e.rightRef, multiset(e.pairs));
    assert view in ReadingOf(e).views && view in ReadingOf(f).views;
    SameSidesOrSwapped(e, f);
    if e.leftRef == f.leftRef && multiset(e.pairs) == multiset(f.pairs) {
      SameSortedPairs(e.pairs, f.pairs);
      MappedTogether(e.pairs, f.pairs, Swap);
      SameSortedPairs(Mapped(e.pairs, Swap), Mapped(f.pairs, Swap));
    } else {
      MappedTogether(e.pairs, Mapped(f.pairs, Swap), Swap);
      SwapTwice(f.pairs);
      SameSortedPairs(e.pairs, Mapped(f.pairs, Swap));
      SameSortedPairs(Mapped(e.pairs, Swap), f.pairs);
      NameLeTotal(e.leftRef, e.rightRef);
    }
  }

  lemma SameSidesOrSwapped(e: NormalizedEdge, f: NormalizedEdge)
    requires (e.leftRef, e.rightRef, multiset(e.pairs)) in ReadingOf(f).views && e.kind == f.kind
    ensures || (e.leftRef == f.leftRef && e.rightRef == f.rightRef && multiset(e.pairs) == multiset(f.pairs))
            || (e.kind == Inner && e.leftRef == f.rightRef && e.rightRef == f.leftRef && multiset(e.pairs) == multiset(Mapped(f.pairs, Swap)))
  {
  }

  function RenameReading(r: Reading, m: map<string, string>): Reading {
    Reading(r.kind, set v | v in r.views :: (At(m, v.0), At(m, v.1), v.2))
  }

  lemma RenameReads(e: NormalizedEdge, m: map<string, string>)
    ensures ReadingOf(Rename(e, m)) == RenameReading(ReadingOf(e), m)
  {
    var views := ReadingOf(e).views;
    var image := RenameReading(ReadingOf(e), m).views;
    var v := (e.leftRef, e.rightRef, multiset(e.pairs));
    var w := (e.rightRef, e.leftRef, multiset(Mapped(e.pairs, Swap)));
    assert v in views && (At(m, v.0), At(m, v.1), v.2) in image;
    if e.kind == Inner {
      assert w in views && (At(m, w.0), At(m, w.1), w.2) in image;
    }
  }
}
