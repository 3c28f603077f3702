/** Enumerating simple join paths between two entities, and accepting a path again. */
module JoinPaths {
  import opened Domain
  import opened Ordering
  import opened Sorting
  import opened Sets
  import opened Bijections

  datatype Relationship = Relationship(id: string, from: string, to: string, cardinality: Cardinality)

  datatype PathEdge = PathEdge(id: string, direction: string, cardinality: Cardinality)

  type Path = seq<PathEdge>

  /** What precedes the first dot of an endpoint. */
  function EntityOf(endpoint: string): string {
    if endpoint == [] || endpoint[0] == '.' then [] else [endpoint[0]] + EntityOf(endpoint[1..])
  }

  ghost predicate DistinctIds(rs: seq<Relationship>) {
    forall i, j :: 0 <= i < j < |rs| ==> rs[i].id != rs[j].id
  }

  predicate IdLe(a: Relationship, b: Relationship) { NameLe(a.id, b.id) }

  // ---------------------------------------------------------------- steps and simple paths

  function StepEdge(r: Relationship, forward: bool): PathEdge {
    PathEdge(r.id, if forward then "forward" else "reverse", r.cardinality)
  }

  /** The entity that a step of `r` leaves, and the one it enters. */
  function Source(r: Relationship, forward: bool): string { EntityOf(if forward then r.from else r.to) }
  function Sink(r: Relationship, forward: bool): string { EntityOf(if forward then r.to else r.from) }

  /** `e` is a step along or against a relationship of the model from `x` to `y`. */
  ghost predicate Steps(rs: seq<Relationship>, e: PathEdge, x: string, y: string) {
    exists r, forward :: r in rs && e == StepEdge(r, forward) && x == Source(r, forward) && y == Sink(r, forward)
  }

  /** `visits` are the entities along `p`. */
  ghost predicate Along(rs: seq<Relationship>, p: Path, visits: seq<string>) {
    |visits| == |p| + 1 && forall k :: 0 <= k < |p| ==> Steps(rs, p[k], visits[k], visits[k + 1])
  }

  /** A simple path from `source` to `target` of 1 to `maxDepth` edges. */
  ghost predicate SimplePath(rs: seq<Relationship>, source: string, target: string, maxDepth: nat, p: Path) {
    1 <= |p| <= maxDepth &&
    exists visits :: Along(rs, p, visits) && visits[0] == source && visits[|p|] == target && Distinct(visits)
  }

  lemma StepDetermines(rs: seq<Relationship>, e: PathEdge, x: string, y: string, x': string, y': string)
    requires DistinctIds(rs) && Steps(rs, e, x, y) && Steps(rs, e, x', y')
    ensures x == x' && y == y'
  {
    var r, forward :| r in rs && e == StepEdge(r, forward) && x == Source(r, forward) && y == Sink(r, forward);
    var r', forward' :| r' in rs && e == StepEdge(r', forward') && x' == Source(r', forward') && y' == Sink(r', forward');
    var i :| 0 <= i < |rs| && rs[i] == r;
    var j :| 0 <= j < |rs| && rs[j] == r';
    assert i == j;
    DirectionsDiffer(forward, forward');
  }

  lemma DirectionsDiffer(a: bool, b: bool)
    requires (if a then "forward" else "reverse") == (if b then "forward" else "reverse")
    ensures a == b
  {
    assert "forward"[0] != "reverse"[0];
  }

  /** The entities along a path are determined by where it starts. */
  lemma {:induction false} VisitsDetermined(rs: seq<Relationship>, p: Path, q: Path, v: seq<string>, w: seq<string>, k: nat)
    requires DistinctIds(rs) && Along(rs, p, v) && Along(rs, q, w) && p <= q && v[0] == w[0] && k <= |p|
    ensures v[k] == w[k]
  {
    if k > 0 {
      VisitsDetermined(rs, p, q, v, w, k - 1);
      assert p[k - 1] == q[k - 1];
      StepDetermines(rs, p[k - 1], v[k - 1], v[k - 1 + 1], w[k - 1], w[k - 1 + 1]);
    }
  }

  // ---------------------------------------------------------------- the queue

  datatype Item = Item(entity: string, path: Path, seen: set<string>)

  /** The item's path runs from `source` to its entity, repeats nothing, and has not passed the target. */
  ghost predicate Trail(rs: seq<Relationship>, source: string, target: string, it: Item, visits: seq<string>) {
    && Along(rs, it.path, visits) && visits[0] == source && visits[|it.path|] == it.entity && Distinct(visits)
    && it.seen == Elements(visits)
    && (forall k :: 0 < k < |it.path| ==> visits[k] != target)
  }

  ghost predicate ItemOk(rs: seq<Relationship>, source: string, target: string, maxDepth: nat, it: Item) {
    |it.path| <= maxDepth && exists visits :: Trail(rs, source, target, it, visits)
  }

  function ChildOf(it: Item, r: Relationship, forward: bool): Item {
    Item(Sink(r, forward), it.path + [StepEdge(r, forward)], it.seen + {Sink(r, forward)})
  }

  function ChildrenBy(it: Item, r: Relationship): seq<Item> {
    (if it.entity == Source(r, true) && Sink(r, true) !in it.seen then [ChildOf(it, r, true)] else [])
    + (if it.entity == Source(r, false) && Sink(r, false) !in it.seen then [ChildOf(it, r, false)] else [])
  }

  function Children(it: Item, rs: seq<Relationship>): seq<Item> {
    if rs == [] then [] else Children(it, rs[..|rs| - 1]) + ChildrenBy(it, rs[|rs| - 1])
  }

  ghost predicate IsChild(it: Item, rs: seq<Relationship>, c: Item) {
    exists r, forward :: r in rs && it.entity == Source(r, forward) && Sink(r, forward) !in it.seen && c == ChildOf(it, r, forward)
  }

  lemma {:induction false} ChildrenExactly(it: Item, rs: seq<Relationship>, c: Item)
    ensures c in Children(it, rs) <==> IsChild(it, rs, c)
  {
    if rs != [] {
      var n := |rs| - 1;
      ChildrenExactly(it, rs[..n], c);
      ChildOfOneMore(it, rs, c);
    }
  }

  lemma ChildByOne(it: Item, r: Relationship, c: Item)
    ensures c in ChildrenBy(it, r) <==>
      exists forward :: it.entity == Source(r, forward) && Sink(r, forward) !in it.seen && c == ChildOf(it, r, forward)
  {
    if c in ChildrenBy(it, r) {
      assert c == ChildOf(it, r, true) || c == ChildOf(it, r, false);
    }
  }

  lemma ChildOfOneMore(it: Item, rs: seq<Relationship>, c: Item)
    requires rs != []
    ensures IsChild(it, rs, c) <==> IsChild(it, rs[..|rs| - 1], c) || c in ChildrenBy(it, rs[|rs| - 1])
  {
    var n := |rs| - 1;
    ChildByOne(it, rs[n], c);
    assert rs == rs[..n] + [rs[n]];
    if IsChild(it, rs, c) {
      var r, forward :| r in rs && it.entity == Source(r, forward) && Sink(r, forward) !in it.seen && c == ChildOf(it, r, forward);
      assert r == rs[n] || r in rs[..n];
    }
  }

  /** Neither path continues the other. */
  ghost predicate Apart(a: Path, b: Path) { !(a <= b) && !(b <= a) }

  ghost predicate AllApart(paths: seq<Path>) {
    forall i, j :: 0 <= i < j < |paths| ==> Apart(paths[i], paths[j])
  }

  function Paths(items: seq<Item>): (r: seq<Path>)
    ensures |r| == |items| && forall i :: 0 <= i < |items| ==> r[i] == items[i].path
  {
    seq(|items|, i requires 0 <= i < |items| => items[i].path)
  }

  lemma ApartAppend(xs: seq<Path>, ys: seq<Path>)
    requires AllApart(xs) && AllApart(ys) && forall x, y :: x in xs && y in ys ==> Apart(x, y)
    ensures AllApart(xs + ys)
  {
    var all := xs + ys;
    forall i, j | 0 <= i < j < |all| ensures Apart(all[i], all[j]) {
      if j < |xs| {
        assert all[i] == xs[i] && all[j] == xs[j];
      } else if i >= |xs| {
        assert all[i] == ys[i - |xs|] && all[j] == ys[j - |xs|];
      } else {
        assert all[i] in xs && all[j] in ys;
      }
    }
  }

  lemma ChildrenByApart(it: Item, r: Relationship)
    ensures AllApart(Paths(ChildrenBy(it, r))) && |ChildrenBy(it, r)| <= 2
  {
    assert "forward"[0] != "reverse"[0];
    ApartByLast(it.path, StepEdge(r, true), StepEdge(r, false));
  }

  lemma ChildPath(it: Item, rs: seq<Relationship>, p: Path)
    requires p in Paths(Children(it, rs))
    ensures exists r, forward :: r in rs && p == it.path + [StepEdge(r, forward)]
  {
    var i :| 0 <= i < |Children(it, rs)| && Children(it, rs)[i].path == p;
    assert Children(it, rs)[i] in Children(it, rs);
    ChildrenExactly(it, rs, Children(it, rs)[i]);
  }

  lemma ApartFromEarlier(it: Item, rs: seq<Relationship>, p: Path, q: Path)
    requires DistinctIds(rs) && rs != []
    requires p in Paths(Children(it, rs[..|rs| - 1])) && q in Paths(ChildrenBy(it, rs[|rs| - 1]))
    ensures Apart(p, q)
  {
    var n := |rs| - 1;
    ChildrenByApart(it, rs[n]);
    ChildPath(it, rs[..n], p);
    var r, forward :| r in rs[..n] && p == it.path + [StepEdge(r, forward)];
    var k :| 0 <= k < n && rs[k] == r;
    assert rs[k].id != rs[n].id;
    ApartByLast(it.path, StepEdge(r, forward), q[|it.path|]);
  }

  lemma {:induction false} ChildrenApart(it: Item, rs: seq<Relationship>)
    requires DistinctIds(rs)
    ensures AllApart(Paths(Children(it, rs))) && |Children(it, rs)| <= 2 * |rs|
  {
    if rs != [] {
      var n := |rs| - 1;
      ChildrenApart(it, rs[..n]);
      ChildrenByApart(it, rs[n]);
      var before, here := Paths(Children(it, rs[..n])), Paths(ChildrenBy(it, rs[n]));
      assert Paths(Children(it, rs)) == before + here;
      forall p, q | p in before && q in here ensures Apart(p, q) {
        ApartFromEarlier(it, rs, p, q);
      }
      ApartAppend(before, here);
    }
  }

  lemma ApartByLast(w: Path, e: PathEdge, f: PathEdge)
    requires e != f
    ensures Apart(w + [e], w + [f])
  {
    assert (w + [e])[|w|] == e && (w + [f])[|w|] == f;
  }

  // ---------------------------------------------------------------- invariants of the search

  lemma ChildOk(rs: seq<Relationship>, source: string, target: string, maxDepth: nat, it: Item, c: Item)
    requires ItemOk(rs, source, target, maxDepth, it) && IsChild(it, rs, c)
    requires |it.path| < maxDepth && (it.entity != target || it.path == [])
    ensures ItemOk(rs, source, target, maxDepth, c)
  {
    var visits :| Trail(rs, source, target, it, visits);
    var r, forward :| r in rs && it.entity == Source(r, forward) && Sink(r, forward) !in it.seen && c == ChildOf(it, r, forward);
    TrailGrows(rs, source, target, it, visits, r, forward);
  }

  lemma TrailGrows(rs: seq<Relationship>, source: string, target: string, it: Item, visits: seq<string>, r: Relationship, forward: bool)
    requires Trail(rs, source, target, it, visits) && r in rs && it.entity == Source(r, forward) && Sink(r, forward) !in it.seen
    requires it.entity != target || it.path == []
    ensures Trail(rs, source, target, ChildOf(it, r, forward), visits + [Sink(r, forward)])
  {
    var c, longer := ChildOf(it, r, forward), visits + [Sink(r, forward)];
    forall k | 0 <= k < |c.path| ensures Steps(rs, c.path[k], longer[k], longer[k + 1]) {
      if k < |it.path| { assert Steps(rs, it.path[k], visits[k], visits[k + 1]); }
    }
    assert Sink(r, forward) !in Elements(visits);
    assert Elements(longer) == Elements(visits) + {Sink(r, forward)};
  }

  lemma FoundIsSimple(rs: seq<Relationship>, source: string, target: string, maxDepth: nat, it: Item)
    requires ItemOk(rs, source, target, maxDepth, it) && it.entity == target && it.path != []
    ensures SimplePath(rs, source, target, maxDepth, it.path)
  {
    var visits :| Trail(rs, source, target, it, visits);
  }

  /** A simple path that strictly continues an item goes through one of its children. */
  lemma ContinuesThroughChild(rs: seq<Relationship>, source: string, target: string, maxDepth: nat, it: Item, p: Path)
    returns (c: Item)
    requires DistinctIds(rs) && ItemOk(rs, source, target, maxDepth, it) && SimplePath(rs, source, target, maxDepth, p)
    requires it.path < p
    ensures IsChild(it, rs, c) && c.path <= p
  {
    var v :| Trail(rs, source, target, it, v);
    var w :| Along(rs, p, w) && w[0] == source && w[|p|] == target && Distinct(w);
    var n := |it.path|;
    VisitsDetermined(rs, it.path, p, v, w, n);
    assert Steps(rs, p[n], w[n], w[n + 1]);
    var r, forward :| r in rs && p[n] == StepEdge(r, forward) && w[n] == Source(r, forward) && w[n + 1] == Sink(r, forward);
    forall k | 0 <= k < |v| ensures v[k] != Sink(r, forward) {
      VisitsDetermined(rs, it.path, p, v, w, k);
    }
    c := ChildOf(it, r, forward);
    assert p[..n] == it.path && p[..n + 1] == p[..n] + [p[n]];
  }

  /** A path that reaches the target goes no further, and one that does not is not simple to the target. */
  lemma EndsAtTarget(rs: seq<Relationship>, source: string, target: string, maxDepth: nat, it: Item, p: Path)
    requires DistinctIds(rs) && ItemOk(rs, source, target, maxDepth, it) && SimplePath(rs, source, target, maxDepth, p)
    requires it.path <= p
    ensures it.path == p ==> it.entity == target
    ensures it.entity == target && it.path != [] ==> it.path == p
  {
    var v :| Trail(rs, source, target, it, v);
    var w :| Along(rs, p, w) && w[0] == source && w[|p|] == target && Distinct(w);
    VisitsDetermined(rs, it.path, p, v, w, |it.path|);
  }

  ghost predicate Covered(found: seq<Path>, queue: seq<Item>, p: Path) {
    p in found || exists q :: q in queue && q.path <= p
  }

  ghost predicate Searching(rs: seq<Relationship>, source: string, target: string, maxDepth: nat, found: seq<Path>, queue: seq<Item>) {
    && (forall q :: q in queue ==> ItemOk(rs, source, target, maxDepth, q))
    && (forall p :: p in found ==> SimplePath(rs, source, target, maxDepth, p))
    && AllApart(found + Paths(queue))
    && (forall p :: SimplePath(rs, source, target, maxDepth, p) ==> Covered(found, queue, p))
  }

  lemma StartSearching(rs: seq<Relationship>, source: string, target: string, maxDepth: nat)
    ensures Searching(rs, source, target, maxDepth, [], [Item(source, [], {source})])
  {
    var it := Item(source, [], {source});
    assert Elements([source]) == {source};
    assert Trail(rs, source, target, it, [source]);
  }

  /** The popped item was complete. */
  lemma SearchingFound(rs: seq<Relationship>, source: string, target: string, maxDepth: nat, found: seq<Path>, queue: seq<Item>)
    requires DistinctIds(rs) && Searching(rs, source, target, maxDepth, found, queue) && queue != []
    requires queue[0].entity == target && queue[0].path != []
    ensures Searching(rs, source, target, maxDepth, found + [queue[0].path], queue[1..])
  {
    var it := queue[0];
    assert it in queue;
    FoundIsSimple(rs, source, target, maxDepth, it);
    assert (found + [it.path]) + Paths(queue[1..]) == found + Paths(queue);
    forall p | SimplePath(rs, source, target, maxDepth, p) ensures Covered(found + [it.path], queue[1..], p) {
      assert Covered(found, queue, p);
      if q :| q in queue && q.path <= p {
        if q == it { EndsAtTarget(rs, source, target, maxDepth, it, p); }
        assert queue == [it] + queue[1..];
      }
    }
  }

  /** The popped item is as long as allowed. */
  lemma SearchingDropped(rs: seq<Relationship>, source: string, target: string, maxDepth: nat, found: seq<Path>, queue: seq<Item>)
    requires DistinctIds(rs) && Searching(rs, source, target, maxDepth, found, queue) && queue != []
    requires (queue[0].entity != target || queue[0].path == []) && |queue[0].path| == maxDepth
    ensures Searching(rs, source, target, maxDepth, found, queue[1..])
  {
    var it := queue[0];
    assert it in queue && queue == [it] + queue[1..];
    RemoveApart(found, Paths(queue));
    assert Paths(queue)[1..] == Paths(queue[1..]);
    forall p | SimplePath(rs, source, target, maxDepth, p) ensures Covered(found, queue[1..], p) {
      assert Covered(found, queue, p);
      if q :| q in queue && q.path <= p {
        if q == it { EndsAtTarget(rs, source, target, maxDepth, it, p); }
      }
    }
  }

  lemma RemoveApart(found: seq<Path>, waiting: seq<Path>)
    requires waiting != [] && AllApart(found + waiting)
    ensures AllApart(found + waiting[1..])
  {
    var all, rest := found + waiting, found + waiting[1..];
    forall i, j | 0 <= i < j < |rest| ensures Apart(rest[i], rest[j]) {
      var i', j' := if i < |found| then i else i + 1, if j < |found| then j else j + 1;
      assert Apart(all[i'], all[j']);
    }
  }

  lemma ApartContinues(w: Path, e: PathEdge, u: Path)
    requires Apart(w, u)
    ensures Apart(u, w + [e])
  {
  }

  /** The popped item is expanded. */
  lemma SearchingExpanded(rs: seq<Relationship>, source: string, target: string, maxDepth: nat, found: seq<Path>, queue: seq<Item>, ordered: seq<Relationship>)
    requires DistinctIds(rs) && DistinctIds(ordered) && Searching(rs, source, target, maxDepth, found, queue) && queue != []
    requires forall r :: r in ordered <==> r in rs
    requires (queue[0].entity != target || queue[0].path == []) && |queue[0].path| < maxDepth
    ensures Searching(rs, source, target, maxDepth, found, queue[1..] + Children(queue[0], ordered))
  {
    var it := queue[0];
    var children := Children(it, ordered);
    assert it in queue && queue == [it] + queue[1..];
    forall c | c in children ensures IsChild(it, rs, c) && ItemOk(rs, source, target, maxDepth, c) {
      ChildrenExactly(it, ordered, c);
      ChildOk(rs, source, target, maxDepth, it, c);
    }
    ExpandedApart(found, queue, ordered);
    forall p | SimplePath(rs, source, target, maxDepth, p) ensures Covered(found, queue[1..] + children, p) {
      assert Covered(found, queue, p);
      if q :| q in queue && q.path <= p && q == it {
        EndsAtTarget(rs, source, target, maxDepth, it, p);
        var c := ContinuesThroughChild(rs, source, target, maxDepth, it, p);
        ChildrenExactly(it, ordered, c);
      }
    }
  }

  lemma ApartFromChild(it: Item, ordered: seq<Relationship>, u: Path, p: Path)
    requires p in Paths(Children(it, ordered)) && Apart(it.path, u)
    ensures Apart(u, p)
  {
    ChildPath(it, ordered, p);
    var r, forward :| r in ordered && p == it.path + [StepEdge(r, forward)];
    ApartContinues(it.path, StepEdge(r, forward), u);
  }

  lemma ExpandedApart(found: seq<Path>, queue: seq<Item>, ordered: seq<Relationship>)
    requires queue != [] && AllApart(found + Paths(queue)) && DistinctIds(ordered)
    ensures AllApart(found + Paths(queue[1..] + Children(queue[0], ordered)))
  {
    var it := queue[0];
    var children := Children(it, ordered);
    var rest := found + Paths(queue)[1..];
    RemoveApart(found, Paths(queue));
    ChildrenApart(it, ordered);
    forall u, p | u in rest && p in Paths(children) ensures Apart(u, p) {
      ApartFromFirst(found, Paths(queue), u);
      ApartFromChild(it, ordered, u, p);
    }
    ApartAppend(rest, Paths(children));
    assert found + Paths(queue[1..] + children) == rest + Paths(children);
  }

  lemma ApartFromFirst(found: seq<Path>, waiting: seq<Path>, u: Path)
    requires waiting != [] && AllApart(found + waiting) && u in found + waiting[1..]
    ensures Apart(waiting[0], u)
  {
    var all := found + waiting;
    if u in found {
      var i :| 0 <= i < |found| && found[i] == u;
      assert Apart(all[i], all[|found|]);
    } else {
      var i :| 0 <= i < |waiting| - 1 && waiting[1..][i] == u;
      assert Apart(all[|found|], all[|found| + i + 1]);
    }
  }

  // ---------------------------------------------------------------- termination

  /** Queue turns that an item with `depth` steps left can still cause. */
  function Weight(branches: nat, depth: nat): nat {
    if depth == 0 then 1 else 1 + branches * Weight(branches, depth - 1)
  }

  function Load(branches: nat, maxDepth: nat, queue: seq<Item>): nat {
    if queue == [] then 0
    else Load(branches, maxDepth, queue[1..]) + Weight(branches, if |queue[0].path| <= maxDepth then maxDepth - |queue[0].path| else 0)
  }

  lemma {:induction false} LoadAppend(branches: nat, maxDepth: nat, a: seq<Item>, b: seq<Item>)
    ensures Load(branches, maxDepth, a + b) == Load(branches, maxDepth, a) + Load(branches, maxDepth, b)
  {
    if a == [] {
      assert a + b == b;
    } else {
      LoadAppend(branches, maxDepth, a[1..], b);
      assert (a + b)[1..] == a[1..] + b;
    }
  }

  lemma {:induction false} LoadOf(branches: nat, maxDepth: nat, items: seq<Item>, depth: nat)
    requires forall i :: 0 <= i < |items| ==> |items[i].path| + depth == maxDepth
    ensures Load(branches, maxDepth, items) == |items| * Weight(branches, depth)
  {
    if items != [] {
      LoadOf(branches, maxDepth, items[1..], depth);
      assert |items| * Weight(branches, depth) == (|items| - 1) * Weight(branches, depth) + Weight(branches, depth);
    }
  }

  lemma LoadDrops(branches: nat, maxDepth: nat, queue: seq<Item>)
    requires queue != []
    ensures Load(branches, maxDepth, queue[1..]) < Load(branches, maxDepth, queue)
  {
  }

  lemma ChildrenLoad(maxDepth: nat, it: Item, ordered: seq<Relationship>)
    requires |it.path| < maxDepth && DistinctIds(ordered)
    ensures Load(2 * |ordered|, maxDepth, Children(it, ordered)) <= 2 * |ordered| * Weight(2 * |ordered|, maxDepth - |it.path| - 1)
  {
    var children, depth := Children(it, ordered), maxDepth - |it.path| - 1;
    ChildrenDeeper(it, ordered, depth, maxDepth);
    LoadOf(2 * |ordered|, maxDepth, children, depth);
    ChildrenApart(it, ordered);
    Scale(|children|, 2 * |ordered|, Weight(2 * |ordered|, depth));
  }

  lemma LoadShrinks(maxDepth: nat, queue: seq<Item>, ordered: seq<Relationship>)
    requires queue != [] && |queue[0].path| < maxDepth && DistinctIds(ordered)
    ensures Load(2 * |ordered|, maxDepth, queue[1..] + Children(queue[0], ordered)) < Load(2 * |ordered|, maxDepth, queue)
  {
    ChildrenLoad(maxDepth, queue[0], ordered);
    LoadAppend(2 * |ordered|, maxDepth, queue[1..], Children(queue[0], ordered));
  }

  lemma ChildrenDeeper(it: Item, ordered: seq<Relationship>, depth: nat, maxDepth: nat)
    requires |it.path| + 1 + depth == maxDepth
    ensures forall i :: 0 <= i < |Children(it, ordered)| ==> |Children(it, ordered)[i].path| + depth == maxDepth
  {
    var children := Children(it, ordered);
    forall i | 0 <= i < |children| ensures |children[i].path| + depth == maxDepth {
      assert children[i] in children;
      ChildrenExactly(it, ordered, children[i]);
    }
  }

  lemma Scale(a: nat, b: nat, w: nat)
    requires a <= b
    ensures a * w <= b * w
  {
  }

  // ---------------------------------------------------------------- the search

  function PathKey(p: Path): seq<string> {
    if p == [] then [] else [p[0].id, p[0].direction] + PathKey(p[1..])
  }

  predicate PathLe(p: Path, q: Path) { KeyLe(PathKey(p), PathKey(q)) }

  const PATH_LIMIT := 20

  lemma IdOrder(rs: seq<Relationship>)
    requires DistinctIds(rs)
    ensures DistinctIds(Sorted(rs, IdLe)) && |Sorted(rs, IdLe)| == |rs| && forall r :: r in Sorted(rs, IdLe) <==> r in rs
  {
    NameLeIsTotalOrder();
    assert TotalPreorder(IdLe);
    SortedFacts(rs, IdLe);
    var s := Sorted(rs, IdLe);
    forall r ensures r in s <==> r in rs { assert r in multiset(s) <==> r in multiset(rs); }
    assert Distinct(rs);
    DistinctPermutation(rs, s);
    forall i, j | 0 <= i < j < |s| ensures s[i].id != s[j].id {
      assert s[i] in rs && s[j] in rs;
      var a :| 0 <= a < |rs| && rs[a] == s[i];
      var b :| 0 <= b < |rs| && rs[b] == s[j];
      assert a != b by { assert s[i] != s[j]; }
    }
  }

  lemma ApartIsDistinct(paths: seq<Path>)
    requires AllApart(paths)
    ensures Distinct(paths)
  {
    forall i, j | 0 <= i < j < |paths| ensures paths[i] != paths[j] {
      assert Apart(paths[i], paths[j]);
    }
  }

  lemma SearchDone(rs: seq<Relationship>, source: string, target: string, maxDepth: nat, found: seq<Path>)
    requires Searching(rs, source, target, maxDepth, found, [])
    ensures var sorted := Sorted(found, PathLe);
      && Ordered(sorted, PathLe) && Distinct(sorted) && |sorted| == |found|
      && forall p :: p in sorted <==> SimplePath(rs, source, target, maxDepth, p)
  {
    ComparedByKey(PathLe, PathKey);
    SortedFacts(found, PathLe);
    assert found + Paths([]) == found;
    ApartIsDistinct(found);
    DistinctPermutation(found, Sorted(found, PathLe));
    forall p ensures p in Sorted(found, PathLe) <==> SimplePath(rs, source, target, maxDepth, p) {
      assert p in Elements(Sorted(found, PathLe)) <==> p in Elements(found);
      if SimplePath(rs, source, target, maxDepth, p) { assert Covered(found, [], p); }
    }
  }

  /** So many distinct simple paths exist. */
  ghost predicate AtLeast(rs: seq<Relationship>, source: string, target: string, maxDepth: nat, n: nat) {
    exists ps :: |ps| == n && Distinct(ps) && forall p :: p in ps ==> SimplePath(rs, source, target, maxDepth, p)
  }

  lemma NoMoreThan(rs: seq<Relationship>, source: string, target: string, maxDepth: nat, all: seq<Path>, n: nat)
    requires Distinct(all) && (forall p :: p in all <==> SimplePath(rs, source, target, maxDepth, p)) && |all| < n
    ensures !AtLeast(rs, source, target, maxDepth, n)
  {
    if ps :| |ps| == n && Distinct(ps) && forall p :: p in ps ==> SimplePath(rs, source, target, maxDepth, p) {
      DistinctSize(ps);
      DistinctSize(all);
      SubsetSize(Elements(ps), Elements(all));
    }
  }

  /** Expanding the head keeps the search going and lightens the queue. */
  lemma SearchGoesOn(rs: seq<Relationship>, source: string, target: string, maxDepth: nat, found: seq<Path>, queue: seq<Item>, ordered: seq<Relationship>)
    requires DistinctIds(rs) && DistinctIds(ordered) && Searching(rs, source, target, maxDepth, found, queue) && queue != []
    requires forall r :: r in ordered <==> r in rs
    requires (queue[0].entity != target || queue[0].path == []) && |queue[0].path| != maxDepth
    ensures Searching(rs, source, target, maxDepth, found, queue[1..] + Children(queue[0], ordered))
    ensures Load(2 * |ordered|, maxDepth, queue[1..] + Children(queue[0], ordered)) < Load(2 * |ordered|, maxDepth, queue)
  {
    assert queue[0] in queue;
    assert ItemOk(rs, source, target, maxDepth, queue[0]);
    LoadShrinks(maxDepth, queue, ordered);
    SearchingExpanded(rs, source, target, maxDepth, found, queue, ordered);
  }

  lemma SearchEnds(rs: seq<Relationship>, source: string, target: string, maxDepth: nat, found: seq<Path>)
    requires Searching(rs, source, target, maxDepth, found, []) && |found| <= PATH_LIMIT
    ensures Ordered(Sorted(found, PathLe), PathLe) && Distinct(Sorted(found, PathLe))
    ensures forall p :: p in Sorted(found, PathLe) <==> SimplePath(rs, source, target, maxDepth, p)
    ensures !AtLeast(rs, source, target, maxDepth, PATH_LIMIT + 1)
  {
    SearchDone(rs, source, target, maxDepth, found);
    NoMoreThan(rs, source, target, maxDepth, Sorted(found, PathLe), PATH_LIMIT + 1);
  }

  // ---------------------------------------------------------------- endpoints and entities

  /** The endpoint is a column of this entity; the names of entities have no dots. */
  ghost predicate Names(endpoint: string, entity: string) {
    '.' !in entity && exists column: string :: endpoint == entity + "." + column
  }

  /** Every endpoint of the model is written entity.column. */
  ghost predicate Dotted(rs: seq<Relationship>) {
    forall r :: r in rs ==> '.' in r.from && '.' in r.to
  }

  lemma {:induction false} EntityOfEndpoint(entity: string, column: string)
    requires '.' !in entity
    ensures EntityOf(entity + "." + column) == entity
  {
    if entity == "" {
      assert (entity + "." + column)[0] == '.';
    } else {
      EntityOfEndpoint(entity[1..], column);
      assert (entity + "." + column)[0] == entity[0] && (entity + "." + column)[1..] == entity[1..] + "." + column;
    }
  }

  lemma {:induction false} EndpointSplits(endpoint: string)
    requires '.' in endpoint
    ensures Names(endpoint, EntityOf(endpoint))
  {
    if endpoint[0] == '.' {
      assert endpoint == "" + "." + endpoint[1..];
    } else {
      EndpointSplits(endpoint[1..]);
      var column: string :| endpoint[1..] == EntityOf(endpoint[1..]) + "." + column;
      assert endpoint == [endpoint[0]] + endpoint[1..];
      assert [endpoint[0]] + (EntityOf(endpoint[1..]) + "." + column) == ([endpoint[0]] + EntityOf(endpoint[1..])) + "." + column;
    }
  }

  lemma NamesExactly(endpoint: string, entity: string)
    requires '.' in endpoint
    ensures Names(endpoint, entity) <==> EntityOf(endpoint) == entity
  {
    EndpointSplits(endpoint);
    if Names(endpoint, entity) {
      var column: string :| endpoint == entity + "." + column;
      EntityOfEndpoint(entity, column);
    }
  }

  /** The edge is a relationship of the model, taken forward from an endpoint in `x` to one in `y`, or in reverse. */
  ghost predicate Crosses(rs: seq<Relationship>, e: PathEdge, x: string, y: string) {
    exists r :: r in rs && e.id == r.id && e.cardinality == r.cardinality
      && ((e.direction == "forward" && Names(r.from, x) && Names(r.to, y)) || (e.direction == "reverse" && Names(r.to, x) && Names(r.from, y)))
  }

  lemma CrossesExactly(rs: seq<Relationship>, e: PathEdge, x: string, y: string)
    requires Dotted(rs)
    ensures Steps(rs, e, x, y) <==> Crosses(rs, e, x, y)
  {
    if Steps(rs, e, x, y) {
      var r, forward :| r in rs && e == StepEdge(r, forward) && x == Source(r, forward) && y == Sink(r, forward);
      NamesExactly(r.from, EntityOf(r.from));
      NamesExactly(r.to, EntityOf(r.to));
    }
    if Crosses(rs, e, x, y) {
      var r :| r in rs && e.id == r.id && e.cardinality == r.cardinality
        && ((e.direction == "forward" && Names(r.from, x) && Names(r.to, y)) || (e.direction == "reverse" && Names(r.to, x) && Names(r.from, y)));
      var forward := e.direction == "forward";
      NamesExactly(r.from, if forward then x else y);
      NamesExactly(r.to, if forward then y else x);
      assert e == StepEdge(r, forward) && x == Source(r, forward) && y == Sink(r, forward);
    }
  }

  /** The edges lead from endpoint to endpoint through these entities, none of them twice. */
  ghost predicate Visits(rs: seq<Relationship>, p: Path, visits: seq<string>) {
    |visits| == |p| + 1 && Distinct(visits) && forall k :: 0 <= k < |p| ==> Crosses(rs, p[k], visits[k], visits[k + 1])
  }

  ghost predicate PathBetween(rs: seq<Relationship>, source: string, target: string, maxDepth: nat, p: Path) {
    1 <= |p| <= maxDepth && exists visits :: Visits(rs, p, visits) && visits[0] == source && visits[|p|] == target
  }

  ghost predicate Chain(rs: seq<Relationship>, p: Path) {
    p == [] || exists visits :: Visits(rs, p, visits)
  }

  lemma VisitsExactly(rs: seq<Relationship>, p: Path, visits: seq<string>)
    requires Dotted(rs)
    ensures Along(rs, p, visits) && Distinct(visits) <==> Visits(rs, p, visits)
  {
    if |visits| == |p| + 1 {
      forall k | 0 <= k < |p| ensures Steps(rs, p[k], visits[k], visits[k + 1]) <==> Crosses(rs, p[k], visits[k], visits[k + 1]) {
        CrossesExactly(rs, p[k], visits[k], visits[k + 1]);
      }
    }
  }

  lemma PathsExactly(rs: seq<Relationship>, source: string, target: string, maxDepth: nat, p: Path)
    requires Dotted(rs)
    ensures SimplePath(rs, source, target, maxDepth, p) <==> PathBetween(rs, source, target, maxDepth, p)
    ensures SimpleChain(rs, p) <==> Chain(rs, p)
  {
    forall visits ensures Along(rs, p, visits) && Distinct(visits) <==> Visits(rs, p, visits) {
      VisitsExactly(rs, p, visits);
    }
  }

  /** A relationship between different entities is a path of one edge from each to the other. */
  lemma OneEdgeIsPath(rs: seq<Relationship>, r: Relationship, x: string, y: string, maxDepth: nat)
    requires r in rs && Names(r.from, x) && Names(r.to, y) && x != y && maxDepth >= 1
    ensures PathBetween(rs, x, y, maxDepth, [PathEdge(r.id, "forward", r.cardinality)])
    ensures PathBetween(rs, y, x, maxDepth, [PathEdge(r.id, "reverse", r.cardinality)])
  {
    var forward, back := [PathEdge(r.id, "forward", r.cardinality)], [PathEdge(r.id, "reverse", r.cardinality)];
    assert Crosses(rs, forward[0], x, y) && Crosses(rs, back[0], y, x);
    assert Visits(rs, forward, [x, y]) && Visits(rs, back, [y, x]);
    assert [x, y][1] == y && [y, x][1] == x;
  }

  /** By the ids of the edges, each followed by its direction; a path comes before its continuations. */
  predicate Precedes(p: Path, q: Path) {
    || p == []
    || (q != [] && if p[0].id != q[0].id then NameLe(p[0].id, q[0].id)
                   else if p[0].direction != q[0].direction then NameLe(p[0].direction, q[0].direction)
                   else Precedes(p[1..], q[1..]))
  }

  lemma KeyUnfolds(p: Path)
    requires p != []
    ensures PathKey(p) == [p[0].id] + ([p[0].direction] + PathKey(p[1..]))
  {
  }

  lemma {:induction false} PrecedesExactly(p: Path, q: Path)
    ensures PathLe(p, q) <==> Precedes(p, q)
  {
    if p != [] && q != [] {
      PrecedesExactly(p[1..], q[1..]);
      KeyLeFirst(p[0].direction, q[0].direction, PathKey(p[1..]), PathKey(q[1..]));
      KeyLeFirst(p[0].id, q[0].id, [p[0].direction] + PathKey(p[1..]), [q[0].direction] + PathKey(q[1..]));
      KeyUnfolds(p);
      KeyUnfolds(q);
    }
  }

  /** What the answer says in terms of endpoints. */
  ghost predicate Answers(rs: seq<Relationship>, source: string, target: string, maxDepth: nat, paths: seq<Path>) {
    && (forall p :: p in paths <==> PathBetween(rs, source, target, maxDepth, p))
    && forall i, j :: 0 <= i < j < |paths| ==> Precedes(paths[i], paths[j]) && paths[i] != paths[j]
  }

  lemma AnswersInOrder(rs: seq<Relationship>, source: string, target: string, maxDepth: nat, paths: seq<Path>)
    requires Dotted(rs) && Ordered(paths, PathLe) && Distinct(paths)
    requires forall p :: p in paths <==> SimplePath(rs, source, target, maxDepth, p)
    ensures Answers(rs, source, target, maxDepth, paths)
  {
    forall p ensures p in paths <==> PathBetween(rs, source, target, maxDepth, p) {
      PathsExactly(rs, source, target, maxDepth, p);
    }
    forall i, j | 0 <= i < j < |paths| ensures Precedes(paths[i], paths[j]) {
      PrecedesExactly(paths[i], paths[j]);
    }
  }

  // ---------------------------------------------------------------- the queue loop

  method FindJoinPath(rs: seq<Relationship>, entities: set<string>, source: string, target: string, maxDepth: int)
    returns (r: Result<seq<Path>>)
    requires DistinctIds(rs)
    ensures r == Err("INVALID_DEPTH") <==> !(1 <= maxDepth <= 4)
    ensures 1 <= maxDepth <= 4 ==> (r == Err("ENTITY_NOT_FOUND") <==> !(source in entities && target in entities))
    ensures 1 <= maxDepth <= 4 && source in entities && target in entities ==>
      (r == Err("OUTPUT_LIMIT_EXCEEDED") <==> AtLeast(rs, source, target, maxDepth, 21))
    ensures r.Ok? ==> Ordered(r.value, PathLe) && Distinct(r.value)
    ensures r.Ok? ==> forall p :: p in r.value <==> SimplePath(rs, source, target, maxDepth, p)
    ensures r.Ok? && Dotted(rs) ==> Answers(rs, source, target, maxDepth, r.value)
  {
    if !(1 <= maxDepth <= 4) {
      return Err("INVALID_DEPTH");
    }
    if source !in entities || target !in entities {
      CodesDiffer();
      return Err("ENTITY_NOT_FOUND");
    }
    var ordered := Sorted(rs, IdLe);
    IdOrder(rs);
    var found: seq<Path> := [];
    var queue := [Item(source, [], {source})];
    StartSearching(rs, source, target, maxDepth);
    while queue != []
      invariant Searching(rs, source, target, maxDepth, found, queue) && |found| <= PATH_LIMIT
      decreases Load(2 * |ordered|, maxDepth, queue)
    {
      var it := queue[0];
      LoadDrops(2 * |ordered|, maxDepth, queue);
      if it.entity == target && it.path != [] {
        SearchingFound(rs, source, target, maxDepth, found, queue);
        found := found + [it.path];
        queue := queue[1..];
        if |found| > PATH_LIMIT {
          EnoughFound(rs, source, target, maxDepth, found, queue);
          CodesDiffer();
          return Err("OUTPUT_LIMIT_EXCEEDED");
        }
      } else if |it.path| == maxDepth {
        SearchingDropped(rs, source, target, maxDepth, found, queue);
        queue := queue[1..];
      } else {
        SearchGoesOn(rs, source, target, maxDepth, found, queue, ordered);
        queue := ExpandItem(it, ordered, queue[1..]);
      }
    }
    SearchEnds(rs, source, target, maxDepth, found);
    if Dotted(rs) { AnswersInOrder(rs, source, target, maxDepth, Sorted(found, PathLe)); }
    return Ok(Sorted(found, PathLe));
  }

  /** The loop over relationships that appends the continuations of one item. */
  method ExpandItem(it: Item, ordered: seq<Relationship>, waiting: seq<Item>) returns (queue: seq<Item>)
    ensures queue == waiting + Children(it, ordered)
  {
    queue := waiting;
    for i := 0 to |ordered|
      invariant queue == waiting + Children(it, ordered[..i])
    {
      assert ordered[..i + 1][..i] == ordered[..i];
      queue := queue + ChildrenBy(it, ordered[i]);
    }
    assert ordered[..|ordered|] == ordered;
  }

  lemma EnoughFound(rs: seq<Relationship>, source: string, target: string, maxDepth: nat, found: seq<Path>, queue: seq<Item>)
    requires Searching(rs, source, target, maxDepth, found, queue)
    ensures AtLeast(rs, source, target, maxDepth, |found|)
  {
    forall i, j | 0 <= i < j < |found| ensures found[i] != found[j] {
      assert Apart((found + Paths(queue))[i], (found + Paths(queue))[j]);
    }
  }

  lemma CodesDiffer()
    ensures "INVALID_DEPTH" != "ENTITY_NOT_FOUND" && "ENTITY_NOT_FOUND" != "OUTPUT_LIMIT_EXCEEDED" && "INVALID_DEPTH" != "OUTPUT_LIMIT_EXCEEDED"
  {
    assert "INVALID_DEPTH"[0] != "ENTITY_NOT_FOUND"[0] && "ENTITY_NOT_FOUND"[0] != "OUTPUT_LIMIT_EXCEEDED"[0];
  }

  // ---------------------------------------------------------------- accepting a path again

  function Lookup(rs: seq<Relationship>, id: string): (r: Option<Relationship>)
    ensures r.Some? ==> r.value in rs && r.value.id == id
    ensures r.None? ==> forall x :: x in rs ==> x.id != id
  {
    if rs == [] then None
    else if rs[|rs| - 1].id == id then Some(rs[|rs| - 1])
    else
      assert rs == rs[..|rs| - 1] + [rs[|rs| - 1]];
      Lookup(rs[..|rs| - 1], id)
  }

  /** A contiguous chain of current relationship edges that visits no entity twice. */
  ghost predicate SimpleChain(rs: seq<Relationship>, p: Path) {
    p == [] || exists visits :: Along(rs, p, visits) && Distinct(visits)
  }

  /** The checks made on one edge before its place in the chain is looked at. */
  predicate CurrentEdge(rs: seq<Relationship>, e: PathEdge) {
    && Lookup(rs, e.id).Some? && (e.direction == "forward" || e.direction == "reverse")
    && e.cardinality == Lookup(rs, e.id).value.cardinality
  }

  lemma StepIsCurrent(rs: seq<Relationship>, e: PathEdge)
    requires DistinctIds(rs)
    ensures CurrentEdge(rs, e) ==> Steps(rs, e, Source(Lookup(rs, e.id).value, e.direction == "forward"), Sink(Lookup(rs, e.id).value, e.direction == "forward"))
    ensures forall x, y :: Steps(rs, e, x, y) ==>
      CurrentEdge(rs, e) && x == Source(Lookup(rs, e.id).value, e.direction == "forward") && y == Sink(Lookup(rs, e.id).value, e.direction == "forward")
  {
    if CurrentEdge(rs, e) {
      assert e == StepEdge(Lookup(rs, e.id).value, e.direction == "forward");
    }
    forall x, y | Steps(rs, e, x, y)
      ensures CurrentEdge(rs, e) && x == Source(Lookup(rs, e.id).value, e.direction == "forward") && y == Sink(Lookup(rs, e.id).value, e.direction == "forward")
    {
      var r, forward :| r in rs && e == StepEdge(r, forward) && x == Source(r, forward) && y == Sink(r, forward);
      DirectionsDiffer(forward, e.direction == "forward");
      var i :| 0 <= i < |rs| && rs[i] == r;
      var j :| 0 <= j < |rs| && rs[j] == Lookup(rs, e.id).value;
      assert i == j;
    }
  }

  /** The prefix that was accepted and what its entities say about the next edge. */
  lemma NextEdge(rs: seq<Relationship>, p: Path, i: nat, visits: seq<string>)
    requires DistinctIds(rs) && i < |p| && Along(rs, p[..i], visits) && Distinct(visits) && i > 0
    ensures SimpleChain(rs, p) ==>
      CurrentEdge(rs, p[i])
      && Source(Lookup(rs, p[i].id).value, p[i].direction == "forward") == visits[i]
      && Sink(Lookup(rs, p[i].id).value, p[i].direction == "forward") !in visits
  {
    if SimpleChain(rs, p) {
      var w :| Along(rs, p, w) && Distinct(w);
      assert Steps(rs, p[i], w[i], w[i + 1]);
      StepIsCurrent(rs, p[i]);
      assert Steps(rs, p[0], w[0], w[0 + 1]) && Steps(rs, p[..i][0], visits[0], visits[0 + 1]);
      StepDetermines(rs, p[0], w[0], w[0 + 1], visits[0], visits[0 + 1]);
      forall k | 0 <= k <= i ensures visits[k] == w[k] {
        VisitsDetermined(rs, p[..i], p, visits, w, k);
      }
    }
  }

  lemma FirstEdge(rs: seq<Relationship>, p: Path)
    requires DistinctIds(rs) && p != []
    ensures SimpleChain(rs, p) ==>
      CurrentEdge(rs, p[0])
      && Source(Lookup(rs, p[0].id).value, p[0].direction == "forward") != Sink(Lookup(rs, p[0].id).value, p[0].direction == "forward")
  {
    if SimpleChain(rs, p) {
      var w :| Along(rs, p, w) && Distinct(w);
      assert Steps(rs, p[0], w[0], w[0 + 1]);
      StepIsCurrent(rs, p[0]);
    }
  }

  lemma ChainGrows(rs: seq<Relationship>, p: Path, visits: seq<string>, e: PathEdge, y: string)
    requires Along(rs, p, visits) && Distinct(visits) && Steps(rs, e, visits[|p|], y) && y !in visits
    ensures Along(rs, p + [e], visits + [y]) && Distinct(visits + [y])
  {
    forall k | 0 <= k < |p| + 1 ensures Steps(rs, (p + [e])[k], (visits + [y])[k], (visits + [y])[k + 1]) {
      if k < |p| { assert Steps(rs, p[k], visits[k], visits[k + 1]); }
    }
  }

  lemma VisitOneMore(rs: seq<Relationship>, path: Path, i: nat, visits: seq<string>, sink: string)
    requires i < |path| && Along(rs, path[..i], visits) && Distinct(visits) && Steps(rs, path[i], visits[i], sink)
    requires sink !in Elements(visits)
    ensures Along(rs, path[..i + 1], visits + [sink]) && Distinct(visits + [sink])
    ensures Elements(visits + [sink]) == Elements(visits) + {sink}
  {
    ChainGrows(rs, path[..i], visits, path[i], sink);
    assert path[..i + 1] == path[..i] + [path[i]];
  }

  /** Accepts exactly the simple chains, and returns the relationships they use. */
  method ValidatePathShape(path: Path, rs: seq<Relationship>) returns (r: Result<seq<Relationship>>)
    requires DistinctIds(rs)
    ensures r.Ok? <==> SimpleChain(rs, path)
    ensures r.Ok? ==> |r.value| == |path| && forall i :: 0 <= i < |path| ==> r.value[i] in rs && r.value[i].id == path[i].id
    ensures Dotted(rs) ==> (r.Ok? <==> Chain(rs, path))
    ensures r.Err? ==> r.code == "INVALID_ARGUMENT"
  {
    if Dotted(rs) { PathsExactly(rs, "", "", 0, path); }
    var ordered: seq<Relationship> := [];
    var previousTarget: Option<string> := None;
    var seen: set<string> := {};
    ghost var visits: seq<string> := [];
    for i := 0 to |path|
      invariant |ordered| == i && forall j :: 0 <= j < i ==> ordered[j] in rs && ordered[j].id == path[j].id
      invariant previousTarget.None? <==> i == 0
      invariant i == 0 ==> seen == {} && visits == []
      invariant i > 0 ==> Along(rs, path[..i], visits) && Distinct(visits) && seen == Elements(visits) && previousTarget == Some(visits[i])
    {
      var edge := path[i];
      if i > 0 { NextEdge(rs, path, i, visits); } else { FirstEdge(rs, path); }
      if !CurrentEdge(rs, edge) {
        return Err("INVALID_ARGUMENT");
      }
      StepIsCurrent(rs, edge);
      var relationship := Lookup(rs, edge.id).value;
      var source, sink := Source(relationship, edge.direction == "forward"), Sink(relationship, edge.direction == "forward");
      if previousTarget.None? {
        seen := seen + {source};
        visits := [source];
        assert Elements(visits) == {source} && path[..0] == [] && Along(rs, [], visits);
      } else if source != previousTarget.value {
        return Err("INVALID_ARGUMENT");
      }
      if sink in seen {
        return Err("INVALID_ARGUMENT");
      }
      VisitOneMore(rs, path, i, visits, sink);
      visits := visits + [sink];
      seen := seen + {sink};
      previousTarget := Some(sink);
      ordered := ordered + [relationship];
    }
    assert path[..|path|] == path;
    return Ok(ordered);
  }

  /** Every path that the search returns is accepted. */
  lemma ReturnedPathsAccepted(rs: seq<Relationship>, source: string, target: string, maxDepth: nat, p: Path)
    requires DistinctIds(rs) && SimplePath(rs, source, target, maxDepth, p)
    ensures SimpleChain(rs, p) && DistinctEdges(p)
  {
    var visits :| Along(rs, p, visits) && visits[0] == source && visits[|p|] == target && Distinct(visits);
    AcceptedEdgesDistinct(rs, p);
  }

  ghost predicate DistinctEdges(p: Path) {
    forall i, j :: 0 <= i < j < |p| ==> p[i].id != p[j].id
  }

  /** An accepted path uses each relationship at most once, so that looking up its edges one by
      one never meets a repeated id. */
  lemma AcceptedEdgesDistinct(rs: seq<Relationship>, p: Path)
    requires DistinctIds(rs) && SimpleChain(rs, p)
    ensures DistinctEdges(p)
  {
    if p == [] { return; }
    var visits :| Along(rs, p, visits) && Distinct(visits);
    forall i, j | 0 <= i < j < |p| ensures p[i].id != p[j].id {
      assert Steps(rs, p[i], visits[i], visits[i + 1]) && Steps(rs, p[j], visits[j], visits[j + 1]);
      StepIsCurrent(rs, p[i]);
      StepIsCurrent(rs, p[j]);
    }
  }
}
