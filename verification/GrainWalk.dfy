/** The walk away from the expected grain that both the planner and the SQL validator make.
    It remembers only the node it came from. */
module GrainWalk {
  import opened Domain
  import opened Sets

  /** An undirected edge; `ab` bounds the rows of `b` that one row of `a` can meet, `ba` the converse. */
  datatype Link = Link(a: string, b: string, ab: int, ba: int)

  ghost predicate Step(links: seq<Link>, x: string, y: string, bound: int) {
    exists l :: l in links && ((l.a == x && l.b == y && l.ab == bound) || (l.b == x && l.a == y && l.ba == bound))
  }

  ghost predicate Joined(links: seq<Link>, x: string, y: string) {
    exists bound :: Step(links, x, y, bound)
  }

  /** A walk along links that never turns straight back. */
  ghost predicate Walk(links: seq<Link>, w: seq<string>) {
    && w != []
    && (forall k :: 0 <= k < |w| - 1 ==> Joined(links, w[k], w[k + 1]))
    && (forall k :: 0 <= k < |w| - 2 ==> w[k] != w[k + 2])
  }

  /** A walk from `grain` whose last step has this bound. */
  ghost predicate EndsWith(links: seq<Link>, grain: string, w: seq<string>, bound: int) {
    Walk(links, w) && |w| >= 2 && w[0] == grain && Step(links, w[|w| - 2], w[|w| - 1], bound)
  }

  /** No walk from `grain` ever takes a step that can meet more than one row. */
  ghost predicate NeverFansOut(grain: string, links: seq<Link>) {
    forall w, bound :: EndsWith(links, grain, w, bound) ==> bound <= 1
  }

  // ---------------------------------------------------------------- trees

  function Nodes(start: string, links: seq<Link>): set<string> {
    if links == [] then {start} else Nodes(start, links[..|links| - 1]) + {links[|links| - 1].a, links[|links| - 1].b}
  }

  /** Every link attaches one new node to what is already connected to `start`. */
  ghost predicate Grown(start: string, links: seq<Link>) {
    links == [] ||
    var last := links[|links| - 1];
    var rest := links[..|links| - 1];
    Grown(start, rest) && (last.a in Nodes(start, rest)) != (last.b in Nodes(start, rest))
  }

  /** The end of the last link that it adds, and the end it adds it to. */
  ghost function Leaf(start: string, links: seq<Link>): string
    requires links != [] && Grown(start, links)
  {
    var last := links[|links| - 1];
    if last.a in Nodes(start, links[..|links| - 1]) then last.b else last.a
  }

  ghost function Stem(start: string, links: seq<Link>): string
    requires links != [] && Grown(start, links)
  {
    var last := links[|links| - 1];
    if last.a in Nodes(start, links[..|links| - 1]) then last.a else last.b
  }

  /** Some order of the links grows a tree over exactly `nodes`. */
  ghost predicate SpanningTree(nodes: set<string>, links: seq<Link>) {
    exists start, order :: Grown(start, order) && Nodes(start, order) == nodes && multiset(order) == multiset(links)
  }

  lemma {:induction false} EndsAreNodes(start: string, links: seq<Link>, l: Link)
    requires l in links
    ensures l.a in Nodes(start, links) && l.b in Nodes(start, links)
  {
    if l != links[|links| - 1] {
      EndsAreNodes(start, links[..|links| - 1], l);
    }
  }

  /** The node through which each node but `root` is reached from `root`. */
  ghost function Parents(start: string, links: seq<Link>, root: string): (p: map<string, string>)
    requires Grown(start, links) && root in Nodes(start, links)
    ensures p.Keys == Nodes(start, links) - {root}
    ensures forall l :: l in links ==> (l.b in p && p[l.b] == l.a) || (l.a in p && p[l.a] == l.b)
    decreases |links|
  {
    if links == [] then map[]
    else
      var rest := links[..|links| - 1];
      var leaf, stem := Leaf(start, links), Stem(start, links);
      assert links == rest + [links[|links| - 1]];
      assert forall l :: l in rest ==> l.a in Nodes(start, rest) && l.b in Nodes(start, rest) by {
        forall l | l in rest ensures l.a in Nodes(start, rest) && l.b in Nodes(start, rest) { EndsAreNodes(start, rest, l); }
      }
      if root == leaf then Parents(start, rest, stem)[stem := leaf] else Parents(start, rest, root)[leaf := stem]
  }

  /** The two ends of a link, as a set. */
  function Ends(l: Link): set<string> { {l.a, l.b} }

  lemma {:induction false} GrownHasNoParallels(start: string, links: seq<Link>)
    requires Grown(start, links)
    ensures forall i, j :: 0 <= i < j < |links| ==> Ends(links[i]) != Ends(links[j])
    ensures forall l :: l in links ==> l.a != l.b
  {
    if links != [] {
      var n := |links| - 1;
      GrownHasNoParallels(start, links[..n]);
      forall i | 0 <= i < n ensures Ends(links[i]) != Ends(links[n]) {
        assert links[..n][i] == links[i];
        EndsAreNodes(start, links[..n], links[i]);
      }
    }
  }

  lemma OnceThroughPermutation<T>(xs: seq<T>, ys: seq<T>, i: nat, j: nat)
    requires multiset(xs) == multiset(ys) && i < j < |xs|
    ensures exists k, m :: 0 <= k < |ys| && 0 <= m < |ys| && k != m && ys[k] == xs[i] && ys[m] == xs[j]
  {
    assert xs[i] in multiset(ys) && xs[j] in multiset(ys);
    if xs[i] == xs[j] {
      assert xs == xs[..i] + [xs[i]] + xs[i + 1..j] + [xs[j]] + xs[j + 1..];
      assert multiset(xs)[xs[i]] >= 2;
      OccursTwice(ys, xs[i]);
    } else {
      var k :| 0 <= k < |ys| && ys[k] == xs[i];
      var m :| 0 <= m < |ys| && ys[m] == xs[j];
    }
  }

  lemma TreeHasNoParallels(nodes: set<string>, links: seq<Link>)
    requires SpanningTree(nodes, links)
    ensures forall i, j :: 0 <= i < j < |links| ==> Ends(links[i]) != Ends(links[j])
    ensures forall l :: l in links ==> l.a != l.b
  {
    var start, order :| Grown(start, order) && Nodes(start, order) == nodes && multiset(order) == multiset(links);
    GrownHasNoParallels(start, order);
    forall i, j | 0 <= i < j < |links| ensures Ends(links[i]) != Ends(links[j]) {
      OnceThroughPermutation(links, order, i, j);
    }
    forall l | l in links ensures l.a != l.b {
      assert l in multiset(order);
    }
  }

  // ---------------------------------------------------------------- writing a link the other way round

  function Flip(l: Link): Link { Link(l.b, l.a, l.ba, l.ab) }

  ghost predicate Reoriented(xs: seq<Link>, ys: seq<Link>) {
    |xs| == |ys| && forall i :: 0 <= i < |xs| ==> ys[i] == xs[i] || ys[i] == Flip(xs[i])
  }

  lemma {:induction false} ReorientedGrown(start: string, xs: seq<Link>, ys: seq<Link>)
    requires Reoriented(xs, ys) && Grown(start, xs)
    ensures Grown(start, ys) && Nodes(start, ys) == Nodes(start, xs)
  {
    if xs != [] {
      ReorientedGrown(start, xs[..|xs| - 1], ys[..|ys| - 1]);
    }
  }

  lemma ReorientedStep(xs: seq<Link>, ys: seq<Link>, x: string, y: string, bound: int)
    requires Reoriented(xs, ys) && Step(ys, x, y, bound)
    ensures Step(xs, x, y, bound)
  {
    var l :| l in ys && ((l.a == x && l.b == y && l.ab == bound) || (l.b == x && l.a == y && l.ba == bound));
    var i :| 0 <= i < |ys| && ys[i] == l;
    assert xs[i] in xs;
  }

  lemma ReorientedSafe(grain: string, xs: seq<Link>, ys: seq<Link>)
    requires Reoriented(xs, ys) && NeverFansOut(grain, xs)
    ensures NeverFansOut(grain, ys)
  {
    forall w, bound | EndsWith(ys, grain, w, bound) ensures bound <= 1 {
      forall k | 0 <= k < |w| - 1 ensures Joined(xs, w[k], w[k + 1]) {
        assert Joined(ys, w[k], w[k + 1]);
        var b :| Step(ys, w[k], w[k + 1], b);
        ReorientedStep(xs, ys, w[k], w[k + 1], b);
      }
      ReorientedStep(xs, ys, w[|w| - 2], w[|w| - 1], bound);
      assert EndsWith(xs, grain, w, bound);
    }
  }

  // ---------------------------------------------------------------- the walk itself

  /** What the adjacency lists hold for `x`, in order of insertion. */
  function Neighbours(links: seq<Link>, x: string): seq<(string, int)> {
    if links == [] then []
    else
      var last := links[|links| - 1];
      Neighbours(links[..|links| - 1], x)
      + (if last.a == x then [(last.b, last.ab)] else [])
      + (if last.b == x then [(last.a, last.ba)] else [])
  }

  lemma {:induction false} NeighboursAreSteps(links: seq<Link>, x: string, y: string, bound: int)
    ensures (y, bound) in Neighbours(links, x) <==> Step(links, x, y, bound)
  {
    if links != [] {
      var rest, last := links[..|links| - 1], links[|links| - 1];
      NeighboursAreSteps(rest, x, y, bound);
      assert links == rest + [last];
      if Step(rest, x, y, bound) {
        var l :| l in rest && ((l.a == x && l.b == y && l.ab == bound) || (l.b == x && l.a == y && l.ba == bound));
        assert l in links;
      }
    }
  }

  ghost predicate DistinctNeighbours(ns: seq<(string, int)>) {
    forall i, j :: 0 <= i < j < |ns| ==> ns[i].0 != ns[j].0
  }

  lemma {:induction false} NeighboursAreDistinct(links: seq<Link>, x: string)
    requires forall i, j :: 0 <= i < j < |links| ==> Ends(links[i]) != Ends(links[j])
    requires forall l :: l in links ==> l.a != l.b
    ensures DistinctNeighbours(Neighbours(links, x))
  {
    if links != [] {
      var n := |links| - 1;
      NeighboursAreDistinct(links[..n], x);
      var last := links[n];
      assert last in links;
      var before := Neighbours(links[..n], x);
      forall i | 0 <= i < |before| && (last.a == x || last.b == x)
        ensures before[i].0 != (if last.a == x then last.b else last.a)
      {
        NotNeighbourYet(links, x, before[i]);
      }
    }
  }

  lemma NotNeighbourYet(links: seq<Link>, x: string, neighbour: (string, int))
    requires links != [] && neighbour in Neighbours(links[..|links| - 1], x)
    requires forall i, j :: 0 <= i < j < |links| ==> Ends(links[i]) != Ends(links[j])
    ensures Ends(links[|links| - 1]) != {x, neighbour.0}
  {
    var n := |links| - 1;
    NeighboursAreSteps(links[..n], x, neighbour.0, neighbour.1);
    var l :| l in links[..n] && ((l.a == x && l.b == neighbour.0) || (l.b == x && l.a == neighbour.0));
    var k :| 0 <= k < n && links[k] == l;
    assert Ends(links[k]) == {x, neighbour.0};
  }

  type State = (string, Option<string>)

  /** A walk that ends in this state of the queue. */
  ghost predicate Reaches(links: seq<Link>, grain: string, w: seq<string>, s: State) {
    && Walk(links, w) && w[0] == grain && w[|w| - 1] == s.0
    && (if |w| == 1 then s.1 == None else s.1 == Some(w[|w| - 2]))
  }

  lemma ExtendWalk(links: seq<Link>, grain: string, w: seq<string>, s: State, other: string, bound: int)
    requires Reaches(links, grain, w, s) && Step(links, s.0, other, bound) && s.1 != Some(other)
    ensures Reaches(links, grain, w + [other], (other, Some(s.0)))
  {
    var v := w + [other];
    assert Joined(links, s.0, other);
    forall k | 0 <= k < |v| - 1 ensures Joined(links, v[k], v[k + 1]) {
      if k < |w| - 1 { assert Joined(links, w[k], w[k + 1]); }
    }
    forall k | 0 <= k < |v| - 2 ensures v[k] != v[k + 2] {
      if k < |w| - 2 { assert w[k] != w[k + 2]; }
    }
  }

  /** The states enqueued while the neighbours of `s` are scanned. */
  ghost function Enqueued(ns: seq<(string, int)>, s: State): seq<State> {
    if ns == [] then []
    else Enqueued(ns[..|ns| - 1], s) + (if Some(ns[|ns| - 1].0) == s.1 then [] else [(ns[|ns| - 1].0, Some(s.0))])
  }

  ghost predicate Listed(ns: seq<(string, int)>, y: string) {
    exists i :: 0 <= i < |ns| && ns[i].0 == y
  }

  lemma {:induction false} EnqueuedMembers(ns: seq<(string, int)>, s: State, t: State)
    ensures t in Enqueued(ns, s) <==> t.1 == Some(s.0) && Some(t.0) != s.1 && Listed(ns, t.0)
  {
    if ns != [] {
      var n := |ns| - 1;
      EnqueuedMembers(ns[..n], s, t);
      if Listed(ns[..n], t.0) {
        var i :| 0 <= i < n && ns[..n][i].0 == t.0;
        assert ns[i].0 == t.0;
      }
      if Listed(ns, t.0) && ns[n].0 != t.0 {
        var i :| 0 <= i < |ns| && ns[i].0 == t.0;
        assert ns[..n][i].0 == t.0;
      }
    }
  }

  lemma {:induction false} EnqueuedDistinct(ns: seq<(string, int)>, s: State)
    requires DistinctNeighbours(ns)
    ensures DistinctStates(Enqueued(ns, s))
  {
    if ns != [] {
      var n := |ns| - 1;
      EnqueuedDistinct(ns[..n], s);
      var before := Enqueued(ns[..n], s);
      forall i | 0 <= i < |before| ensures before[i].0 != ns[n].0 {
        EnqueuedMembers(ns[..n], s, before[i]);
      }
    }
  }

  /** No node is listed twice. */
  ghost predicate DistinctStates(q: seq<State>) {
    forall i, j :: 0 <= i < j < |q| ==> q[i].0 != q[j].0
  }

  function Refs(states: set<State>): set<string> {
    set s | s in states :: s.0
  }
}
