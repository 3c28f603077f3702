/** Why the walk is enough: along a tree whose walk from the grain never fans out,
    a grain row belongs to at most one row of the inner join. */
module JoinSafety {
  import opened Domain
  import opened Relational
  import opened Evidence
  import opened GrainWalk

  /** An authorised relationship used between two table instances. */
  datatype BoundEdge = BoundEdge(relationship: Authorized, child: string, parent: string)

  function LinkOf(e: BoundEdge): Link {
    Link(e.child, e.parent,
         e.relationship.evidence.measurements.maxParentsPerChild,
         e.relationship.evidence.measurements.maxChildrenPerParent)
  }

  function Links(edges: seq<BoundEdge>): (r: seq<Link>)
    ensures |r| == |edges| && forall i :: 0 <= i < |edges| ==> r[i] == LinkOf(edges[i])
  {
    seq(|edges|, i requires 0 <= i < |edges| => LinkOf(edges[i]))
  }

  function JoinEdges(edges: seq<BoundEdge>): (r: seq<JoinEdge>)
    ensures |r| == |edges|
    ensures forall i :: 0 <= i < |edges| ==> r[i] == JoinEdge(edges[i].relationship.definition, edges[i].child, edges[i].parent)
  {
    seq(|edges|, i requires 0 <= i < |edges| => JoinEdge(edges[i].relationship.definition, edges[i].child, edges[i].parent))
  }

  /** The instances an edge names are instances of the entities its relationship joins. */
  ghost predicate Typed(entities: map<string, string>, e: BoundEdge) {
    && e.child in entities && entities[e.child] == e.relationship.definition.child.entity
    && e.parent in entities && entities[e.parent] == e.relationship.definition.parent.entity
  }

  ghost predicate AllTyped(entities: map<string, string>, edges: seq<BoundEdge>) {
    forall i :: 0 <= i < |edges| ==> Typed(entities, edges[i])
  }

  ghost predicate EdgesMeasuredOn(db: Database, edges: seq<BoundEdge>) {
    forall i :: 0 <= i < |edges| ==> MeasuredOn(db, edges[i].relationship)
  }

  // ---------------------------------------------------------------- walks in a tree

  lemma WalksMonotone(links: seq<Link>, more: seq<Link>, w: seq<string>)
    requires Walk(links, w) && forall l :: l in links ==> l in more
    ensures Walk(more, w)
  {
    forall k | 0 <= k < |w| - 1 ensures Joined(more, w[k], w[k + 1]) {
      assert Joined(links, w[k], w[k + 1]);
      var bound :| Step(links, w[k], w[k + 1], bound);
      assert Step(more, w[k], w[k + 1], bound);
    }
    forall k | 0 <= k < |w| - 2 ensures w[k] != w[k + 2] {}
  }

  lemma SafetyMonotone(grain: string, links: seq<Link>, more: seq<Link>)
    requires NeverFansOut(grain, more) && forall l :: l in links ==> l in more
    ensures NeverFansOut(grain, links)
  {
    forall w, bound | EndsWith(links, grain, w, bound) ensures bound <= 1 {
      WalksMonotone(links, more, w);
      assert EndsWith(more, grain, w, bound);
    }
  }

  /** The step across the last link of a grown tree. */
  lemma LastStep(start: string, links: seq<Link>) returns (down: int, up: int)
    requires links != [] && Grown(start, links)
    ensures Leaf(start, links) !in Nodes(start, links[..|links| - 1]) && Stem(start, links) in Nodes(start, links[..|links| - 1])
    ensures Step(links, Stem(start, links), Leaf(start, links), down)
    ensures Step(links, Leaf(start, links), Stem(start, links), up)
    ensures var last := links[|links| - 1];
      if last.a == Stem(start, links) then last.b == Leaf(start, links) && last.ab == down && last.ba == up
      else last.a == Leaf(start, links) && last.b == Stem(start, links) && last.ba == down && last.ab == up
  {
    var last := links[|links| - 1];
    assert last in links;
    if last.a in Nodes(start, links[..|links| - 1]) {
      down, up := last.ab, last.ba;
    } else {
      down, up := last.ba, last.ab;
    }
  }

  lemma WalkNodes(start: string, links: seq<Link>, w: seq<string>)
    requires Walk(links, w) && w[0] in Nodes(start, links)
    ensures forall x :: x in w ==> x in Nodes(start, links)
  {
    forall k | 0 <= k < |w| ensures w[k] in Nodes(start, links) {
      if k > 0 {
        assert Joined(links, w[k - 1], w[k - 1 + 1]);
        var bound :| Step(links, w[k - 1], w[k], bound);
        var l :| l in links && ((l.a == w[k - 1] && l.b == w[k]) || (l.b == w[k - 1] && l.a == w[k]));
        EndsAreNodes(start, links, l);
      }
    }
  }

  lemma AppendStep(links: seq<Link>, w: seq<string>, y: string, bound: int)
    requires Walk(links, w) && Step(links, w[|w| - 1], y, bound) && y !in w
    ensures Walk(links, w + [y]) && EndsWith(links, w[0], w + [y], bound)
  {
    var s: State := (w[|w| - 1], if |w| == 1 then None else Some(w[|w| - 2]));
    ExtendWalk(links, w[0], w, s, y, bound);
  }

  lemma PrependStep(links: seq<Link>, x: string, w: seq<string>, bound: int)
    requires Walk(links, w) && Step(links, x, w[0], bound) && x !in w
    ensures Walk(links, [x] + w)
  {
    var v := [x] + w;
    assert Joined(links, x, w[0]);
    forall k | 0 <= k < |v| - 1 ensures Joined(links, v[k], v[k + 1]) {
      if k > 0 { assert Joined(links, w[k - 1], w[k - 1 + 1]); }
    }
    forall k | 0 <= k < |v| - 2 ensures v[k] != v[k + 2] {
      if k > 0 { assert w[k - 1] != w[k - 1 + 2]; }
    }
  }

  /** Every node of a tree is reached from every other by such a walk. */
  lemma {:induction false} WalkTo(start: string, links: seq<Link>, from: string, to: string) returns (w: seq<string>)
    requires Grown(start, links) && from in Nodes(start, links) && to in Nodes(start, links)
    ensures Walk(links, w) && w[0] == from && w[|w| - 1] == to
    decreases |links|
  {
    if from == to {
      w := [from];
    } else {
      var rest := links[..|links| - 1];
      var leaf, stem := Leaf(start, links), Stem(start, links);
      var down, up := LastStep(start, links);
      if to == leaf {
        w := WalkTo(start, rest, from, stem);
        WalkNodes(start, rest, w);
        WalksMonotone(rest, links, w);
        AppendStep(links, w, leaf, down);
        w := w + [leaf];
      } else if from == leaf {
        w := WalkTo(start, rest, stem, to);
        WalkNodes(start, rest, w);
        WalksMonotone(rest, links, w);
        PrependStep(links, leaf, w, up);
        w := [leaf] + w;
      } else {
        w := WalkTo(start, rest, from, to);
        WalksMonotone(rest, links, w);
      }
    }
  }

  /** Cutting the root leaf off leaves the walks of its stem. */
  lemma StemWalk(start: string, links: seq<Link>, w: seq<string>)
    requires links != [] && Grown(start, links)
    requires Walk(links[..|links| - 1], w) && w[0] == Stem(start, links)
    ensures Walk(links, [Leaf(start, links)] + w)
  {
    var down, up := LastStep(start, links);
    WalkNodes(start, links[..|links| - 1], w);
    WalksMonotone(links[..|links| - 1], links, w);
    PrependStep(links, Leaf(start, links), w, up);
  }

  lemma SafetyMovesToStem(start: string, links: seq<Link>)
    requires links != [] && Grown(start, links) && NeverFansOut(Leaf(start, links), links)
    ensures NeverFansOut(Stem(start, links), links[..|links| - 1])
  {
    var rest := links[..|links| - 1];
    forall w, bound | EndsWith(rest, Stem(start, links), w, bound) ensures bound <= 1 {
      StemWalk(start, links, w);
      assert Step(links, w[|w| - 2], w[|w| - 1], bound);
      assert EndsWith(links, Leaf(start, links), [Leaf(start, links)] + w, bound);
    }
  }

  // ---------------------------------------------------------------- at most one row

  /** Whenever the link bounds one side by one row, equal rows on the other side force equality. */
  ghost predicate Respected(l: Link, x: map<string, nat>, y: map<string, nat>) {
    && l.a in x && l.b in x && l.a in y && l.b in y
    && (l.ab <= 1 && x[l.a] == y[l.a] ==> x[l.b] == y[l.b])
    && (l.ba <= 1 && x[l.b] == y[l.b] ==> x[l.a] == y[l.a])
  }

  lemma {:induction false} GrainDetermines(start: string, links: seq<Link>, grain: string, x: map<string, nat>, y: map<string, nat>)
    requires Grown(start, links) && grain in Nodes(start, links) && NeverFansOut(grain, links)
    requires forall l :: l in links ==> Respected(l, x, y)
    requires grain in x && grain in y && x[grain] == y[grain]
    ensures forall n :: n in Nodes(start, links) ==> n in x && n in y && x[n] == y[n]
    decreases |links|
  {
    if links != [] {
      var rest := links[..|links| - 1];
      var leaf, stem := Leaf(start, links), Stem(start, links);
      var down, up := LastStep(start, links);
      assert Respected(links[|links| - 1], x, y);
      if grain == leaf {
        assert EndsWith(links, leaf, [leaf, stem], up) by { assert Joined(links, leaf, stem); }
        SafetyMovesToStem(start, links);
        GrainDetermines(start, rest, stem, x, y);
      } else {
        SafetyMonotone(grain, rest, links);
        GrainDetermines(start, rest, grain, x, y);
        var w := WalkTo(start, rest, grain, stem);
        WalkNodes(start, rest, w);
        WalksMonotone(rest, links, w);
        AppendStep(links, w, leaf, down);
      }
    }
  }

  lemma MeasuredEdgeRespects(db: Database, entities: map<string, string>, edges: seq<BoundEdge>, i: nat, x: map<string, nat>, y: map<string, nat>)
    requires i < |edges| && MeasuredOn(db, edges[i].relationship) && Typed(entities, edges[i])
    requires JoinRow(db, entities, JoinEdges(edges), x) && JoinRow(db, entities, JoinEdges(edges), y)
    ensures Respected(LinkOf(edges[i]), x, y)
  {
    var e := JoinEdges(edges)[i];
    assert e in JoinEdges(edges);
    assert EdgeHolds(db, entities, e, x) && EdgeHolds(db, entities, e, y);
    BoundsAreRowFacts(db, edges[i].relationship);
  }

  lemma TreeDetermines(nodes: set<string>, links: seq<Link>, grain: string, x: map<string, nat>, y: map<string, nat>)
    requires SpanningTree(nodes, links) && grain in nodes && NeverFansOut(grain, links)
    requires forall l :: l in links ==> Respected(l, x, y)
    requires x.Keys == nodes && y.Keys == nodes && x[grain] == y[grain]
    ensures x == y
  {
    var start, order :| Grown(start, order) && Nodes(start, order) == nodes && multiset(order) == multiset(links);
    forall l | l in order ensures l in links {
      assert l in multiset(links);
    }
    SafetyMonotone(grain, order, links);
    GrainDetermines(start, order, grain, x, y);
  }

  /** The product's claim: on every database the evidence was measured on, joining along the
      edges never repeats a row of the grain. */
  lemma AtMostOneJoinRow(db: Database, entities: map<string, string>, edges: seq<BoundEdge>, grain: string, x: map<string, nat>, y: map<string, nat>)
    requires SpanningTree(entities.Keys, Links(edges)) && grain in entities && NeverFansOut(grain, Links(edges))
    requires AllTyped(entities, edges) && EdgesMeasuredOn(db, edges)
    requires JoinRow(db, entities, JoinEdges(edges), x) && JoinRow(db, entities, JoinEdges(edges), y)
    requires x[grain] == y[grain]
    ensures x == y
  {
    forall l | l in Links(edges) ensures Respected(l, x, y) {
      var i :| 0 <= i < |edges| && Links(edges)[i] == l;
      MeasuredEdgeRespects(db, entities, edges, i, x, y);
    }
    TreeDetermines(entities.Keys, Links(edges), grain, x, y);
  }

  // ---------------------------------------------------------------- exactly one row

  ghost predicate Upward(links: seq<Link>, x: string, y: string) {
    exists l :: l in links && l.a == x && l.b == y
  }

  /** Every walk from the grain climbs its links from `a` to `b`. */
  ghost predicate AlwaysForward(grain: string, links: seq<Link>) {
    forall w :: Walk(links, w) && |w| >= 2 && w[0] == grain ==> Upward(links, w[|w| - 2], w[|w| - 1])
  }

  /** A link between nodes that were there before is not the last one. */
  lemma UpwardBefore(start: string, links: seq<Link>, x: string, y: string)
    requires links != [] && Grown(start, links) && Upward(links, x, y)
    requires x in Nodes(start, links[..|links| - 1]) && y in Nodes(start, links[..|links| - 1])
    ensures Upward(links[..|links| - 1], x, y)
  {
    var l :| l in links && l.a == x && l.b == y;
    var down, up := LastStep(start, links);
    assert links == links[..|links| - 1] + [links[|links| - 1]];
  }

  lemma ForwardMonotone(start: string, links: seq<Link>, grain: string)
    requires links != [] && Grown(start, links) && AlwaysForward(grain, links)
    requires grain in Nodes(start, links[..|links| - 1])
    ensures AlwaysForward(grain, links[..|links| - 1])
  {
    var rest := links[..|links| - 1];
    forall w | Walk(rest, w) && |w| >= 2 && w[0] == grain ensures Upward(rest, w[|w| - 2], w[|w| - 1]) {
      WalksMonotone(rest, links, w);
      WalkNodes(start, rest, w);
      UpwardBefore(start, links, w[|w| - 2], w[|w| - 1]);
    }
  }

  lemma StemWalkClimbs(start: string, links: seq<Link>, w: seq<string>)
    requires links != [] && Grown(start, links) && AlwaysForward(Leaf(start, links), links)
    requires Walk(links[..|links| - 1], w) && |w| >= 2 && w[0] == Stem(start, links)
    ensures Upward(links[..|links| - 1], w[|w| - 2], w[|w| - 1])
  {
    StemWalk(start, links, w);
    var v := [Leaf(start, links)] + w;
    assert Upward(links, v[|v| - 2], v[|v| - 1]);
    StemIsNode(start, links);
    WalkNodes(start, links[..|links| - 1], w);
    UpwardBefore(start, links, w[|w| - 2], w[|w| - 1]);
  }

  lemma ForwardMovesToStem(start: string, links: seq<Link>)
    requires links != [] && Grown(start, links) && AlwaysForward(Leaf(start, links), links)
    ensures AlwaysForward(Stem(start, links), links[..|links| - 1])
  {
    var rest := links[..|links| - 1];
    forall w | Walk(rest, w) && |w| >= 2 && w[0] == Stem(start, links) ensures Upward(rest, w[|w| - 2], w[|w| - 1]) {
      StemWalkClimbs(start, links, w);
    }
  }

  lemma StemIsNode(start: string, links: seq<Link>)
    requires links != [] && Grown(start, links)
    ensures Stem(start, links) in Nodes(start, links[..|links| - 1])
    ensures Leaf(start, links) !in Nodes(start, links[..|links| - 1])
    ensures Nodes(start, links) == Nodes(start, links[..|links| - 1]) + {Leaf(start, links)}
  {
  }

  ghost predicate LastEnds(start: string, links: seq<Link>, x: string, y: string)
    requires links != [] && Grown(start, links)
  {
    || (x == Leaf(start, links) && y == Stem(start, links))
    || (x == Stem(start, links) && y == Leaf(start, links))
  }

  /** On a walk from the grain the last link can only be climbed from `a` to `b`. */
  lemma LastLinkForward(start: string, links: seq<Link>, w: seq<string>)
    requires links != [] && Grown(start, links) && Walk(links, w) && |w| >= 2
    requires LastEnds(start, links, w[|w| - 2], w[|w| - 1])
    requires AlwaysForward(w[0], links)
    ensures links[|links| - 1].a == w[|w| - 2] && links[|links| - 1].b == w[|w| - 1]
  {
    StepsForward(links, w);
    LastLinkUpward(start, links, w[|w| - 2], w[|w| - 1]);
  }

  lemma StepsForward(links: seq<Link>, w: seq<string>)
    requires Walk(links, w) && |w| >= 2 && AlwaysForward(w[0], links)
    ensures Upward(links, w[|w| - 2], w[|w| - 1])
  {
  }

  lemma LastLinkUpward(start: string, links: seq<Link>, x: string, y: string)
    requires links != [] && Grown(start, links) && LastEnds(start, links, x, y) && Upward(links, x, y)
    ensures links[|links| - 1].a == x && links[|links| - 1].b == y
  {
    var rest := links[..|links| - 1];
    assert links == rest + [links[|links| - 1]];
    var down, up := LastStep(start, links);
    LeafLinkIsLast(start, links, x, y);
  }

  /** Only the last link touches the leaf. */
  lemma LeafLinkIsLast(start: string, links: seq<Link>, x: string, y: string)
    requires links != [] && Grown(start, links) && LastEnds(start, links, x, y) && Upward(links, x, y)
    ensures links[|links| - 1].a == x && links[|links| - 1].b == y
  {
    var rest := links[..|links| - 1];
    assert links == rest + [links[|links| - 1]];
    var l :| l in links && l.a == x && l.b == y;
    if l in rest {
      EndsAreNodes(start, rest, l);
    }
  }

  lemma ForwardBySet(grain: string, links: seq<Link>, order: seq<Link>)
    requires AlwaysForward(grain, links) && forall l :: l in order <==> l in links
    ensures AlwaysForward(grain, order)
  {
    forall w | Walk(order, w) && |w| >= 2 && w[0] == grain ensures Upward(order, w[|w| - 2], w[|w| - 1]) {
      WalksMonotone(order, links, w);
      assert Upward(links, w[|w| - 2], w[|w| - 1]);
    }
  }

  /** Rows `p` and `q` satisfy the predicate of an edge behind this link. */
  ghost predicate LinkFits(db: Database, edges: seq<BoundEdge>, l: Link, p: nat, q: nat) {
    exists k :: 0 <= k < |edges| && LinkOf(edges[k]) == l && RowsMatch(db, edges[k].relationship.definition, p, q)
  }

  ghost predicate RowsMatch(db: Database, d: Definition, p: nat, q: nat) {
    && |d.child.columns| == |d.parent.columns|
    && p < |TableOf(db, d.child.entity)| && q < |TableOf(db, d.parent.entity)|
    && Matches(d, TableOf(db, d.child.entity)[p], TableOf(db, d.parent.entity)[q])
  }

  ghost predicate IsRow(db: Database, entities: map<string, string>, n: string, p: nat) {
    n in entities && p < |TableOf(db, entities[n])|
  }

  ghost predicate FitsAbove(db: Database, entities: map<string, string>, edges: seq<BoundEdge>, l: Link, p: nat) {
    exists q: nat :: IsRow(db, entities, l.b, q) && LinkFits(db, edges, l, p, q)
  }

  ghost predicate CanClimb(db: Database, entities: map<string, string>, edges: seq<BoundEdge>, links: seq<Link>) {
    forall l, p: nat :: l in links && IsRow(db, entities, l.a, p) ==> FitsAbove(db, entities, edges, l, p)
  }

  ghost predicate Climbed(db: Database, entities: map<string, string>, edges: seq<BoundEdge>, links: seq<Link>, row: map<string, nat>) {
    && (forall n :: n in row ==> IsRow(db, entities, n, row[n]))
    && (forall l :: l in links ==> l.a in row && l.b in row && LinkFits(db, edges, l, row[l.a], row[l.b]))
  }

  lemma ClimbOne(db: Database, entities: map<string, string>, edges: seq<BoundEdge>, links: seq<Link>, row: map<string, nat>, n: string, i: nat)
    requires links != [] && n !in row && IsRow(db, entities, n, i)
    requires Climbed(db, entities, edges, links[..|links| - 1], row)
    requires var last := links[|links| - 1];
      || (last.a == n && last.b in row && LinkFits(db, edges, last, i, row[last.b]))
      || (last.b == n && last.a in row && LinkFits(db, edges, last, row[last.a], i))
    ensures Climbed(db, entities, edges, links, row[n := i])
  {
    var row' := row[n := i];
    forall l | l in links ensures l.a in row' && l.b in row' && LinkFits(db, edges, l, row'[l.a], row'[l.b]) {
      StillFits(db, entities, edges, links, row, n, i, l);
    }
    forall m | m in row' ensures IsRow(db, entities, m, row'[m]) {
      assert m == n || m in row;
    }
  }

  lemma StillFits(db: Database, entities: map<string, string>, edges: seq<BoundEdge>, links: seq<Link>, row: map<string, nat>, n: string, i: nat, l: Link)
    requires links != [] && n !in row && l in links && Climbed(db, entities, edges, links[..|links| - 1], row)
    requires var last := links[|links| - 1];
      || (last.a == n && last.b in row && LinkFits(db, edges, last, i, row[last.b]))
      || (last.b == n && last.a in row && LinkFits(db, edges, last, row[last.a], i))
    ensures var row' := row[n := i]; l.a in row' && l.b in row' && LinkFits(db, edges, l, row'[l.a], row'[l.b])
  {
    var last, rest := links[|links| - 1], links[..|links| - 1];
    assert links == rest + [last];
    if l in rest {
      assert LinkFits(db, edges, l, row[l.a], row[l.b]);
    }
  }

  /** The row just above `p` across the last link. */
  lemma ClimbLast(db: Database, entities: map<string, string>, edges: seq<BoundEdge>, start: string, links: seq<Link>, w: seq<string>, p: nat)
    returns (q: nat)
    requires links != [] && Grown(start, links) && Walk(links, w) && |w| >= 2 && AlwaysForward(w[0], links)
    requires LastEnds(start, links, w[|w| - 2], w[|w| - 1])
    requires CanClimb(db, entities, edges, links) && IsRow(db, entities, w[|w| - 2], p)
    ensures IsRow(db, entities, w[|w| - 1], q) && LinkFits(db, edges, links[|links| - 1], p, q)
    ensures links[|links| - 1].a == w[|w| - 2] && links[|links| - 1].b == w[|w| - 1]
  {
    LastLinkForward(start, links, w);
    var last := links[|links| - 1];
    assert last in links && FitsAbove(db, entities, edges, last, p);
    q :| IsRow(db, entities, last.b, q) && LinkFits(db, edges, last, p, q);
  }

  /** From a root that is the last leaf: the row of its stem, and what is left to climb. */
  lemma ClimbFromLeaf(db: Database, entities: map<string, string>, edges: seq<BoundEdge>, start: string, links: seq<Link>, i: nat)
    returns (j: nat)
    requires links != [] && Grown(start, links) && AlwaysForward(Leaf(start, links), links)
    requires CanClimb(db, entities, edges, links) && IsRow(db, entities, Leaf(start, links), i)
    ensures IsRow(db, entities, Stem(start, links), j) && AlwaysForward(Stem(start, links), links[..|links| - 1])
    ensures links[|links| - 1].a == Leaf(start, links) && links[|links| - 1].b == Stem(start, links)
    ensures LinkFits(db, edges, links[|links| - 1], i, j)
  {
    ForwardMovesToStem(start, links);
    LeafWalk(start, links);
    j := ClimbLast(db, entities, edges, start, links, [Leaf(start, links), Stem(start, links)], i);
  }

  lemma AttachLeaf(db: Database, entities: map<string, string>, edges: seq<BoundEdge>, start: string, links: seq<Link>, row: map<string, nat>, i: nat)
    requires links != [] && Grown(start, links) && IsRow(db, entities, Leaf(start, links), i)
    requires Climbed(db, entities, edges, links[..|links| - 1], row) && row.Keys == Nodes(start, links[..|links| - 1])
    requires var last := links[|links| - 1];
      || (last.a == Leaf(start, links) && last.b in row && LinkFits(db, edges, last, i, row[last.b]))
      || (last.b == Leaf(start, links) && last.a in row && LinkFits(db, edges, last, row[last.a], i))
    ensures Climbed(db, entities, edges, links, row[Leaf(start, links) := i])
    ensures row[Leaf(start, links) := i].Keys == Nodes(start, links)
  {
    StemIsNode(start, links);
    ClimbOne(db, entities, edges, links, row, Leaf(start, links), i);
  }

  /** A grain row extends along a tree that is climbed everywhere. */
  lemma {:induction false} GrainExtends(db: Database, entities: map<string, string>, edges: seq<BoundEdge>, start: string, links: seq<Link>, grain: string, i: nat)
    returns (row: map<string, nat>)
    requires Grown(start, links) && grain in Nodes(start, links) && AlwaysForward(grain, links)
    requires IsRow(db, entities, grain, i) && CanClimb(db, entities, edges, links)
    ensures row.Keys == Nodes(start, links) && row[grain] == i && Climbed(db, entities, edges, links, row)
    decreases |links|
  {
    if links == [] {
      return map[grain := i];
    }
    var rest := links[..|links| - 1];
    var leaf, stem := Leaf(start, links), Stem(start, links);
    StemIsNode(start, links);
    assert CanClimb(db, entities, edges, rest) by { assert forall l :: l in rest ==> l in links; }
    if grain == leaf {
      var j := ClimbFromLeaf(db, entities, edges, start, links, i);
      row := GrainExtends(db, entities, edges, start, rest, stem, j);
      AttachLeaf(db, entities, edges, start, links, row, i);
      return row[leaf := i];
    }
    ForwardMonotone(start, links, grain);
    row := GrainExtends(db, entities, edges, start, rest, grain, i);
    var j := ClimbToLeaf(db, entities, edges, start, links, grain, row);
    AttachLeaf(db, entities, edges, start, links, row, j);
    return row[leaf := j];
  }

  lemma ClimbToLeaf(db: Database, entities: map<string, string>, edges: seq<BoundEdge>, start: string, links: seq<Link>, grain: string, row: map<string, nat>)
    returns (j: nat)
    requires links != [] && Grown(start, links) && grain in Nodes(start, links[..|links| - 1]) && AlwaysForward(grain, links)
    requires CanClimb(db, entities, edges, links)
    requires Climbed(db, entities, edges, links[..|links| - 1], row) && row.Keys == Nodes(start, links[..|links| - 1])
    ensures Stem(start, links) in row && IsRow(db, entities, Leaf(start, links), j)
    ensures links[|links| - 1].a == Stem(start, links) && links[|links| - 1].b == Leaf(start, links)
    ensures LinkFits(db, edges, links[|links| - 1], row[Stem(start, links)], j)
  {
    StemIsNode(start, links);
    var w := WalkToLeaf(start, links, grain);
    assert IsRow(db, entities, Stem(start, links), row[Stem(start, links)]);
    j := ClimbLast(db, entities, edges, start, links, w, row[Stem(start, links)]);
  }

  lemma LeafWalk(start: string, links: seq<Link>)
    requires links != [] && Grown(start, links)
    ensures Walk(links, [Leaf(start, links), Stem(start, links)])
  {
    var down, up := LastStep(start, links);
    assert Joined(links, Leaf(start, links), Stem(start, links));
  }

  lemma WalkToLeaf(start: string, links: seq<Link>, from: string) returns (w: seq<string>)
    requires links != [] && Grown(start, links) && from in Nodes(start, links[..|links| - 1])
    ensures Walk(links, w) && |w| >= 2 && w[0] == from && w[|w| - 2] == Stem(start, links) && w[|w| - 1] == Leaf(start, links)
  {
    var rest := links[..|links| - 1];
    var down, up := LastStep(start, links);
    w := WalkTo(start, rest, from, Stem(start, links));
    WalkNodes(start, rest, w);
    WalksMonotone(rest, links, w);
    AppendStep(links, w, Leaf(start, links), down);
    w := w + [Leaf(start, links)];
  }

  /** Authorised and without null child keys: each child row finds a parent row. */
  ghost predicate Complete(db: Database, r: Authorized) {
    && MeasuredOn(db, r)
    && r.evidence.measurements.orphanCount == 0 && r.evidence.measurements.childNullCount == 0
  }

  lemma CompleteFollows(db: Database, r: Authorized, p: nat) returns (q: nat)
    requires Complete(db, r) && p < |TableOf(db, r.definition.child.entity)|
    ensures RowsMatch(db, r.definition, p, q)
  {
    var d := r.definition;
    var child, parent := TableOf(db, d.child.entity), TableOf(db, d.parent.entity);
    MeasureIsConsistent(child, parent, d);
    OrphanCountZero(child, parent, d);
    assert HasKey(child[p], d.child.columns);
    var j :| 0 <= j < |parent| && Matches(d, child[p], parent[j]);
    q := j;
  }

  ghost predicate AllComplete(db: Database, edges: seq<BoundEdge>) {
    forall k :: 0 <= k < |edges| ==> Complete(db, edges[k].relationship)
  }

  lemma LinkAt(edges: seq<BoundEdge>, l: Link) returns (k: nat)
    requires l in Links(edges)
    ensures k < |edges| && Links(edges)[k] == l
  {
    k :| 0 <= k < |edges| && Links(edges)[k] == l;
  }

  lemma CompleteLinkClimbs(db: Database, entities: map<string, string>, edges: seq<BoundEdge>, k: nat, p: nat)
    requires k < |edges| && Typed(entities, edges[k]) && Complete(db, edges[k].relationship) && IsRow(db, entities, Links(edges)[k].a, p)
    ensures FitsAbove(db, entities, edges, Links(edges)[k], p)
  {
    var q := CompleteFollows(db, edges[k].relationship, p);
    assert IsRow(db, entities, Links(edges)[k].b, q) && LinkFits(db, edges, Links(edges)[k], p, q);
  }

  lemma CompleteLinksClimb(db: Database, entities: map<string, string>, edges: seq<BoundEdge>, links: seq<Link>)
    requires AllTyped(entities, edges) && AllComplete(db, edges) && forall l :: l in links ==> l in Links(edges)
    ensures CanClimb(db, entities, edges, links)
  {
    forall l, p: nat | l in links && IsRow(db, entities, l.a, p) ensures FitsAbove(db, entities, edges, l, p) {
      var k := LinkAt(edges, l);
      assert Typed(entities, edges[k]);
      CompleteLinkClimbs(db, entities, edges, k, p);
    }
  }

  lemma OneLink(links: seq<Link>, i: nat, j: nat)
    requires forall i, j :: 0 <= i < j < |links| ==> Ends(links[i]) != Ends(links[j])
    requires i < |links| && j < |links| && links[i] == links[j]
    ensures i == j
  {
    assert Ends(links[i]) == Ends(links[j]);
  }

  lemma ClimbedEdgeHolds(db: Database, entities: map<string, string>, edges: seq<BoundEdge>, row: map<string, nat>, k: nat)
    requires SpanningTree(entities.Keys, Links(edges)) && k < |edges| && Typed(entities, edges[k])
    requires Climbed(db, entities, edges, Links(edges), row)
    ensures var e := JoinEdges(edges)[k];
      |e.definition.child.columns| == |e.definition.parent.columns| && EdgeHolds(db, entities, e, row)
  {
    var links := Links(edges);
    assert links[k] in links;
    var m :| 0 <= m < |edges| && LinkOf(edges[m]) == links[k]
      && RowsMatch(db, edges[m].relationship.definition, row[links[k].a], row[links[k].b]);
    TreeHasNoParallels(entities.Keys, links);
    OneLink(links, m, k);
  }

  lemma ClimbedIsJoinRow(db: Database, entities: map<string, string>, edges: seq<BoundEdge>, row: map<string, nat>)
    requires SpanningTree(entities.Keys, Links(edges)) && AllTyped(entities, edges)
    requires row.Keys == entities.Keys && Climbed(db, entities, edges, Links(edges), row)
    ensures JoinRow(db, entities, JoinEdges(edges), row)
  {
    forall e | e in JoinEdges(edges)
      ensures |e.definition.child.columns| == |e.definition.parent.columns| && EdgeHolds(db, entities, e, row)
    {
      var k :| 0 <= k < |edges| && JoinEdges(edges)[k] == e;
      ClimbedEdgeHolds(db, entities, edges, row, k);
    }
    forall n | n in row ensures row[n] < |TableOf(db, entities[n])| {
      assert IsRow(db, entities, n, row[n]);
    }
  }

  /** When every edge leads from child to parent away from the grain and no child key is null,
      every grain row belongs to exactly one join row. */
  lemma ExactlyOneJoinRow(db: Database, entities: map<string, string>, edges: seq<BoundEdge>, grain: string, i: nat)
    returns (row: map<string, nat>)
    requires SpanningTree(entities.Keys, Links(edges)) && grain in entities && NeverFansOut(grain, Links(edges))
    requires AllTyped(entities, edges) && AlwaysForward(grain, Links(edges)) && AllComplete(db, edges)
    requires i < |TableOf(db, entities[grain])|
    ensures JoinRow(db, entities, JoinEdges(edges), row) && row[grain] == i
    ensures forall other :: JoinRow(db, entities, JoinEdges(edges), other) && other[grain] == i ==> other == row
  {
    var links := Links(edges);
    var start, order :| Grown(start, order) && Nodes(start, order) == entities.Keys && multiset(order) == multiset(links);
    forall l ensures l in order <==> l in links {
      assert l in multiset(order) <==> l in multiset(links);
    }
    ForwardBySet(grain, links, order);
    CompleteLinksClimb(db, entities, edges, order);
    row := GrainExtends(db, entities, edges, start, order, grain, i);
    assert Climbed(db, entities, edges, links, row);
    ClimbedIsJoinRow(db, entities, edges, row);
    forall other | JoinRow(db, entities, JoinEdges(edges), other) && other[grain] == i ensures other == row {
      assert EdgesMeasuredOn(db, edges);
      AtMostOneJoinRow(db, entities, edges, grain, other, row);
    }
  }
}
