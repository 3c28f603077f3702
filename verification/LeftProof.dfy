/** Queries with left joins that passed against a proof. */
module LeftProof {
  import opened Domain
  import opened Relational
  import opened Evidence
  import opened Bijections
  import opened GrainWalk
  import opened QueueWalk
  import opened JoinSafety
  import opened Planner
  import opened PlanSafety
  import opened SqlGraph
  import opened InstanceGroups
  import opened SqlCanonical
  import opened SqlMatching
  import opened SqlValidation
  import opened SqlSafety
  import opened ProofBoundSql
  import opened ProoflessSql
  import opened LeftJoins
  import opened LeftGrain
  import opened LeftRows

  /** No instance is left joined to two others, unless it is always there. */
  ghost predicate OneAbove(edges: seq<NormalizedEdge>) {
    forall n, p, q :: Below(edges, p, n) && Below(edges, q, n) && !AlwaysThere(edges, n) ==> p == q
  }

  /** An edge between a settled instance and one that is not would settle it. */
  lemma NothingLeadsOut(edges: seq<NormalizedEdge>, settled: set<string>, names: set<string>, i: nat, p: string, n: string)
    requires OneAbove(edges) && Done(edges, settled, names) && i < |edges| && p in settled && n in names
    requires (edges[i].leftRef == p && edges[i].rightRef == n) || (edges[i].leftRef == n && edges[i].rightRef == p)
    ensures n in settled
  {
    if edges[i].kind != LeftOuter {
      assert Beside(edges, p, n);
      assert BesideSome(edges, settled, n);
    } else if edges[i].leftRef == n {
      assert FillsIn(edges, i, p) && Below(edges, n, p);
    } else {
      assert FillsIn(edges, i, n) && Below(edges, p, n);
      assert BelowSome(edges, settled, n);
      assert AlwaysThere(edges, n) || BelowOnly(edges, settled, n);
    }
  }

  /** The edges and what they were matched to have the same ends. */
  ghost predicate Sided(edges: seq<NormalizedEdge>, matched: seq<MatchedEdge>) {
    |matched| == |edges| && forall i :: 0 <= i < |edges| ==>
      {matched[i].childRef, matched[i].parentRef} == {edges[i].leftRef, edges[i].rightRef} && edges[i].leftRef != edges[i].rightRef
  }

  lemma LinkIsEdge(edges: seq<NormalizedEdge>, matched: seq<MatchedEdge>, p: string, n: string) returns (i: nat)
    requires Sided(edges, matched) && Joined(Links(BoundMatched(matched)), p, n)
    ensures i < |edges| && ((edges[i].leftRef == p && edges[i].rightRef == n) || (edges[i].leftRef == n && edges[i].rightRef == p))
  {
    var links := Links(BoundMatched(matched));
    var bound :| Step(links, p, n, bound);
    var l :| l in links && ((l.a == p && l.b == n && l.ab == bound) || (l.b == p && l.a == n && l.ba == bound));
    i :| 0 <= i < |links| && links[i] == l;
    SameTwo(matched[i].childRef, matched[i].parentRef, edges[i].leftRef, edges[i].rightRef);
  }

  lemma {:induction false} WalkStaysIn(edges: seq<NormalizedEdge>, matched: seq<MatchedEdge>, settled: set<string>, names: set<string>, w: seq<string>, t: nat)
    requires OneAbove(edges) && Done(edges, settled, names) && Sided(edges, matched)
    requires forall i :: 0 <= i < |edges| ==> edges[i].leftRef in names && edges[i].rightRef in names
    requires Walk(Links(BoundMatched(matched)), w) && w[0] in settled && t < |w|
    ensures w[t] in settled
  {
    if t > 0 {
      WalkStaysIn(edges, matched, settled, names, w, t - 1);
      assert Joined(Links(BoundMatched(matched)), w[t - 1], w[t - 1 + 1]);
      var i := LinkIsEdge(edges, matched, w[t - 1], w[t]);
      NothingLeadsOut(edges, settled, names, i, w[t - 1], w[t]);
    }
  }

  /** Where walks from the grain lead to every instance and none is left joined to two others, the grain settles all. */
  lemma ReachedIsSettled(edges: seq<NormalizedEdge>, matched: seq<MatchedEdge>, grain: string, names: set<string>)
    requires OneAbove(edges) && Sided(edges, matched) && grain in names && !Optional(edges, grain)
    requires forall i :: 0 <= i < |edges| ==> edges[i].leftRef in names && edges[i].rightRef in names
    requires forall n :: n in names ==> Reached(Links(BoundMatched(matched)), grain, n)
    ensures AllSettled(edges, grain, names)
  {
    var order := SettleAll(edges, grain, names);
    forall p, n | Below(edges, p, n) ensures p in names {
      var i: nat :| FillsIn(edges, i, n) && edges[i].leftRef == p;
    }
    ClosedIsUpClosed(edges, grain, order, names);
    forall n | n in names ensures n in Elements(order) {
      var w :| Walk(Links(BoundMatched(matched)), w) && w[0] == grain && w[|w| - 1] == n;
      assert order[0] in Elements(order);
      WalkStaysIn(edges, matched, Elements(order), names, w, |w| - 1);
    }
    assert Elements(order) == names;
  }

  // ---------------------------------------------------------------- in a tree

  /** Whatever follows stands beside something settled. */
  lemma FollowsNear(edges: seq<NormalizedEdge>, settled: set<string>, n: string) returns (i: nat, p: string)
    requires Follows(edges, settled, n)
    ensures i < |edges| && p in settled
    ensures (edges[i].leftRef == p && edges[i].rightRef == n) || (edges[i].leftRef == n && edges[i].rightRef == p)
  {
    if BesideSome(edges, settled, n) {
      i, p := BesideAt(edges, settled, n);
    } else if AboveSome(edges, settled, n) {
      p :| p in settled && AlwaysThere(edges, p) && Below(edges, n, p);
      i :| FillsIn(edges, i, p) && edges[i].leftRef == n;
    } else {
      if BelowOnly(edges, settled, n) { p := SomethingAbove(edges, settled, n); } else { p :| p in settled && Below(edges, p, n); }
      i :| FillsIn(edges, i, n) && edges[i].leftRef == p;
    }
  }

  lemma TreadOn(edges: seq<NormalizedEdge>, matched: seq<MatchedEdge>, grain: string, settled: set<string>, n: string)
    requires Sided(edges, matched) && Follows(edges, settled, n) && n !in settled && Trodden(Links(BoundMatched(matched)), grain, settled)
    ensures Trodden(Links(BoundMatched(matched)), grain, settled + {n})
  {
    var links := Links(BoundMatched(matched));
    var i, p := FollowsNear(edges, settled, n);
    SameTwo(matched[i].childRef, matched[i].parentRef, edges[i].leftRef, edges[i].rightRef);
    assert links[i] in links;
    TroddenMore(links, grain, settled, p, n, links[i]);
  }

  lemma {:induction false} OrderIsTrodden(edges: seq<NormalizedEdge>, matched: seq<MatchedEdge>, grain: string, order: seq<string>)
    requires Sided(edges, matched) && Settles(edges, grain, order)
    ensures Trodden(Links(BoundMatched(matched)), grain, Elements(order))
    decreases |order|
  {
    if |order| == 1 {
      StartTrodden(Links(BoundMatched(matched)), grain);
      assert Elements(order) == {grain};
    } else {
      SettlesShorter(edges, grain, order);
      LastElement(order);
      OrderIsTrodden(edges, matched, grain, order[..|order| - 1]);
      TreadOn(edges, matched, grain, Elements(order[..|order| - 1]), order[|order| - 1]);
    }
  }

  /** In a rooted tree a walk from the root enters each instance through its parent. */
  lemma {:induction false} EntersByParent(nodes: set<string>, links: seq<Link>, grain: string, parents: map<string, string>, w: seq<string>, t: nat)
    requires RootedBy(nodes, links, grain, parents) && Walk(links, w) && w[0] == grain && 0 < t < |w|
    ensures w[t] in parents && parents[w[t]] == w[t - 1]
  {
    assert Joined(links, w[t - 1], w[t - 1 + 1]);
    var bound :| Step(links, w[t - 1], w[t], bound);
    var l :| l in links && ((l.a == w[t - 1] && l.b == w[t] && l.ab == bound) || (l.b == w[t - 1] && l.a == w[t] && l.ba == bound));
    if t > 1 {
      EntersByParent(nodes, links, grain, parents, w, t - 1);
      assert w[t - 2] != w[t - 2 + 2];
    }
  }

  /** Of two instances that `n` is left joined to, one is reached only through `n`. */
  lemma NotBefore(edges: seq<NormalizedEdge>, matched: seq<MatchedEdge>, grain: string, nodes: set<string>, parents: map<string, string>,
                  settled: set<string>, p: string, n: string)
    requires Sided(edges, matched) && RootedBy(nodes, Links(BoundMatched(matched)), grain, parents)
    requires Trodden(Links(BoundMatched(matched)), grain, settled) && n !in settled
    requires Below(edges, p, n) && !(n in parents && parents[n] == p)
    ensures p !in settled
  {
    var links := Links(BoundMatched(matched));
    var i: nat :| FillsIn(edges, i, n) && edges[i].leftRef == p;
    SameTwo(matched[i].childRef, matched[i].parentRef, edges[i].leftRef, edges[i].rightRef);
    assert links[i] in links;
    assert p in parents && parents[p] == n;
    if p in settled {
      var w :| Walk(links, w) && w[0] == grain && w[|w| - 1] == p && Elements(w) <= settled;
      EntersByParent(nodes, links, grain, parents, w, |w| - 1);
    }
  }

  lemma {:induction false} MetIsUnsettled(edges: seq<NormalizedEdge>, matched: seq<MatchedEdge>, grain: string, nodes: set<string>,
                                          parents: map<string, string>, order: seq<string>, p: string, q: string, n: string)
    requires Sided(edges, matched) && RootedBy(nodes, Links(BoundMatched(matched)), grain, parents) && Settles(edges, grain, order)
    requires Below(edges, p, n) && Below(edges, q, n) && !AlwaysThere(edges, n) && p != q && n != grain
    ensures n !in Elements(order)
    decreases |order|
  {
    if |order| > 1 {
      var before, last := Elements(order[..|order| - 1]), order[|order| - 1];
      SettlesShorter(edges, grain, order);
      LastElement(order);
      MetIsUnsettled(edges, matched, grain, nodes, parents, order[..|order| - 1], p, q, n);
      if last == n {
        OrderIsTrodden(edges, matched, grain, order[..|order| - 1]);
        FollowsBelow(edges, before, n);
        var r := if n in parents && parents[n] == p then q else p;
        NotBefore(edges, matched, grain, nodes, parents, before, r, n);
      }
    }
  }

  /** Where the joins form a tree the grain settles every instance exactly when no optional one is left joined to two others. */
  lemma TreeSettlesExactly(edges: seq<NormalizedEdge>, matched: seq<MatchedEdge>, grain: string, names: set<string>)
    requires Sided(edges, matched) && grain in names && !Optional(edges, grain)
    requires forall i :: 0 <= i < |edges| ==> edges[i].leftRef in names && edges[i].rightRef in names
    requires SpanningTree(names, Links(BoundMatched(matched)))
    ensures AllSettled(edges, grain, names) <==> OneAbove(edges)
  {
    var links := Links(BoundMatched(matched));
    if OneAbove(edges) {
      forall n | n in names ensures Reached(links, grain, n) { TreeIsReached(names, links, grain, n); }
      ReachedIsSettled(edges, matched, grain, names);
    } else {
      var n, p, q :| Below(edges, p, n) && Below(edges, q, n) && !AlwaysThere(edges, n) && p != q;
      var parents := TreeIsRooted(names, links, grain);
      var i: nat :| FillsIn(edges, i, n) && edges[i].leftRef == p;
      forall order | Settles(edges, grain, order) ensures Elements(order) != names {
        MetIsUnsettled(edges, matched, grain, names, parents, order, p, q, n);
      }
    }
  }

  lemma TreeIsReached(nodes: set<string>, links: seq<Link>, grain: string, n: string)
    requires SpanningTree(nodes, links) && grain in nodes && n in nodes
    ensures Reached(links, grain, n)
  {
    var start, order :| Grown(start, order) && Nodes(start, order) == nodes && multiset(order) == multiset(links);
    forall l | l in order ensures l in links { assert l in multiset(links); }
    var w := WalkTo(start, order, grain, n);
    WalksMonotone(order, links, w);
  }

  lemma ProofIsReadable(q: Request, planned: seq<Authorized>, plan: JoinProof, p: JoinProof, graph: NormalizedGraph,
                        current: seq<Authorized>, db: Database, m: map<string, string>, grain: string)
    requires Plan(q, planned) == Ok(plan) && Offered(plan, p) && IdsIdentify(planned, current) && AllMeasuredOn(db, current)
    requires Accepted(graph, current, p, m, grain) && AllCovered(graph.edges, current)
    ensures Readable(db, EntityMap(graph.entityRefs), graph.edges, AllMatched(graph.edges, current)) && Sided(graph.edges, AllMatched(graph.edges, current))
  {
    var entities, matched := EntityMap(graph.entityRefs), AllMatched(graph.edges, current);
    AcceptedTyped(q, planned, plan, p, graph, current, m);
    AcceptedMeasured(graph.edges, current, db);
    AllMatchedFacts(graph.edges, current);
    forall i | 0 <= i < |graph.edges| ensures ReadableEdge(db, entities, graph.edges[i], matched[i]) {
      MatchedSides(graph.edges, current, i);
      assert Typed(entities, BoundMatched(matched)[i]) && MeasuredOn(db, BoundMatched(matched)[i].relationship);
      assert BoundMatched(matched)[i] == Bound(matched[i]);
    }
  }

  lemma ProofReaches(q: Request, planned: seq<Authorized>, plan: JoinProof, p: JoinProof, graph: NormalizedGraph,
                     current: seq<Authorized>, db: Database, m: map<string, string>, grain: string)
    requires Plan(q, planned) == Ok(plan) && Offered(plan, p) && IdsIdentify(planned, current) && AllMeasuredOn(db, current)
    requires Accepted(graph, current, p, m, grain)
    ensures grain in EntityMap(graph.entityRefs)
    ensures forall n :: n in EntityMap(graph.entityRefs) ==> Reached(Links(BoundMatched(AllMatched(graph.edges, current))), grain, n)
  {
    AcceptedEdges(q, planned, plan, p, graph, current, db, m, grain);
    forall n | n in EntityMap(graph.entityRefs) ensures Reached(Links(BoundMatched(AllMatched(graph.edges, current))), grain, n) {
      TreeIsReached(EntityMap(graph.entityRefs).Keys, Links(BoundMatched(AllMatched(graph.edges, current))), grain, n);
    }
  }

  /** Some instance stands for `target` of the proof, is in every row of the result, and its rows are never repeated. */
  ghost predicate ResultKept(db: Database, graph: NormalizedGraph, current: seq<Authorized>, p: JoinProof, target: string) {
    exists m, k ::
      && Binds(graph.entityRefs, AllMatched(graph.edges, current), p, m)
      && k in m && m[k] == target && NeverRepeatsResult(db, graph, k)
      && forall row :: ResultRow(db, EntityMap(graph.entityRefs), graph.edges, row) ==> k in row
  }

  lemma BoundKeepsResult(q: Request, planned: seq<Authorized>, plan: JoinProof, p: JoinProof, graph: NormalizedGraph,
                         current: seq<Authorized>, db: Database, m: map<string, string>, grain: string)
    requires Plan(q, planned) == Ok(plan) && Offered(plan, p) && IdsIdentify(planned, current) && AllMeasuredOn(db, current)
    requires Accepted(graph, current, p, m, grain) && AllCovered(graph.edges, current) && OneAbove(graph.edges)
    requires GrainOk(grain, AllMatched(graph.edges, current))
    ensures NeverRepeatsResult(db, graph, grain)
    ensures forall row :: ResultRow(db, EntityMap(graph.entityRefs), graph.edges, row) ==> grain in row
  {
    var entities, matched := EntityMap(graph.entityRefs), AllMatched(graph.edges, current);
    ProofIsReadable(q, planned, plan, p, graph, current, db, m, grain);
    ProofReaches(q, planned, plan, p, graph, current, db, m, grain);
    RefusedExactly(graph.edges, current, grain);
    forall i | 0 <= i < |graph.edges| ensures graph.edges[i].leftRef in entities && graph.edges[i].rightRef in entities { NamesAreRefs(graph, i); }
    ReachedIsSettled(graph.edges, matched, grain, entities.Keys);
    SettingKeepsResult(db, graph, matched, grain);
    forall row | ResultRow(db, entities, graph.edges, row) ensures grain in row {
      AcceptedIsThere(db, entities, graph.edges, current, grain, row);
    }
  }

  /** What passes against a planner's proof keeps its grain, left joins included, when no optional instance is left
      joined to two others: the wanted instance is in every row of the result, and no two show the same row of it. */
  lemma PassedKeepsResult(q: Request, planned: seq<Authorized>, plan: JoinProof, p: JoinProof, graph: NormalizedGraph,
                          current: seq<Authorized>, db: Database, expectedGrainRef: Option<string>, definitions: seq<EntityDefinition>)
    requires FromPlan(q, planned, plan, p, current) && AllMeasuredOn(db, current) && WellFormedGraph(graph)
    requires AllCovered(graph.edges, current) && OneAbove(graph.edges)
    requires expectedGrainRef.Some? ==> expectedGrainRef.value in RefNames(p.entityRefs)
    requires PassedUnder(graph, current, p, definitions, expectedGrainRef)
    ensures ResultKept(db, graph, current, p, Target(p, expectedGrainRef))
  {
    TargetIsRef(q, planned, plan, p, expectedGrainRef);
    var m :| Binds(graph.entityRefs, AllMatched(graph.edges, current), p, m)
      && GrainAcceptedFor(graph.entityRefs, AllMatched(graph.edges, current), definitions, Some(p), Some(m), expectedGrainRef);
    var k := TargetIsBound(graph, AllMatched(graph.edges, current), p, m, Target(p, expectedGrainRef));
    assert ExpectedAt(graph.entityRefs, Some(p), Some(m), expectedGrainRef, k);
    assert GrainAccepted(graph.entityRefs, AllMatched(graph.edges, current), definitions, k);
    BoundKeepsResult(q, planned, plan, p, graph, current, db, m, k);
  }
}
