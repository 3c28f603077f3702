/** Left joins and the grain: which instances a row of the grain settles. */
module LeftGrain {
  import opened Domain
  import opened Relational
  import opened Evidence
  import opened Bijections
  import opened GrainWalk
  import opened JoinSafety
  import opened SqlGraph
  import opened SqlMatching
  import opened SqlValidation
  import opened SqlSafety
  import opened LeftJoins

  // ---------------------------------------------------------------- what follows from what

  /** Another condition than a left join's has `n` and `p` at its ends. */
  ghost predicate Beside(edges: seq<NormalizedEdge>, p: string, n: string) {
    exists i :: 0 <= i < |edges| && edges[i].kind != LeftOuter
      && ((edges[i].leftRef == p && edges[i].rightRef == n) || (edges[i].leftRef == n && edges[i].rightRef == p))
  }

  ghost predicate BesideSome(edges: seq<NormalizedEdge>, settled: set<string>, n: string) {
    exists p :: p in settled && Beside(edges, p, n)
  }

  ghost predicate BelowSome(edges: seq<NormalizedEdge>, settled: set<string>, n: string) {
    exists p :: p in settled && Below(edges, p, n)
  }

  ghost predicate BelowOnly(edges: seq<NormalizedEdge>, settled: set<string>, n: string) {
    Optional(edges, n) && forall p :: Below(edges, p, n) ==> p in settled
  }

  ghost predicate AboveSome(edges: seq<NormalizedEdge>, settled: set<string>, n: string) {
    exists m :: m in settled && AlwaysThere(edges, m) && Below(edges, n, m)
  }

  /** Settled instances settle `n`: an inner condition ties it to one; or everything it is left joined to is
      settled, or, when it is always there, something is; or it is what an instance that is always there is left joined to. */
  ghost predicate Follows(edges: seq<NormalizedEdge>, settled: set<string>, n: string) {
    || BesideSome(edges, settled, n)
    || BelowOnly(edges, settled, n)
    || (AlwaysThere(edges, n) && BelowSome(edges, settled, n))
    || AboveSome(edges, settled, n)
  }

  /** Starting from the grain each instance follows from those before it. */
  ghost predicate Settles(edges: seq<NormalizedEdge>, grain: string, order: seq<string>) {
    && order != [] && order[0] == grain && Distinct(order)
    && forall t :: 0 < t < |order| ==> Follows(edges, Elements(order[..t]), order[t])
  }

  /** The grain settles every instance. */
  ghost predicate AllSettled(edges: seq<NormalizedEdge>, grain: string, names: set<string>) {
    exists order :: Settles(edges, grain, order) && Elements(order) == names
  }

  // ---------------------------------------------------------------- rows agree where they are settled

  /** The matched edges, read on this database: typed, measured, and implying their relationships. */
  ghost predicate Readable(db: Database, entities: map<string, string>, edges: seq<NormalizedEdge>, matched: seq<MatchedEdge>) {
    |matched| == |edges| && forall i :: 0 <= i < |edges| ==> ReadableEdge(db, entities, edges[i], matched[i])
  }

  ghost predicate ReadableEdge(db: Database, entities: map<string, string>, e: NormalizedEdge, m: MatchedEdge) {
    && m.normalized == e && e.leftRef != e.rightRef && {m.childRef, m.parentRef} == {e.leftRef, e.rightRef}
    && Covers(m) && Typed(entities, Bound(m)) && MeasuredOn(db, m.relationship)
  }

  function Bound(m: MatchedEdge): BoundEdge { BoundEdge(m.relationship, m.childRef, m.parentRef) }

  ghost predicate Agree(x: map<string, nat>, y: map<string, nat>, n: string) {
    (n in x <==> n in y) && (n in x && n in y ==> x[n] == y[n])
  }

  /** Walks inside these instances lead from the grain to each of them. */
  ghost predicate Trodden(links: seq<Link>, grain: string, settled: set<string>) {
    forall p :: p in settled ==> exists w :: Walk(links, w) && w[0] == grain && w[|w| - 1] == p && Elements(w) <= settled
  }

  /** `l` joins `p` and `n`, and a row of `p` meets at most one of `n`. */
  ghost predicate Single(l: Link, p: string, n: string) {
    (l.a == p && l.b == n && l.ab <= 1) || (l.b == p && l.a == n && l.ba <= 1)
  }

  lemma TroddenMore(links: seq<Link>, grain: string, settled: set<string>, p: string, n: string, l: Link)
    requires Trodden(links, grain, settled) && p in settled && n !in settled && l in links
    requires (l.a == p && l.b == n) || (l.b == p && l.a == n)
    ensures Trodden(links, grain, settled + {n})
  {
    var w :| Walk(links, w) && w[0] == grain && w[|w| - 1] == p && Elements(w) <= settled;
    WalkOut(links, settled, w, n, if l.a == p && l.b == n then l.ab else l.ba, l);
    forall q | q in settled + {n} ensures exists v :: Walk(links, v) && v[0] == grain && v[|v| - 1] == q && Elements(v) <= settled + {n} {
      if q != n {
        var v :| Walk(links, v) && v[0] == grain && v[|v| - 1] == q && Elements(v) <= settled;
      }
    }
  }

  lemma StepOut(links: seq<Link>, grain: string, settled: set<string>, p: string, n: string, l: Link)
    requires Trodden(links, grain, settled) && p in settled && n !in settled && l in links
    requires (l.a == p && l.b == n) || (l.b == p && l.a == n)
    requires NeverFansOut(grain, links)
    ensures Single(l, p, n)
  {
    var w :| Walk(links, w) && w[0] == grain && w[|w| - 1] == p && Elements(w) <= settled;
    var bound := if l.a == p && l.b == n then l.ab else l.ba;
    WalkOut(links, settled, w, n, bound, l);
    assert EndsWith(links, grain, w + [n], bound);
  }

  lemma WalkOut(links: seq<Link>, settled: set<string>, w: seq<string>, n: string, bound: int, l: Link)
    requires Walk(links, w) && Elements(w) <= settled && n !in settled && l in links
    requires (l.a == w[|w| - 1] && l.b == n && l.ab == bound) || (l.b == w[|w| - 1] && l.a == n && l.ba == bound)
    ensures Walk(links, w + [n]) && Step(links, w[|w| - 1], n, bound) && (w + [n])[|w|] == n && Elements(w + [n]) <= settled + {n}
  {
    var v := w + [n];
    assert Step(links, w[|w| - 1], n, bound);
    forall k | 0 <= k < |v| - 1 ensures Joined(links, v[k], v[k + 1]) {
      if k < |w| - 1 { assert Joined(links, w[k], w[k + 1]); }
    }
    forall k | 0 <= k < |v| - 2 ensures v[k] != v[k + 2] {
      if k < |w| - 2 { assert w[k] != w[k + 2]; } else { assert w[k] in Elements(w); }
    }
  }

  lemma EdgeRespected(db: Database, entities: map<string, string>, e: NormalizedEdge, m: MatchedEdge, x: map<string, nat>, y: map<string, nat>)
    requires ReadableEdge(db, entities, e, m) && SqlEdgeHolds(db, entities, e, x) && SqlEdgeHolds(db, entities, e, y)
    ensures Respected(LinkOf(Bound(m)), x, y)
  {
    CoveringEdgeHolds(db, entities, m, x);
    CoveringEdgeHolds(db, entities, m, y);
    BoundsAreRowFacts(db, m.relationship);
  }

  lemma EdgeEnds(e: NormalizedEdge, m: MatchedEdge, p: string, n: string)
    requires {m.childRef, m.parentRef} == {e.leftRef, e.rightRef} && p != n
    requires (e.leftRef == p && e.rightRef == n) || (e.leftRef == n && e.rightRef == p)
    ensures var l := LinkOf(Bound(m)); (l.a == p && l.b == n) || (l.b == p && l.a == n)
  {
    assert m.childRef in {p, n} && m.parentRef in {p, n} && p in {m.childRef, m.parentRef} && n in {m.childRef, m.parentRef};
  }

  ghost predicate Agreeing(settled: set<string>, x: map<string, nat>, y: map<string, nat>) {
    forall p :: p in settled ==> Agree(x, y, p)
  }

  ghost predicate Setting(db: Database, entities: map<string, string>, edges: seq<NormalizedEdge>, matched: seq<MatchedEdge>, grain: string) {
    Readable(db, entities, edges, matched) && NeverFansOut(grain, Links(BoundMatched(matched)))
  }

  /** Along one edge, true of both rows, agreement passes from a settled end to the other. */
  lemma CrossAgrees(db: Database, entities: map<string, string>, edges: seq<NormalizedEdge>, matched: seq<MatchedEdge>, grain: string,
                    settled: set<string>, i: nat, p: string, n: string, x: map<string, nat>, y: map<string, nat>)
    requires Setting(db, entities, edges, matched, grain) && Trodden(Links(BoundMatched(matched)), grain, settled)
    requires Agreeing(settled, x, y) && p in settled && n !in settled && i < |edges|
    requires (edges[i].leftRef == p && edges[i].rightRef == n) || (edges[i].leftRef == n && edges[i].rightRef == p)
    requires SqlEdgeHolds(db, entities, edges[i], x) && SqlEdgeHolds(db, entities, edges[i], y)
    ensures Agree(x, y, n)
  {
    var links := Links(BoundMatched(matched));
    assert ReadableEdge(db, entities, edges[i], matched[i]);
    EdgeEnds(edges[i], matched[i], p, n);
    assert links[i] == LinkOf(Bound(matched[i]));
    StepOut(links, grain, settled, p, n, links[i]);
    EdgeRespected(db, entities, edges[i], matched[i], x, y);
    assert Agree(x, y, p);
  }

  /** Any edge between a settled instance and `n` leaves `n` within reach. */
  lemma StillTrodden(db: Database, entities: map<string, string>, edges: seq<NormalizedEdge>, matched: seq<MatchedEdge>, grain: string,
                     settled: set<string>, i: nat, p: string, n: string)
    requires Setting(db, entities, edges, matched, grain) && Trodden(Links(BoundMatched(matched)), grain, settled)
    requires p in settled && n !in settled && i < |edges|
    requires (edges[i].leftRef == p && edges[i].rightRef == n) || (edges[i].leftRef == n && edges[i].rightRef == p)
    ensures Trodden(Links(BoundMatched(matched)), grain, settled + {n})
  {
    var links := Links(BoundMatched(matched));
    assert ReadableEdge(db, entities, edges[i], matched[i]);
    EdgeEnds(edges[i], matched[i], p, n);
    assert links[i] == LinkOf(Bound(matched[i]));
    TroddenMore(links, grain, settled, p, n, links[i]);
  }

  lemma BesideAt(edges: seq<NormalizedEdge>, settled: set<string>, n: string) returns (i: nat, p: string)
    requires BesideSome(edges, settled, n)
    ensures p in settled && i < |edges| && edges[i].kind != LeftOuter
    ensures (edges[i].leftRef == p && edges[i].rightRef == n) || (edges[i].leftRef == n && edges[i].rightRef == p)
  {
    p :| p in settled && Beside(edges, p, n);
    i :| 0 <= i < |edges| && edges[i].kind != LeftOuter
      && ((edges[i].leftRef == p && edges[i].rightRef == n) || (edges[i].leftRef == n && edges[i].rightRef == p));
  }

  lemma OtherHolds(db: Database, entities: map<string, string>, edges: seq<NormalizedEdge>, i: nat, row: map<string, nat>)
    requires ResultRow(db, entities, edges, row) && i < |edges| && edges[i].kind != LeftOuter
    ensures SqlEdgeHolds(db, entities, edges[i], row)
  {
  }

  lemma BesideAgrees(db: Database, entities: map<string, string>, edges: seq<NormalizedEdge>, matched: seq<MatchedEdge>, grain: string,
                     settled: set<string>, n: string, x: map<string, nat>, y: map<string, nat>)
    requires Setting(db, entities, edges, matched, grain) && Trodden(Links(BoundMatched(matched)), grain, settled)
    requires Agreeing(settled, x, y) && n !in settled && BesideSome(edges, settled, n)
    requires ResultRow(db, entities, edges, x) && ResultRow(db, entities, edges, y)
    ensures Agree(x, y, n) && Trodden(Links(BoundMatched(matched)), grain, settled + {n})
  {
    var i, p := BesideAt(edges, settled, n);
    OtherHolds(db, entities, edges, i, x);
    OtherHolds(db, entities, edges, i, y);
    CrossAgrees(db, entities, edges, matched, grain, settled, i, p, n, x, y);
    StillTrodden(db, entities, edges, matched, grain, settled, i, p, n);
  }

  /** Where everything `n` is left joined to is settled, a row that has `n` shows that the other could have it. */
  lemma BelowOnlyPresent(db: Database, entities: map<string, string>, edges: seq<NormalizedEdge>, settled: set<string>, n: string,
                         x: map<string, nat>, y: map<string, nat>)
    requires Agreeing(settled, x, y) && n !in settled && n in entities && BelowOnly(edges, settled, n)
    requires ResultRow(db, entities, edges, x) && ResultRow(db, entities, edges, y) && n in x
    ensures n in y
  {
    if n !in y {
      assert Unfilled(db, entities, edges, n, y);
      forall i: nat | FillsIn(edges, i, n) ensures SqlEdgeHolds(db, entities, edges[i], y[n := x[n]]) {
        assert JoinedOn(db, entities, edges, n, x);
        assert SqlEdgeHolds(db, entities, edges[i], x);
        assert Below(edges, edges[i].leftRef, n);
        assert Agree(x, y, edges[i].leftRef);
      }
      assert WouldDo(db, entities, edges, n, y, x[n]);
    }
  }

  lemma BelowAgrees(db: Database, entities: map<string, string>, edges: seq<NormalizedEdge>, matched: seq<MatchedEdge>, grain: string,
                    settled: set<string>, p: string, n: string, x: map<string, nat>, y: map<string, nat>)
    requires Setting(db, entities, edges, matched, grain) && Trodden(Links(BoundMatched(matched)), grain, settled)
    requires Agreeing(settled, x, y) && p in settled && n !in settled && Below(edges, p, n)
    requires ResultRow(db, entities, edges, x) && ResultRow(db, entities, edges, y) && (n in x <==> n in y)
    ensures Agree(x, y, n) && Trodden(Links(BoundMatched(matched)), grain, settled + {n})
  {
    var i: nat :| FillsIn(edges, i, n) && edges[i].leftRef == p;
    if n in x {
      assert JoinedOn(db, entities, edges, n, x) && JoinedOn(db, entities, edges, n, y);
      CrossAgrees(db, entities, edges, matched, grain, settled, i, p, n, x, y);
    }
    StillTrodden(db, entities, edges, matched, grain, settled, i, p, n);
  }

  lemma AboveAgrees(db: Database, entities: map<string, string>, edges: seq<NormalizedEdge>, matched: seq<MatchedEdge>, grain: string,
                    settled: set<string>, n: string, x: map<string, nat>, y: map<string, nat>)
    requires Setting(db, entities, edges, matched, grain) && Trodden(Links(BoundMatched(matched)), grain, settled) && settled <= entities.Keys
    requires Agreeing(settled, x, y) && n !in settled && AboveSome(edges, settled, n)
    requires ResultRow(db, entities, edges, x) && ResultRow(db, entities, edges, y)
    ensures Agree(x, y, n) && Trodden(Links(BoundMatched(matched)), grain, settled + {n})
  {
    var m :| m in settled && AlwaysThere(edges, m) && Below(edges, n, m);
    var i: nat :| FillsIn(edges, i, m) && edges[i].leftRef == n;
    AlwaysThereIsThere(db, entities, edges, m, x);
    AlwaysThereIsThere(db, entities, edges, m, y);
    assert JoinedOn(db, entities, edges, m, x) && JoinedOn(db, entities, edges, m, y);
    CrossAgrees(db, entities, edges, matched, grain, settled, i, m, n, x, y);
    StillTrodden(db, entities, edges, matched, grain, settled, i, m, n);
  }

  lemma SomethingAbove(edges: seq<NormalizedEdge>, settled: set<string>, n: string) returns (p: string)
    requires BelowOnly(edges, settled, n)
    ensures p in settled && Below(edges, p, n)
  {
    var i: nat :| FillsIn(edges, i, n);
    p := edges[i].leftRef;
    assert Below(edges, p, n);
  }

  lemma BelowOnlyBoth(db: Database, entities: map<string, string>, edges: seq<NormalizedEdge>, settled: set<string>, n: string,
                      x: map<string, nat>, y: map<string, nat>)
    requires Agreeing(settled, x, y) && n !in settled && n in entities && BelowOnly(edges, settled, n)
    requires ResultRow(db, entities, edges, x) && ResultRow(db, entities, edges, y)
    ensures n in x <==> n in y
  {
    if n in x { BelowOnlyPresent(db, entities, edges, settled, n, x, y); }
    if n in y { BelowOnlyPresent(db, entities, edges, settled, n, y, x); }
  }

  lemma BelowOnlyAgrees(db: Database, entities: map<string, string>, edges: seq<NormalizedEdge>, matched: seq<MatchedEdge>, grain: string,
                        settled: set<string>, n: string, x: map<string, nat>, y: map<string, nat>)
    requires Setting(db, entities, edges, matched, grain) && Trodden(Links(BoundMatched(matched)), grain, settled)
    requires Agreeing(settled, x, y) && n !in settled && n in entities && BelowOnly(edges, settled, n)
    requires ResultRow(db, entities, edges, x) && ResultRow(db, entities, edges, y)
    ensures Agree(x, y, n) && Trodden(Links(BoundMatched(matched)), grain, settled + {n})
  {
    BelowOnlyBoth(db, entities, edges, settled, n, x, y);
    var p := SomethingAbove(edges, settled, n);
    BelowAgrees(db, entities, edges, matched, grain, settled, p, n, x, y);
  }

  lemma ThereAgrees(db: Database, entities: map<string, string>, edges: seq<NormalizedEdge>, matched: seq<MatchedEdge>, grain: string,
                    settled: set<string>, n: string, x: map<string, nat>, y: map<string, nat>)
    requires Setting(db, entities, edges, matched, grain) && Trodden(Links(BoundMatched(matched)), grain, settled)
    requires Agreeing(settled, x, y) && n !in settled && n in entities && AlwaysThere(edges, n) && BelowSome(edges, settled, n)
    requires ResultRow(db, entities, edges, x) && ResultRow(db, entities, edges, y)
    ensures Agree(x, y, n) && Trodden(Links(BoundMatched(matched)), grain, settled + {n})
  {
    AlwaysThereIsThere(db, entities, edges, n, x);
    AlwaysThereIsThere(db, entities, edges, n, y);
    var p :| p in settled && Below(edges, p, n);
    BelowAgrees(db, entities, edges, matched, grain, settled, p, n, x, y);
  }

  lemma FollowsAgrees(db: Database, entities: map<string, string>, edges: seq<NormalizedEdge>, matched: seq<MatchedEdge>, grain: string,
                      settled: set<string>, n: string, x: map<string, nat>, y: map<string, nat>)
    requires Setting(db, entities, edges, matched, grain) && Trodden(Links(BoundMatched(matched)), grain, settled) && settled <= entities.Keys
    requires Agreeing(settled, x, y) && n !in settled && n in entities && Follows(edges, settled, n)
    requires ResultRow(db, entities, edges, x) && ResultRow(db, entities, edges, y)
    ensures Agree(x, y, n) && Trodden(Links(BoundMatched(matched)), grain, settled + {n})
  {
    if BesideSome(edges, settled, n) {
      BesideAgrees(db, entities, edges, matched, grain, settled, n, x, y);
    } else if BelowOnly(edges, settled, n) {
      BelowOnlyAgrees(db, entities, edges, matched, grain, settled, n, x, y);
    } else if AboveSome(edges, settled, n) {
      AboveAgrees(db, entities, edges, matched, grain, settled, n, x, y);
    } else {
      ThereAgrees(db, entities, edges, matched, grain, settled, n, x, y);
    }
  }

  lemma SettlesShorter(edges: seq<NormalizedEdge>, grain: string, order: seq<string>)
    requires Settles(edges, grain, order) && |order| > 1
    ensures Settles(edges, grain, order[..|order| - 1])
    ensures Follows(edges, Elements(order[..|order| - 1]), order[|order| - 1])
  {
    var n := |order| - 1;
    forall t | 0 < t < n ensures Follows(edges, Elements(order[..n][..t]), order[..n][t]) {
      assert order[..n][..t] == order[..t];
    }
  }

  lemma LastElement(order: seq<string>)
    requires Distinct(order) && order != []
    ensures Elements(order) == Elements(order[..|order| - 1]) + {order[|order| - 1]}
    ensures order[|order| - 1] !in Elements(order[..|order| - 1])
  {
    var n := |order| - 1;
    assert order == order[..n] + [order[n]];
  }

  lemma StartTrodden(links: seq<Link>, grain: string)
    ensures Trodden(links, grain, {grain})
  {
    assert Walk(links, [grain]) && Elements([grain]) == {grain} && [grain][0] == grain;
  }

  lemma StartSettled(links: seq<Link>, order: seq<string>, x: map<string, nat>, y: map<string, nat>)
    requires |order| == 1 && Agree(x, y, order[0])
    ensures Agreeing(Elements(order), x, y) && Trodden(links, order[0], Elements(order))
  {
    StartTrodden(links, order[0]);
    assert Elements(order) == {order[0]};
  }

  lemma FewerElements(order: seq<string>, names: set<string>)
    requires order != [] && Elements(order) <= names
    ensures Elements(order[..|order| - 1]) <= names
  {
    forall n | n in Elements(order[..|order| - 1]) ensures n in names {
      assert n in Elements(order);
    }
  }

  lemma AgreeingMore(settled: set<string>, n: string, x: map<string, nat>, y: map<string, nat>)
    requires Agreeing(settled, x, y) && Agree(x, y, n)
    ensures Agreeing(settled + {n}, x, y)
  {
  }

  lemma SettleStep(db: Database, entities: map<string, string>, edges: seq<NormalizedEdge>, matched: seq<MatchedEdge>, grain: string,
                   order: seq<string>, x: map<string, nat>, y: map<string, nat>)
    requires Setting(db, entities, edges, matched, grain) && Settles(edges, grain, order) && |order| > 1 && Elements(order) <= entities.Keys
    requires ResultRow(db, entities, edges, x) && ResultRow(db, entities, edges, y)
    requires Agreeing(Elements(order[..|order| - 1]), x, y) && Trodden(Links(BoundMatched(matched)), grain, Elements(order[..|order| - 1]))
    ensures Agreeing(Elements(order), x, y) && Trodden(Links(BoundMatched(matched)), grain, Elements(order))
  {
    var settled, n := Elements(order[..|order| - 1]), order[|order| - 1];
    LastElement(order);
    SettlesShorter(edges, grain, order);
    FollowsAgrees(db, entities, edges, matched, grain, settled, n, x, y);
    AgreeingMore(settled, n, x, y);
  }

  lemma {:induction false} SettledAgree(db: Database, entities: map<string, string>, edges: seq<NormalizedEdge>, matched: seq<MatchedEdge>,
                                        grain: string, order: seq<string>, x: map<string, nat>, y: map<string, nat>)
    requires Setting(db, entities, edges, matched, grain) && Settles(edges, grain, order) && Elements(order) <= entities.Keys
    requires ResultRow(db, entities, edges, x) && ResultRow(db, entities, edges, y) && Agree(x, y, grain)
    ensures Agreeing(Elements(order), x, y) && Trodden(Links(BoundMatched(matched)), grain, Elements(order))
    decreases |order|
  {
    if |order| == 1 {
      StartSettled(Links(BoundMatched(matched)), order, x, y);
    } else {
      SettlesShorter(edges, grain, order);
      FewerElements(order, entities.Keys);
      SettledAgree(db, entities, edges, matched, grain, order[..|order| - 1], x, y);
      SettleStep(db, entities, edges, matched, grain, order, x, y);
    }
  }

  lemma AgreeingIsEqual(names: set<string>, x: map<string, nat>, y: map<string, nat>)
    requires Agreeing(names, x, y) && x.Keys <= names && y.Keys <= names
    ensures x == y
  {
    forall n ensures n in x <==> n in y ensures n in x ==> x[n] == y[n] {
      if n in names { assert Agree(x, y, n); }
    }
  }

  /** Two rows of the result that agree on a grain that settles every instance are equal. */
  lemma SettledRowsAreEqual(db: Database, entities: map<string, string>, edges: seq<NormalizedEdge>, matched: seq<MatchedEdge>,
                            grain: string, order: seq<string>, x: map<string, nat>, y: map<string, nat>)
    requires Setting(db, entities, edges, matched, grain) && Settles(edges, grain, order) && Elements(order) == entities.Keys
    requires ResultRow(db, entities, edges, x) && ResultRow(db, entities, edges, y) && grain in x && grain in y && x[grain] == y[grain]
    ensures x == y
  {
    SettledAgree(db, entities, edges, matched, grain, order, x, y);
    AgreeingIsEqual(entities.Keys, x, y);
  }
}
