/** Walks of every length exist exactly where a ring of three or more instances can be reached. */
module Rings {
  import opened Domain
  import opened GrainWalk
  import opened QueueWalk

  function Next(i: nat, n: nat): nat {
    if i + 1 == n then 0 else i + 1
  }

  /** Three or more different instances, each joined to the next and the last to the first. */
  ghost predicate Ring(links: seq<Link>, ring: seq<string>) {
    && |ring| >= 3
    && (forall i, j :: 0 <= i < j < |ring| ==> ring[i] != ring[j])
    && (forall i :: 0 <= i < |ring| ==> Joined(links, ring[i], ring[Next(i, |ring|)]))
  }

  /** Some walk from `grain` ends on a ring. */
  ghost predicate ReachesRing(links: seq<Link>, grain: string) {
    exists ring, w :: Ring(links, ring) && Walk(links, w) && w[0] == grain && w[|w| - 1] in ring
  }

  ghost predicate NoSelfLinks(links: seq<Link>) {
    forall l :: l in links ==> l.a != l.b
  }

  lemma JoinedBothWays(links: seq<Link>, x: string, y: string)
    requires Joined(links, x, y)
    ensures Joined(links, y, x)
  {
    var bound :| Step(links, x, y, bound);
    var l :| l in links && ((l.a == x && l.b == y && l.ab == bound) || (l.b == x && l.a == y && l.ba == bound));
    assert Step(links, y, x, if l.a == x && l.b == y && l.ab == bound then l.ba else l.ab);
  }

  // ---------------------------------------------------------------- from a ring to long walks

  /** The walk arrives at `ring[i]` from somewhere other than the next instance of the ring. */
  ghost predicate Heads(links: seq<Link>, ring: seq<string>, w: seq<string>, i: nat) {
    && Ring(links, ring) && Walk(links, w) && i < |ring| && w[|w| - 1] == ring[i]
    && (|w| >= 2 ==> w[|w| - 2] != ring[Next(i, |ring|)])
  }

  lemma OneFurther(links: seq<Link>, ring: seq<string>, w: seq<string>, i: nat)
    requires Heads(links, ring, w, i)
    ensures Heads(links, ring, w + [ring[Next(i, |ring|)]], Next(i, |ring|))
  {
    var next := ring[Next(i, |ring|)];
    var s := LastState(w);
    var bound :| Step(links, ring[i], next, bound);
    ExtendWalk(links, w[0], w, s, next, bound);
    assert ring[i] != ring[Next(Next(i, |ring|), |ring|)];
  }

  lemma {:induction false} AroundAgain(links: seq<Link>, ring: seq<string>, w: seq<string>, i: nat, more: nat) returns (v: seq<string>)
    requires Heads(links, ring, w, i)
    ensures Walk(links, v) && |v| == |w| + more && v[0] == w[0]
    decreases more
  {
    if more == 0 {
      v := w;
    } else {
      OneFurther(links, ring, w, i);
      v := AroundAgain(links, ring, w + [ring[Next(i, |ring|)]], Next(i, |ring|), more - 1);
    }
  }

  function Backwards(ring: seq<string>): (r: seq<string>)
    ensures |r| == |ring| && forall i :: 0 <= i < |ring| ==> r[i] == ring[|ring| - 1 - i]
  {
    seq(|ring|, i requires 0 <= i < |ring| => ring[|ring| - 1 - i])
  }

  lemma RingBackwards(links: seq<Link>, ring: seq<string>)
    requires Ring(links, ring)
    ensures Ring(links, Backwards(ring))
  {
    var back, n := Backwards(ring), |ring|;
    forall i | 0 <= i < n ensures Joined(links, back[i], back[Next(i, n)]) {
      var k := n - 1 - Next(i, n);
      assert Next(k, n) == n - 1 - i;
      JoinedBothWays(links, ring[k], ring[Next(k, n)]);
    }
  }

  /** From wherever the walk comes, one way round the ring does not lead back there. */
  lemma SomeWayRound(links: seq<Link>, ring: seq<string>, w: seq<string>, i: nat) returns (round: seq<string>, at: nat)
    requires Ring(links, ring) && Walk(links, w) && i < |ring| && w[|w| - 1] == ring[i]
    ensures Heads(links, round, w, at)
  {
    if |w| >= 2 && w[|w| - 2] == ring[Next(i, |ring|)] {
      RingBackwards(links, ring);
      round, at := Backwards(ring), |ring| - 1 - i;
      assert round[Next(at, |ring|)] != ring[Next(i, |ring|)];
    } else {
      round, at := ring, i;
    }
  }

  lemma WalkPrefix(links: seq<Link>, w: seq<string>, n: nat)
    requires Walk(links, w) && 1 <= n <= |w|
    ensures Walk(links, w[..n])
  {
    var v := w[..n];
    forall k | 0 <= k < n - 1 ensures Joined(links, v[k], v[k + 1]) { assert Joined(links, w[k], w[k + 1]); }
    forall k | 0 <= k < n - 2 ensures v[k] != v[k + 2] { assert w[k] != w[k + 2]; }
  }

  lemma RingIsUnbounded(links: seq<Link>, grain: string, ring: seq<string>, w: seq<string>, steps: nat)
    requires Ring(links, ring) && Walk(links, w) && w[0] == grain && w[|w| - 1] in ring
    ensures CanWalk(links, grain, steps)
  {
    if steps < |w| {
      WalkPrefix(links, w, steps + 1);
      assert WalksOf(links, grain, w[..steps + 1], steps);
    } else {
      var i :| 0 <= i < |ring| && ring[i] == w[|w| - 1];
      var round, at := SomeWayRound(links, ring, w, i);
      var v := AroundAgain(links, round, w, at, steps + 1 - |w|);
      assert WalksOf(links, grain, v, steps);
    }
  }

  // ---------------------------------------------------------------- from a long walk to a ring

  function Everywhere(links: seq<Link>, grain: string): set<string> {
    if links == [] then {grain} else Everywhere(links[1..], grain) + {links[0].a, links[0].b}
  }

  lemma {:induction false} EndsEverywhere(links: seq<Link>, grain: string, l: Link)
    requires l in links
    ensures l.a in Everywhere(links, grain) && l.b in Everywhere(links, grain)
  {
    if l != links[0] {
      EndsEverywhere(links[1..], grain, l);
    }
  }

  lemma {:induction false} GrainEverywhere(links: seq<Link>, grain: string)
    ensures grain in Everywhere(links, grain)
  {
    if links != [] {
      GrainEverywhere(links[1..], grain);
    }
  }

  lemma WalkIsEverywhere(links: seq<Link>, grain: string, w: seq<string>, i: nat)
    requires Walk(links, w) && w[0] == grain && i < |w|
    ensures w[i] in Everywhere(links, grain)
  {
    if i == 0 {
      GrainEverywhere(links, grain);
    } else {
      assert Joined(links, w[i - 1], w[i - 1 + 1]);
      var bound :| Step(links, w[i - 1], w[i], bound);
      var l :| l in links && ((l.a == w[i - 1] && l.b == w[i]) || (l.b == w[i - 1] && l.a == w[i]));
      EndsEverywhere(links, grain, l);
    }
  }

  ghost predicate Different(w: seq<string>) {
    forall i, j :: 0 <= i < j < |w| ==> w[i] != w[j]
  }

  lemma {:induction false} DifferentFit(w: seq<string>, room: set<string>)
    requires Different(w) && forall i :: 0 <= i < |w| ==> w[i] in room
    ensures |w| <= |room|
  {
    if w != [] {
      var n := |w| - 1;
      DifferentFit(w[..n], room - {w[n]});
    }
  }

  /** The first instance that a walk comes back to. */
  lemma {:induction false} FirstReturn(w: seq<string>) returns (i: nat, j: nat)
    requires !Different(w)
    ensures i < j < |w| && w[i] == w[j] && Different(w[..j])
  {
    var n := |w| - 1;
    if Different(w[..n]) {
      forall a, b | 0 <= a < b < n ensures w[a] != w[b] {
        assert w[..n][a] != w[..n][b];
      }
      i, j :| 0 <= i < j < |w| && w[i] == w[j];
    } else {
      i, j := FirstReturn(w[..n]);
      assert w[..n][..j] == w[..j];
    }
  }

  lemma ReturnIsRing(links: seq<Link>, w: seq<string>, i: nat, j: nat)
    requires NoSelfLinks(links) && Walk(links, w) && i < j < |w| && w[i] == w[j] && Different(w[..j])
    ensures Ring(links, w[i..j])
  {
    var ring, n := w[i..j], j - i;
    assert Joined(links, w[i], w[i + 1]);
    var bound :| Step(links, w[i], w[i + 1], bound);
    assert w[i] != w[i + 1];
    assert i + 2 < |w| ==> w[i] != w[i + 2];
    forall k, m | 0 <= k < m < n ensures ring[k] != ring[m] {
      assert w[..j][i + k] != w[..j][i + m];
    }
    forall k | 0 <= k < n ensures Joined(links, ring[k], ring[Next(k, n)]) {
      assert Joined(links, w[i + k], w[i + k + 1]);
    }
  }

  lemma LongWalkRings(links: seq<Link>, grain: string, w: seq<string>)
    requires NoSelfLinks(links) && WalksOf(links, grain, w, |Everywhere(links, grain)|)
    ensures ReachesRing(links, grain)
  {
    forall i | 0 <= i < |w| ensures w[i] in Everywhere(links, grain) {
      WalkIsEverywhere(links, grain, w, i);
    }
    if Different(w) {
      DifferentFit(w, Everywhere(links, grain));
    }
    var i, j := FirstReturn(w);
    ReturnIsRing(links, w, i, j);
    WalkPrefix(links, w, i + 1);
    assert w[..i + 1][|w[..i + 1]| - 1] == w[i..j][0];
  }

  /** The queue never runs empty, whatever was walked, exactly when no walk from the grain can
      multiply rows and some walk from it ends on a ring of three or more instances. */
  lemma NeverEndsOnRings(links: seq<Link>, grain: string)
    requires NoSelfLinks(links)
    ensures !WalkEnds(links, grain) <==> NeverFansOut(grain, links) && ReachesRing(links, grain)
  {
    NeverEndsExactly(links, grain);
    if ReachesRing(links, grain) {
      var ring, w :| Ring(links, ring) && Walk(links, w) && w[0] == grain && w[|w| - 1] in ring;
      forall steps: nat ensures CanWalk(links, grain, steps) {
        RingIsUnbounded(links, grain, ring, w, steps);
      }
    }
    if Unbounded(links, grain) {
      assert CanWalk(links, grain, |Everywhere(links, grain)|);
      var w :| WalksOf(links, grain, w, |Everywhere(links, grain)|);
      LongWalkRings(links, grain, w);
    }
  }
}
