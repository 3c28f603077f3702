/** The queue loop that walks away from the grain: exactly when it ends, and what it then answers. */
module QueueWalk {
  import opened Domain
  import opened GrainWalk

  // ---------------------------------------------------------------- the loop, turn by turn

  /** Scanning the neighbours of a dequeued state meets a step that multiplies rows. */
  ghost predicate Fans(links: seq<Link>, s: State) {
    exists i :: 0 <= i < |Neighbours(links, s.0)| && Some(Neighbours(links, s.0)[i].0) != s.1 && Neighbours(links, s.0)[i].1 > 1
  }

  /** The queue after a turn that does not answer. */
  ghost function Turned(links: seq<Link>, queue: seq<State>): seq<State>
    requires queue != []
  {
    queue[1..] + Enqueued(Neighbours(links, queue[0].0), queue[0])
  }

  /** The queue after `n` turns of the loop, or nothing once the loop has answered false. */
  ghost function Turns(links: seq<Link>, queue: seq<State>, n: nat): Option<seq<State>>
    decreases n
  {
    if n == 0 || queue == [] then Some(queue)
    else if Fans(links, queue[0]) then None
    else Turns(links, Turned(links, queue), n - 1)
  }

  ghost predicate Over(links: seq<Link>, queue: seq<State>, n: nat) {
    Turns(links, queue, n).None? || Turns(links, queue, n).value == []
  }

  /** The loop started at `grain` ends. */
  ghost predicate WalkEnds(links: seq<Link>, grain: string) {
    LoopEnds(links, [(grain, None)])
  }

  ghost predicate LoopEnds(links: seq<Link>, queue: seq<State>) {
    exists n: nat :: Over(links, queue, n)
  }

  lemma {:induction false} TurnsAdd(links: seq<Link>, queue: seq<State>, m: nat, n: nat)
    ensures Turns(links, queue, m + n) ==
      if Turns(links, queue, m).None? then None else Turns(links, Turns(links, queue, m).value, n)
    decreases m
  {
    if m > 0 && queue != [] && !Fans(links, queue[0]) {
      TurnsAdd(links, Turned(links, queue), m - 1, n);
    }
  }

  /** Once over, the loop stays over. */
  lemma StaysOver(links: seq<Link>, queue: seq<State>, m: nat, n: nat)
    requires Over(links, queue, m) && m <= n
    ensures Over(links, queue, n) && Turns(links, queue, n) == Turns(links, queue, m)
  {
    TurnsAdd(links, queue, m, n - m);
  }

  // ---------------------------------------------------------------- levels

  /** What scanning all these states enqueues. */
  ghost function NextLevel(links: seq<Link>, level: seq<State>): seq<State> {
    if level == [] then [] else Enqueued(Neighbours(links, level[0].0), level[0]) + NextLevel(links, level[1..])
  }

  ghost function Level(links: seq<Link>, grain: string, k: nat): seq<State> {
    if k == 0 then [(grain, None)] else NextLevel(links, Level(links, grain, k - 1))
  }

  ghost predicate SomeFans(links: seq<Link>, level: seq<State>) {
    exists i :: 0 <= i < |level| && Fans(links, level[i])
  }

  lemma SomeFansOf(links: seq<Link>, level: seq<State>)
    requires level != []
    ensures SomeFans(links, level) <==> Fans(links, level[0]) || SomeFans(links, level[1..])
  {
    if i :| 0 <= i < |level[1..]| && Fans(links, level[1..][i]) {
      assert level[i + 1] == level[1..][i];
    }
    if i :| 0 < i < |level| && Fans(links, level[i]) {
      assert level[1..][i - 1] == level[i];
    }
  }

  lemma PassOne<T>(level: seq<T>, rest: seq<T>, added: seq<T>, later: seq<T>)
    requires level != []
    ensures (level + rest)[1..] + added == level[1..] + (rest + added)
    ensures (rest + added) + later == rest + (added + later)
  {
  }

  lemma TurnsFirst(links: seq<Link>, queue: seq<State>, n: nat)
    requires queue != []
    ensures Turns(links, queue, n + 1) == if Fans(links, queue[0]) then None else Turns(links, Turned(links, queue), n)
  {
  }

  /** A whole level is dequeued before anything it enqueued. */
  lemma {:induction false} LevelPasses(links: seq<Link>, level: seq<State>, rest: seq<State>)
    ensures Turns(links, level + rest, |level|) == if SomeFans(links, level) then None else Some(rest + NextLevel(links, level))
    decreases |level|
  {
    if level == [] {
      assert level + rest == rest && rest + [] == rest;
    } else {
      var tail, added := level[1..], Enqueued(Neighbours(links, level[0].0), level[0]);
      var later := NextLevel(links, tail);
      LevelPasses(links, tail, rest + added);
      PassOne(level, rest, added, later);
      SomeFansOf(links, level);
      PassesFirst(links, level + rest, |tail|, tail + (rest + added), SomeFans(links, tail), rest + added + later);
    }
  }

  lemma PassesFirst(links: seq<Link>, queue: seq<State>, n: nat, next: seq<State>, stops: bool, result: seq<State>)
    requires queue != [] && next == Turned(links, queue)
    requires Turns(links, next, n) == if stops then None else Some(result)
    ensures Turns(links, queue, n + 1) == if Fans(links, queue[0]) || stops then None else Some(result)
  {
    TurnsFirst(links, queue, n);
  }

  /** How many turns the first `k` levels take. */
  ghost function TurnsBefore(links: seq<Link>, grain: string, k: nat): nat {
    if k == 0 then 0 else TurnsBefore(links, grain, k - 1) + |Level(links, grain, k - 1)|
  }

  /** Nothing in the first `k` levels fans out. */
  ghost predicate LevelsQuiet(links: seq<Link>, grain: string, k: nat) {
    k == 0 || (LevelsQuiet(links, grain, k - 1) && !SomeFans(links, Level(links, grain, k - 1)))
  }

  lemma WholeLevel(links: seq<Link>, level: seq<State>)
    ensures Turns(links, level, |level|) == if SomeFans(links, level) then None else Some(NextLevel(links, level))
  {
    LevelPasses(links, level, []);
    assert level + [] == level && [] + NextLevel(links, level) == NextLevel(links, level);
  }

  lemma ThenLevel(links: seq<Link>, queue: seq<State>, m: nat, level: seq<State>, quiet: bool)
    requires Arrives(links, queue, m, level, quiet)
    ensures Arrives(links, queue, m + |level|, NextLevel(links, level), quiet && !SomeFans(links, level))
  {
    TurnsThen(links, queue, m, |level|, if quiet then Some(level) else None);
    WholeLevel(links, level);
  }

  lemma TurnsThen(links: seq<Link>, queue: seq<State>, m: nat, n: nat, middle: Option<seq<State>>)
    requires Turns(links, queue, m) == middle
    ensures Turns(links, queue, m + n) == if middle.None? then None else Turns(links, middle.value, n)
  {
    TurnsAdd(links, queue, m, n);
  }

  /** After `n` turns the queue is this level, or, if some earlier state fans out, the loop has answered. */
  ghost predicate Arrives(links: seq<Link>, queue: seq<State>, n: nat, level: seq<State>, quiet: bool) {
    Turns(links, queue, n) == if quiet then Some(level) else None
  }

  lemma {:induction false} ArrivesAt(links: seq<Link>, grain: string, k: nat)
    ensures Arrives(links, [(grain, None)], TurnsBefore(links, grain, k), Level(links, grain, k), LevelsQuiet(links, grain, k))
  {
    if k > 0 {
      var m, level := TurnsBefore(links, grain, k - 1), Level(links, grain, k - 1);
      ArrivesAt(links, grain, k - 1);
      ThenLevel(links, [(grain, None)], m, level, LevelsQuiet(links, grain, k - 1));
    }
  }

  lemma ReachesLevel(links: seq<Link>, grain: string, k: nat)
    ensures Turns(links, [(grain, None)], TurnsBefore(links, grain, k))
         == if LevelsQuiet(links, grain, k) then Some(Level(links, grain, k)) else None
  {
    ArrivesAt(links, grain, k);
  }

  // ---------------------------------------------------------------- levels and walks

  lemma {:induction false} NextLevelMembers(links: seq<Link>, level: seq<State>, t: State)
    ensures t in NextLevel(links, level) <==> exists s :: s in level && t in Enqueued(Neighbours(links, s.0), s)
  {
    if level != [] {
      NextLevelMembers(links, level[1..], t);
      assert level == [level[0]] + level[1..];
    }
  }

  lemma EnqueuedIsStep(links: seq<Link>, s: State, t: State)
    ensures t in Enqueued(Neighbours(links, s.0), s) <==>
      t.1 == Some(s.0) && Some(t.0) != s.1 && Joined(links, s.0, t.0)
  {
    var ns := Neighbours(links, s.0);
    EnqueuedMembers(ns, s, t);
    if Listed(ns, t.0) {
      var i :| 0 <= i < |ns| && ns[i].0 == t.0;
      NeighboursAreSteps(links, s.0, t.0, ns[i].1);
    }
    if Joined(links, s.0, t.0) {
      var bound :| Step(links, s.0, t.0, bound);
      NeighboursAreSteps(links, s.0, t.0, bound);
      var i :| 0 <= i < |ns| && ns[i] == (t.0, bound);
    }
  }

  /** The state a walk ends in. */
  ghost function LastState(w: seq<string>): State
    requires w != []
  {
    (w[|w| - 1], if |w| == 1 then None else Some(w[|w| - 2]))
  }

  lemma WalkShortens(links: seq<Link>, w: seq<string>)
    requires Walk(links, w) && |w| >= 2
    ensures Walk(links, w[..|w| - 1]) && Joined(links, w[|w| - 2], w[|w| - 1])
    ensures Some(w[|w| - 1]) != LastState(w[..|w| - 1]).1
  {
    var v := w[..|w| - 1];
    forall k | 0 <= k < |v| - 1 ensures Joined(links, v[k], v[k + 1]) { assert Joined(links, w[k], w[k + 1]); }
    forall k | 0 <= k < |v| - 2 ensures v[k] != v[k + 2] { assert w[k] != w[k + 2]; }
    assert Joined(links, w[|w| - 2], w[|w| - 2 + 1]);
    if |w| >= 3 {
      assert w[|w| - 3] != w[|w| - 3 + 2];
    }
  }

  /** Every walk of `k` steps ends in the `k`-th level. */
  lemma {:induction false} WalkIsListed(links: seq<Link>, grain: string, w: seq<string>)
    requires Walk(links, w) && w[0] == grain
    ensures LastState(w) in Level(links, grain, |w| - 1)
    decreases |w|
  {
    if |w| > 1 {
      var v := w[..|w| - 1];
      WalkShortens(links, w);
      WalkIsListed(links, grain, v);
      EnqueuedIsStep(links, LastState(v), LastState(w));
      NextLevelMembers(links, Level(links, grain, |v| - 1), LastState(w));
    }
  }

  lemma StepOn(links: seq<Link>, grain: string, w: seq<string>, before: State, s: State)
    requires Reaches(links, grain, w, before) && s in Enqueued(Neighbours(links, before.0), before)
    ensures Reaches(links, grain, w + [s.0], s)
  {
    EnqueuedIsStep(links, before, s);
    var bound :| Step(links, before.0, s.0, bound);
    ExtendWalk(links, grain, w, before, s.0, bound);
  }

  lemma EnqueuedFrom(links: seq<Link>, level: seq<State>, s: State) returns (before: State)
    requires s in NextLevel(links, level)
    ensures before in level && s in Enqueued(Neighbours(links, before.0), before)
  {
    NextLevelMembers(links, level, s);
    before :| before in level && s in Enqueued(Neighbours(links, before.0), before);
  }

  /** Conversely, every state of the `k`-th level ends a walk of `k` steps. */
  lemma {:induction false} ListedIsWalk(links: seq<Link>, grain: string, k: nat, s: State) returns (w: seq<string>)
    requires s in Level(links, grain, k)
    ensures Reaches(links, grain, w, s) && |w| == k + 1
  {
    if k == 0 {
      w := [grain];
    } else {
      var before := EnqueuedFrom(links, Level(links, grain, k - 1), s);
      var v := ListedIsWalk(links, grain, k - 1, before);
      StepOn(links, grain, v, before, s);
      w := v + [s.0];
    }
  }

  // ---------------------------------------------------------------- when the loop ends

  ghost predicate WalksOf(links: seq<Link>, grain: string, w: seq<string>, steps: nat) {
    Walk(links, w) && w[0] == grain && |w| == steps + 1
  }

  ghost predicate CanWalk(links: seq<Link>, grain: string, steps: nat) {
    exists w :: WalksOf(links, grain, w, steps)
  }

  /** From `grain` one can walk any number of steps. */
  ghost predicate Unbounded(links: seq<Link>, grain: string) {
    forall steps: nat :: CanWalk(links, grain, steps)
  }

  lemma FansIsStep(links: seq<Link>, s: State)
    ensures Fans(links, s) <==> exists other, bound :: Step(links, s.0, other, bound) && Some(other) != s.1 && bound > 1
  {
    var ns := Neighbours(links, s.0);
    if Fans(links, s) {
      var i :| 0 <= i < |ns| && Some(ns[i].0) != s.1 && ns[i].1 > 1;
      NeighboursAreSteps(links, s.0, ns[i].0, ns[i].1);
    }
    if other, bound :| Step(links, s.0, other, bound) && Some(other) != s.1 && bound > 1 {
      NeighboursAreSteps(links, s.0, other, bound);
      var i :| 0 <= i < |ns| && ns[i] == (other, bound);
    }
  }

  /** Some level fans out exactly when some walk does. */
  lemma QuietExactly(links: seq<Link>, grain: string)
    ensures (forall k: nat :: LevelsQuiet(links, grain, k)) <==> NeverFansOut(grain, links)
  {
    if NeverFansOut(grain, links) {
      forall k: nat ensures LevelsQuiet(links, grain, k) {
        SafeIsQuiet(links, grain, k);
      }
    }
    if !NeverFansOut(grain, links) {
      var w, bound :| EndsWith(links, grain, w, bound) && bound > 1;
      FanIsMet(links, grain, w, bound);
    }
  }

  lemma FanIsMet(links: seq<Link>, grain: string, w: seq<string>, bound: int)
    requires EndsWith(links, grain, w, bound) && bound > 1
    ensures !LevelsQuiet(links, grain, |w| - 1)
  {
    var v := w[..|w| - 1];
    WalkShortens(links, w);
    WalkIsListed(links, grain, v);
    FansIsStep(links, LastState(v));
    var level := Level(links, grain, |v| - 1);
    var i :| 0 <= i < |level| && level[i] == LastState(v);
    assert SomeFans(links, level);
  }

  lemma QuietOneMore(links: seq<Link>, grain: string, k: nat)
    requires LevelsQuiet(links, grain, k) && !SomeFans(links, Level(links, grain, k))
    ensures LevelsQuiet(links, grain, k + 1)
  {
  }

  lemma {:induction false} SafeIsQuiet(links: seq<Link>, grain: string, k: nat)
    requires NeverFansOut(grain, links)
    ensures LevelsQuiet(links, grain, k)
  {
    if k > 0 {
      SafeIsQuiet(links, grain, k - 1);
      LevelIsQuiet(links, grain, k - 1);
      QuietOneMore(links, grain, k - 1);
    }
  }

  lemma LevelIsQuiet(links: seq<Link>, grain: string, j: nat)
    requires NeverFansOut(grain, links)
    ensures !SomeFans(links, Level(links, grain, j))
  {
    var level := Level(links, grain, j);
    if i :| 0 <= i < |level| && Fans(links, level[i]) {
      var w := ListedIsWalk(links, grain, j, level[i]);
      FansIsStep(links, level[i]);
      var other, bound :| Step(links, level[i].0, other, bound) && Some(other) != level[i].1 && bound > 1;
      ExtendWalk(links, grain, w, level[i], other, bound);
      assert EndsWith(links, grain, w + [other], bound);
    }
  }

  lemma {:induction false} LevelsTakeTurns(links: seq<Link>, grain: string, k: nat)
    requires forall j: nat :: j < k ==> Level(links, grain, j) != []
    ensures TurnsBefore(links, grain, k) >= k
  {
    if k > 0 {
      LevelsTakeTurns(links, grain, k - 1);
    }
  }

  lemma LevelHoldsWalks(links: seq<Link>, grain: string, k: nat)
    ensures Level(links, grain, k) != [] <==> CanWalk(links, grain, k)
  {
    if Level(links, grain, k) != [] {
      var w := ListedIsWalk(links, grain, k, Level(links, grain, k)[0]);
      assert WalksOf(links, grain, w, k);
    }
    if w :| WalksOf(links, grain, w, k) {
      WalkIsListed(links, grain, w);
    }
  }

  /** The loop goes on for ever exactly when no walk from the grain multiplies rows and walks from
      the grain can be of any length. */
  lemma NeverEndsExactly(links: seq<Link>, grain: string)
    ensures !WalkEnds(links, grain) <==> NeverFansOut(grain, links) && Unbounded(links, grain)
  {
    QuietExactly(links, grain);
    if NeverFansOut(grain, links) && Unbounded(links, grain) {
      forall n: nat ensures !Over(links, [(grain, None)], n) {
        StillRunning(links, grain, n);
      }
    } else if !NeverFansOut(grain, links) {
      var k: nat :| !LevelsQuiet(links, grain, k);
      ReachesLevel(links, grain, k);
      assert Over(links, [(grain, None)], TurnsBefore(links, grain, k));
    } else {
      var k: nat :| !CanWalk(links, grain, k);
      LevelHoldsWalks(links, grain, k);
      ReachesLevel(links, grain, k);
      assert Over(links, [(grain, None)], TurnsBefore(links, grain, k));
    }
  }

  lemma StillRunning(links: seq<Link>, grain: string, n: nat)
    requires (forall k: nat :: LevelsQuiet(links, grain, k)) && Unbounded(links, grain)
    ensures !Over(links, [(grain, None)], n)
  {
    forall j: nat ensures Level(links, grain, j) != [] {
      LevelHoldsWalks(links, grain, j);
    }
    LevelsTakeTurns(links, grain, n);
    ReachesLevel(links, grain, n);
    assert LevelsQuiet(links, grain, n);
    if Over(links, [(grain, None)], n) {
      StaysOver(links, [(grain, None)], n, TurnsBefore(links, grain, n));
    }
  }

  /** A loop that emptied its queue has seen every walk. */
  lemma EmptiedIsSafe(links: seq<Link>, grain: string, n: nat)
    requires Turns(links, [(grain, None)], n) == Some([])
    ensures NeverFansOut(grain, links)
  {
    QuietExactly(links, grain);
    if k: nat :| !LevelsQuiet(links, grain, k) {
      ReachesLevel(links, grain, k);
      var m := TurnsBefore(links, grain, k);
      if m <= n {
        StaysOver(links, [(grain, None)], m, n);
      } else {
        StaysOver(links, [(grain, None)], n, m);
      }
    }
  }

  /** A loop that answered false has seen a walk that multiplies rows. */
  lemma {:induction false} AnsweredFalse(links: seq<Link>, grain: string, n: nat)
    requires Turns(links, [(grain, None)], n) == None
    ensures !NeverFansOut(grain, links)
  {
    if NeverFansOut(grain, links) {
      QuietExactly(links, grain);
      if Unbounded(links, grain) {
        StillRunning(links, grain, n);
      } else {
        var k: nat :| !CanWalk(links, grain, k);
        LevelHoldsWalks(links, grain, k);
        ReachesLevel(links, grain, k);
        assert LevelsQuiet(links, grain, k);
        var m := TurnsBefore(links, grain, k);
        if m <= n { StaysOver(links, [(grain, None)], m, n); } else { StaysOver(links, [(grain, None)], n, m); }
      }
    }
  }

  // ---------------------------------------------------------------- the method

  function Adjacent(adjacency: map<string, seq<(string, int)>>, x: string): seq<(string, int)> {
    if x in adjacency then adjacency[x] else []
  }

  /** What one link adds to the neighbours of `x`. */
  function AddedBy(l: Link, x: string): seq<(string, int)> {
    (if l.a == x then [(l.b, l.ab)] else []) + (if l.b == x then [(l.a, l.ba)] else [])
  }

  lemma NeighboursGrow(links: seq<Link>, i: nat, x: string)
    requires i < |links|
    ensures Neighbours(links[..i + 1], x) == Neighbours(links[..i], x) + AddedBy(links[i], x)
  {
    assert links[..i + 1][..i] == links[..i];
  }

  method AddLink(adjacency: map<string, seq<(string, int)>>, l: Link) returns (more: map<string, seq<(string, int)>>)
    ensures forall x :: Adjacent(more, x) == Adjacent(adjacency, x) + AddedBy(l, x)
  {
    var one := adjacency[l.a := Adjacent(adjacency, l.a) + [(l.b, l.ab)]];
    more := one[l.b := Adjacent(one, l.b) + [(l.a, l.ba)]];
  }

  method BuildAdjacency(links: seq<Link>) returns (adjacency: map<string, seq<(string, int)>>)
    ensures forall x :: Adjacent(adjacency, x) == Neighbours(links, x)
  {
    adjacency := map[];
    for i := 0 to |links|
      invariant forall x :: Adjacent(adjacency, x) == Neighbours(links[..i], x)
    {
      var before := adjacency;
      adjacency := AddLink(before, links[i]);
      forall x ensures Adjacent(adjacency, x) == Neighbours(links[..i + 1], x) {
        NeighboursGrow(links, i, x);
      }
    }
    assert links[..|links|] == links;
  }

  /** Scans the neighbours of a dequeued state, stopping at the first that can fan out. */
  method Scan(ns: seq<(string, int)>, s: State, waiting: seq<State>) returns (fans: bool, queue: seq<State>)
    ensures fans <==> exists i :: 0 <= i < |ns| && Some(ns[i].0) != s.1 && ns[i].1 > 1
    ensures !fans ==> queue == waiting + Enqueued(ns, s)
  {
    queue := waiting;
    for k := 0 to |ns|
      invariant queue == waiting + Enqueued(ns[..k], s)
      invariant forall i :: 0 <= i < k ==> Some(ns[i].0) == s.1 || ns[i].1 <= 1
    {
      assert ns[..k + 1][..k] == ns[..k];
      var (other, matches) := ns[k];
      if Some(other) != s.1 {
        if matches > 1 {
          return true, queue;
        }
        queue := queue + [(other, Some(s.0))];
      }
    }
    assert ns[..|ns|] == ns;
    return false, queue;
  }

  lemma OneMoreTurn(links: seq<Link>, grain: string, turn: nat, queue: seq<State>, last: nat)
    requires Turns(links, [(grain, None)], turn) == Some(queue) && queue != [] && Over(links, [(grain, None)], last) && turn <= last
    ensures turn < last
    ensures Turns(links, [(grain, None)], turn + 1) ==
      if Fans(links, queue[0]) then None else Some(Turned(links, queue))
    ensures Turns(links, [(grain, None)], turn + 1).Some? && Turns(links, [(grain, None)], turn + 1).value != [] ==> turn + 1 < last
  {
    TurnsAdd(links, [(grain, None)], turn, 1);
    assert Turns(links, queue, 1) ==
      if Fans(links, queue[0]) then None else Turns(links, Turned(links, queue), 0);
  }

  /** After `turn` turns of the loop this is the queue; all turns before the last are still to come. */
  ghost predicate Running(links: seq<Link>, grain: string, turn: nat, queue: seq<State>, last: nat) {
    && Turns(links, [(grain, None)], turn) == Some(queue) && Over(links, [(grain, None)], last)
    && (queue != [] ==> turn <= last)
  }

  method TakeTurn(adjacency: map<string, seq<(string, int)>>, queue: seq<State>,
                  ghost links: seq<Link>, ghost grain: string, ghost turn: nat, ghost last: nat)
    returns (fans: bool, next: seq<State>)
    requires forall x :: Adjacent(adjacency, x) == Neighbours(links, x)
    requires Running(links, grain, turn, queue, last) && queue != []
    ensures fans ==> Turns(links, [(grain, None)], turn + 1) == None
    ensures !fans ==> Running(links, grain, turn + 1, next, last) && turn < last
  {
    var s := queue[0];
    fans, next := Scan(Adjacent(adjacency, s.0), s, queue[1..]);
    OneMoreTurn(links, grain, turn, queue, last);
  }

  /** The queue loop. Whenever it ends it answers whether no walk away from the grain multiplies rows. */
  method FanoutFree(grain: string, links: seq<Link>) returns (ok: bool)
    requires WalkEnds(links, grain)
    ensures ok <==> NeverFansOut(grain, links)
  {
    var adjacency := BuildAdjacency(links);
    var queue: seq<State> := [(grain, None)];
    ghost var last: nat :| Over(links, queue, last);
    ghost var turn: nat := 0;
    while queue != []
      invariant Running(links, grain, turn, queue, last)
      decreases last - turn
    {
      var fans;
      fans, queue := TakeTurn(adjacency, queue, links, grain, turn, last);
      if fans {
        AnsweredFalse(links, grain, turn + 1);
        return false;
      }
      turn := turn + 1;
    }
    EmptiedIsSafe(links, grain, turn);
    return true;
  }

  // ---------------------------------------------------------------- trees

  ghost predicate RootedBy(nodes: set<string>, links: seq<Link>, grain: string, parents: map<string, string>) {
    && grain in nodes && parents.Keys == nodes - {grain}
    && (forall l :: l in links ==>
          && l.a in nodes && l.b in nodes
          && ((l.b in parents && parents[l.b] == l.a) || (l.a in parents && parents[l.a] == l.b)))
  }

  lemma TreeIsRooted(nodes: set<string>, links: seq<Link>, grain: string) returns (parents: map<string, string>)
    requires SpanningTree(nodes, links) && grain in nodes
    ensures RootedBy(nodes, links, grain, parents)
  {
    var start, order :| Grown(start, order) && Nodes(start, order) == nodes && multiset(order) == multiset(links);
    parents := Parents(start, order, grain);
    forall l | l in links
      ensures l.a in nodes && l.b in nodes
      ensures (l.b in parents && parents[l.b] == l.a) || (l.a in parents && parents[l.a] == l.b)
    {
      assert l in multiset(order);
      EndsAreNodes(start, order, l);
    }
  }

  /** A state of the queue enters a node through that node's parent, whose turn has come before. */
  ghost predicate Enters(grain: string, parents: map<string, string>, done: set<State>, s: State) {
    if s.0 == grain then s.1 == None
    else s.0 in parents && s.1 == Some(parents[s.0]) && parents[s.0] in Refs(done)
  }

  /** Nothing that was dequeued can fan out, and what it leads to is dequeued or waiting. */
  ghost predicate Explored(links: seq<Link>, done: set<State>, queue: seq<State>) {
    forall s, other, bound :: s in done && Step(links, s.0, other, bound) && Some(other) != s.1 ==>
      bound <= 1 && ((other, Some(s.0)) in done || (other, Some(s.0)) in queue)
  }

  ghost predicate Reachable(links: seq<Link>, grain: string, s: State) {
    exists w :: Reaches(links, grain, w, s)
  }

  ghost predicate AllEntered(nodes: set<string>, links: seq<Link>, grain: string, parents: map<string, string>, done: set<State>, queue: seq<State>) {
    forall s :: s in done || s in queue ==> s.0 in nodes && Reachable(links, grain, s) && Enters(grain, parents, done, s)
  }

  ghost predicate Fresh(done: set<State>, queue: seq<State>) {
    DistinctStates(queue) && forall s :: s in queue ==> s.0 !in Refs(done)
  }

  ghost predicate Draining(nodes: set<string>, links: seq<Link>, grain: string, parents: map<string, string>, done: set<State>, queue: seq<State>) {
    && AllEntered(nodes, links, grain, parents, done, queue)
    && ((grain, None) in done || (grain, None) in queue)
    && Fresh(done, queue)
    && Explored(links, done, queue)
  }

  lemma StartDraining(nodes: set<string>, links: seq<Link>, grain: string, parents: map<string, string>)
    requires grain in nodes
    ensures Draining(nodes, links, grain, parents, {}, [(grain, None)])
  {
    assert Reaches(links, grain, [grain], (grain, None));
  }

  /** What scanning the neighbours of `s` enqueues: the nodes whose parent is `s`. */
  lemma EnqueuedChild(nodes: set<string>, links: seq<Link>, grain: string, parents: map<string, string>, done: set<State>, s: State, t: State)
    requires RootedBy(nodes, links, grain, parents)
    requires s.0 in nodes && Reachable(links, grain, s) && Enters(grain, parents, done, s)
    requires t in Enqueued(Neighbours(links, s.0), s)
    ensures t.0 in nodes && t.0 != grain && t.0 in parents && parents[t.0] == s.0 && t.1 == Some(s.0)
    ensures Reachable(links, grain, t)
  {
    var ns := Neighbours(links, s.0);
    EnqueuedMembers(ns, s, t);
    var i :| 0 <= i < |ns| && ns[i].0 == t.0;
    NeighboursAreSteps(links, s.0, t.0, ns[i].1);
    var l :| l in links && ((l.a == s.0 && l.b == t.0) || (l.b == s.0 && l.a == t.0));
    var w :| Reaches(links, grain, w, s);
    ExtendWalk(links, grain, w, s, t.0, ns[i].1);
  }

  lemma EnqueuedIsFresh(nodes: set<string>, links: seq<Link>, grain: string, parents: map<string, string>, done: set<State>, queue: seq<State>, t: State)
    requires RootedBy(nodes, links, grain, parents) && queue != []
    requires AllEntered(nodes, links, grain, parents, done, queue) && Fresh(done, queue)
    requires t in Enqueued(Neighbours(links, queue[0].0), queue[0])
    ensures t.0 !in Refs(done) && t.0 != queue[0].0 && forall u :: u in queue ==> u.0 != t.0
  {
    var s := queue[0];
    EnqueuedChild(nodes, links, grain, parents, done, s, t);
    forall u | (u in queue || u in done) && u.0 == t.0 ensures false {}
  }

  lemma DrainOneFresh(nodes: set<string>, links: seq<Link>, grain: string, parents: map<string, string>, done: set<State>, queue: seq<State>)
    requires RootedBy(nodes, links, grain, parents) && queue != []
    requires AllEntered(nodes, links, grain, parents, done, queue) && Fresh(done, queue)
    requires DistinctNeighbours(Neighbours(links, queue[0].0))
    ensures Fresh(done + {queue[0]}, Turned(links, queue))
  {
    var added := Enqueued(Neighbours(links, queue[0].0), queue[0]);
    forall t | t in added ensures t.0 !in Refs(done) && t.0 != queue[0].0 && forall u :: u in queue ==> u.0 != t.0 {
      EnqueuedIsFresh(nodes, links, grain, parents, done, queue, t);
    }
    EnqueuedDistinct(Neighbours(links, queue[0].0), queue[0]);
    StillFresh(done, queue, added);
  }

  lemma StillFresh(done: set<State>, queue: seq<State>, added: seq<State>)
    requires queue != [] && Fresh(done, queue)
    requires forall t :: t in added ==> t.0 !in Refs(done) && t.0 != queue[0].0 && forall u :: u in queue ==> u.0 != t.0
    requires forall i, j :: 0 <= i < j < |added| ==> added[i].0 != added[j].0
    ensures Fresh(done + {queue[0]}, queue[1..] + added)
  {
    var queue' := queue[1..] + added;
    assert Refs(done + {queue[0]}) == Refs(done) + {queue[0].0};
    var n := |queue| - 1;
    forall i, j | 0 <= i < j < |queue'| ensures queue'[i].0 != queue'[j].0 {
      if j < n {
        assert queue[i + 1].0 != queue[j + 1].0;
      } else if i < n {
        assert queue'[j] == added[j - n] && added[j - n] in added && queue'[i] == queue[i + 1] && queue[i + 1] in queue;
      } else {
        assert queue'[j] == added[j - n] && queue'[i] == added[i - n];
      }
    }
    forall t | t in queue' ensures t.0 !in Refs(done + {queue[0]}) {
      if t in queue[1..] {
        var k :| 0 <= k < n && queue[k + 1] == t;
        assert queue[0].0 != queue[k + 1].0;
      }
    }
  }

  lemma DrainOneExplored(links: seq<Link>, done: set<State>, queue: seq<State>)
    requires queue != [] && Explored(links, done, queue)
    requires forall other, bound :: Step(links, queue[0].0, other, bound) && Some(other) != queue[0].1 ==> bound <= 1
    ensures Explored(links, done + {queue[0]}, Turned(links, queue))
  {
    var s := queue[0];
    var ns := Neighbours(links, s.0);
    var done', queue' := done + {s}, queue[1..] + Enqueued(ns, s);
    forall t, other, bound | t in done' && Step(links, t.0, other, bound) && Some(other) != t.1
      ensures bound <= 1 && ((other, Some(t.0)) in done' || (other, Some(t.0)) in queue')
    {
      if t == s {
        NeighboursAreSteps(links, s.0, other, bound);
        var i :| 0 <= i < |ns| && ns[i] == (other, bound);
        EnqueuedMembers(ns, s, (other, Some(s.0)));
      } else {
        assert (other, Some(t.0)) in done || (other, Some(t.0)) in queue;
      }
    }
  }

  lemma DrainOne(nodes: set<string>, links: seq<Link>, grain: string, parents: map<string, string>, done: set<State>, queue: seq<State>)
    requires RootedBy(nodes, links, grain, parents) && queue != []
    requires Draining(nodes, links, grain, parents, done, queue)
    requires DistinctNeighbours(Neighbours(links, queue[0].0))
    requires forall other, bound :: Step(links, queue[0].0, other, bound) && Some(other) != queue[0].1 ==> bound <= 1
    ensures Draining(nodes, links, grain, parents, done + {queue[0]}, Turned(links, queue))
  {
    DrainOneFresh(nodes, links, grain, parents, done, queue);
    DrainOneExplored(links, done, queue);
    var s := queue[0];
    var added := Enqueued(Neighbours(links, s.0), s);
    assert Refs(done + {s}) == Refs(done) + {s.0};
    forall t | t in done + {s} || t in queue[1..] + added
      ensures t.0 in nodes && Reachable(links, grain, t) && Enters(grain, parents, done + {s}, t)
    {
      if t in added {
        EnqueuedChild(nodes, links, grain, parents, done, s, t);
      } else {
        assert t in done || t in queue;
      }
    }
  }

  lemma Dequeued(nodes: set<string>, links: seq<Link>, grain: string, parents: map<string, string>, done: set<State>, queue: seq<State>)
    requires SpanningTree(nodes, links) && queue != []
    requires Draining(nodes, links, grain, parents, done, queue)
    ensures Reachable(links, grain, queue[0]) && DistinctNeighbours(Neighbours(links, queue[0].0))
    ensures nodes - Refs(done + {queue[0]}) < nodes - Refs(done)
  {
    assert queue[0] in queue;
    TreeHasNoParallels(nodes, links);
    NeighboursAreDistinct(links, queue[0].0);
    assert Refs(done + {queue[0]}) == Refs(done) + {queue[0].0};
    assert queue[0].0 in nodes - Refs(done);
  }

  lemma SafeSteps(links: seq<Link>, s: State)
    requires !Fans(links, s)
    ensures forall other, bound :: Step(links, s.0, other, bound) && Some(other) != s.1 ==> bound <= 1
  {
    FansIsStep(links, s);
  }

  ghost predicate DrainingTree(nodes: set<string>, links: seq<Link>, grain: string, parents: map<string, string>, done: set<State>, queue: seq<State>) {
    SpanningTree(nodes, links) && RootedBy(nodes, links, grain, parents) && Draining(nodes, links, grain, parents, done, queue)
  }

  lemma DrainQuiet(nodes: set<string>, links: seq<Link>, grain: string, parents: map<string, string>, done: set<State>, queue: seq<State>)
    requires DrainingTree(nodes, links, grain, parents, done, queue) && queue != [] && !Fans(links, queue[0])
    ensures DrainingTree(nodes, links, grain, parents, done + {queue[0]}, Turned(links, queue))
    ensures nodes - Refs(done + {queue[0]}) < nodes - Refs(done)
  {
    Dequeued(nodes, links, grain, parents, done, queue);
    SafeSteps(links, queue[0]);
    DrainOne(nodes, links, grain, parents, done, queue);
  }

  lemma EndsLater(links: seq<Link>, queue: seq<State>)
    requires queue != [] && !Fans(links, queue[0]) && LoopEnds(links, Turned(links, queue))
    ensures LoopEnds(links, queue)
  {
    var m: nat :| Over(links, Turned(links, queue), m);
    assert Over(links, queue, m + 1);
  }

  lemma EndsAtOnce(links: seq<Link>, queue: seq<State>)
    requires queue == [] || Fans(links, queue[0])
    ensures LoopEnds(links, queue)
  {
    assert Over(links, queue, 1);
  }

  lemma {:induction false} DrainingEnds(nodes: set<string>, links: seq<Link>, grain: string, parents: map<string, string>, done: set<State>, queue: seq<State>)
    requires DrainingTree(nodes, links, grain, parents, done, queue)
    ensures LoopEnds(links, queue)
    decreases nodes - Refs(done)
  {
    if queue == [] || Fans(links, queue[0]) {
      EndsAtOnce(links, queue);
    } else {
      DrainQuiet(nodes, links, grain, parents, done, queue);
      DrainingEnds(nodes, links, grain, parents, done + {queue[0]}, Turned(links, queue));
      EndsLater(links, queue);
    }
  }

  /** On a tree the loop ends. */
  lemma TreeWalkEnds(nodes: set<string>, links: seq<Link>, grain: string)
    requires SpanningTree(nodes, links) && grain in nodes
    ensures WalkEnds(links, grain)
  {
    var parents := TreeIsRooted(nodes, links, grain);
    StartDraining(nodes, links, grain, parents);
    DrainingEnds(nodes, links, grain, parents, {}, [(grain, None)]);
  }
}
