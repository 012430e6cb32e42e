/** Distance-bounded reachability in a finite-branching directed graph: the specification that
    both breadth-first searches of the repository are proved against. A graph is given by its
    successor function. */
module Reach {

  /** The vertices at distance at most `n` from some root. */
  ghost function Ball<V(!new)>(succ: V -> set<V>, roots: set<V>, n: nat): set<V> {
    if n == 0 then roots
    else
      var inner := Ball(succ, roots, n - 1);
      inner + set v, w | v in inner && w in succ(v) :: w
  }

  /** The reflexive-transitive closure of the roots. */
  ghost predicate Reachable<V(!new)>(succ: V -> set<V>, roots: set<V>, v: V) {
    exists n: nat :: v in Ball(succ, roots, n)
  }

  ghost predicate Closed<V(!new)>(succ: V -> set<V>, s: set<V>) {
    forall v <- s :: succ(v) <= s
  }

  ghost predicate IsPath<V(!new)>(succ: V -> set<V>, p: seq<V>) {
    && p != []
    && forall i :: 0 <= i < |p| - 1 ==> p[i + 1] in succ(p[i])
  }

  /** Some path of at most `n` steps leads from a root to `v`. */
  ghost predicate HasPath<V(!new)>(succ: V -> set<V>, roots: set<V>, v: V, n: nat) {
    exists p: seq<V> :: IsPath(succ, p) && p[0] in roots && p[|p| - 1] == v && |p| <= n + 1
  }

  /** The layered definition agrees with the definition by paths. */
  lemma {:induction false} BallIsShortPaths<V(!new)>(succ: V -> set<V>, roots: set<V>, v: V, n: nat)
    ensures v in Ball(succ, roots, n) <==> HasPath(succ, roots, v, n)
  {
    if v in Ball(succ, roots, n) {
      PathTo(succ, roots, v, n);
    }
    if HasPath(succ, roots, v, n) {
      var p: seq<V> :| IsPath(succ, p) && p[0] in roots && p[|p| - 1] == v && |p| <= n + 1;
      PathStaysInBall(succ, roots, p);
      BallGrows(succ, roots, |p| - 1, n);
    }
  }

  lemma {:induction false} PathTo<V(!new)>(succ: V -> set<V>, roots: set<V>, v: V, n: nat)
    requires v in Ball(succ, roots, n)
    ensures HasPath(succ, roots, v, n)
  {
    if n == 0 {
      assert IsPath(succ, [v]);
    } else if v in Ball(succ, roots, n - 1) {
      PathTo(succ, roots, v, n - 1);
    } else {
      var u :| u in Ball(succ, roots, n - 1) && v in succ(u);
      PathTo(succ, roots, u, n - 1);
      var p: seq<V> :| IsPath(succ, p) && p[0] in roots && p[|p| - 1] == u && |p| <= n;
      assert IsPath(succ, p + [v]);
    }
  }

  lemma {:induction false} PathStaysInBall<V(!new)>(succ: V -> set<V>, roots: set<V>, p: seq<V>)
    requires IsPath(succ, p) && p[0] in roots
    ensures p[|p| - 1] in Ball(succ, roots, |p| - 1)
  {
    if |p| > 1 {
      var q := p[..|p| - 1];
      PathStaysInBall(succ, roots, q);
      assert q[|q| - 1] in Ball(succ, roots, |p| - 2) && p[|q|] in succ(q[|q| - 1]);
    }
  }

  lemma {:induction false} BallGrows<V(!new)>(succ: V -> set<V>, roots: set<V>, m: nat, n: nat)
    requires m <= n
    ensures Ball(succ, roots, m) <= Ball(succ, roots, n)
  {
    if m < n {
      BallGrows(succ, roots, m, n - 1);
    }
  }

  /** Once a ball is closed under successors it holds everything reachable at any depth. */
  lemma {:induction false} ClosedBallIsReachable<V(!new)>(succ: V -> set<V>, roots: set<V>, n: nat)
    requires Closed(succ, Ball(succ, roots, n))
    ensures forall v :: v in Ball(succ, roots, n) <==> Reachable(succ, roots, v)
  {
    BallGrows(succ, roots, 0, n);
    forall v, m: nat | v in Ball(succ, roots, m)
      ensures v in Ball(succ, roots, n)
    {
      NeverLeavesClosed(succ, roots, Ball(succ, roots, n), v, m);
    }
  }

  lemma {:induction false} NeverLeavesClosed<V(!new)>(succ: V -> set<V>, roots: set<V>, s: set<V>, v: V, m: nat)
    requires Closed(succ, s) && roots <= s && v in Ball(succ, roots, m)
    ensures v in s
  {
    if m > 0 && v !in Ball(succ, roots, m - 1) {
      var u :| u in Ball(succ, roots, m - 1) && v in succ(u);
      NeverLeavesClosed(succ, roots, s, u, m - 1);
    } else if m > 0 {
      NeverLeavesClosed(succ, roots, s, v, m - 1);
    }
  }

  lemma StepFrom<V(!new)>(succ: V -> set<V>, roots: set<V>, v: V, w: V, n: nat)
    requires v in Ball(succ, roots, n) && w in succ(v)
    ensures w in Ball(succ, roots, n + 1)
  {
  }

  /** Among the known vertices, which no edge leaves, `pred` has the edges of `succ` reversed. */
  ghost predicate Mirrored<V(!new)>(succ: V -> set<V>, pred: V -> set<V>, known: set<V>) {
    && (forall v <- known :: succ(v) <= known && pred(v) <= known)
    && (forall v, w | v in known && w in known :: w in succ(v) <==> v in pred(w))
  }

  /** Reversing every edge reverses distance: `y` is within `n` steps of `x` along `succ` exactly when `x`
      is within `n` steps of `y` along `pred`. */
  lemma {:induction false} ReversedDistance<V(!new)>(succ: V -> set<V>, pred: V -> set<V>, known: set<V>, x: V, y: V, n: nat)
    requires Mirrored(succ, pred, known) && x in known && y in known
    ensures y in Ball(succ, {x}, n) <==> x in Ball(pred, {y}, n)
  {
    if y in Ball(succ, {x}, n) {
      ReversePath(succ, pred, known, x, y, n);
    }
    if x in Ball(pred, {y}, n) {
      ReversePath(pred, succ, known, y, x, n);
    }
  }

  lemma {:induction false} ReversePath<V(!new)>(succ: V -> set<V>, pred: V -> set<V>, known: set<V>, x: V, y: V, n: nat)
    requires Mirrored(succ, pred, known) && x in known && y in known
    requires y in Ball(succ, {x}, n)
    ensures x in Ball(pred, {y}, n)
  {
    PathTo(succ, {x}, y, n);
    var p: seq<V> :| IsPath(succ, p) && p[0] in {x} && p[|p| - 1] == y && |p| <= n + 1;
    PathStaysKnown(succ, known, p);
    var q := seq(|p|, i requires 0 <= i < |p| => p[|p| - 1 - i]);
    forall i | 0 <= i < |q| - 1
      ensures q[i + 1] in pred(q[i])
    {
      assert p[|p| - 2 - i + 1] in succ(p[|p| - 2 - i]);
    }
    PathStaysInBall(pred, {y}, q);
    BallGrows(pred, {y}, |q| - 1, n);
  }

  lemma {:induction false} PathStaysKnown<V(!new)>(succ: V -> set<V>, known: set<V>, p: seq<V>)
    requires forall v <- known :: succ(v) <= known
    requires IsPath(succ, p) && p[0] in known
    ensures forall v <- p :: v in known
  {
    if |p| > 1 {
      PathStaysKnown(succ, known, p[..|p| - 1]);
      assert p[|p| - 2] == p[..|p| - 1][|p| - 2];
    }
  }

  // ---------------------------------------------------------------------------------------
  // What a breadth-first search knows about the vertices it has recorded.

  /** Every recorded depth is an upper bound that some path of that length attains. */
  ghost predicate Sound<V(!new)>(succ: V -> set<V>, roots: set<V>, limit: nat, dist: map<V, nat>) {
    forall v <- dist :: dist[v] <= limit && v in Ball(succ, roots, dist[v])
  }

  /** Every successor of a recorded vertex above the depth limit is recorded one step deeper or less. */
  ghost predicate Relaxed<V(!new)>(succ: V -> set<V>, roots: set<V>, limit: nat, dist: map<V, nat>) {
    && (forall r <- roots :: r in dist && dist[r] == 0)
    && (forall v, w | v in dist && dist[v] < limit && w in succ(v) :: w in dist && dist[w] <= dist[v] + 1)
  }

  /** A sound and relaxed record is exactly the ball, with exact distances. */
  lemma {:induction false} RelaxedIsBall<V(!new)>(succ: V -> set<V>, roots: set<V>, limit: nat, dist: map<V, nat>)
    requires Sound(succ, roots, limit, dist) && Relaxed(succ, roots, limit, dist)
    ensures dist.Keys == Ball(succ, roots, limit)
  {
    RelaxedCovers(succ, roots, limit, dist, limit);
    forall v | v in dist
      ensures v in Ball(succ, roots, limit)
    {
      BallGrows(succ, roots, dist[v], limit);
    }
  }

  lemma {:induction false} RelaxedCovers<V(!new)>(succ: V -> set<V>, roots: set<V>, limit: nat, dist: map<V, nat>, n: nat)
    requires Relaxed(succ, roots, limit, dist) && n <= limit
    ensures forall v <- Ball(succ, roots, n) :: v in dist && dist[v] <= n
  {
    if n > 0 {
      RelaxedCovers(succ, roots, limit, dist, n - 1);
    }
  }

  /** Queue entries are ordered by depth and span at most two adjacent levels. */
  ghost predicate Layered<V(!new)>(queue: seq<(V, nat)>, level: nat) {
    && (forall i :: 0 <= i < |queue| ==> level <= queue[i].1 <= level + 1)
    && (forall i, j :: 0 <= i < j < |queue| ==> queue[i].1 <= queue[j].1)
  }

  // ----- marking a vertex when it leaves the queue: the queue may hold a vertex several times

  /** `w` is recorded at depth `k` or less, or still queued at such a depth. */
  ghost predicate Settled<V(!new)>(dist: map<V, nat>, queue: seq<(V, nat)>, w: V, k: nat) {
    || (w in dist && dist[w] <= k)
    || (exists e <- queue :: e.0 == w && e.1 <= k)
  }

  ghost predicate PopSound<V(!new)>(succ: V -> set<V>, roots: set<V>, limit: nat, dist: map<V, nat>, queue: seq<(V, nat)>) {
    && Sound(succ, roots, limit, dist)
    && (forall e <- queue :: e.1 <= limit && e.0 in Ball(succ, roots, e.1))
  }

  ghost predicate PopShape<V(!new)>(succ: V -> set<V>, roots: set<V>, limit: nat, dist: map<V, nat>, queue: seq<(V, nat)>, level: nat) {
    && Layered(queue, level)
    && (forall v <- dist :: dist[v] <= level)
    && (forall r <- roots :: Settled(dist, queue, r, 0))
    && (forall v, w | v in dist && dist[v] < limit && w in succ(v) :: Settled(dist, queue, w, dist[v] + 1))
  }

  /** What holds before each turn of such a search. (Loops state it as an equation, which keeps it whole.) */
  ghost predicate PopMarking<V(!new)>(succ: V -> set<V>, roots: set<V>, limit: nat, dist: map<V, nat>, queue: seq<(V, nat)>, level: nat) {
    PopSound(succ, roots, limit, dist, queue) && PopShape(succ, roots, limit, dist, queue, level)
  }

  lemma SettledAfterPop<V(!new)>(dist: map<V, nat>, queue: seq<(V, nat)>, dist': map<V, nat>, queue': seq<(V, nat)>, w: V, k: nat)
    requires queue != [] && Settled(dist, queue, w, k)
    requires forall v <- dist :: v in dist' && dist'[v] == dist[v]
    requires queue[0].0 in dist' && dist'[queue[0].0] <= queue[0].1
    requires queue[1..] <= queue'
    ensures Settled(dist', queue', w, k)
  {
    if !(w in dist && dist[w] <= k) {
      var e :| e in queue && e.0 == w && e.1 <= k;
      if e != queue[0] {
        var i :| 0 <= i < |queue| && queue[i] == e;
        assert queue'[i - 1] == e;
      }
    }
  }

  lemma PopRecorded<V(!new)>(succ: V -> set<V>, roots: set<V>, limit: nat, dist: map<V, nat>, queue: seq<(V, nat)>, level: nat)
    requires PopMarking(succ, roots, limit, dist, queue, level)
    requires queue != [] && queue[0].0 in dist
    ensures PopMarking(succ, roots, limit, dist, queue[1..], queue[0].1)
  {
    forall w, k: nat | Settled(dist, queue, w, k)
      ensures Settled(dist, queue[1..], w, k)
    {
      SettledAfterPop(dist, queue, dist, queue[1..], w, k);
    }
  }

  lemma LayeredAppend<V(!new)>(queue: seq<(V, nat)>, level: nat, pushed: seq<(V, nat)>)
    requires Layered(queue, level) && forall e <- pushed :: e.1 == level + 1
    ensures Layered(queue + pushed, level)
  {
    forall i | |queue| <= i < |queue + pushed|
      ensures (queue + pushed)[i].1 == level + 1
    {
      assert (queue + pushed)[i] == pushed[i - |queue|] && pushed[i - |queue|] in pushed;
    }
  }

  lemma LayeredPop<V(!new)>(queue: seq<(V, nat)>, level: nat)
    requires Layered(queue, level) && queue != []
    ensures level <= queue[0].1 && Layered(queue[1..], queue[0].1)
  {
  }

  lemma SoundWith<V(!new)>(succ: V -> set<V>, roots: set<V>, limit: nat, dist: map<V, nat>, v: V, k: nat)
    requires Sound(succ, roots, limit, dist) && k <= limit && v in Ball(succ, roots, k)
    ensures Sound(succ, roots, limit, dist[v := k])
  {
  }

  /** What is queued when `queue[0]` is recorded: its successors, one step deeper, within the limit. */
  ghost predicate Pushes<V(!new)>(succ: V -> set<V>, limit: nat, dist: map<V, nat>, queue: seq<(V, nat)>, pushed: seq<(V, nat)>)
    requires queue != []
  {
    && (queue[0].1 >= limit ==> pushed == [])
    && (forall e <- pushed :: e.1 == queue[0].1 + 1 && e.0 in succ(queue[0].0))
    && (queue[0].1 < limit ==> forall w <- succ(queue[0].0) :: w in dist || w == queue[0].0 || (w, queue[0].1 + 1) in pushed)
  }

  lemma PopFresh<V(!new)>(succ: V -> set<V>, roots: set<V>, limit: nat, dist: map<V, nat>, queue: seq<(V, nat)>, level: nat, pushed: seq<(V, nat)>)
    requires PopMarking(succ, roots, limit, dist, queue, level)
    requires queue != [] && queue[0].0 !in dist && Pushes(succ, limit, dist, queue, pushed)
    ensures PopMarking(succ, roots, limit, dist[queue[0].0 := queue[0].1], queue[1..] + pushed, queue[0].1)
  {
    PopFreshSound(succ, roots, limit, dist, queue, pushed);
    PopFreshShape(succ, roots, limit, dist, queue, level, pushed);
  }

  lemma PopFreshSound<V(!new)>(succ: V -> set<V>, roots: set<V>, limit: nat, dist: map<V, nat>, queue: seq<(V, nat)>, pushed: seq<(V, nat)>)
    requires PopSound(succ, roots, limit, dist, queue)
    requires queue != [] && Pushes(succ, limit, dist, queue, pushed)
    ensures PopSound(succ, roots, limit, dist[queue[0].0 := queue[0].1], queue[1..] + pushed)
  {
    var (v, k) := queue[0];
    assert queue[0] in queue;
    SoundWith(succ, roots, limit, dist, v, k);
    forall e | e in queue[1..] + pushed
      ensures e.1 <= limit && e.0 in Ball(succ, roots, e.1)
    {
      if e in pushed {
        StepFrom(succ, roots, v, e.0, k);
      } else {
        assert e in queue;
      }
    }
  }

  lemma PopFreshShape<V(!new)>(succ: V -> set<V>, roots: set<V>, limit: nat, dist: map<V, nat>, queue: seq<(V, nat)>, level: nat, pushed: seq<(V, nat)>)
    requires PopShape(succ, roots, limit, dist, queue, level)
    requires queue != [] && queue[0].0 !in dist && Pushes(succ, limit, dist, queue, pushed)
    ensures PopShape(succ, roots, limit, dist[queue[0].0 := queue[0].1], queue[1..] + pushed, queue[0].1)
  {
    var (v, k) := queue[0];
    var dist', queue' := dist[v := k], queue[1..] + pushed;
    LayeredPop(queue, level);
    LayeredAppend(queue[1..], k, pushed);
    forall w, n: nat | Settled(dist, queue, w, n)
      ensures Settled(dist', queue', w, n)
    {
      SettledAfterPop(dist, queue, dist', queue', w, n);
    }
    forall w | k < limit && w in succ(v)
      ensures Settled(dist', queue', w, k + 1)
    {
      if w !in dist' {
        assert (w, k + 1) in queue';
      }
    }
  }

  lemma PopMarkingDone<V(!new)>(succ: V -> set<V>, roots: set<V>, limit: nat, dist: map<V, nat>, level: nat)
    requires PopMarking(succ, roots, limit, dist, [], level)
    ensures Relaxed(succ, roots, limit, dist)
  {
    assert forall w, k: nat :: Settled(dist, [], w, k) <==> w in dist && dist[w] <= k;
  }

  // ----- marking a vertex when it enters the queue: every vertex is queued at most once

  ghost predicate Expanded<V(!new)>(succ: V -> set<V>, limit: nat, dist: map<V, nat>, v: V)
    requires v in dist
  {
    dist[v] < limit ==> forall w {:trigger w in succ(v)} | w in succ(v) :: w in dist && dist[w] <= dist[v] + 1
  }

  /** Recorded vertices are queued, being expanded, or expanded already. */
  ghost predicate PushMarking<V(!new)>(succ: V -> set<V>, start: V, limit: nat, dist: map<V, nat>, queue: seq<(V, nat)>, level: nat, busy: set<V>) {
    Sound(succ, {start}, limit, dist) && PushShape(succ, start, limit, dist, queue, level, busy)
  }

  ghost predicate PushShape<V(!new)>(succ: V -> set<V>, start: V, limit: nat, dist: map<V, nat>, queue: seq<(V, nat)>, level: nat, busy: set<V>) {
    && start in dist && dist[start] == 0
    && Layered(queue, level)
    && (forall v <- dist :: dist[v] <= level + 1)
    && (forall e <- queue :: e.0 in dist && dist[e.0] == e.1)
    && (forall v {:trigger Expanded(succ, limit, dist, v)} | v in dist :: v in busy || (v, dist[v]) in queue || Expanded(succ, limit, dist, v))
  }

  lemma PushMarkingStart<V(!new)>(succ: V -> set<V>, start: V, limit: nat)
    ensures PushMarking(succ, start, limit, map[start := 0], [(start, 0)], 0, {})
  {
    assert [(start, 0)][0] == (start, 0);
  }

  lemma FinishExpand<V(!new)>(succ: V -> set<V>, start: V, limit: nat, dist: map<V, nat>, queue: seq<(V, nat)>, level: nat, v: V)
    requires PushMarking(succ, start, limit, dist, queue, level, {v})
    requires v in dist ==> Expanded(succ, limit, dist, v)
    ensures PushMarking(succ, start, limit, dist, queue, level, {})
  {
  }

  lemma PopToExpand<V(!new)>(succ: V -> set<V>, start: V, limit: nat, dist: map<V, nat>, queue: seq<(V, nat)>, level: nat)
    requires PushMarking(succ, start, limit, dist, queue, level, {}) && queue != []
    ensures PushMarking(succ, start, limit, dist, queue[1..], queue[0].1, {queue[0].0})
  {
    forall v | v in dist
      ensures v == queue[0].0 || (v, dist[v]) in queue[1..] || Expanded(succ, limit, dist, v)
    {
      if (v, dist[v]) in queue {
        var i :| 0 <= i < |queue| && queue[i] == (v, dist[v]);
        assert i > 0 ==> queue[1..][i - 1] == (v, dist[v]);
      }
    }
    assert forall e <- queue[1..] :: e in queue;
  }

  lemma PushFreshSound<V(!new)>(succ: V -> set<V>, start: V, limit: nat, dist: map<V, nat>, v: V, w: V)
    requires Sound(succ, {start}, limit, dist) && v in dist && dist[v] < limit && w in succ(v)
    ensures Sound(succ, {start}, limit, dist[w := dist[v] + 1])
  {
    StepFrom(succ, {start}, v, w, dist[v]);
    SoundWith(succ, {start}, limit, dist, w, dist[v] + 1);
  }

  lemma PushFreshShape<V(!new)>(succ: V -> set<V>, start: V, limit: nat, dist: map<V, nat>, queue: seq<(V, nat)>, level: nat, v: V, w: V)
    requires PushShape(succ, start, limit, dist, queue, level, {v}) && w !in dist
    ensures PushShape(succ, start, limit, dist[w := level + 1], queue + [(w, level + 1)], level, {v})
  {
    var dist', queue' := dist[w := level + 1], queue + [(w, level + 1)];
    LayeredAppend(queue, level, [(w, level + 1)]);
    forall u | u in dist'
      ensures u == v || (u, dist'[u]) in queue' || Expanded(succ, limit, dist', u)
    {
      if u == w {
        assert queue'[|queue|] == (w, level + 1);
      } else if (u, dist[u]) in queue {
        assert (u, dist'[u]) in queue';
      } else {
        assert u == v || Expanded(succ, limit, dist, u);
      }
    }
  }

  /** Part of the successors of `v` have been marked and queued since `v` was taken from `queued`,
      when the vertices marked were `before`. */
  ghost predicate Expanding<V(!new)>(succ: V -> set<V>, start: V, limit: nat, dist: map<V, nat>, queue: seq<(V, nat)>, level: nat,
                                     v: V, before: set<V>, queued: seq<(V, nat)>)
  {
    && PushMarking(succ, start, limit, dist, queue, level, {v})
    && v in dist && dist[v] == level < limit
    && before <= dist.Keys <= before + succ(v)
    && (dist.Keys == before ==> queue == queued)
  }

  lemma PushFresh<V(!new)>(succ: V -> set<V>, start: V, limit: nat, dist: map<V, nat>, queue: seq<(V, nat)>, level: nat,
                           v: V, before: set<V>, queued: seq<(V, nat)>, w: V)
    requires Expanding(succ, start, limit, dist, queue, level, v, before, queued)
    requires w in succ(v) && w !in dist
    ensures Expanding(succ, start, limit, dist[w := level + 1], queue + [(w, level + 1)], level, v, before, queued) == true
  {
    PushFreshSound(succ, start, limit, dist, v, w);
    PushFreshShape(succ, start, limit, dist, queue, level, v, w);
    assert dist[w := level + 1].Keys == dist.Keys + {w} && w !in before;
  }

  lemma AllExpanded<V(!new)>(succ: V -> set<V>, start: V, limit: nat, dist: map<V, nat>, level: nat)
    requires PushShape(succ, start, limit, dist, [], level, {})
    ensures Relaxed(succ, {start}, limit, dist)
  {
    forall v, w | v in dist && dist[v] < limit && w in succ(v)
      ensures w in dist && dist[w] <= dist[v] + 1
    {
      assert Expanded(succ, limit, dist, v);
    }
  }

  lemma PushMarkingDone<V(!new)>(succ: V -> set<V>, start: V, limit: nat, dist: map<V, nat>, level: nat)
    requires PushMarking(succ, start, limit, dist, [], level, {})
    ensures dist.Keys == Ball(succ, {start}, limit)
  {
    AllExpanded(succ, start, limit, dist, level);
    RelaxedIsBall(succ, {start}, limit, dist);
  }

  // ----- a search that may stop at its depth limit

  /** The shortest path from a root to `v` has exactly `n` steps. */
  ghost predicate AtDistance<V(!new)>(succ: V -> set<V>, roots: set<V>, v: V, n: nat) {
    v in Ball(succ, roots, n) && (n > 0 ==> v !in Ball(succ, roots, n - 1))
  }

  /** Some edge leaves the last layer of the ball, or joins two different vertices of that layer. */
  ghost predicate EdgeAtTheRim<V(!new)>(succ: V -> set<V>, roots: set<V>, n: nat) {
    exists v, w ::
      && AtDistance(succ, roots, v, n) && w in succ(v) && w != v
      && (w !in Ball(succ, roots, n) || AtDistance(succ, roots, w, n))
  }

  /** The vertices of the ball in an order of expansion: each once, nearer ones first. */
  ghost predicate ExpansionOrder<V(!new)>(succ: V -> set<V>, roots: set<V>, n: nat, order: seq<V>) {
    && (forall v :: v in order <==> v in Ball(succ, roots, n))
    && (forall i, j :: 0 <= i < j < |order| ==> order[i] != order[j])
    && (forall i, j, m: nat :: 0 <= i < j < |order| && AtDistance(succ, roots, order[j], m) ==> order[i] in Ball(succ, roots, m))
  }

  /** Some vertex of the last layer comes before one of its successors, or has one outside the ball. */
  ghost predicate Alarm<V(!new)>(succ: V -> set<V>, roots: set<V>, n: nat, order: seq<V>) {
    exists i :: 0 <= i < |order| && AlarmAt(succ, roots, n, order, i)
  }

  ghost predicate AlarmAt<V(!new)>(succ: V -> set<V>, roots: set<V>, n: nat, order: seq<V>, i: nat)
    requires i < |order|
  {
    AtDistance(succ, roots, order[i], n) && exists w <- succ(order[i]) :: w !in order[..i + 1]
  }

  /** No alarm means nothing lies beyond the ball; an alarm means an edge at its rim. */
  lemma AlarmMeaning<V(!new)>(succ: V -> set<V>, roots: set<V>, n: nat, order: seq<V>)
    requires ExpansionOrder(succ, roots, n, order)
    ensures !Alarm(succ, roots, n, order) ==> Closed(succ, Ball(succ, roots, n))
    ensures Alarm(succ, roots, n, order) ==> EdgeAtTheRim(succ, roots, n)
  {
    if Alarm(succ, roots, n, order) {
      var i :| 0 <= i < |order| && AlarmAt(succ, roots, n, order, i);
      AlarmAtTheRim(succ, roots, n, order, i);
    } else {
      forall v, w | v in Ball(succ, roots, n) && w in succ(v)
        ensures w in Ball(succ, roots, n)
      {
        QuietStaysInside(succ, roots, n, order, v, w);
      }
    }
  }

  lemma AlarmAtTheRim<V(!new)>(succ: V -> set<V>, roots: set<V>, n: nat, order: seq<V>, i: nat)
    requires ExpansionOrder(succ, roots, n, order) && i < |order| && AlarmAt(succ, roots, n, order, i)
    ensures EdgeAtTheRim(succ, roots, n)
  {
    var v := order[i];
    var w :| w in succ(v) && w !in order[..i + 1];
    assert v == order[..i + 1][i];
    if w in Ball(succ, roots, n) {
      var j := FoundLater(order, i, w);
      LaterIsFarther(succ, roots, n, order, i, j);
    }
  }

  lemma FoundLater<V>(order: seq<V>, i: nat, w: V) returns (j: nat)
    requires i < |order| && w in order && w !in order[..i + 1]
    ensures i < j < |order| && order[j] == w
  {
    var rest := order[i + 1..];
    assert order == order[..i + 1] + rest;
    var k :| 0 <= k < |rest| && rest[k] == w;
    j := i + 1 + k;
  }

  lemma QuietStaysInside<V(!new)>(succ: V -> set<V>, roots: set<V>, n: nat, order: seq<V>, v: V, w: V)
    requires ExpansionOrder(succ, roots, n, order) && !Alarm(succ, roots, n, order)
    requires v in Ball(succ, roots, n) && w in succ(v)
    ensures w in Ball(succ, roots, n)
  {
    if AtDistance(succ, roots, v, n) {
      assert v in order;
      var i :| 0 <= i < |order| && order[i] == v;
      assert !AlarmAt(succ, roots, n, order, i);
      assert w in order[..i + 1];
      var j :| 0 <= j < i + 1 && order[..i + 1][j] == w;
      assert order[j] == w;
    } else {
      StepFrom(succ, roots, v, w, n - 1);
    }
  }

  lemma LaterIsFarther<V(!new)>(succ: V -> set<V>, roots: set<V>, n: nat, order: seq<V>, i: nat, j: nat)
    requires ExpansionOrder(succ, roots, n, order) && i < j < |order| && AtDistance(succ, roots, order[i], n)
    ensures AtDistance(succ, roots, order[j], n)
  {
    if n > 0 && order[j] in Ball(succ, roots, n - 1) {
      var m := Distance(succ, roots, order[j], n - 1);
      BallGrows(succ, roots, m, n - 1);
    }
  }

  lemma {:induction false} Distance<V(!new)>(succ: V -> set<V>, roots: set<V>, v: V, n: nat) returns (m: nat)
    requires v in Ball(succ, roots, n)
    ensures m <= n && AtDistance(succ, roots, v, m)
  {
    m := n;
    if n > 0 && v in Ball(succ, roots, n - 1) {
      m := Distance(succ, roots, v, n - 1);
    }
  }

  // ----- the same facts in terms of recorded depths, while the search runs

  ghost predicate RecordedOrder<V(!new)>(dist: map<V, nat>, order: seq<V>) {
    && (forall v :: v in order <==> v in dist)
    && (forall i, j :: 0 <= i < j < |order| ==> order[i] != order[j] && dist[order[i]] <= dist[order[j]])
  }

  ghost predicate RecordedAlarm<V(!new)>(succ: V -> set<V>, limit: nat, dist: map<V, nat>, order: seq<V>, i: nat)
    requires i < |order|
  {
    order[i] in dist && dist[order[i]] == limit && exists w <- succ(order[i]) :: w !in order[..i + 1]
  }

  ghost predicate DepthFlag<V(!new)>(succ: V -> set<V>, limit: nat, dist: map<V, nat>, order: seq<V>, depthCut: bool) {
    && RecordedOrder(dist, order)
    && (depthCut <==> exists i :: 0 <= i < |order| && RecordedAlarm(succ, limit, dist, order, i))
  }

  /** Expanding `v` next raises the flag exactly when `v` is at the limit and has an unseen successor. */
  lemma FlagAfter<V(!new)>(succ: V -> set<V>, limit: nat, dist: map<V, nat>, order: seq<V>, depthCut: bool, v: V, k: nat)
    requires DepthFlag(succ, limit, dist, order, depthCut)
    requires v !in dist && forall u <- dist :: dist[u] <= k
    ensures DepthFlag(succ, limit, dist[v := k], order + [v], depthCut || (k == limit && exists w <- succ(v) :: w !in dist.Keys + {v}))
  {
    var order', dist' := order + [v], dist[v := k];
    forall i | 0 <= i < |order|
      ensures RecordedAlarm(succ, limit, dist', order', i) <==> RecordedAlarm(succ, limit, dist, order, i)
    {
      assert order'[..i + 1] == order[..i + 1];
      assert order[i] in order;
    }
    assert order'[..|order| + 1] == order';
    assert forall w :: w in order' <==> w in dist.Keys + {v};
    assert RecordedAlarm(succ, limit, dist', order', |order|) <==> k == limit && exists w <- succ(v) :: w !in dist.Keys + {v};
  }

  lemma RecordedDistance<V(!new)>(succ: V -> set<V>, roots: set<V>, limit: nat, dist: map<V, nat>, v: V)
    requires Sound(succ, roots, limit, dist) && Relaxed(succ, roots, limit, dist) && v in dist
    ensures AtDistance(succ, roots, v, dist[v])
  {
    if dist[v] > 0 {
      RelaxedCovers(succ, roots, limit, dist, dist[v] - 1);
    }
  }

  lemma SameDistance<V(!new)>(succ: V -> set<V>, roots: set<V>, v: V, m: nat, n: nat)
    requires AtDistance(succ, roots, v, m) && AtDistance(succ, roots, v, n)
    ensures m == n
  {
    if m < n {
      BallGrows(succ, roots, m, n - 1);
    } else if n < m {
      BallGrows(succ, roots, n, m - 1);
    }
  }

  ghost predicate Exact<V(!new)>(succ: V -> set<V>, roots: set<V>, dist: map<V, nat>) {
    forall v, n: nat | v in dist :: AtDistance(succ, roots, v, n) <==> dist[v] == n
  }

  lemma RecordedIsExact<V(!new)>(succ: V -> set<V>, roots: set<V>, limit: nat, dist: map<V, nat>)
    requires Sound(succ, roots, limit, dist) && Relaxed(succ, roots, limit, dist)
    ensures Exact(succ, roots, dist)
  {
    forall v, n: nat | v in dist
      ensures AtDistance(succ, roots, v, n) <==> dist[v] == n
    {
      RecordedDistance(succ, roots, limit, dist, v);
      if AtDistance(succ, roots, v, n) {
        SameDistance(succ, roots, v, n, dist[v]);
      }
    }
  }

  lemma OrderIsExpansion<V(!new)>(succ: V -> set<V>, roots: set<V>, limit: nat, dist: map<V, nat>, order: seq<V>)
    requires Sound(succ, roots, limit, dist) && Exact(succ, roots, dist) && dist.Keys == Ball(succ, roots, limit)
    requires RecordedOrder(dist, order)
    ensures ExpansionOrder(succ, roots, limit, order)
  {
    forall i, j, m: nat | 0 <= i < j < |order| && AtDistance(succ, roots, order[j], m)
      ensures order[i] in Ball(succ, roots, m)
    {
      assert order[i] in order && order[j] in order;
      BallGrows(succ, roots, dist[order[i]], m);
    }
  }

  lemma SearchDone<V(!new)>(succ: V -> set<V>, roots: set<V>, limit: nat, dist: map<V, nat>, level: nat, order: seq<V>, depthCut: bool)
    requires PopMarking(succ, roots, limit, dist, [], level)
    requires DepthFlag(succ, limit, dist, order, depthCut)
    ensures dist.Keys == Ball(succ, roots, limit)
    ensures ExpansionOrder(succ, roots, limit, order)
    ensures depthCut <==> Alarm(succ, roots, limit, order)
  {
    PopMarkingDone(succ, roots, limit, dist, level);
    RelaxedIsBall(succ, roots, limit, dist);
    RecordedIsExact(succ, roots, limit, dist);
    OrderIsExpansion(succ, roots, limit, dist, order);
    AlarmIsRecorded(succ, roots, limit, dist, order);
  }

  lemma AlarmIsRecorded<V(!new)>(succ: V -> set<V>, roots: set<V>, limit: nat, dist: map<V, nat>, order: seq<V>)
    requires Exact(succ, roots, dist) && RecordedOrder(dist, order)
    ensures Alarm(succ, roots, limit, order) <==> exists i :: 0 <= i < |order| && RecordedAlarm(succ, limit, dist, order, i)
  {
    forall i | 0 <= i < |order|
      ensures AlarmAt(succ, roots, limit, order, i) <==> RecordedAlarm(succ, limit, dist, order, i)
    {
      assert order[i] in order;
    }
  }
}
