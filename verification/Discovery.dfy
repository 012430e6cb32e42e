/** The order in which a breadth-first search that marks vertices when they leave the queue expands
    them, and what its depth flag says for that order and for others. */
module Discovery {
  import opened Reach
  import opened Sorting

  // ----- first occurrences

  ghost function Members<V(!new)>(s: seq<V>): set<V> {
    set v | v in s
  }

  lemma MembersConcat<V(!new)>(a: seq<V>, b: seq<V>)
    ensures Members(a + b) == Members(a) + Members(b)
  {
  }

  lemma MembersCons<V(!new)>(v: V, s: seq<V>)
    ensures Members([v] + s) == {v} + Members(s)
  {
    assert Members([v]) == {v};
    MembersConcat([v], s);
  }

  /** The elements not seen before, each at its first occurrence. */
  ghost function Fresh<V(!new)>(s: seq<V>, seen: set<V>): seq<V> {
    if s == [] then []
    else if s[0] in seen then Fresh(s[1..], seen)
    else [s[0]] + Fresh(s[1..], seen + {s[0]})
  }

  lemma {:induction false} FreshMembers<V(!new)>(s: seq<V>, seen: set<V>)
    ensures Members(Fresh(s, seen)) == Members(s) - seen
  {
    if s != [] {
      var now := if s[0] in seen then seen else seen + {s[0]};
      FreshMembers(s[1..], now);
      assert s == [s[0]] + s[1..];
      MembersCons(s[0], s[1..]);
      MembersCons(s[0], Fresh(s[1..], now));
    }
  }

  lemma {:induction false} FreshConcat<V(!new)>(a: seq<V>, b: seq<V>, seen: set<V>)
    ensures Fresh(a + b, seen) == Fresh(a, seen) + Fresh(b, seen + Members(a))
  {
    if a == [] {
      assert a + b == b;
      assert seen + Members(a) == seen;
    } else {
      var now := if a[0] in seen then seen else seen + {a[0]};
      FreshConcat(a[1..], b, now);
      assert (a + b)[0] == a[0] && (a + b)[1..] == a[1..] + b;
      assert a == [a[0]] + a[1..];
      assert now + Members(a[1..]) == seen + Members(a);
      if a[0] !in seen {
        Associative([a[0]], Fresh(a[1..], now), Fresh(b, seen + Members(a)));
      }
    }
  }

  ghost function Unseen<V(!new)>(seen: set<V>): V -> bool {
    v => v !in seen
  }

  /** Dropping elements that were seen anyway changes nothing. */
  lemma {:induction false} FreshUnseen<V(!new)>(s: seq<V>, dropped: set<V>, seen: set<V>)
    requires dropped <= seen
    ensures Fresh(Filter(Unseen(dropped), s), seen) == Fresh(s, seen)
  {
    if s != [] {
      var rest := Filter(Unseen(dropped), s[1..]);
      if s[0] in seen {
        FreshUnseen(s[1..], dropped, seen);
        assert s[0] !in dropped ==> ([s[0]] + rest)[1..] == rest;
        assert s[0] in dropped ==> [] + rest == rest;
      } else {
        FreshUnseen(s[1..], dropped, seen + {s[0]});
        assert ([s[0]] + rest)[1..] == rest;
      }
    }
  }

  // ----- the order of discovery

  /** Everything queued once some vertices are expanded: the roots, and the successor lists of the
      expanded vertices that lie inside the depth limit. */
  ghost function Pushed<V(!new)>(roots: seq<V>, next: V -> seq<V>, inner: set<V>, order: seq<V>): seq<V> {
    if order == [] then roots
    else
      var v := order[|order| - 1];
      Pushed(roots, next, inner, order[..|order| - 1]) + if v in inner then next(v) else []
  }

  /** `v` is the first vertex queued that is not among those expanded before. */
  ghost predicate IsNext<V(!new)>(roots: seq<V>, next: V -> seq<V>, inner: set<V>, before: seq<V>, v: V) {
    var found := Fresh(Pushed(roots, next, inner, before), {});
    |found| > |before| && found[|before|] == v
  }

  /** Each vertex is the one a queue would yield after those before it. */
  ghost predicate Discovered<V(!new)>(roots: seq<V>, next: V -> seq<V>, inner: set<V>, order: seq<V>) {
    forall k | 0 <= k < |order| :: IsNext(roots, next, inner, order[..k], order[k])
  }

  /** The order of discovery is determined: of two such orders one continues the other. */
  lemma {:induction false} DiscoveredUnique<V(!new)>(roots: seq<V>, next: V -> seq<V>, inner: set<V>, a: seq<V>, b: seq<V>)
    requires Discovered(roots, next, inner, a) && Discovered(roots, next, inner, b) && |a| <= |b|
    ensures a == b[..|a|]
  {
    if a != [] {
      var n := |a| - 1;
      DiscoveredPrefix(roots, next, inner, a, n);
      DiscoveredUnique(roots, next, inner, a[..n], b);
      assert IsNext(roots, next, inner, a[..n], a[n]) && IsNext(roots, next, inner, b[..n], b[n]);
      assert a == a[..n] + [a[n]] && b[..n + 1] == b[..n] + [b[n]];
    }
  }

  lemma DiscoveredPrefix<V(!new)>(roots: seq<V>, next: V -> seq<V>, inner: set<V>, order: seq<V>, n: nat)
    requires Discovered(roots, next, inner, order) && n <= |order|
    ensures Discovered(roots, next, inner, order[..n])
  {
    forall k | 0 <= k < n
      ensures IsNext(roots, next, inner, order[..n][..k], order[..n][k])
    {
      assert order[..n][..k] == order[..k];
      assert IsNext(roots, next, inner, order[..k], order[k]);
    }
  }

  // ----- a queue that yields it

  /** The vertices expanded so far are in order of discovery, and the queue holds what comes next. */
  ghost predicate Queueing<V(!new)>(roots: seq<V>, next: V -> seq<V>, inner: set<V>, order: seq<V>, waiting: seq<V>) {
    && Discovered(roots, next, inner, order)
    && Fresh(Pushed(roots, next, inner, order), {}) == order + Fresh(waiting, Members(order))
  }

  lemma QueueingStart<V(!new)>(roots: seq<V>, next: V -> seq<V>, inner: set<V>)
    ensures Queueing(roots, next, inner, [], roots)
  {
    var none: seq<V> := [];
    assert Members(none) == {};
    assert none + Fresh(roots, {}) == Fresh(roots, {});
  }

  lemma QueueingSeen<V(!new)>(roots: seq<V>, next: V -> seq<V>, inner: set<V>, order: seq<V>, waiting: seq<V>)
    requires Queueing(roots, next, inner, order, waiting) && waiting != [] && waiting[0] in order
    ensures Queueing(roots, next, inner, order, waiting[1..])
  {
  }

  lemma QueueingHead<V(!new)>(roots: seq<V>, next: V -> seq<V>, inner: set<V>, order: seq<V>, waiting: seq<V>)
    requires Queueing(roots, next, inner, order, waiting) && waiting != [] && waiting[0] !in order
    ensures Discovered(roots, next, inner, order + [waiting[0]])
    ensures Fresh(Pushed(roots, next, inner, order), {})
         == order + [waiting[0]] + Fresh(waiting[1..], Members(order + [waiting[0]]))
  {
    var v := waiting[0];
    var longer := order + [v];
    assert Members(longer) == Members(order) + {v};
    Associative(order, [v], Fresh(waiting[1..], Members(longer)));
    forall k | 0 <= k < |longer|
      ensures IsNext(roots, next, inner, longer[..k], longer[k])
    {
      if k < |order| {
        assert longer[..k] == order[..k];
        assert IsNext(roots, next, inner, order[..k], order[k]);
      } else {
        assert longer[..k] == order;
      }
    }
  }

  /** Expanding the head of the queue and queueing its unseen successors, if it is inside the limit. */
  lemma QueueingNew<V(!new)>(
    roots: seq<V>, next: V -> seq<V>, inner: set<V>, order: seq<V>, waiting: seq<V>, pushed: seq<V>)
    requires Queueing(roots, next, inner, order, waiting) && waiting != [] && waiting[0] !in order
    requires pushed == if waiting[0] in inner then Filter(Unseen(Members(order) + {waiting[0]}), next(waiting[0])) else []
    ensures Queueing(roots, next, inner, order + [waiting[0]], waiting[1..] + pushed)
  {
    var v, rest := waiting[0], waiting[1..];
    var longer, before := order + [v], Pushed(roots, next, inner, order);
    QueueingHead(roots, next, inner, order, waiting);
    assert longer[..|order|] == order;
    assert Members(longer) == Members(order) + {v};
    if v in inner {
      FreshAfter(before, longer, rest, next(v));
    } else {
      assert before + [] == before && rest + [] == rest;
    }
  }

  /** Queueing the unseen elements of a list puts them where all of the list would put them. */
  lemma FreshAfter<V(!new)>(before: seq<V>, longer: seq<V>, rest: seq<V>, list: seq<V>)
    requires Fresh(before, {}) == longer + Fresh(rest, Members(longer))
    ensures Fresh(before + list, {})
         == longer + Fresh(rest + Filter(Unseen(Members(longer)), list), Members(longer))
  {
    var pushed, all := Filter(Unseen(Members(longer)), list), Members(longer) + Members(rest);
    FreshConcat(before, list, {});
    FreshConcat(rest, pushed, Members(longer));
    assert {} + Members(before) == all by {
      FreshMembers(before, {});
      FreshMembers(rest, Members(longer));
      MembersConcat(longer, Fresh(rest, Members(longer)));
    }
    FreshUnseen(list, Members(longer), all);
    Associative(longer, Fresh(rest, Members(longer)), Fresh(list, all));
  }

  // ----- recorded depths are distances, at every moment of the search

  /** Everything nearer than the head of the queue has been recorded. */
  lemma {:induction false} NearerIsRecorded<V(!new)>(
    succ: V -> set<V>, roots: set<V>, limit: nat, dist: map<V, nat>, queue: seq<(V, nat)>, level: nat, n: nat)
    requires PopMarking(succ, roots, limit, dist, queue, level) && queue != [] && n < queue[0].1
    ensures forall v <- Ball(succ, roots, n) :: v in dist && dist[v] <= n
  {
    HeadIsNearest(succ, roots, limit, dist, queue, level);
    if n == 0 {
      forall v | v in roots
        ensures v in dist && dist[v] <= 0
      {
        assert Settled(dist, queue, v, 0);
      }
    } else {
      NearerIsRecorded(succ, roots, limit, dist, queue, level, n - 1);
      forall v | v in Ball(succ, roots, n)
        ensures v in dist && dist[v] <= n
      {
        StepIsRecorded(succ, roots, limit, dist, queue, level, n, v);
      }
    }
  }

  lemma HeadIsNearest<V(!new)>(
    succ: V -> set<V>, roots: set<V>, limit: nat, dist: map<V, nat>, queue: seq<(V, nat)>, level: nat)
    requires PopMarking(succ, roots, limit, dist, queue, level) && queue != []
    ensures queue[0].1 <= limit && forall e <- queue :: e.1 >= queue[0].1
  {
    assert queue[0] in queue;
  }

  lemma StepIsRecorded<V(!new)>(
    succ: V -> set<V>, roots: set<V>, limit: nat, dist: map<V, nat>, queue: seq<(V, nat)>, level: nat, n: nat, v: V)
    requires PopShape(succ, roots, limit, dist, queue, level) && 0 < n < limit
    requires forall e <- queue :: e.1 > n
    requires forall u <- Ball(succ, roots, n - 1) :: u in dist && dist[u] <= n - 1
    requires v in Ball(succ, roots, n)
    ensures v in dist && dist[v] <= n
  {
    if v !in Ball(succ, roots, n - 1) {
      var u :| u in Ball(succ, roots, n - 1) && v in succ(u);
      assert Settled(dist, queue, v, dist[u] + 1);
    }
  }

  /** The head of the queue is queued at its distance. */
  lemma HeadAtDistance<V(!new)>(
    succ: V -> set<V>, roots: set<V>, limit: nat, dist: map<V, nat>, queue: seq<(V, nat)>, level: nat)
    requires PopMarking(succ, roots, limit, dist, queue, level) && queue != [] && queue[0].0 !in dist
    ensures AtDistance(succ, roots, queue[0].0, queue[0].1)
  {
    assert queue[0] in queue;
    if queue[0].1 > 0 {
      NearerIsRecorded(succ, roots, limit, dist, queue, level, queue[0].1 - 1);
    }
  }

  lemma ExactWith<V(!new)>(succ: V -> set<V>, roots: set<V>, dist: map<V, nat>, v: V, k: nat)
    requires Exact(succ, roots, dist) && AtDistance(succ, roots, v, k)
    ensures Exact(succ, roots, dist[v := k])
  {
    forall u, n: nat | u in dist[v := k]
      ensures AtDistance(succ, roots, u, n) <==> dist[v := k][u] == n
    {
      if u == v && AtDistance(succ, roots, v, n) {
        SameDistance(succ, roots, v, k, n);
      }
    }
  }

  /** The vertices whose successors are followed under a depth limit. */
  ghost function Inner<V(!new)>(succ: V -> set<V>, roots: set<V>, limit: nat): set<V> {
    if limit == 0 then {} else Ball(succ, roots, limit - 1)
  }

  lemma InnerByDistance<V(!new)>(succ: V -> set<V>, roots: set<V>, limit: nat, v: V, k: nat)
    requires AtDistance(succ, roots, v, k)
    ensures v in Inner(succ, roots, limit) <==> k < limit
  {
    if k < limit {
      BallGrows(succ, roots, k, limit - 1);
    } else if limit > 0 {
      BallGrows(succ, roots, limit - 1, k - 1);
    }
  }

  // ----- which orders raise the flag

  lemma {:induction false} Enumerate<V(!new)>(s: set<V>) returns (q: seq<V>)
    ensures Members(q) == s && forall i, j :: 0 <= i < j < |q| ==> q[i] != q[j]
  {
    if s == {} {
      q := [];
    } else {
      var v :| v in s;
      q := Enumerate(s - {v});
      assert forall w <- q :: w in Members(q);
      MembersCons(v, q);
      q := [v] + q;
    }
  }

  /** The vertices of the last layer. */
  ghost function Rim<V(!new)>(succ: V -> set<V>, roots: set<V>, n: nat): set<V> {
    Ball(succ, roots, n) - Inner(succ, roots, n)
  }

  /** An order of the inner ball followed by the last layer in any order. */
  lemma OrderOfLayers<V(!new)>(succ: V -> set<V>, roots: set<V>, n: nat, inner: seq<V>, rim: seq<V>)
    requires if n == 0 then inner == [] else ExpansionOrder(succ, roots, n - 1, inner)
    requires Members(rim) == Rim(succ, roots, n) && forall i, j :: 0 <= i < j < |rim| ==> rim[i] != rim[j]
    ensures ExpansionOrder(succ, roots, n, inner + rim)
  {
    var order := inner + rim;
    assert Members(inner) == Inner(succ, roots, n);
    forall v
      ensures v in order <==> v in Ball(succ, roots, n)
    {
      assert v in order <==> v in Members(inner) || v in Members(rim);
      if n > 0 {
        BallGrows(succ, roots, n - 1, n);
      }
    }
    forall i, j | 0 <= i < j < |order|
      ensures order[i] != order[j]
    {
      assert i < |inner| ==> order[i] in Members(inner);
      assert j >= |inner| ==> order[j] in Members(rim);
    }
    forall i, j, m: nat | 0 <= i < j < |order| && AtDistance(succ, roots, order[j], m)
      ensures order[i] in Ball(succ, roots, m)
    {
      LayersAscend(succ, roots, n, inner, rim, i, j, m);
    }
  }

  lemma LayersAscend<V(!new)>(
    succ: V -> set<V>, roots: set<V>, n: nat, inner: seq<V>, rim: seq<V>, i: nat, j: nat, m: nat)
    requires if n == 0 then inner == [] else ExpansionOrder(succ, roots, n - 1, inner)
    requires Members(rim) == Rim(succ, roots, n)
    requires i < j < |inner + rim| && AtDistance(succ, roots, (inner + rim)[j], m)
    ensures (inner + rim)[i] in Ball(succ, roots, m)
  {
    var order := inner + rim;
    if j >= |inner| {
      assert order[j] in Members(rim);
      InnerByDistance(succ, roots, n, order[j], m);
      assert m >= n;
      if i < |inner| {
        assert order[i] in inner;
        BallGrows(succ, roots, n - 1, m);
      } else {
        assert order[i] in Members(rim);
        BallGrows(succ, roots, n, m);
      }
    } else {
      assert order[i] == inner[i] && order[j] == inner[j];
    }
  }

  /** The ball can be expanded nearest first with any vertex of the last layer first in its layer. */
  lemma {:induction false} OrderWith<V(!new)>(succ: V -> set<V>, roots: set<V>, n: nat, v: V) returns (order: seq<V>, at: nat)
    requires v in Rim(succ, roots, n)
    ensures ExpansionOrder(succ, roots, n, order)
    ensures at < |order| && order[at] == v && Members(order[..at]) == Inner(succ, roots, n)
  {
    var inner := OrderInside(succ, roots, n);
    var others := Enumerate(Rim(succ, roots, n) - {v});
    var rim := [v] + others;
    MembersCons(v, others);
    assert forall w <- others :: w in Members(others);
    OrderOfLayers(succ, roots, n, inner, rim);
    order, at := inner + rim, |inner|;
    assert order[..at] == inner;
  }

  lemma OrderInside<V(!new)>(succ: V -> set<V>, roots: set<V>, n: nat) returns (inner: seq<V>)
    ensures if n == 0 then inner == [] else ExpansionOrder(succ, roots, n - 1, inner)
    ensures Members(inner) == Inner(succ, roots, n)
    decreases n, 0
  {
    inner := [];
    if n > 0 {
      inner := SomeOrder(succ, roots, n - 1);
    }
  }

  lemma {:induction false} SomeOrder<V(!new)>(succ: V -> set<V>, roots: set<V>, n: nat) returns (order: seq<V>)
    ensures ExpansionOrder(succ, roots, n, order)
    decreases n, 1
  {
    var inner := OrderInside(succ, roots, n);
    var rim := Enumerate(Rim(succ, roots, n));
    OrderOfLayers(succ, roots, n, inner, rim);
    order := inner + rim;
  }

  lemma RimIsAtDistance<V(!new)>(succ: V -> set<V>, roots: set<V>, n: nat, v: V)
    ensures v in Rim(succ, roots, n) <==> AtDistance(succ, roots, v, n)
  {
  }

  /** Some order raises the flag exactly when an edge leaves the last layer or joins two different
      vertices of it. */
  lemma SomeOrderAlarms<V(!new)>(succ: V -> set<V>, roots: set<V>, n: nat)
    ensures (exists order :: ExpansionOrder(succ, roots, n, order) && Alarm(succ, roots, n, order))
            <==> EdgeAtTheRim(succ, roots, n)
  {
    if exists order :: ExpansionOrder(succ, roots, n, order) && Alarm(succ, roots, n, order) {
      var order :| ExpansionOrder(succ, roots, n, order) && Alarm(succ, roots, n, order);
      AlarmMeaning(succ, roots, n, order);
    }
    if EdgeAtTheRim(succ, roots, n) {
      var order := RimEdgeAlarms(succ, roots, n);
    }
  }

  lemma RimEdgeAlarms<V(!new)>(succ: V -> set<V>, roots: set<V>, n: nat) returns (order: seq<V>)
    requires EdgeAtTheRim(succ, roots, n)
    ensures ExpansionOrder(succ, roots, n, order) == true
    ensures Alarm(succ, roots, n, order) == true
  {
    var v, w :| AtDistance(succ, roots, v, n) && w in succ(v) && w != v
                && (w !in Ball(succ, roots, n) || AtDistance(succ, roots, w, n));
    if n > 0 {
      BallGrows(succ, roots, n - 1, n);
    }
    order := AlarmingOrder(succ, roots, n, v, w);
  }

  lemma AlarmingOrder<V(!new)>(succ: V -> set<V>, roots: set<V>, n: nat, v: V, w: V) returns (order: seq<V>)
    requires AtDistance(succ, roots, v, n) && w in succ(v) && w != v && w !in Inner(succ, roots, n)
    ensures ExpansionOrder(succ, roots, n, order) == true
    ensures Alarm(succ, roots, n, order) == true
  {
    RimIsAtDistance(succ, roots, n, v);
    var at;
    order, at := OrderWith(succ, roots, n, v);
    assert order[..at + 1] == order[..at] + [v];
    assert w !in Members(order[..at]);
    assert AlarmAt(succ, roots, n, order, at);
  }

  /** An edge joins two different vertices of the last layer. */
  ghost predicate EdgeInTheRim<V(!new)>(succ: V -> set<V>, roots: set<V>, n: nat) {
    exists v, w :: AtDistance(succ, roots, v, n) && AtDistance(succ, roots, w, n) && w in succ(v) && w != v
  }

  /** The flag tells, in every order of expansion, whether anything lies beyond the ball exactly when
      something does or no edge joins two different vertices of the last layer. */
  lemma FlagIsRightIff<V(!new)>(succ: V -> set<V>, roots: set<V>, n: nat)
    ensures (forall order :: ExpansionOrder(succ, roots, n, order) ==>
                               (Alarm(succ, roots, n, order) <==> !Closed(succ, Ball(succ, roots, n))))
            <==> (Closed(succ, Ball(succ, roots, n)) ==> !EdgeInTheRim(succ, roots, n))
  {
    if Closed(succ, Ball(succ, roots, n)) ==> !EdgeInTheRim(succ, roots, n) {
      forall order | ExpansionOrder(succ, roots, n, order)
        ensures Alarm(succ, roots, n, order) <==> !Closed(succ, Ball(succ, roots, n))
      {
        AlarmMeaning(succ, roots, n, order);
      }
    } else {
      var v, w :| AtDistance(succ, roots, v, n) && AtDistance(succ, roots, w, n) && w in succ(v) && w != v;
      var order := AlarmingOrder(succ, roots, n, v, w);
    }
  }

  /** A vertex of the last layer comes before another one that it has an edge to. */
  ghost predicate ForwardInTheRim<V(!new)>(succ: V -> set<V>, roots: set<V>, n: nat, order: seq<V>) {
    exists i, j :: 0 <= i < j < |order| && AtDistance(succ, roots, order[i], n) && order[j] in succ(order[i])
  }

  /** In one order of expansion the flag tells whether anything lies beyond the ball exactly when
      something does or no edge of the last layer points forward in that order. */
  lemma FlagIsRightInOrderIff<V(!new)>(succ: V -> set<V>, roots: set<V>, n: nat, order: seq<V>)
    requires ExpansionOrder(succ, roots, n, order)
    ensures (Alarm(succ, roots, n, order) <==> !Closed(succ, Ball(succ, roots, n)))
            <==> (Closed(succ, Ball(succ, roots, n)) ==> !ForwardInTheRim(succ, roots, n, order))
  {
    AlarmMeaning(succ, roots, n, order);
    if Alarm(succ, roots, n, order) && Closed(succ, Ball(succ, roots, n)) {
      var i :| 0 <= i < |order| && AlarmAt(succ, roots, n, order, i);
      var w :| w in succ(order[i]) && w !in order[..i + 1];
      assert order[i] in order;
      var j := FoundLater(order, i, w);
    }
    if ForwardInTheRim(succ, roots, n, order) {
      var i, j :| 0 <= i < j < |order| && AtDistance(succ, roots, order[i], n) && order[j] in succ(order[i]);
      assert order[j] !in order[..i + 1];
      assert AlarmAt(succ, roots, n, order, i);
    }
  }
}
