/** Values that carry a tag, taken tag by tag in some order, and when that order makes no difference. */
module Grouping {
  import opened Sorting

  datatype Tagged<S, V> = Tagged(tag: S, value: V)

  function Values<S, V>(ts: seq<Tagged<S, V>>): seq<V> {
    if ts == [] then [] else Values(ts[..|ts| - 1]) + [ts[|ts| - 1].value]
  }

  /** The values that carry one tag. */
  function Part<S(==), V>(ts: seq<Tagged<S, V>>, s: S): seq<V> {
    if ts == [] then []
    else Part(ts[..|ts| - 1], s) + if ts[|ts| - 1].tag == s then [ts[|ts| - 1].value] else []
  }

  /** The tags, in the order in which they first occur. */
  function FirstTags<S(==), V>(ts: seq<Tagged<S, V>>): seq<S> {
    if ts == [] then []
    else
      var before, tag := FirstTags(ts[..|ts| - 1]), ts[|ts| - 1].tag;
      if tag in before then before else before + [tag]
  }

  /** What is taken when tags are visited in some order. */
  function Joined<S, V>(part: S -> seq<V>, order: seq<S>): seq<V> {
    if order == [] then [] else Joined(part, order[..|order| - 1]) + part(order[|order| - 1])
  }

  function PartsOf<S(==), V>(ts: seq<Tagged<S, V>>): S -> seq<V> {
    s => Part(ts, s)
  }

  function Passing<S, V>(p: V -> bool, part: S -> seq<V>): S -> seq<V> {
    s => Filter(p, part(s))
  }

  ghost predicate NoRepeats<S>(order: seq<S>) {
    forall i, j :: 0 <= i < j < |order| ==> order[i] != order[j]
  }

  /** Every tag with values is visited, and none twice. */
  ghost predicate Covers<S(!new), V>(order: seq<S>, part: S -> seq<V>) {
    NoRepeats(order) && forall s :: part(s) != [] ==> s in order
  }

  ghost predicate OrderOf<S(!new)>(order: seq<S>, domain: set<S>) {
    NoRepeats(order) && forall s :: s in order <==> s in domain
  }

  /** The values of two tags come to the same whichever is taken first. */
  ghost predicate Commuting<S(!new), V>(part: S -> seq<V>) {
    forall s, t :: part(s) + part(t) == part(t) + part(s)
  }

  // ----- pieces

  lemma {:induction false} ValuesConcat<S, V>(a: seq<Tagged<S, V>>, b: seq<Tagged<S, V>>)
    ensures Values(a + b) == Values(a) + Values(b)
  {
    if b == [] {
      assert a + b == a;
    } else {
      ValuesConcat(a, b[..|b| - 1]);
      assert (a + b)[..|a + b| - 1] == a + b[..|b| - 1];
      Associative(Values(a), Values(b[..|b| - 1]), [b[|b| - 1].value]);
    }
  }

  lemma {:induction false} PartConcat<S, V>(a: seq<Tagged<S, V>>, b: seq<Tagged<S, V>>, s: S)
    ensures Part(a + b, s) == Part(a, s) + Part(b, s)
  {
    if b == [] {
      assert a + b == a;
    } else {
      PartConcat(a, b[..|b| - 1], s);
      assert (a + b)[..|a + b| - 1] == a + b[..|b| - 1];
      Associative(Part(a, s), Part(b[..|b| - 1], s), if b[|b| - 1].tag == s then [b[|b| - 1].value] else []);
    }
  }

  lemma {:induction false} JoinedConcat<S, V>(part: S -> seq<V>, a: seq<S>, b: seq<S>)
    ensures Joined(part, a + b) == Joined(part, a) + Joined(part, b)
  {
    if b == [] {
      assert a + b == a;
    } else {
      JoinedConcat(part, a, b[..|b| - 1]);
      assert (a + b)[..|a + b| - 1] == a + b[..|b| - 1];
      Associative(Joined(part, a), Joined(part, b[..|b| - 1]), part(b[|b| - 1]));
    }
  }

  lemma JoinedOne<S, V>(part: S -> seq<V>, s: S)
    ensures Joined(part, [s]) == part(s)
  {
    assert [s][..0] == [];
  }

  lemma {:induction false} JoinedNothing<S, V>(part: S -> seq<V>, order: seq<S>)
    requires forall s <- order :: part(s) == []
    ensures Joined(part, order) == []
  {
    if order != [] {
      JoinedNothing(part, order[..|order| - 1]);
    }
  }

  lemma {:induction false} FilterJoined<S, V>(p: V -> bool, part: S -> seq<V>, order: seq<S>)
    ensures Filter(p, Joined(part, order)) == Joined(Passing(p, part), order)
  {
    if order != [] {
      FilterJoined(p, part, order[..|order| - 1]);
      FilterConcat(p, Joined(part, order[..|order| - 1]), part(order[|order| - 1]));
    }
  }

  lemma {:induction false} FirstTagsCover<S(!new), V>(ts: seq<Tagged<S, V>>)
    ensures NoRepeats(FirstTags(ts))
    ensures forall s :: s in FirstTags(ts) <==> exists t <- ts :: t.tag == s
  {
    if ts != [] {
      FirstTagsCover(ts[..|ts| - 1]);
      assert ts == ts[..|ts| - 1] + [ts[|ts| - 1]];
    }
  }

  lemma {:induction false} PartMembers<S(!new), V(!new)>(ts: seq<Tagged<S, V>>, s: S)
    ensures forall v :: v in Part(ts, s) <==> Tagged(s, v) in ts
  {
    if ts != [] {
      PartMembers(ts[..|ts| - 1], s);
      assert ts == ts[..|ts| - 1] + [ts[|ts| - 1]];
    }
  }

  lemma {:induction false} ValuesMembers<S(!new), V(!new)>(ts: seq<Tagged<S, V>>)
    ensures forall v :: v in Values(ts) <==> exists s :: Tagged(s, v) in ts
  {
    if ts != [] {
      var init, last := ts[..|ts| - 1], ts[|ts| - 1];
      ValuesMembers(init);
      assert ts == init + [last];
      forall v
        ensures v in Values(ts) <==> exists s :: Tagged(s, v) in ts
      {
        if v in Values(init) {
          var s :| Tagged(s, v) in init;
          assert Tagged(s, v) in ts;
        } else if v == last.value {
          assert Tagged(last.tag, v) in ts;
        }
      }
    }
  }

  lemma {:induction false} JoinedMembers<S(!new), V(!new)>(part: S -> seq<V>, order: seq<S>)
    ensures forall v :: v in Joined(part, order) <==> exists s <- order :: v in part(s)
  {
    if order != [] {
      JoinedMembers(part, order[..|order| - 1]);
      assert order == order[..|order| - 1] + [order[|order| - 1]];
    }
  }

  /** Taking everything tag by tag loses and adds nothing. */
  lemma SameMembersJoined<S(!new), V(!new)>(ts: seq<Tagged<S, V>>, order: seq<S>)
    requires forall t <- ts :: t.tag in order
    ensures forall v :: v in Joined(PartsOf(ts), order) <==> v in Values(ts)
  {
    ValuesMembers(ts);
    JoinedMembers(PartsOf(ts), order);
    forall v
      ensures v in Joined(PartsOf(ts), order) <==> v in Values(ts)
    {
      if v in Joined(PartsOf(ts), order) {
        var s :| s in order && v in PartsOf(ts)(s);
        PartMembers(ts, s);
      }
      if v in Values(ts) {
        var s :| Tagged(s, v) in ts;
        PartMembers(ts, s);
        assert v in PartsOf(ts)(s) && Tagged(s, v).tag in order;
      }
    }
  }

  // ----- the order of the visits

  /** The values of one tag may be moved past those of any others. */
  lemma {:induction false} CommutesWithJoined<S(!new), V>(part: S -> seq<V>, s: S, order: seq<S>)
    requires Commuting(part)
    ensures part(s) + Joined(part, order) == Joined(part, order) + part(s)
  {
    if order != [] {
      var rest, last := Joined(part, order[..|order| - 1]), part(order[|order| - 1]);
      CommutesWithJoined(part, s, order[..|order| - 1]);
      Associative(part(s), rest, last);
      Associative(rest, part(s), last);
      assert part(s) + last == last + part(s);
      Associative(rest, last, part(s));
    }
  }

  /** So all orders come to the same. */
  lemma OrdersAgree<S(!new), V>(part: S -> seq<V>, v: seq<S>, w: seq<S>)
    requires Commuting(part) && Covers(v, part) && Covers(w, part)
    ensures Joined(part, v) == Joined(part, w)
  {
    AnyTwoOrders(part, v, w);
  }

  /** Both orders visit the same tags, of those with values. */
  ghost predicate SameVisits<S(!new), V>(part: S -> seq<V>, v: seq<S>, w: seq<S>) {
    NoRepeats(v) && NoRepeats(w) && forall s :: part(s) != [] ==> (s in v <==> s in w)
  }

  lemma {:induction false} AnyTwoOrders<S(!new), V>(part: S -> seq<V>, v: seq<S>, w: seq<S>)
    requires Commuting(part) && SameVisits(part, v, w) == true
    ensures Joined(part, v) == Joined(part, w)
  {
    if v == [] {
      JoinedNothing(part, w);
    } else {
      var init, last := v[..|v| - 1], v[|v| - 1];
      assert v == init + [last];
      var rest := LastVisit(part, init, last, w);
      AnyTwoOrders(part, init, rest);
    }
  }

  /** The last visit of one order may be made the last of the other. */
  lemma LastVisit<S(!new), V>(part: S -> seq<V>, init: seq<S>, last: S, w: seq<S>) returns (rest: seq<S>)
    requires Commuting(part) && SameVisits(part, init + [last], w) == true
    ensures SameVisits(part, init, rest) == true
    ensures Joined(part, w) == Joined(part, rest) + part(last)
  {
    if last in w {
      var a, b := Around(w, last);
      FewerVisits(part, init, a, last, b);
      MovedToEnd(part, a, last, b);
      rest := a + b;
    } else {
      LastWithout(part, init, last, w);
      rest := w;
    }
  }

  lemma Around<S>(w: seq<S>, s: S) returns (a: seq<S>, b: seq<S>)
    requires s in w
    ensures w == a + [s] + b
  {
    var i :| 0 <= i < |w| && w[i] == s;
    a, b := w[..i], w[i + 1..];
  }

  lemma FewerVisits<S(!new), V>(part: S -> seq<V>, init: seq<S>, a: seq<S>, s: S, b: seq<S>)
    requires SameVisits(part, init + [s], a + [s] + b)
    ensures SameVisits(part, init, a + b) == true
  {
    WithoutLast(init, s);
    WithoutOne(a, s, b);
  }

  lemma LastWithout<S(!new), V>(part: S -> seq<V>, init: seq<S>, s: S, w: seq<S>)
    requires SameVisits(part, init + [s], w) && s !in w
    ensures SameVisits(part, init, w) == true && part(s) == []
  {
    WithoutLast(init, s);
  }

  lemma WithoutLast<S(!new)>(init: seq<S>, s: S)
    requires NoRepeats(init + [s])
    ensures NoRepeats(init)
    ensures forall t :: t in init <==> t in init + [s] && t != s
  {
    var v := init + [s];
    assert forall i :: 0 <= i < |init| ==> init[i] == v[i] && v[i] != v[|init|];
  }

  lemma WithoutOne<S(!new)>(a: seq<S>, s: S, b: seq<S>)
    requires NoRepeats(a + [s] + b)
    ensures NoRepeats(a + b)
    ensures forall t :: t in a + b <==> t in a + [s] + b && t != s
  {
    var w, others := a + [s] + b, a + b;
    forall i | 0 <= i < |others|
      ensures others[i] == w[if i < |a| then i else i + 1] && others[i] != w[|a|]
    {
    }
    forall t | t in w && t != s
      ensures t in others
    {
      var j :| 0 <= j < |w| && w[j] == t;
      assert others[if j < |a| then j else j - 1] == t;
    }
  }

  lemma MovedToEnd<S(!new), V>(part: S -> seq<V>, a: seq<S>, s: S, b: seq<S>)
    requires Commuting(part)
    ensures Joined(part, a + [s] + b) == Joined(part, a + b) + part(s)
  {
    JoinedAround(part, a, s, b);
    JoinedConcat(part, a, b);
    CommutesWithJoined(part, s, b);
    LastTwoSwapped(Joined(part, a), part(s), Joined(part, b));
  }

  lemma JoinedAround<S, V>(part: S -> seq<V>, a: seq<S>, s: S, b: seq<S>)
    ensures Joined(part, a + [s] + b) == Joined(part, a) + part(s) + Joined(part, b)
  {
    JoinedConcat(part, a + [s], b);
    JoinedConcat(part, a, [s]);
    JoinedOne(part, s);
  }

  lemma LastTwoSwapped<V>(a: seq<V>, x: seq<V>, b: seq<V>)
    requires x + b == b + x
    ensures a + x + b == a + b + x
  {
    Associative(a, x, b);
    Associative(a, b, x);
  }

  /** Two orders that differ in their last two visits tell whether those commute. */
  lemma LastTwoCommute<S(!new), V>(part: S -> seq<V>, rest: seq<S>, s: S, t: S)
    requires Joined(part, rest + [s, t]) == Joined(part, rest + [t, s])
    ensures part(s) + part(t) == part(t) + part(s)
  {
    LastTwo(part, rest, s, t);
    LastTwo(part, rest, t, s);
    var all, n := Joined(part, rest + [s, t]), |Joined(part, rest)|;
    assert all[n..] == part(s) + part(t) && all[n..] == part(t) + part(s);
  }

  lemma LastTwo<S(!new), V>(part: S -> seq<V>, rest: seq<S>, s: S, t: S)
    ensures Joined(part, rest + [s, t]) == Joined(part, rest) + (part(s) + part(t))
  {
    assert rest + [s, t] == rest + [s] + [t];
    JoinedConcat(part, rest + [s], [t]);
    JoinedConcat(part, rest, [s]);
    JoinedOne(part, s);
    JoinedOne(part, t);
    Associative(Joined(part, rest), part(s), part(t));
  }

  lemma {:induction false} AnOrder<S(!new)>(domain: set<S>) returns (order: seq<S>)
    ensures OrderOf(order, domain)
    decreases |domain|
  {
    if domain == {} {
      order := [];
    } else {
      var s :| s in domain;
      var rest := AnOrder(domain - {s});
      order := rest + [s];
    }
  }

  lemma OrderWithLast<S(!new)>(rest: seq<S>, domain: set<S>, s: S, t: S)
    requires s != t && s in domain && t in domain && OrderOf(rest, domain - {s, t})
    ensures OrderOf(rest + [s, t], domain)
  {
  }

  /** All orders come to the same exactly when any two tags commute. */
  lemma OrdersAgreeIff<S(!new), V>(part: S -> seq<V>, domain: set<S>)
    requires forall s :: part(s) != [] ==> s in domain
    ensures (forall v, w | OrderOf(v, domain) && OrderOf(w, domain) :: Joined(part, v) == Joined(part, w)) <==> Commuting(part)
  {
    if Commuting(part) {
      forall v, w | OrderOf(v, domain) && OrderOf(w, domain)
        ensures Joined(part, v) == Joined(part, w)
      {
        OrdersAgree(part, v, w);
      }
    }
    if forall v, w | OrderOf(v, domain) && OrderOf(w, domain) :: Joined(part, v) == Joined(part, w) {
      forall s, t
        ensures part(s) + part(t) == part(t) + part(s)
      {
        if s != t && part(s) != [] && part(t) != [] {
          var rest := AnOrder(domain - {s, t});
          OrderWithLast(rest, domain, s, t);
          OrderWithLast(rest, domain, t, s);
          LastTwoCommute(part, rest, s, t);
        }
      }
    }
  }

  /** All orders come to some values exactly when any two tags commute and one order comes to them. */
  lemma EveryOrderIff<S(!new), V>(part: S -> seq<V>, domain: set<S>, first: seq<S>, whole: seq<V>)
    requires Covers(first, part) && forall s <- first :: s in domain
    ensures (forall order | OrderOf(order, domain) :: Joined(part, order) == whole)
            <==> Commuting(part) && Joined(part, first) == whole
  {
    OrdersAgreeIff(part, domain);
    var order := AnOrder(domain);
    if Commuting(part) {
      OrdersAgree(part, order, first);
    }
  }

  lemma Push<S(!new), V>(ts: seq<Tagged<S, V>>, t: Tagged<S, V>)
    ensures Values(ts + [t]) == Values(ts) + [t.value]
    ensures forall s :: Part(ts + [t], s) == Part(ts, s) + if t.tag == s then [t.value] else []
    ensures FirstTags(ts + [t]) == FirstTags(ts) + if t.tag in FirstTags(ts) then [] else [t.tag]
  {
    assert (ts + [t])[..|ts|] == ts;
  }

  function Interleaved(s: nat, t: nat): seq<Tagged<nat, char>> {
    [] + [Tagged(s, 'a')] + [Tagged(t, 'a')] + [Tagged(s, 'b')] + [Tagged(t, 'b')]
  }

  /** Commuting alone is not enough for a list that interleaves its tags. */
  lemma CommutingIsNotEnough(s: nat, t: nat)
    requires s != t
    ensures Commuting(PartsOf(Interleaved(s, t)))
    ensures Joined(PartsOf(Interleaved(s, t)), FirstTags(Interleaved(s, t))) != Values(Interleaved(s, t))
  {
    var ts := Interleaved(s, t);
    Push([], Tagged(s, 'a'));
    Push([] + [Tagged(s, 'a')], Tagged(t, 'a'));
    Push([] + [Tagged(s, 'a')] + [Tagged(t, 'a')], Tagged(s, 'b'));
    Push([] + [Tagged(s, 'a')] + [Tagged(t, 'a')] + [Tagged(s, 'b')], Tagged(t, 'b'));
    assert Values(ts) == ['a', 'a', 'b', 'b'] && FirstTags(ts) == [s, t];
    assert forall u :: Part(ts, u) == if u == s || u == t then ['a', 'b'] else [];
    LastTwo(PartsOf(ts), [], s, t);
    assert [] + [s, t] == [s, t];
    assert Joined(PartsOf(ts), [s, t])[1] == 'b';
  }

  // ----- when one tag has all that counts

  lemma {:induction false} JoinedSingle<S(!new), V>(part: S -> seq<V>, order: seq<S>, s: S)
    requires NoRepeats(order) && s in order && forall t :: t != s ==> part(t) == []
    ensures Joined(part, order) == part(s)
  {
    var init, last := order[..|order| - 1], order[|order| - 1];
    assert order == init + [last];
    if last == s {
      JoinedNothing(part, init);
    } else {
      JoinedSingle(part, init, s);
    }
  }

  lemma {:induction false} OneTagPasses<S(!new), V>(p: V -> bool, ts: seq<Tagged<S, V>>, s: S)
    requires forall t <- ts | p(t.value) :: t.tag == s
    ensures Filter(p, Values(ts)) == Filter(p, Part(ts, s))
  {
    if ts != [] {
      var init, last := ts[..|ts| - 1], ts[|ts| - 1];
      assert ts == init + [last];
      OneTagPasses(p, init, s);
      FilterConcat(p, Values(init), [last.value]);
      FilterConcat(p, Part(init, s), if last.tag == s then [last.value] else []);
      FilterOne(p, last.value);
    }
  }
}
