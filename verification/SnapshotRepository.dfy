/** The retained generations of the call graph (crates/code-analysis/src/snapshot_repository.rs). */
module SnapshotRepository {
  import opened Common

  datatype GenerationId = GenerationId(text: string)

  /** A published generation; its content plays no part here. */
  datatype Generation = Generation(id: GenerationId, content: nat)

  function Without(items: seq<Generation>, id: GenerationId): seq<Generation> {
    if items == [] then []
    else Without(items[..|items| - 1], id) + if items[|items| - 1].id != id then [items[|items| - 1]] else []
  }

  function LastOf(items: seq<Generation>, n: nat): seq<Generation> {
    if |items| <= n then items else items[|items| - n..]
  }

  /** What a publication does to the retained generations. */
  function Publish(items: seq<Generation>, next: Generation, retention: nat): seq<Generation> {
    LastOf(Without(items, next.id) + [next], retention)
  }

  class Repository {
    const retention: nat
    var items: seq<Generation>

    constructor (retention: nat)
      requires retention > 0
      ensures this.retention == retention && items == []
    {
      this.retention := retention;
      items := [];
    }

    method PublishNext(next: Generation)
      modifies this`items
      ensures items == Publish(old(items), next, retention)
    {
      var kept: seq<Generation> := [];
      for i := 0 to |items|
        invariant kept == Without(items[..i], next.id)
      {
        assert items[..i + 1][..i] == items[..i];
        if items[i].id != next.id {
          kept := kept + [items[i]];
        }
      }
      assert items[..|items|] == items;
      var all := kept + [next];
      var from := 0;
      while |all| - from > retention
        invariant 0 <= from <= |all|
        invariant from > 0 ==> |all| - from >= retention
      {
        from := from + 1;
      }
      items := all[from..];
    }

    method Current() returns (r: Option<Generation>)
      ensures r == if items == [] then None else Some(items[|items| - 1])
    {
      r := if items == [] then None else Some(items[|items| - 1]);
    }

    method Get(id: GenerationId) returns (r: Option<Generation>)
      ensures r == Find(items, id)
    {
      r := None;
      for i := 0 to |items|
        invariant r == None && Find(items, id) == Find(items[i..], id)
      {
        if items[i].id == id {
          return Some(items[i]);
        }
        assert items[i..][1..] == items[i + 1..];
      }
    }
  }

  function Find(items: seq<Generation>, id: GenerationId): Option<Generation> {
    if items == [] then None else if items[0].id == id then Some(items[0]) else Find(items[1..], id)
  }

  // ----- whole histories

  /** Every id once, with its latest publication, in the order of those publications. */
  function LatestEach(history: seq<Generation>): seq<Generation> {
    if history == [] then []
    else
      var last := history[|history| - 1];
      Without(LatestEach(history[..|history| - 1]), last.id) + [last]
  }

  /** The repository after a history of publications. */
  function After(history: seq<Generation>, retention: nat): seq<Generation> {
    if history == [] then [] else Publish(After(history[..|history| - 1], retention), history[|history| - 1], retention)
  }

  ghost predicate DistinctIds(items: seq<Generation>) {
    forall i, j :: 0 <= i < j < |items| ==> items[i].id != items[j].id
  }

  lemma {:induction false} WithoutConcat(a: seq<Generation>, b: seq<Generation>, id: GenerationId)
    ensures Without(a + b, id) == Without(a, id) + Without(b, id)
  {
    if b == [] {
      assert a + b == a;
    } else {
      WithoutConcat(a, b[..|b| - 1], id);
      assert (a + b)[..|a + b| - 1] == a + b[..|b| - 1];
    }
  }

  lemma {:induction false} WithoutMembers(items: seq<Generation>, id: GenerationId)
    ensures forall x :: x in Without(items, id) <==> x in items && x.id != id
    ensures (forall x <- items :: x.id != id) ==> Without(items, id) == items
  {
    if items != [] {
      WithoutMembers(items[..|items| - 1], id);
      assert items == items[..|items| - 1] + [items[|items| - 1]];
    }
  }

  /** Distinct ids: at most one generation goes. */
  lemma {:induction false} WithoutDistinct(items: seq<Generation>, id: GenerationId)
    requires DistinctIds(items)
    ensures DistinctIds(Without(items, id))
    ensures |Without(items, id)| == |items| - (if exists x <- items :: x.id == id then 1 else 0)
  {
    if items != [] {
      var init, last := items[..|items| - 1], items[|items| - 1];
      assert items == init + [last];
      DistinctInit(init, last);
      WithoutDistinct(init, id);
      WithoutMembers(init, id);
      DistinctPush(Without(init, id), last);
    }
  }

  lemma DistinctInit(init: seq<Generation>, last: Generation)
    requires DistinctIds(init + [last])
    ensures DistinctIds(init) && forall x <- init :: x.id != last.id
  {
    var items := init + [last];
    assert forall i :: 0 <= i < |init| ==> items[i] == init[i] && items[i].id != items[|init|].id;
  }

  lemma DistinctPush(init: seq<Generation>, last: Generation)
    requires DistinctIds(init) && forall x <- init :: x.id != last.id
    ensures DistinctIds(init + [last])
  {
    assert forall i :: 0 <= i < |init| ==> init[i] in init;
  }

  lemma {:induction false} LatestEachDistinct(history: seq<Generation>)
    ensures DistinctIds(LatestEach(history))
  {
    if history != [] {
      var init, last := LatestEach(history[..|history| - 1]), history[|history| - 1];
      LatestEachDistinct(history[..|history| - 1]);
      WithoutDistinct(init, last.id);
      WithoutMembers(init, last.id);
      var rest := Without(init, last.id);
      assert forall i :: 0 <= i < |rest| ==> rest[i] in rest;
    }
  }

  /** Publishing into a trimmed list is trimming the published list. */
  lemma PublishTrimmed(all: seq<Generation>, next: Generation, retention: nat)
    requires DistinctIds(all) && retention > 0
    ensures Publish(LastOf(all, retention), next, retention) == LastOf(Without(all, next.id) + [next], retention)
  {
    if |all| > retention {
      var earlier, recent := all[..|all| - retention], all[|all| - retention..];
      assert all == earlier + recent;
      assert Without(all, next.id) == Without(earlier, next.id) + Without(recent, next.id) by {
        WithoutConcat(earlier, recent, next.id);
      }
      assert |Without(recent, next.id)| >= retention - 1 by {
        WithoutDistinct(recent, next.id);
      }
      TrimTail(Without(earlier, next.id), Without(recent, next.id) + [next], retention);
      assert Without(all, next.id) + [next] == Without(earlier, next.id) + (Without(recent, next.id) + [next]);
    }
  }

  lemma TrimTail(front: seq<Generation>, back: seq<Generation>, n: nat)
    requires |back| >= n
    ensures LastOf(front + back, n) == LastOf(back, n)
  {
  }

  /** After any history the repository holds exactly the most recently published distinct
      generations, up to its retention, oldest first. */
  lemma {:induction false} RetainsLatest(history: seq<Generation>, retention: nat)
    requires retention > 0
    ensures After(history, retention) == LastOf(LatestEach(history), retention)
  {
    if history != [] {
      var init := history[..|history| - 1];
      RetainsLatest(init, retention);
      LatestEachDistinct(init);
      PublishTrimmed(LatestEach(init), history[|history| - 1], retention);
    }
  }
}
