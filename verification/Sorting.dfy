/** Stable sorting, as `sort_by` does it, and what determines its result. */
module Sorting {

  ghost predicate TotalPreorder<T(!new)>(le: (T, T) -> bool) {
    && (forall x, y :: le(x, y) || le(y, x))
    && (forall x, y, z :: le(x, y) && le(y, z) ==> le(x, z))
  }

  ghost predicate Sorted<T>(le: (T, T) -> bool, s: seq<T>) {
    forall i, j :: 0 <= i < j < |s| ==> le(s[i], s[j])
  }

  /** Puts `x` before the first element that is not smaller. */
  function Insert<T>(le: (T, T) -> bool, x: T, s: seq<T>): seq<T> {
    if s == [] || le(x, s[0]) then [x] + s else [s[0]] + Insert(le, x, s[1..])
  }

  /** Elements that compare equal keep their order. */
  function StableSort<T>(le: (T, T) -> bool, s: seq<T>): seq<T> {
    if s == [] then [] else Insert(le, s[0], StableSort(le, s[1..]))
  }

  function Filter<T>(p: T -> bool, s: seq<T>): seq<T> {
    if s == [] then [] else (if p(s[0]) then [s[0]] else []) + Filter(p, s[1..])
  }

  /** The elements that compare equal to `x`. */
  function SameAs<T>(le: (T, T) -> bool, x: T): T -> bool {
    y => le(x, y) && le(y, x)
  }

  function Class<T>(le: (T, T) -> bool, s: seq<T>, x: T): seq<T> {
    Filter(SameAs(le, x), s)
  }

  // ----- filters

  lemma Associative<T>(a: seq<T>, b: seq<T>, c: seq<T>)
    ensures a + b + c == a + (b + c)
  {
  }

  lemma {:induction false} FilterMembers<T(!new)>(p: T -> bool, s: seq<T>)
    ensures forall x :: x in Filter(p, s) <==> x in s && p(x)
  {
    if s != [] {
      FilterMembers(p, s[1..]);
      assert s == [s[0]] + s[1..];
    }
  }

  lemma {:induction false} FilterConcat<T>(p: T -> bool, a: seq<T>, b: seq<T>)
    ensures Filter(p, a + b) == Filter(p, a) + Filter(p, b)
  {
    if a == [] {
      assert a + b == b;
    } else {
      var head := if p(a[0]) then [a[0]] else [];
      FilterConcat(p, a[1..], b);
      assert (a + b)[0] == a[0] && (a + b)[1..] == a[1..] + b;
      assert Filter(p, a + b) == head + (Filter(p, a[1..]) + Filter(p, b));
      Associative(head, Filter(p, a[1..]), Filter(p, b));
    }
  }

  lemma {:induction false} FilterCommutes<T>(p: T -> bool, q: T -> bool, s: seq<T>)
    ensures Filter(p, Filter(q, s)) == Filter(q, Filter(p, s))
  {
    if s != [] {
      FilterCommutes(p, q, s[1..]);
      FilterConcat(p, if q(s[0]) then [s[0]] else [], Filter(q, s[1..]));
      FilterConcat(q, if p(s[0]) then [s[0]] else [], Filter(p, s[1..]));
      FilterOne(p, s[0]);
      FilterOne(q, s[0]);
    }
  }

  lemma FilterOne<T>(p: T -> bool, x: T)
    ensures Filter(p, [x]) == if p(x) then [x] else []
  {
    assert [x][1..] == [];
  }

  lemma {:induction false} FilterSorted<T(!new)>(le: (T, T) -> bool, p: T -> bool, s: seq<T>)
    requires Sorted(le, s)
    ensures Sorted(le, Filter(p, s))
  {
    if s != [] {
      FilterSorted(le, p, s[1..]);
      FilterMembers(p, s[1..]);
      var rest := Filter(p, s[1..]);
      forall i | 0 <= i < |rest|
        ensures le(s[0], rest[i])
      {
        assert rest[i] in rest && rest[i] in s[1..];
        var j :| 0 <= j < |s[1..]| && s[1..][j] == rest[i];
        assert s[1..][j] == s[j + 1];
      }
    }
  }

  lemma {:induction false} FilterAll<T>(p: T -> bool, s: seq<T>)
    requires forall x <- s :: p(x)
    ensures Filter(p, s) == s
  {
    if s != [] {
      FilterAll(p, s[1..]);
    }
  }

  lemma {:induction false} FilterNone<T>(p: T -> bool, s: seq<T>)
    requires forall x <- s :: !p(x)
    ensures Filter(p, s) == []
  {
    if s != [] {
      FilterNone(p, s[1..]);
    }
  }

  lemma {:induction false} FilterImplied<T>(p: T -> bool, q: T -> bool, s: seq<T>)
    requires forall x <- s :: p(x) ==> q(x)
    ensures Filter(p, Filter(q, s)) == Filter(p, s)
  {
    if s != [] {
      FilterImplied(p, q, s[1..]);
      FilterConcat(p, if q(s[0]) then [s[0]] else [], Filter(q, s[1..]));
      FilterOne(p, s[0]);
    }
  }

  lemma {:induction false} FilterBoth<T>(p: T -> bool, q: T -> bool, both: T -> bool, s: seq<T>)
    requires forall x <- s :: both(x) <==> p(x) && q(x)
    ensures Filter(p, Filter(q, s)) == Filter(both, s)
  {
    if s != [] {
      FilterBoth(p, q, both, s[1..]);
      FilterConcat(p, if q(s[0]) then [s[0]] else [], Filter(q, s[1..]));
      FilterOne(p, s[0]);
    }
  }

  lemma {:induction false} FilterSame<T>(p: T -> bool, q: T -> bool, s: seq<T>)
    requires forall x <- s :: p(x) <==> q(x)
    ensures Filter(p, s) == Filter(q, s)
  {
    if s != [] {
      FilterSame(p, q, s[1..]);
    }
  }

  lemma FilterStep<T>(p: T -> bool, s: seq<T>)
    requires s != []
    ensures multiset(Filter(p, s)) == (if p(s[0]) then multiset{s[0]} else multiset{}) + multiset(Filter(p, s[1..]))
  {
    var rest := Filter(p, s[1..]);
    if p(s[0]) {
      assert multiset([s[0]] + rest) == multiset{s[0]} + multiset(rest);
    } else {
      assert [] + rest == rest;
    }
  }

  /** Every element passes exactly one of two opposite filters. */
  lemma {:induction false} FilterPartition<T>(p: T -> bool, q: T -> bool, s: seq<T>)
    requires forall x <- s :: p(x) <==> !q(x)
    ensures multiset(Filter(p, s)) + multiset(Filter(q, s)) == multiset(s)
  {
    if s != [] {
      FilterPartition(p, q, s[1..]);
      FilterStep(p, s);
      FilterStep(q, s);
      assert s == [s[0]] + s[1..];
      assert multiset(s) == multiset{s[0]} + multiset(s[1..]);
    }
  }

  function Flat<T>(chunks: seq<seq<T>>): seq<T> {
    if chunks == [] then [] else Flat(chunks[..|chunks| - 1]) + chunks[|chunks| - 1]
  }

  /** When only one chunk has elements that pass, those are all that pass. */
  lemma {:induction false} FilterFlat<T>(p: T -> bool, chunks: seq<seq<T>>, i: nat)
    requires forall j :: 0 <= j < |chunks| && j != i ==> Filter(p, chunks[j]) == []
    ensures Filter(p, Flat(chunks)) == if i < |chunks| then Filter(p, chunks[i]) else []
  {
    if chunks != [] {
      var init := chunks[..|chunks| - 1];
      FilterFlat(p, init, i);
      FilterConcat(p, Flat(init), chunks[|chunks| - 1]);
    }
  }

  // ----- sorting

  lemma {:induction false} InsertMembers<T>(le: (T, T) -> bool, x: T, s: seq<T>)
    ensures multiset(Insert(le, x, s)) == multiset(s) + multiset{x}
  {
    if !(s == [] || le(x, s[0])) {
      InsertMembers(le, x, s[1..]);
      var rest := Insert(le, x, s[1..]);
      assert multiset([s[0]] + rest) == multiset{s[0]} + multiset(rest);
      assert s == [s[0]] + s[1..];
      assert multiset(s) == multiset{s[0]} + multiset(s[1..]);
    }
  }

  lemma {:induction false} InsertSorted<T(!new)>(le: (T, T) -> bool, x: T, s: seq<T>)
    requires TotalPreorder(le) && Sorted(le, s)
    ensures Sorted(le, Insert(le, x, s))
  {
    if s != [] {
      assert forall y <- s :: le(s[0], y);
      if !le(x, s[0]) {
        InsertSorted(le, x, s[1..]);
        InsertMembers(le, x, s[1..]);
        var rest := Insert(le, x, s[1..]);
        forall i | 0 <= i < |rest|
          ensures le(s[0], rest[i])
        {
          assert rest[i] in multiset(rest);
        }
      }
    }
  }

  lemma NotBothSame<T(!new)>(le: (T, T) -> bool, x: T, y: T, k: T)
    requires TotalPreorder(le) && !le(x, y)
    ensures !(SameAs(le, k)(x) && SameAs(le, k)(y))
  {
    assert le(x, k) && le(k, y) ==> le(x, y);
  }

  lemma {:induction false} InsertClass<T(!new)>(le: (T, T) -> bool, x: T, s: seq<T>, k: T)
    requires TotalPreorder(le)
    ensures Class(le, Insert(le, x, s), k) == (if SameAs(le, k)(x) then [x] else []) + Class(le, s, k)
  {
    if s == [] || le(x, s[0]) {
      assert ([x] + s)[1..] == s;
    } else {
      InsertClass(le, x, s[1..], k);
      var rest := Insert(le, x, s[1..]);
      var headX := if SameAs(le, k)(x) then [x] else [];
      var head := if SameAs(le, k)(s[0]) then [s[0]] else [];
      assert ([s[0]] + rest)[1..] == rest;
      assert Class(le, [s[0]] + rest, k) == head + (headX + Class(le, s[1..], k));
      NotBothSame(le, x, s[0], k);
      Associative(headX, head, Class(le, s[1..], k));
      Associative(head, headX, Class(le, s[1..], k));
      assert head + headX == headX + head;
    }
  }

  /** The result is ordered. */
  lemma {:induction false} SortIsSorted<T(!new)>(le: (T, T) -> bool, s: seq<T>)
    requires TotalPreorder(le)
    ensures Sorted(le, StableSort(le, s))
  {
    if s != [] {
      SortIsSorted(le, s[1..]);
      InsertSorted(le, s[0], StableSort(le, s[1..]));
    }
  }

  /** The result is a permutation. */
  lemma {:induction false} SortIsPermutation<T>(le: (T, T) -> bool, s: seq<T>)
    ensures multiset(StableSort(le, s)) == multiset(s)
  {
    if s != [] {
      SortIsPermutation(le, s[1..]);
      InsertMembers(le, s[0], StableSort(le, s[1..]));
      assert s == [s[0]] + s[1..];
    }
  }

  /** Elements that compare equal come in their original order. */
  lemma {:induction false} SortIsStable<T(!new)>(le: (T, T) -> bool, s: seq<T>, k: T)
    requires TotalPreorder(le)
    ensures Class(le, StableSort(le, s), k) == Class(le, s, k)
  {
    if s != [] {
      SortIsStable(le, s[1..], k);
      InsertClass(le, s[0], StableSort(le, s[1..]), k);
    }
  }

  /** Order and the sequences of equal elements determine a list. */
  lemma {:induction false} SortedUnique<T(!new)>(le: (T, T) -> bool, a: seq<T>, b: seq<T>)
    requires TotalPreorder(le) && Sorted(le, a) && Sorted(le, b)
    requires forall k :: Class(le, a, k) == Class(le, b, k)
    ensures a == b
  {
    SameMembers(le, a, b);
    FirstIsMember(a);
    FirstIsMember(b);
    if a != [] && b != [] {
      SameHead(le, a, b);
      forall k
        ensures Class(le, a[1..], k) == Class(le, b[1..], k)
      {
        assert Class(le, a, k) == Class(le, b, k);
        var n := if SameAs(le, k)(a[0]) then 1 else 0;
        assert Class(le, a[1..], k) == Class(le, a, k)[n..] && Class(le, b[1..], k) == Class(le, b, k)[n..];
      }
      SortedUnique(le, a[1..], b[1..]);
      assert a == [a[0]] + a[1..] && b == [b[0]] + b[1..];
    }
  }

  lemma SameMembers<T(!new)>(le: (T, T) -> bool, a: seq<T>, b: seq<T>)
    requires TotalPreorder(le) && forall k :: Class(le, a, k) == Class(le, b, k)
    ensures forall x :: x in a <==> x in b
  {
    forall x
      ensures x in a <==> x in b
    {
      FilterMembers(SameAs(le, x), a);
      FilterMembers(SameAs(le, x), b);
      assert Class(le, a, x) == Class(le, b, x) && SameAs(le, x)(x);
    }
  }

  lemma FirstIsMember<T>(s: seq<T>)
    ensures s == [] || s[0] in s
  {
  }

  lemma SameHead<T(!new)>(le: (T, T) -> bool, a: seq<T>, b: seq<T>)
    requires TotalPreorder(le) && Sorted(le, a) && Sorted(le, b) && a != [] && b != []
    requires forall k :: Class(le, a, k) == Class(le, b, k)
    ensures a[0] == b[0]
  {
    HeadBelow(le, a, b);
    HeadBelow(le, b, a);
    assert SameAs(le, a[0])(a[0]) && SameAs(le, a[0])(b[0]);
    assert Class(le, a, a[0])[0] == a[0] && Class(le, b, a[0])[0] == b[0];
  }

  lemma HeadBelow<T(!new)>(le: (T, T) -> bool, a: seq<T>, b: seq<T>)
    requires TotalPreorder(le) && Sorted(le, a) && a != [] && b != []
    requires forall k :: Class(le, a, k) == Class(le, b, k)
    ensures le(a[0], b[0])
  {
    var k := b[0];
    assert SameAs(le, k)(k) && Class(le, b, k)[0] == k;
    FilterMembers(SameAs(le, k), a);
    assert k in Class(le, a, k);
    var i :| 0 <= i < |a| && a[i] == k;
  }

  /** Sorting commutes with filtering. */
  lemma SortFilter<T(!new)>(le: (T, T) -> bool, p: T -> bool, s: seq<T>)
    requires TotalPreorder(le)
    ensures Filter(p, StableSort(le, s)) == StableSort(le, Filter(p, s))
  {
    SortIsSorted(le, s);
    FilterSorted(le, p, StableSort(le, s));
    SortIsSorted(le, Filter(p, s));
    forall k
      ensures Class(le, Filter(p, StableSort(le, s)), k) == Class(le, StableSort(le, Filter(p, s)), k)
    {
      FilterCommutes(SameAs(le, k), p, StableSort(le, s));
      SortIsStable(le, s, k);
      FilterCommutes(SameAs(le, k), p, s);
      SortIsStable(le, Filter(p, s), k);
    }
    SortedUnique(le, Filter(p, StableSort(le, s)), StableSort(le, Filter(p, s)));
  }

  /** Two lists with the same sequences of equal elements sort to the same list. */
  lemma SameClassesSameSort<T(!new)>(le: (T, T) -> bool, a: seq<T>, b: seq<T>)
    requires TotalPreorder(le) && forall k :: Class(le, a, k) == Class(le, b, k)
    ensures StableSort(le, a) == StableSort(le, b)
  {
    SortIsSorted(le, a);
    SortIsSorted(le, b);
    forall k
      ensures Class(le, StableSort(le, a), k) == Class(le, StableSort(le, b), k)
    {
      SortIsStable(le, a, k);
      SortIsStable(le, b, k);
    }
    SortedUnique(le, StableSort(le, a), StableSort(le, b));
  }

  /** A sorted list is its own sort. */
  lemma SortOfSorted<T(!new)>(le: (T, T) -> bool, s: seq<T>)
    requires TotalPreorder(le) && Sorted(le, s)
    ensures StableSort(le, s) == s
  {
    SortIsSorted(le, s);
    forall k
      ensures Class(le, StableSort(le, s), k) == Class(le, s, k)
    {
      SortIsStable(le, s, k);
    }
    SortedUnique(le, StableSort(le, s), s);
  }
}
