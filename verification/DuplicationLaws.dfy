/** What the duplicate index promises: comparing one edited file gives what rebuilding the index would
    (crates/code-health/src/duplication.rs:119-123), and settling keeps exactly the outermost copies. */
module DuplicationLaws {
  import opened Common
  import opened Duplication
  import opened Grouping
  import opened Sorting
  import opened Text

  // ----- the two orders

  predicate SameKey(a: Duplicate, b: Duplicate) {
    a.start == b.start && a.name == b.name
  }

  predicate SamePlace(a: Copy, b: Copy) {
    a.path == b.path && a.line == b.line
  }

  lemma EntrySame(a: Duplicate, b: Duplicate)
    ensures EntryLe(a, b) || EntryLe(b, a)
    ensures SameAs(EntryLe, a)(b) <==> SameKey(a, b)
  {
    LexTotal(a.name.text, b.name.text);
    LexReflexive(a.name.text);
    if LexLe(a.name.text, b.name.text) && LexLe(b.name.text, a.name.text) {
      LexAntisymmetric(a.name.text, b.name.text);
      assert a.name == b.name;
    }
    assert SameAs(EntryLe, a)(b) <==> EntryLe(a, b) && EntryLe(b, a);
  }

  lemma EntryOrder()
    ensures TotalPreorder(EntryLe)
  {
    forall a: Duplicate, b: Duplicate
      ensures EntryLe(a, b) || EntryLe(b, a)
    {
      EntrySame(a, b);
    }
    forall a: Duplicate, b: Duplicate, c: Duplicate | EntryLe(a, b) && EntryLe(b, c)
      ensures EntryLe(a, c)
    {
      if a.start == b.start == c.start {
        LexTransitive(a.name.text, b.name.text, c.name.text);
      }
    }
  }

  lemma CopySame(a: Copy, b: Copy)
    ensures CopyLe(a, b) || CopyLe(b, a)
    ensures SameAs(CopyLe, a)(b) <==> SamePlace(a, b)
  {
    LexTotal(a.path.text, b.path.text);
    if LexLe(a.path.text, b.path.text) && LexLe(b.path.text, a.path.text) {
      LexAntisymmetric(a.path.text, b.path.text);
      assert a.path == b.path;
    }
    assert SameAs(CopyLe, a)(b) <==> CopyLe(a, b) && CopyLe(b, a);
  }

  lemma CopyOrder()
    ensures TotalPreorder(CopyLe)
  {
    forall a: Copy, b: Copy
      ensures CopyLe(a, b) || CopyLe(b, a)
    {
      CopySame(a, b);
    }
    forall a: Copy, b: Copy, c: Copy | CopyLe(a, b) && CopyLe(b, c)
      ensures CopyLe(a, c)
    {
      if a.path != b.path && b.path != c.path {
        LexTransitive(a.path.text, b.path.text, c.path.text);
        if a.path == c.path {
          CopySame(a, b);
          LexAntisymmetric(a.path.text, b.path.text);
        }
      }
    }
  }

  // ----- sorting the copies leaves the order of the entries alone

  lemma {:induction false} InsertThenSortCopies(x: Duplicate, s: seq<Duplicate>)
    ensures CopiesSorted(Insert(EntryLe, x, s)) == Insert(EntryLe, WithSortedCopies(x), CopiesSorted(s))
  {
    if s == [] || EntryLe(x, s[0]) {
      assert ([x] + s)[1..] == s;
    } else {
      InsertThenSortCopies(x, s[1..]);
      assert ([s[0]] + Insert(EntryLe, x, s[1..]))[1..] == Insert(EntryLe, x, s[1..]);
      assert CopiesSorted(s)[1..] == CopiesSorted(s[1..]);
    }
  }

  lemma {:induction false} SortThenSortCopies(s: seq<Duplicate>)
    ensures CopiesSorted(StableSort(EntryLe, s)) == StableSort(EntryLe, CopiesSorted(s))
  {
    if s != [] {
      SortThenSortCopies(s[1..]);
      InsertThenSortCopies(s[0], StableSort(EntryLe, s[1..]));
      assert CopiesSorted(s)[1..] == CopiesSorted(s[1..]);
    }
  }

  lemma CopiesSortedOne(d: Duplicate)
    ensures CopiesSorted([d]) == [WithSortedCopies(d)]
  {
    assert [d][1..] == [];
  }

  // ----- settling

  /** Settling keeps an entry exactly when no other span covers its own. */
  lemma SettleKeepsOutermost(list: seq<Duplicate>, d: Duplicate)
    requires d in list
    ensures WithSortedCopies(d) in Settled(list) <==> Outermost(list, d)
  {
    EntriesSurviveSorting(list);
    var entries := CopiesSorted(StableSort(EntryLe, list));
    FilterMembers((e: Duplicate) => Outermost(entries, e), entries);
    if other :| other in entries && Inside(WithSortedCopies(d), other) {
      var o :| o in list && other == WithSortedCopies(o);
      assert Inside(d, o);
    }
    if o :| o in list && Inside(d, o) {
      assert Inside(WithSortedCopies(d), WithSortedCopies(o));
    }
  }

  /** Nothing but a listed entry, with its copies sorted, comes out. */
  lemma SettleInventsNothing(list: seq<Duplicate>, e: Duplicate)
    requires e in Settled(list)
    ensures exists d :: d in list && e == WithSortedCopies(d)
  {
    EntriesSurviveSorting(list);
    var entries := CopiesSorted(StableSort(EntryLe, list));
    FilterMembers((o: Duplicate) => Outermost(entries, o), entries);
  }

  lemma EntriesSurviveSorting(list: seq<Duplicate>)
    ensures forall d <- list :: WithSortedCopies(d) in CopiesSorted(StableSort(EntryLe, list))
    ensures forall e <- CopiesSorted(StableSort(EntryLe, list)) :: exists d :: d in list && e == WithSortedCopies(d)
  {
    var sorted := StableSort(EntryLe, list);
    SortIsPermutation(EntryLe, list);
    CopiesSortedMembers(sorted);
    forall d
      ensures d in list <==> d in sorted
    {
      assert d in multiset(list) <==> d in multiset(sorted);
    }
  }

  lemma {:induction false} CopiesSortedMembers(s: seq<Duplicate>)
    ensures forall d <- s :: WithSortedCopies(d) in CopiesSorted(s)
    ensures forall e <- CopiesSorted(s) :: exists d :: d in s && e == WithSortedCopies(d)
  {
    if s != [] {
      CopiesSortedMembers(s[1..]);
      assert s == [s[0]] + s[1..];
      forall e | e in CopiesSorted(s)
        ensures exists d :: d in s && e == WithSortedCopies(d)
      {
        if e in CopiesSorted(s[1..]) {
          var d :| d in s[1..] && e == WithSortedCopies(d);
          assert d in s;
        } else {
          assert e == WithSortedCopies(s[0]);
        }
      }
    }
  }

  /** What settling drops lies strictly inside something it keeps. */
  lemma DroppedInsideKept(list: seq<Duplicate>, d: Duplicate) returns (kept: Duplicate)
    requires d in list && WithSortedCopies(d) !in Settled(list)
    ensures kept in list && WithSortedCopies(kept) in Settled(list) && Inside(d, kept)
  {
    var bound := LongestSpan(list);
    SettleKeepsOutermost(list, d);
    var outer :| outer in list && Inside(d, outer);
    kept := Outwards(list, outer, bound);
    SettleKeepsOutermost(list, kept);
  }

  /** What comes out is in line order. */
  lemma SettledInLineOrder(list: seq<Duplicate>)
    ensures Sorted(EntryLe, Settled(list))
  {
    EntryOrder();
    SortThenSortCopies(list);
    var entries := StableSort(EntryLe, CopiesSorted(list));
    SortIsSorted(EntryLe, CopiesSorted(list));
    FilterSorted(EntryLe, (d: Duplicate) => Outermost(entries, d), entries);
  }

  /** Settling never empties a list. */
  lemma SettledKeepsSomething(list: seq<Duplicate>)
    requires list != []
    ensures Settled(list) != []
  {
    if WithSortedCopies(list[0]) !in Settled(list) {
      var kept := DroppedInsideKept(list, list[0]);
    }
  }

  lemma {:induction false} LongestSpan(list: seq<Duplicate>) returns (bound: int)
    ensures forall e <- list :: e.end - e.start <= bound
  {
    if list == [] {
      bound := 0;
    } else {
      bound := LongestSpan(list[1..]);
      assert list == [list[0]] + list[1..];
      if bound < list[0].end - list[0].start {
        bound := list[0].end - list[0].start;
      }
    }
  }

  lemma Outwards(list: seq<Duplicate>, d: Duplicate, bound: int) returns (kept: Duplicate)
    requires d in list && forall e <- list :: e.end - e.start <= bound
    ensures kept in list && Outermost(list, kept) && (kept == d || Inside(d, kept))
    decreases bound - (d.end - d.start)
  {
    if Outermost(list, d) {
      kept := d;
    } else {
      var outer :| outer in list && Inside(d, outer);
      kept := Outwards(list, outer, bound);
    }
  }

  // ----- which lists settle alike

  /** What settling keeps at the place of `x` when the file has all of `entries`. */
  function KeptAt(entries: seq<Duplicate>, x: Duplicate): Duplicate -> bool {
    d => SameKey(d, x) && Outermost(entries, d)
  }

  lemma SettledIsSort(list: seq<Duplicate>)
    ensures Settled(list) == StableSort(EntryLe, Retained(CopiesSorted(list)))
  {
    var entries := CopiesSorted(list);
    var sorted := StableSort(EntryLe, entries);
    EntryOrder();
    SortThenSortCopies(list);
    SortIsPermutation(EntryLe, entries);
    forall d
      ensures d in entries <==> d in sorted
    {
      assert d in multiset(entries) <==> d in multiset(sorted);
    }
    var outermost := (d: Duplicate) => Outermost(entries, d);
    FilterSame((d: Duplicate) => Outermost(sorted, d), outermost, sorted);
    SortFilter(EntryLe, outermost, entries);
  }

  lemma ClassOfRetained(entries: seq<Duplicate>, list: seq<Duplicate>, x: Duplicate)
    requires forall d :: d in entries <==> d in list
    ensures Class(EntryLe, Retained(list), x) == Filter(KeptAt(entries, x), list)
  {
    forall d <- list
      ensures KeptAt(entries, x)(d) <==> SameAs(EntryLe, x)(d) && Outermost(list, d)
    {
      EntrySame(x, d);
    }
    FilterBoth(SameAs(EntryLe, x), (d: Duplicate) => Outermost(list, d), KeptAt(entries, x), list);
  }

  /** Lists with the same entries settle alike exactly when they keep the same sequence at every place. */
  lemma SettleAlikeIff(a: seq<Duplicate>, b: seq<Duplicate>, entries: seq<Duplicate>)
    requires forall d :: d in CopiesSorted(a) <==> d in entries
    requires forall d :: d in CopiesSorted(b) <==> d in entries
    ensures Settled(a) == Settled(b)
            <==> forall x :: Filter(KeptAt(entries, x), CopiesSorted(a)) == Filter(KeptAt(entries, x), CopiesSorted(b))
  {
    var keptA, keptB := Retained(CopiesSorted(a)), Retained(CopiesSorted(b));
    EntryOrder();
    SettledIsSort(a);
    SettledIsSort(b);
    forall x
      ensures Class(EntryLe, keptA, x) == Filter(KeptAt(entries, x), CopiesSorted(a))
      ensures Class(EntryLe, keptB, x) == Filter(KeptAt(entries, x), CopiesSorted(b))
      ensures Settled(a) == Settled(b) ==> Class(EntryLe, keptA, x) == Class(EntryLe, keptB, x)
    {
      ClassOfRetained(entries, CopiesSorted(a), x);
      ClassOfRetained(entries, CopiesSorted(b), x);
      SortIsStable(EntryLe, keptA, x);
      SortIsStable(EntryLe, keptB, x);
    }
    if forall x :: Class(EntryLe, keptA, x) == Class(EntryLe, keptB, x) {
      SameClassesSameSort(EntryLe, keptA, keptB);
    }
  }

  // ----- groups, piece by piece

  lemma {:induction false} SitesInConcat(path: Path, a: seq<Function>, b: seq<Function>, config: Config, shape: Shape)
    ensures SitesIn(path, a + b, config, shape) == SitesIn(path, a, config, shape) + SitesIn(path, b, config, shape)
  {
    if b == [] {
      assert a + b == a;
    } else {
      SitesInConcat(path, a, b[..|b| - 1], config, shape);
      assert (a + b)[..|a + b| - 1] == a + b[..|b| - 1];
    }
  }

  lemma {:induction false} SitesFromConcat(a: seq<File>, b: seq<File>, config: Config, shape: Shape)
    ensures SitesFrom(a + b, config, shape) == SitesFrom(a, config, shape) + SitesFrom(b, config, shape)
  {
    if b == [] {
      assert a + b == a;
    } else {
      SitesFromConcat(a, b[..|b| - 1], config, shape);
      assert (a + b)[..|a + b| - 1] == a + b[..|b| - 1] && (a + b)[|a + b| - 1] == b[|b| - 1];
    }
  }

  lemma {:induction false} SitesInPath(path: Path, functions: seq<Function>, config: Config, shape: Shape)
    ensures forall site <- SitesIn(path, functions, config, shape) :: site.path == path
  {
    if functions != [] {
      SitesInPath(path, functions[..|functions| - 1], config, shape);
    }
  }

  lemma {:induction false} SitesFromPaths(files: seq<File>, path: Path, config: Config, shape: Shape)
    requires forall file <- files :: file.path != path
    ensures forall site <- SitesFrom(files, config, shape) :: site.path != path
  {
    if files != [] {
      var file := files[|files| - 1];
      assert file in files;
      SitesFromPaths(files[..|files| - 1], path, config, shape);
      SitesInPath(file.path, file.functions, config, shape);
    }
  }

  function NotAt(path: Path): File -> bool {
    (file: File) => file.path != path
  }

  /** Leaving a path's sites out of a group is grouping the other files. */
  lemma {:induction false} ElsewhereIsOtherFiles(files: seq<File>, path: Path, config: Config, shape: Shape)
    ensures Filter((site: Site) => site.path != path, SitesFrom(files, config, shape))
         == SitesFrom(Filter(NotAt(path), files), config, shape)
  {
    var elsewhere := (site: Site) => site.path != path;
    if files != [] {
      var init, file := files[..|files| - 1], files[|files| - 1];
      ElsewhereIsOtherFiles(init, path, config, shape);
      assert files == init + [file];
      FilterConcat(NotAt(path), init, [file]);
      FilterOne(NotAt(path), file);
      SitesFromConcat(Filter(NotAt(path), init), [file], config, shape);
      SitesFromConcat(init, [file], config, shape);
      FilterConcat(elsewhere, SitesFrom(init, config, shape), SitesFrom([file], config, shape));
      OneFile(file, config, shape);
      SitesInPath(file.path, file.functions, config, shape);
      if file.path == path {
        FilterNone(elsewhere, SitesFrom([file], config, shape));
        assert Filter(NotAt(path), files) == Filter(NotAt(path), init);
      } else {
        FilterAll(elsewhere, SitesFrom([file], config, shape));
        assert Filter(NotAt(path), files) == Filter(NotAt(path), init) + [file];
      }
    }
  }

  lemma OneFile(file: File, config: Config, shape: Shape)
    ensures SitesFrom([file], config, shape)
         == if file.test then [] else SitesIn(file.path, file.functions, config, shape)
  {
    assert [file][..0] == [];
  }

  lemma {:induction false} CopiesConcat(a: seq<Site>, b: seq<Site>)
    ensures CopiesOf(a + b) == CopiesOf(a) + CopiesOf(b)
  {
    if b == [] {
      assert a + b == a;
    } else {
      CopiesConcat(a, b[..|b| - 1]);
      assert (a + b)[..|a + b| - 1] == a + b[..|b| - 1];
    }
  }

  lemma {:induction false} CopiesPath(sites: seq<Site>, path: Path)
    ensures |CopiesOf(sites)| == |sites|
    ensures (forall site <- sites :: site.path == path) ==> forall c <- CopiesOf(sites) :: c.path == path
    ensures (forall site <- sites :: site.path != path) ==> forall c <- CopiesOf(sites) :: c.path != path
  {
    if sites != [] {
      CopiesPath(sites[..|sites| - 1], path);
      assert sites[|sites| - 1] in sites;
    }
  }

  /** Where the copies within the file stand among those elsewhere makes no difference once sorted. */
  lemma OwnCopiesAnywhere(a: seq<Copy>, own: seq<Copy>, b: seq<Copy>, path: Path)
    requires forall c <- a + b :: c.path != path
    requires forall c <- own :: c.path == path
    ensures StableSort(CopyLe, a + own + b) == StableSort(CopyLe, a + b + own)
  {
    CopyOrder();
    forall x: Copy
      ensures Class(CopyLe, a + own + b, x) == Class(CopyLe, a + b + own, x)
    {
      OwnClassAnywhere(a, own, b, path, x);
    }
    SameClassesSameSort(CopyLe, a + own + b, a + b + own);
  }

  lemma OwnClassAnywhere(a: seq<Copy>, own: seq<Copy>, b: seq<Copy>, path: Path, x: Copy)
    requires forall c <- a + b :: c.path != path
    requires forall c <- own :: c.path == path
    ensures Class(CopyLe, a + own + b, x) == Class(CopyLe, a + b + own, x)
  {
    var p := SameAs(CopyLe, x);
    FilterConcat(p, a + own, b);
    FilterConcat(p, a, own);
    FilterConcat(p, a + b, own);
    FilterConcat(p, a, b);
    forall c: Copy
      ensures p(c) ==> c.path == x.path
    {
      CopySame(x, c);
    }
    if x.path == path {
      assert forall c <- b :: c in a + b;
      FilterNone(p, b);
    } else {
      FilterNone(p, own);
    }
  }

  // ----- the functions of the edited file

  predicate Keyed(f: Function, config: Config, x: Duplicate) {
    Comparable(f, config) && f.start == x.start && f.name == x.name
  }

  /** Comparable functions of a file that share start line and name share a shape. */
  ghost predicate TiesShareShape(functions: seq<Function>, config: Config) {
    forall f <- functions, g <- functions | Comparable(f, config) && Comparable(g, config) ::
      f.start == g.start && f.name == g.name ==> f.shape == g.shape
  }

  /** A file's sites of a shape around one of its functions. */
  lemma SitesAround(path: Path, functions: seq<Function>, config: Config, i: nat)
    requires i < |functions| && Comparable(functions[i], config)
    ensures
      var shape := functions[i].shape;
      SitesIn(path, functions, config, shape)
      == SitesIn(path, functions[..i], config, shape) + [SiteOf(path, functions[i])]
         + SitesIn(path, functions[i + 1..], config, shape)
  {
    var shape := functions[i].shape;
    assert functions == functions[..i + 1] + functions[i + 1..];
    SitesInConcat(path, functions[..i + 1], functions[i + 1..], config, shape);
    assert functions[..i + 1][..i] == functions[..i];
  }

  lemma {:induction false} OwnExceptAround(
    path: Path, functions: seq<Function>, config: Config, shape: Shape, i: nat)
    ensures i >= |functions| ==> OwnExcept(path, functions, config, shape, i) == SitesIn(path, functions, config, shape)
    ensures i < |functions| ==>
              OwnExcept(path, functions, config, shape, i)
              == SitesIn(path, functions[..i], config, shape) + SitesIn(path, functions[i + 1..], config, shape)
  {
    if functions != [] {
      var last := |functions| - 1;
      OwnExceptAround(path, functions[..last], config, shape, i);
      if i < last {
        assert functions[..last][..i] == functions[..i];
        assert functions[..last][i + 1..] == functions[i + 1..][..last - i - 1];
      } else if i == last {
        assert functions[i + 1..] == [];
      }
    }
  }

  // ----- incremental equals rebuild

  /** The repository with one file at `path`, an ordinary one, among the others. */
  function With(before: seq<File>, path: Path, functions: seq<Function>, after: seq<File>): seq<File> {
    before + [File(path, functions, false)] + after
  }

  ghost predicate Others(before: seq<File>, after: seq<File>, path: Path) {
    forall file <- before + after :: file.path != path
  }

  lemma GroupParts(
    before: seq<File>, path: Path, functions: seq<Function>, after: seq<File>, config: Config, shape: Shape)
    requires Others(before, after, path)
    ensures SitesFrom(With(before, path, functions, after), config, shape)
         == SitesFrom(before, config, shape) + SitesIn(path, functions, config, shape) + SitesFrom(after, config, shape)
    ensures forall site <- SitesFrom(before, config, shape) + SitesFrom(after, config, shape) :: site.path != path
  {
    var file := File(path, functions, false);
    SitesFromConcat(before + [file], after, config, shape);
    SitesFromConcat(before, [file], config, shape);
    OneFile(file, config, shape);
    assert forall f <- before :: f in before + after;
    assert forall f <- after :: f in before + after;
    SitesFromPaths(before, path, config, shape);
    SitesFromPaths(after, path, config, shape);
  }

  lemma MiddlePlace(a: seq<Site>, own: seq<Site>, b: seq<Site>, path: Path, r: nat)
    requires forall site <- a + b :: site.path != path
    requires r < |a + own + b|
    ensures (a + own + b)[r].path == path ==> |a| <= r < |a| + |own|
  {
    if r < |a| {
      assert (a + own + b)[r] == (a + b)[r];
    } else if r >= |a| + |own| {
      assert (a + own + b)[r] == (a + b)[r - |own|];
    }
  }

  /** One function's entry, rebuilt and incremental, up to the order of its copies. */
  lemma SameEntry(
    stale: map<Shape, seq<Site>>, before: seq<File>, path: Path, functions: seq<Function>, after: seq<File>,
    config: Config, i: nat, group: seq<Site>, q: nat)
    requires Others(before, after, path) && i < |functions| && Comparable(functions[i], config)
    requires group == SitesFrom(With(before, path, functions, after), config, functions[i].shape)
    requires q == |SitesFrom(before, config, functions[i].shape)| + |SitesIn(path, functions[..i], config, functions[i].shape)|
    requires Elsewhere(stale, path, functions[i].shape) == SitesFrom(before + after, config, functions[i].shape)
    ensures q < |group| && (|group| > 1 <==> Fresh(stale, path, functions, config, i).copies != [])
    ensures WithSortedCopies(Entry(group, q)) == WithSortedCopies(Fresh(stale, path, functions, config, i))
  {
    var a, left, right, b := Around(stale, before, path, functions, after, config, i, group);
    var d := Fresh(stale, path, functions, config, i);
    assert d.copies == CopiesOf(a + b) + CopiesOf(left + right);
    SameValues(group, a, left, SiteOf(path, functions[i]), right, b, path, d, q);
  }

  /** The rebuilt group around one function, and the same pieces as the incremental comparison finds them. */
  lemma Around(
    stale: map<Shape, seq<Site>>, before: seq<File>, path: Path, functions: seq<Function>, after: seq<File>,
    config: Config, i: nat, group: seq<Site>)
    returns (a: seq<Site>, left: seq<Site>, right: seq<Site>, b: seq<Site>)
    requires Others(before, after, path) && i < |functions| && Comparable(functions[i], config)
    requires group == SitesFrom(With(before, path, functions, after), config, functions[i].shape)
    requires Elsewhere(stale, path, functions[i].shape) == SitesFrom(before + after, config, functions[i].shape)
    ensures a == SitesFrom(before, config, functions[i].shape)
    ensures left == SitesIn(path, functions[..i], config, functions[i].shape)
    ensures group == a + (left + [SiteOf(path, functions[i])] + right) + b
    ensures Elsewhere(stale, path, functions[i].shape) == a + b
    ensures OwnExcept(path, functions, config, functions[i].shape, i) == left + right
    ensures forall s <- a + b :: s.path != path
    ensures (forall s <- left :: s.path == path) && (forall s <- right :: s.path == path)
  {
    var shape := functions[i].shape;
    a, b := SitesFrom(before, config, shape), SitesFrom(after, config, shape);
    left, right := SitesIn(path, functions[..i], config, shape), SitesIn(path, functions[i + 1..], config, shape);
    GroupParts(before, path, functions, after, config, shape);
    SitesAround(path, functions, config, i);
    SitesFromConcat(before, after, config, shape);
    OwnExceptAround(path, functions, config, shape, i);
    SitesInPath(path, functions[..i], config, shape);
    SitesInPath(path, functions[i + 1..], config, shape);
  }

  lemma SameValues(
    group: seq<Site>, a: seq<Site>, left: seq<Site>, site: Site, right: seq<Site>, b: seq<Site>,
    path: Path, d: Duplicate, q: nat)
    requires group == a + (left + [site] + right) + b && q == |a| + |left|
    requires forall s <- a + b :: s.path != path
    requires (forall s <- left :: s.path == path) && (forall s <- right :: s.path == path)
    requires d == Duplicate(site.name, site.start, site.end, site.nloc, CopiesOf(a + b) + CopiesOf(left + right))
    ensures q < |group| && (|group| > 1 <==> d.copies != [])
    ensures WithSortedCopies(Entry(group, q)) == WithSortedCopies(d)
  {
    SameCopies(group, a, left, site, right, b, path);
    CopiesPath(left + right, path);
    CopiesPath(a + b, path);
  }

  lemma WithoutMiddle(group: seq<Site>, a: seq<Site>, left: seq<Site>, site: Site, right: seq<Site>, b: seq<Site>)
    requires group == a + (left + [site] + right) + b
    ensures
      var q := |a| + |left|;
      group[q] == site && group[..q] + group[q + 1..] == a + (left + right) + b
  {
    var q := |a| + |left|;
    assert group[..q] == a + left && group[q + 1..] == right + b;
  }

  lemma SameCopies(group: seq<Site>, a: seq<Site>, left: seq<Site>, site: Site, right: seq<Site>, b: seq<Site>, path: Path)
    requires group == a + (left + [site] + right) + b
    requires forall s <- a + b :: s.path != path
    requires forall s <- left + right :: s.path == path
    ensures
      var q := |a| + |left|;
      group[q] == site
      && StableSort(CopyLe, CopiesOf(group[..q] + group[q + 1..]))
         == StableSort(CopyLe, CopiesOf(a + b) + CopiesOf(left + right))
  {
    WithoutMiddle(group, a, left, site, right, b);
    CopiesConcat(a + (left + right), b);
    CopiesConcat(a, left + right);
    CopiesConcat(a, b);
    CopiesPath(left + right, path);
    CopiesPath(a + b, path);
    OwnCopiesAnywhere(CopiesOf(a), CopiesOf(left + right), CopiesOf(b), path);
  }

  // ----- the entries of one group, function by function

  lemma {:induction false} EntriesOutside(group: seq<Site>, path: Path, m: nat, n: nat)
    requires m <= n <= |group| && forall r :: m <= r < n ==> group[r].path != path
    ensures Entries(group, path, n) == Entries(group, path, m)
  {
    if m < n {
      EntriesOutside(group, path, m, n - 1);
      assert Entries(group, path, n) == Entries(group, path, n - 1) + [];
    }
  }

  /** How many sites of a rebuilt group come before function `n` of the edited file. */
  function OwnAt(before: seq<File>, path: Path, functions: seq<Function>, config: Config, shape: Shape, n: nat): nat
    requires n <= |functions|
  {
    |SitesFrom(before, config, shape)| + |SitesIn(path, functions[..n], config, shape)|
  }

  lemma GroupEnds(
    before: seq<File>, path: Path, functions: seq<Function>, after: seq<File>, config: Config, shape: Shape,
    group: seq<Site>, head: nat, tail: nat)
    requires Others(before, after, path) && group == SitesFrom(With(before, path, functions, after), config, shape)
    requires head == |SitesFrom(before, config, shape)|
    requires tail == OwnAt(before, path, functions, config, shape, |functions|)
    ensures tail <= |group| && Entries(group, path, head) == [] && Entries(group, path, |group|) == Entries(group, path, tail)
  {
    var a, own, b :=
      SitesFrom(before, config, shape), SitesIn(path, functions, config, shape), SitesFrom(after, config, shape);
    GroupParts(before, path, functions, after, config, shape);
    OwnAtEnd(before, path, functions, config, shape);
    EntriesOfMiddle(group, a, own, b, path, head, tail);
  }

  lemma OwnAtEnd(before: seq<File>, path: Path, functions: seq<Function>, config: Config, shape: Shape)
    ensures OwnAt(before, path, functions, config, shape, |functions|)
         == |SitesFrom(before, config, shape)| + |SitesIn(path, functions, config, shape)|
  {
    assert functions[..|functions|] == functions;
  }

  lemma EntriesOfMiddle(group: seq<Site>, a: seq<Site>, own: seq<Site>, b: seq<Site>, path: Path, head: nat, tail: nat)
    requires group == a + own + b && forall site <- a + b :: site.path != path
    requires head == |a| && tail == |a| + |own|
    ensures tail <= |group| && Entries(group, path, head) == [] && Entries(group, path, |group|) == Entries(group, path, tail)
  {
    forall r | 0 <= r < |group| && (r < |a| || r >= |a| + |own|)
      ensures group[r].path != path
    {
      MiddlePlace(a, own, b, path, r);
    }
    EntriesOutside(group, path, 0, head);
    EntriesOutside(group, path, tail, |group|);
  }

  /** The entry of one function of the edited file in a rebuilt group. */
  function OwnChunk(
    before: seq<File>, path: Path, functions: seq<Function>, config: Config, shape: Shape, group: seq<Site>, i: nat)
    : seq<Duplicate>
    requires i < |functions|
  {
    var q := OwnAt(before, path, functions, config, shape, i);
    if Comparable(functions[i], config) && functions[i].shape == shape && q < |group| then [Entry(group, q)] else []
  }

  lemma OwnChunkNext(
    before: seq<File>, path: Path, functions: seq<Function>, after: seq<File>, config: Config, shape: Shape,
    group: seq<Site>, i: nat)
    requires Others(before, after, path) && group == SitesFrom(With(before, path, functions, after), config, shape)
    requires i < |functions| && OwnAt(before, path, functions, config, shape, i) <= |group|
    ensures OwnAt(before, path, functions, config, shape, i + 1) <= |group|
    ensures Entries(group, path, OwnAt(before, path, functions, config, shape, i + 1))
         == Entries(group, path, OwnAt(before, path, functions, config, shape, i))
            + OwnChunk(before, path, functions, config, shape, group, i)
  {
    var q, next := OwnAt(before, path, functions, config, shape, i), OwnAt(before, path, functions, config, shape, i + 1);
    OwnStep(path, functions, config, shape, i);
    if Comparable(functions[i], config) && functions[i].shape == shape {
      SiteInGroup(before, path, functions, after, config, i, group, q);
    }
    EntriesNext(group, path, q, next, OwnChunk(before, path, functions, config, shape, group, i));
  }

  lemma EntriesNext(group: seq<Site>, path: Path, q: nat, next: nat, chunk: seq<Duplicate>)
    requires q <= next <= |group|
    requires if next == q then chunk == [] else next == q + 1 && group[q].path == path && chunk == [Entry(group, q)]
    ensures Entries(group, path, next) == Entries(group, path, q) + chunk
  {
  }

  lemma OwnStep(path: Path, functions: seq<Function>, config: Config, shape: Shape, i: nat)
    requires i < |functions|
    ensures SitesIn(path, functions[..i + 1], config, shape)
         == SitesIn(path, functions[..i], config, shape)
            + if Comparable(functions[i], config) && functions[i].shape == shape then [SiteOf(path, functions[i])] else []
  {
    assert functions[..i + 1][..i] == functions[..i];
  }

  lemma SiteInGroup(
    before: seq<File>, path: Path, functions: seq<Function>, after: seq<File>, config: Config, i: nat, group: seq<Site>, q: nat)
    requires Others(before, after, path) && i < |functions| && Comparable(functions[i], config)
    requires group == SitesFrom(With(before, path, functions, after), config, functions[i].shape)
    requires q == OwnAt(before, path, functions, config, functions[i].shape, i)
    ensures q < |group| && group[q] == SiteOf(path, functions[i])
  {
    GroupParts(before, path, functions, after, config, functions[i].shape);
    SitesAround(path, functions, config, i);
  }

  // ----- the incremental comparison, shape by shape

  /** The entry of one function as the incremental comparison finds it, with sorted copies and the shape. */
  function FoundAt(
    sites: map<Shape, seq<Site>>, path: Path, functions: seq<Function>, config: Config, i: nat)
    : seq<Tagged<Shape, Duplicate>>
    requires i < |functions|
  {
    var d := Fresh(sites, path, functions, config, i);
    if Comparable(functions[i], config) && d.copies != [] then [Tagged(functions[i].shape, WithSortedCopies(d))] else []
  }

  /** What the incremental comparison finds for the first `n` functions. */
  function Found(
    sites: map<Shape, seq<Site>>, path: Path, functions: seq<Function>, config: Config, n: nat)
    : seq<Tagged<Shape, Duplicate>>
    requires n <= |functions|
  {
    Flat(FoundChunks(sites, path, functions, config, n))
  }

  function FoundChunks(
    sites: map<Shape, seq<Site>>, path: Path, functions: seq<Function>, config: Config, n: nat)
    : seq<seq<Tagged<Shape, Duplicate>>>
    requires n <= |functions|
  {
    seq(n, j requires 0 <= j < n => FoundAt(sites, path, functions, config, j))
  }

  lemma FoundStep(sites: map<Shape, seq<Site>>, path: Path, functions: seq<Function>, config: Config, n: nat)
    requires 0 < n <= |functions|
    ensures Found(sites, path, functions, config, n)
         == Found(sites, path, functions, config, n - 1) + FoundAt(sites, path, functions, config, n - 1)
  {
    var chunks := FoundChunks(sites, path, functions, config, n);
    assert chunks[..n - 1] == FoundChunks(sites, path, functions, config, n - 1);
  }

  /** Both comparisons list the same entries, up to the order of copies. */
  ghost predicate SameEntries(found: seq<Tagged<Shape, Duplicate>>, entries: seq<Duplicate>) {
    Values(found) == CopiesSorted(entries)
  }

  lemma {:induction false} SameChunks(a: seq<seq<Tagged<Shape, Duplicate>>>, b: seq<seq<Duplicate>>)
    requires |a| == |b| && forall j :: 0 <= j < |a| ==> SameEntries(a[j], b[j])
    ensures SameEntries(Flat(a), Flat(b))
  {
    if a != [] {
      var n := |a| - 1;
      SameChunks(a[..n], b[..n]);
      ValuesConcat(Flat(a[..n]), a[n]);
      CopiesSortedConcat(Flat(b[..n]), b[n]);
    }
  }

  lemma {:induction false} FreshIsFlat(
    sites: map<Shape, seq<Site>>, path: Path, functions: seq<Function>, config: Config, chunks: seq<seq<Duplicate>>)
    requires |chunks| <= |functions|
    requires forall j :: 0 <= j < |chunks| ==> chunks[j] == FreshAt(sites, path, functions, config, j)
    ensures FreshEntries(sites, path, functions, config, |chunks|) == Flat(chunks)
  {
    if chunks != [] {
      FreshIsFlat(sites, path, functions, config, chunks[..|chunks| - 1]);
    }
  }

  lemma FoundValues(sites: map<Shape, seq<Site>>, path: Path, functions: seq<Function>, config: Config)
    ensures SameEntries(
              Found(sites, path, functions, config, |functions|),
              FreshEntries(sites, path, functions, config, |functions|)) == true
  {
    var found := FoundChunks(sites, path, functions, config, |functions|);
    var entries := seq(|functions|, j requires 0 <= j < |functions| => FreshAt(sites, path, functions, config, j));
    forall j | 0 <= j < |functions|
      ensures SameEntries(found[j], entries[j]) == true
    {
      FoundValue(sites, path, functions, config, j);
    }
    SameChunks(found, entries);
    FreshIsFlat(sites, path, functions, config, entries);
  }

  lemma FoundValue(sites: map<Shape, seq<Site>>, path: Path, functions: seq<Function>, config: Config, i: nat)
    requires i < |functions|
    ensures SameEntries(FoundAt(sites, path, functions, config, i), FreshAt(sites, path, functions, config, i)) == true
  {
    var d := Fresh(sites, path, functions, config, i);
    CopiesSortedOne(d);
    OneTagged(functions[i].shape, WithSortedCopies(d), functions[i].shape);
  }

  lemma OneTagged(tag: Shape, d: Duplicate, shape: Shape)
    ensures Values([Tagged(tag, d)]) == [d]
    ensures Part([Tagged(tag, d)], shape) == if tag == shape then [d] else []
  {
    assert [Tagged(tag, d)][..0] == [];
  }

  lemma {:induction false} FlatMember<T>(chunks: seq<seq<T>>, t: T) returns (i: nat)
    requires t in Flat(chunks)
    ensures i < |chunks| && t in chunks[i]
  {
    var last := |chunks| - 1;
    if t in chunks[last] {
      i := last;
    } else {
      i := FlatMember(chunks[..last], t);
    }
  }

  /** What is found comes from a comparable function, whose shape and place it has. */
  lemma FoundPlace(
    sites: map<Shape, seq<Site>>, path: Path, functions: seq<Function>, config: Config, t: Tagged<Shape, Duplicate>)
    returns (f: Function)
    requires t in Found(sites, path, functions, config, |functions|)
    ensures f in functions && Keyed(f, config, t.value) && t.tag == f.shape
  {
    var i := FlatMember(FoundChunks(sites, path, functions, config, |functions|), t);
    f := functions[i];
  }

  /** A rebuilt group lists the sites of the edited file where its functions come. */
  ghost predicate RebuiltGroup(
    stale: map<Shape, seq<Site>>, before: seq<File>, path: Path, functions: seq<Function>, after: seq<File>,
    config: Config, shape: Shape, group: seq<Site>)
  {
    && Others(before, after, path)
    && group == SitesFrom(With(before, path, functions, after), config, shape)
    && Elsewhere(stale, path, shape) == SitesFrom(before + after, config, shape)
  }

  lemma FoundOfShape(
    stale: map<Shape, seq<Site>>, before: seq<File>, path: Path, functions: seq<Function>, after: seq<File>,
    config: Config, shape: Shape, group: seq<Site>, i: nat)
    requires RebuiltGroup(stale, before, path, functions, after, config, shape, group) && i < |functions|
    ensures Part(FoundAt(stale, path, functions, config, i), shape)
         == if |group| > 1 then CopiesSorted(OwnChunk(before, path, functions, config, shape, group, i)) else []
  {
    var d := Fresh(stale, path, functions, config, i);
    OneTagged(functions[i].shape, WithSortedCopies(d), shape);
    if Comparable(functions[i], config) && functions[i].shape == shape {
      var q := OwnAt(before, path, functions, config, shape, i);
      SameEntry(stale, before, path, functions, after, config, i, group, q);
      CopiesSortedOne(Entry(group, q));
    }
  }

  /** The entries that a rebuilt group has for the first functions are those found of its shape. */
  lemma {:induction false} OwnEntriesAgree(
    stale: map<Shape, seq<Site>>, before: seq<File>, path: Path, functions: seq<Function>, after: seq<File>,
    config: Config, shape: Shape, group: seq<Site>, n: nat)
    requires RebuiltGroup(stale, before, path, functions, after, config, shape, group) && n <= |functions|
    ensures OwnAt(before, path, functions, config, shape, n) <= |group|
    ensures Part(Found(stale, path, functions, config, n), shape)
         == if |group| > 1 then CopiesSorted(Entries(group, path, OwnAt(before, path, functions, config, shape, n))) else []
  {
    if n == 0 {
      assert functions[..0] == [];
      GroupEnds(
        before, path, functions, after, config, shape, group, OwnAt(before, path, functions, config, shape, 0),
        OwnAt(before, path, functions, config, shape, |functions|));
    } else {
      OwnEntriesAgree(stale, before, path, functions, after, config, shape, group, n - 1);
      OwnChunkNext(before, path, functions, after, config, shape, group, n - 1);
      FoundOfShape(stale, before, path, functions, after, config, shape, group, n - 1);
      FoundStep(stale, path, functions, config, n);
      PartConcat(Found(stale, path, functions, config, n - 1), FoundAt(stale, path, functions, config, n - 1), shape);
      CopiesSortedConcat(
        Entries(group, path, OwnAt(before, path, functions, config, shape, n - 1)),
        OwnChunk(before, path, functions, config, shape, group, n - 1));
    }
  }

  lemma GroupAgrees(
    stale: map<Shape, seq<Site>>, before: seq<File>, path: Path, functions: seq<Function>, after: seq<File>,
    config: Config, shape: Shape, group: seq<Site>)
    requires RebuiltGroup(stale, before, path, functions, after, config, shape, group)
    ensures CopiesSorted(GroupEntries(group, path)) == Part(Found(stale, path, functions, config, |functions|), shape)
  {
    OwnEntriesAgree(stale, before, path, functions, after, config, shape, group, |functions|);
    if |group| > 1 {
      GroupEnds(
        before, path, functions, after, config, shape, group, |SitesFrom(before, config, shape)|,
        OwnAt(before, path, functions, config, shape, |functions|));
    }
  }

  /** The rebuilt groups list, shape by shape, what the incremental comparison finds. */
  ghost predicate Regroups(groups: map<Shape, seq<Site>>, path: Path, found: seq<Tagged<Shape, Duplicate>>) {
    && (forall shape :: CopiesSorted(GroupEntries(Listed(groups, shape), path)) == Part(found, shape))
    && (forall t <- found :: t.tag in groups)
  }

  lemma RebuildRegroups(
    stale: map<Shape, seq<Site>>, seen: seq<File>, before: seq<File>, path: Path, functions: seq<Function>,
    after: seq<File>, config: Config, groups: map<Shape, seq<Site>>)
    requires GroupsOf(stale, seen, config) && Filter(NotAt(path), seen) == before + after && Others(before, after, path)
    requires GroupsOf(groups, With(before, path, functions, after), config)
    ensures Regroups(groups, path, Found(stale, path, functions, config, |functions|))
  {
    var found := Found(stale, path, functions, config, |functions|);
    forall shape
      ensures CopiesSorted(GroupEntries(Listed(groups, shape), path)) == Part(found, shape)
    {
      assert Listed(groups, shape) == SitesFrom(With(before, path, functions, after), config, shape);
      assert Listed(stale, shape) == SitesFrom(seen, config, shape);
      ElsewhereIsOtherFiles(seen, path, config, shape);
      GroupAgrees(stale, before, path, functions, after, config, shape, Listed(groups, shape));
    }
    forall t <- found
      ensures t.tag in groups
    {
      PartMembers(found, t.tag);
      assert Tagged(t.tag, t.value) == t;
      assert Part(found, t.tag) == CopiesSorted(GroupEntries(Listed(groups, t.tag), path));
    }
  }

  lemma {:induction false} CollectedRegrouped(
    groups: map<Shape, seq<Site>>, path: Path, found: seq<Tagged<Shape, Duplicate>>, visited: seq<Shape>)
    requires Regroups(groups, path, found)
    ensures CopiesSorted(Collected(groups, visited, path)) == Joined(PartsOf(found), visited)
  {
    if visited != [] {
      var init, last := visited[..|visited| - 1], visited[|visited| - 1];
      CollectedRegrouped(groups, path, found, init);
      CopiesSortedConcat(Collected(groups, init, path), GroupEntries(Listed(groups, last), path));
    }
  }

  /** What is kept at the place of `x` of the entries found, shape by shape and altogether. */
  function KeptParts(found: seq<Tagged<Shape, Duplicate>>, x: Duplicate): Shape -> seq<Duplicate> {
    Passing(KeptAt(Values(found), x), PartsOf(found))
  }

  function KeptOf(found: seq<Tagged<Shape, Duplicate>>, x: Duplicate): seq<Duplicate> {
    Filter(KeptAt(Values(found), x), Values(found))
  }

  lemma CollectedKept(
    groups: map<Shape, seq<Site>>, path: Path, found: seq<Tagged<Shape, Duplicate>>, visited: seq<Shape>)
    requires Regroups(groups, path, found) && Enumerates(visited, groups)
    ensures forall d :: d in CopiesSorted(Collected(groups, visited, path)) <==> d in Values(found)
    ensures forall x ::
              Joined(KeptParts(found, x), visited)
              == Filter(KeptAt(Values(found), x), CopiesSorted(Collected(groups, visited, path)))
  {
    CollectedRegrouped(groups, path, found, visited);
    SameMembersJoined(found, visited);
    forall x
      ensures Joined(KeptParts(found, x), visited) == Filter(KeptAt(Values(found), x), Joined(PartsOf(found), visited))
    {
      FilterJoined(KeptAt(Values(found), x), PartsOf(found), visited);
    }
  }

  /** Visiting the groups in a given order settles to what the incremental comparison does exactly when,
      at every place, the entries kept are those of one shape after the other, in that order. */
  lemma InOrderIff(
    groups: map<Shape, seq<Site>>, path: Path, found: seq<Tagged<Shape, Duplicate>>, entries: seq<Duplicate>, visited: seq<Shape>)
    requires Regroups(groups, path, found) && SameEntries(found, entries) && Enumerates(visited, groups)
    ensures Settled(Collected(groups, visited, path)) == Settled(entries)
            <==> forall x :: Joined(KeptParts(found, x), visited) == KeptOf(found, x)
  {
    CollectedKept(groups, path, found, visited);
    SettleAlikeIff(Collected(groups, visited, path), entries, Values(found));
  }

  lemma TwoOrdersIff(
    groups: map<Shape, seq<Site>>, path: Path, found: seq<Tagged<Shape, Duplicate>>, v: seq<Shape>, w: seq<Shape>)
    requires Regroups(groups, path, found) && Enumerates(v, groups) && Enumerates(w, groups)
    ensures Settled(Collected(groups, v, path)) == Settled(Collected(groups, w, path))
            <==> forall x :: Joined(KeptParts(found, x), v) == Joined(KeptParts(found, x), w)
  {
    CollectedKept(groups, path, found, v);
    CollectedKept(groups, path, found, w);
    SettleAlikeIff(Collected(groups, v, path), Collected(groups, w, path), Values(found));
  }

  lemma KeptNeedsTag(found: seq<Tagged<Shape, Duplicate>>, x: Duplicate)
    ensures Covers(FirstTags(found), KeptParts(found, x))
    ensures forall shape :: KeptParts(found, x)(shape) != [] ==> exists t <- found :: t.tag == shape
  {
    FirstTagsCover(found);
    forall shape | KeptParts(found, x)(shape) != []
      ensures exists t <- found :: t.tag == shape
    {
      var d := KeptParts(found, x)(shape)[0];
      FilterMembers(KeptAt(Values(found), x), Part(found, shape));
      assert d in Filter(KeptAt(Values(found), x), Part(found, shape));
      PartMembers(found, shape);
      assert Tagged(shape, d) in found;
    }
  }

  /** At every place, the entries kept of any two shapes come to the same in either order. */
  ghost predicate ShapesCommute(found: seq<Tagged<Shape, Duplicate>>) {
    forall x :: Commuting(KeptParts(found, x))
  }

  /** At every place, the entries kept of one shape come together: taking them shape by shape, in the
      order in which the shapes first occur, leaves them as they are. */
  ghost predicate ShapesApart(found: seq<Tagged<Shape, Duplicate>>) {
    forall x :: Joined(KeptParts(found, x), FirstTags(found)) == KeptOf(found, x)
  }

  lemma RegroupedTags(groups: map<Shape, seq<Site>>, path: Path, found: seq<Tagged<Shape, Duplicate>>, x: Duplicate)
    requires Regroups(groups, path, found)
    ensures forall shape :: KeptParts(found, x)(shape) != [] ==> shape in groups.Keys
    ensures forall shape <- FirstTags(found) :: shape in groups.Keys
  {
    KeptNeedsTag(found, x);
    FirstTagsCover(found);
  }

  /** The order in which the groups are visited makes no difference to the list of a file. */
  ghost predicate Determined(groups: map<Shape, seq<Site>>, path: Path) {
    forall v, w | Enumerates(v, groups) && Enumerates(w, groups) ::
      Settled(Collected(groups, v, path)) == Settled(Collected(groups, w, path))
  }

  /** Whatever that order is, the list is some entries settled. */
  ghost predicate AlwaysSettles(groups: map<Shape, seq<Site>>, path: Path, entries: seq<Duplicate>) {
    forall visited | Enumerates(visited, groups) :: Settled(Collected(groups, visited, path)) == Settled(entries)
  }

  lemma CommutingOrdersSettleAlike(
    groups: map<Shape, seq<Site>>, path: Path, found: seq<Tagged<Shape, Duplicate>>, v: seq<Shape>, w: seq<Shape>)
    requires Regroups(groups, path, found) && ShapesCommute(found)
    requires Enumerates(v, groups) && Enumerates(w, groups)
    ensures Settled(Collected(groups, v, path)) == Settled(Collected(groups, w, path))
  {
    forall x
      ensures Joined(KeptParts(found, x), v) == Joined(KeptParts(found, x), w)
    {
      RegroupedTags(groups, path, found, x);
      OrdersAgree(KeptParts(found, x), v, w);
    }
    TwoOrdersIff(groups, path, found, v, w);
  }

  lemma AlikeInEveryOrderCommutes(
    groups: map<Shape, seq<Site>>, path: Path, found: seq<Tagged<Shape, Duplicate>>, x: Duplicate)
    requires Regroups(groups, path, found)
    requires Determined(groups, path) == true
    ensures Commuting(KeptParts(found, x))
  {
    forall v, w | OrderOf(v, groups.Keys) && OrderOf(w, groups.Keys)
      ensures Joined(KeptParts(found, x), v) == Joined(KeptParts(found, x), w)
    {
      assert Enumerates(v, groups) && Enumerates(w, groups);
      TwoOrdersIff(groups, path, found, v, w);
    }
    RegroupedTags(groups, path, found, x);
    OrdersAgreeIff(KeptParts(found, x), groups.Keys);
  }

  /** The rebuilt index does not depend on the order in which its groups are visited exactly when the
      shapes commute at every place of the edited file. */
  lemma RebuildIsDeterminedIff(
    stale: Index, seen: seq<File>, before: seq<File>, path: Path, functions: seq<Function>, after: seq<File>,
    config: Config, groups: map<Shape, seq<Site>>)
    requires GroupsOf(stale.sites, seen, config)
    requires Filter(NotAt(path), seen) == before + after && Others(before, after, path)
    requires GroupsOf(groups, With(before, path, functions, after), config)
    ensures Determined(groups, path) <==> ShapesCommute(Found(stale.sites, path, functions, config, |functions|))
  {
    var found := Found(stale.sites, path, functions, config, |functions|);
    RebuildRegroups(stale.sites, seen, before, path, functions, after, config, groups);
    OrdersSettleAlikeIff(groups, path, found);
  }

  lemma OrdersSettleAlikeIff(groups: map<Shape, seq<Site>>, path: Path, found: seq<Tagged<Shape, Duplicate>>)
    requires Regroups(groups, path, found)
    ensures Determined(groups, path) <==> ShapesCommute(found)
  {
    if Determined(groups, path) == true {
      forall x
        ensures Commuting(KeptParts(found, x))
      {
        AlikeInEveryOrderCommutes(groups, path, found, x);
      }
    }
    if ShapesCommute(found) {
      forall v, w | Enumerates(v, groups) && Enumerates(w, groups)
        ensures Settled(Collected(groups, v, path)) == Settled(Collected(groups, w, path))
      {
        CommutingOrdersSettleAlike(groups, path, found, v, w);
      }
    }
  }

  lemma ApartSettlesAlike(
    groups: map<Shape, seq<Site>>, path: Path, found: seq<Tagged<Shape, Duplicate>>, entries: seq<Duplicate>, visited: seq<Shape>)
    requires Regroups(groups, path, found) && SameEntries(found, entries) && Enumerates(visited, groups)
    requires ShapesCommute(found) && ShapesApart(found)
    ensures Settled(Collected(groups, visited, path)) == Settled(entries)
  {
    forall x
      ensures Joined(KeptParts(found, x), visited) == KeptOf(found, x)
    {
      KeptNeedsTag(found, x);
      RegroupedTags(groups, path, found, x);
      OrdersAgree(KeptParts(found, x), visited, FirstTags(found));
      assert Joined(KeptParts(found, x), FirstTags(found)) == KeptOf(found, x);
    }
    InOrderIff(groups, path, found, entries, visited);
  }

  lemma AlikeInEveryOrderIsApart(
    groups: map<Shape, seq<Site>>, path: Path, found: seq<Tagged<Shape, Duplicate>>, entries: seq<Duplicate>, x: Duplicate)
    requires Regroups(groups, path, found) && SameEntries(found, entries)
    requires AlwaysSettles(groups, path, entries) == true
    ensures Commuting(KeptParts(found, x))
    ensures Joined(KeptParts(found, x), FirstTags(found)) == KeptOf(found, x)
  {
    forall visited | OrderOf(visited, groups.Keys)
      ensures Joined(KeptParts(found, x), visited) == KeptOf(found, x)
    {
      assert Enumerates(visited, groups);
      InOrderIff(groups, path, found, entries, visited);
    }
    KeptNeedsTag(found, x);
    RegroupedTags(groups, path, found, x);
    EveryOrderIff(KeptParts(found, x), groups.Keys, FirstTags(found), KeptOf(found, x));
  }

  lemma EveryOrderSettlesIff(
    groups: map<Shape, seq<Site>>, path: Path, found: seq<Tagged<Shape, Duplicate>>, entries: seq<Duplicate>)
    requires Regroups(groups, path, found) && SameEntries(found, entries)
    ensures AlwaysSettles(groups, path, entries) <==> ShapesCommute(found) && ShapesApart(found)
  {
    if AlwaysSettles(groups, path, entries) == true {
      forall x
        ensures Commuting(KeptParts(found, x)) && Joined(KeptParts(found, x), FirstTags(found)) == KeptOf(found, x)
      {
        AlikeInEveryOrderIsApart(groups, path, found, entries, x);
      }
    }
    if ShapesCommute(found) && ShapesApart(found) {
      forall visited | Enumerates(visited, groups)
        ensures Settled(Collected(groups, visited, path)) == Settled(entries)
      {
        ApartSettlesAlike(groups, path, found, entries, visited);
      }
    }
  }

  /** Comparing one edited file on its own finds what rebuilding the index with it would report, in
      whatever order the groups are visited, exactly when at every place of the file the shapes commute
      and are not interleaved. Both can be read off what the comparison found. */
  lemma IncrementalEqualsRebuildIff(
    stale: Index, seen: seq<File>, before: seq<File>, path: Path, functions: seq<Function>, after: seq<File>,
    config: Config, groups: map<Shape, seq<Site>>)
    requires GroupsOf(stale.sites, seen, config)
    requires Filter(NotAt(path), seen) == before + after && Others(before, after, path)
    requires GroupsOf(groups, With(before, path, functions, after), config)
    ensures
      var found := Found(stale.sites, path, functions, config, |functions|);
      AlwaysSettles(groups, path, FreshEntries(stale.sites, path, functions, config, |functions|))
      <==> ShapesCommute(found) && ShapesApart(found)
  {
    RebuildRegroups(stale.sites, seen, before, path, functions, after, config, groups);
    FoundValues(stale.sites, path, functions, config);
    EveryOrderSettlesIff(
      groups, path, Found(stale.sites, path, functions, config, |functions|),
      FreshEntries(stale.sites, path, functions, config, |functions|));
  }

  /** It does when no two comparable functions of the file tie without sharing a shape. */
  lemma IncrementalEqualsRebuild(
    stale: Index, seen: seq<File>, before: seq<File>, path: Path, functions: seq<Function>, after: seq<File>,
    config: Config, rebuilt: Index, visited: seq<Shape>)
    requires GroupsOf(stale.sites, seen, config)
    requires Filter(NotAt(path), seen) == before + after
    requires Others(before, after, path) && TiesShareShape(functions, config)
    requires Indexes(rebuilt, With(before, path, functions, after), config, visited)
    ensures DuplicatesIn(rebuilt, path) == Settled(FreshEntries(stale.sites, path, functions, config, |functions|))
  {
    var found := Found(stale.sites, path, functions, config, |functions|);
    forall x
      ensures Commuting(KeptParts(found, x))
      ensures Joined(KeptParts(found, x), FirstTags(found)) == KeptOf(found, x)
    {
      TiesAreApart(stale.sites, path, functions, config, x);
    }
    IncrementalEqualsRebuildIff(stale, seen, before, path, functions, after, config, rebuilt.sites);
  }

  lemma TiesAreApart(sites: map<Shape, seq<Site>>, path: Path, functions: seq<Function>, config: Config, x: Duplicate)
    requires TiesShareShape(functions, config)
    ensures
      var found := Found(sites, path, functions, config, |functions|);
      Commuting(KeptParts(found, x)) && Joined(KeptParts(found, x), FirstTags(found)) == KeptOf(found, x)
  {
    var found := Found(sites, path, functions, config, |functions|);
    if f :| f in functions && Keyed(f, config, x) {
      forall t <- found | KeptAt(Values(found), x)(t.value)
        ensures t.tag == f.shape
      {
        var g := FoundPlace(sites, path, functions, config, t);
      }
      OneShapeApart(found, x, f.shape);
    } else {
      forall t <- found
        ensures !KeptAt(Values(found), x)(t.value)
      {
        var g := FoundPlace(sites, path, functions, config, t);
      }
      OneShapeApart(found, x, Shape(0));
    }
  }

  lemma OneShapeApart(found: seq<Tagged<Shape, Duplicate>>, x: Duplicate, shape: Shape)
    requires forall t <- found | KeptAt(Values(found), x)(t.value) :: t.tag == shape
    ensures Commuting(KeptParts(found, x)) && Joined(KeptParts(found, x), FirstTags(found)) == KeptOf(found, x)
  {
    var part, first := KeptParts(found, x), FirstTags(found);
    forall other | other != shape
      ensures part(other) == []
    {
      NothingKept(found, x, other);
    }
    KeptNeedsTag(found, x);
    OneTagPasses(KeptAt(Values(found), x), found, shape);
    if shape in first {
      JoinedSingle(part, first, shape);
    } else {
      JoinedNothing(part, first);
      assert part(shape) == [];
    }
  }

  lemma NothingKept(found: seq<Tagged<Shape, Duplicate>>, x: Duplicate, shape: Shape)
    requires forall t <- found | KeptAt(Values(found), x)(t.value) :: t.tag != shape
    ensures KeptParts(found, x)(shape) == []
  {
    PartMembers(found, shape);
    forall d <- Part(found, shape)
      ensures !KeptAt(Values(found), x)(d)
    {
      assert Tagged(shape, d) in found;
    }
    FilterNone(KeptAt(Values(found), x), Part(found, shape));
  }

  // ----- functions that tie without sharing a shape

  lemma SortOfTies(a: Duplicate, b: Duplicate)
    requires SameKey(a, b)
    ensures StableSort(EntryLe, [a, b]) == [a, b]
  {
    EntrySame(a, b);
    EntrySame(a, a);
    assert EntryLe(a, b);
    assert [a, b][1..] == [b] && [b][1..] == [];
    assert StableSort(EntryLe, [b]) == [b];
  }

  /** Two entries that tie, with one span and different copies, are reported in the order they come. */
  lemma TiesKeepTheirOrder(a: Duplicate, b: Duplicate)
    requires SameKey(a, b) && a.end == b.end
    ensures Settled([a, b]) == [WithSortedCopies(a), WithSortedCopies(b)]
  {
    SortOfTies(a, b);
    CopiesSortedOne(a);
    CopiesSortedOne(b);
    CopiesSortedConcat([a], [b]);
    assert [a] + [b] == [a, b];
    var list := [WithSortedCopies(a), WithSortedCopies(b)];
    FilterAll((d: Duplicate) => Outermost(list, d), list);
  }

  /** So two groups of different shapes that tie are reported in the order they are visited. */
  lemma TiesFollowVisits(groups: map<Shape, seq<Site>>, first: Shape, second: Shape, path: Path, a: Duplicate, b: Duplicate)
    requires GroupEntries(Listed(groups, first), path) == [a] && GroupEntries(Listed(groups, second), path) == [b]
    requires SameKey(a, b) && a.end == b.end
    ensures Settled(Collected(groups, [first, second], path)) == [WithSortedCopies(a), WithSortedCopies(b)]
  {
    CollectedTwo(groups, first, second, path);
    assert [a] + [b] == [a, b];
    TiesKeepTheirOrder(a, b);
  }

  /** The limits that are configured by default. */
  const DEFAULTS: Config := Config(6, 40)

  function Nested(name: Name, shape: Shape): Function {
    Function(name, 1, 9, 7, false, shape, if shape == Shape(1) then 46 else 40)
  }

  /** One file with a closure that spans the lines of the one around it, and two files that copy one each. */
  function TieFiles(p: Path, q: Path, r: Path, name: Name): seq<File> {
    [ File(p, [Nested(name, Shape(1)), Nested(name, Shape(2))], false),
      File(q, [Nested(name, Shape(1))], false), File(r, [Nested(name, Shape(2))], false) ]
  }

  function TieSite(path: Path, name: Name): Site {
    Site(path, name, 1, 9, 7)
  }

  function TieGroups(p: Path, q: Path, r: Path, name: Name): map<Shape, seq<Site>> {
    map[Shape(1) := [TieSite(p, name), TieSite(q, name)], Shape(2) := [TieSite(p, name), TieSite(r, name)]]
  }

  lemma NestedSites(path: Path, name: Name, of: Shape, shape: Shape)
    requires of in {Shape(1), Shape(2)}
    ensures SitesIn(path, [Nested(name, of)], DEFAULTS, shape) == if of == shape then [TieSite(path, name)] else []
  {
    assert [Nested(name, of)][..0] == [];
  }

  lemma ThreeFiles(a: File, b: File, c: File, shape: Shape)
    requires !a.test && !b.test && !c.test
    ensures SitesFrom([a, b, c], DEFAULTS, shape)
         == SitesIn(a.path, a.functions, DEFAULTS, shape) + SitesIn(b.path, b.functions, DEFAULTS, shape)
            + SitesIn(c.path, c.functions, DEFAULTS, shape)
  {
    SitesFromConcat([a] + [b], [c], DEFAULTS, shape);
    SitesFromConcat([a], [b], DEFAULTS, shape);
    OneFile(a, DEFAULTS, shape);
    OneFile(b, DEFAULTS, shape);
    OneFile(c, DEFAULTS, shape);
    assert [a] + [b] + [c] == [a, b, c];
  }

  lemma BothNested(p: Path, name: Name, shape: Shape)
    ensures SitesIn(p, [Nested(name, Shape(1)), Nested(name, Shape(2))], DEFAULTS, shape)
         == if shape in {Shape(1), Shape(2)} then [TieSite(p, name)] else []
  {
    SitesInConcat(p, [Nested(name, Shape(1))], [Nested(name, Shape(2))], DEFAULTS, shape);
    assert [Nested(name, Shape(1))] + [Nested(name, Shape(2))] == [Nested(name, Shape(1)), Nested(name, Shape(2))];
    NestedSites(p, name, Shape(1), shape);
    NestedSites(p, name, Shape(2), shape);
  }

  lemma TieSites(p: Path, q: Path, r: Path, name: Name, shape: Shape)
    ensures SitesFrom(TieFiles(p, q, r, name), DEFAULTS, shape)
         == (if shape in {Shape(1), Shape(2)} then [TieSite(p, name)] else [])
            + (if shape == Shape(1) then [TieSite(q, name)] else []) + (if shape == Shape(2) then [TieSite(r, name)] else [])
  {
    var files := TieFiles(p, q, r, name);
    ThreeFiles(files[0], files[1], files[2], shape);
    BothNested(p, name, shape);
    NestedSites(q, name, Shape(1), shape);
    NestedSites(r, name, Shape(2), shape);
  }

  lemma TieGroupsOf(p: Path, q: Path, r: Path, name: Name)
    ensures GroupsOf(TieGroups(p, q, r, name), TieFiles(p, q, r, name), DEFAULTS)
  {
    forall shape
      ensures Listed(TieGroups(p, q, r, name), shape) == SitesFrom(TieFiles(p, q, r, name), DEFAULTS, shape)
    {
      TieSites(p, q, r, name, shape);
    }
  }

  lemma PairEntries(a: Site, b: Site)
    requires a.path != b.path
    ensures GroupEntries([a, b], a.path) == [Duplicate(a.name, a.start, a.end, a.nloc, [CopyOf(b)])]
  {
    var group := [a, b];
    assert group[..0] + group[1..] == [b];
    assert [b][..0] == [];
    assert CopiesOf([b]) == CopiesOf([]) + [CopyOf(b)] == [CopyOf(b)];
    assert Entry(group, 0) == Duplicate(a.name, a.start, a.end, a.nloc, [CopyOf(b)]);
    assert Entries(group, a.path, 1) == [] + [Entry(group, 0)];
    assert Entries(group, a.path, 2) == Entries(group, a.path, 1) + [];
  }

  /** Without the condition the rebuilt index itself depends on the order in which its groups are
      visited: two functions at one place, with the same span and size, are copied in different files. */
  lemma TiesDependOnVisitingOrder(p: Path, q: Path, r: Path, name: Name)
    requires p != q && p != r && q != r
    ensures
      var groups := TieGroups(p, q, r, name);
      && GroupsOf(groups, TieFiles(p, q, r, name), DEFAULTS)
      && Enumerates([Shape(1), Shape(2)], groups) && Enumerates([Shape(2), Shape(1)], groups)
      && Settled(Collected(groups, [Shape(1), Shape(2)], p)) != Settled(Collected(groups, [Shape(2), Shape(1)], p))
  {
    TieGroupsOf(p, q, r, name);
    PairEntries(TieSite(p, name), TieSite(q, name));
    PairEntries(TieSite(p, name), TieSite(r, name));
    var a := Duplicate(name, 1, 9, 7, [CopyOf(TieSite(q, name))]);
    var b := Duplicate(name, 1, 9, 7, [CopyOf(TieSite(r, name))]);
    var groups := TieGroups(p, q, r, name);
    TiesFollowVisits(groups, Shape(1), Shape(2), p, a, b);
    TiesFollowVisits(groups, Shape(2), Shape(1), p, b, a);
    OneCopySorted(a);
    OneCopySorted(b);
    assert a.copies[0].path == q && b.copies[0].path == r;
    assert [a, b][0] != [b, a][0];
  }

  lemma OneCopySorted(d: Duplicate)
    requires |d.copies| == 1
    ensures WithSortedCopies(d) == d
  {
    assert d.copies[1..] == [];
    assert StableSort(CopyLe, d.copies) == Insert(CopyLe, d.copies[0], StableSort(CopyLe, [])) == d.copies;
  }

  lemma CollectedTwo(groups: map<Shape, seq<Site>>, first: Shape, second: Shape, path: Path)
    ensures Collected(groups, [first, second], path)
         == GroupEntries(Listed(groups, first), path) + GroupEntries(Listed(groups, second), path)
  {
    assert [first, second][..1] == [first] && [first][..0] == [];
    assert Collected(groups, [first], path) == [] + GroupEntries(Listed(groups, first), path);
  }

  // ----- when there is nothing to report

  /** The index is empty exactly when no two comparable functions share a shape. */
  lemma EmptyIffNoCopies(index: Index, files: seq<File>, config: Config, visited: seq<Shape>)
    requires Indexes(index, files, config, visited)
    ensures IsEmpty(index) <==> forall shape :: |SitesFrom(files, config, shape)| <= 1
  {
    if shape :| |SitesFrom(files, config, shape)| > 1 {
      assert Listed(index.sites, shape) == SitesFrom(files, config, shape);
      SharedShapeListed(index, files, config, visited, shape);
    } else {
      forall shape
        ensures |Listed(index.sites, shape)| <= 1
      {
        assert Listed(index.sites, shape) == SitesFrom(files, config, shape);
      }
      NothingListed(index, visited);
    }
  }

  lemma NothingListed(index: Index, visited: seq<Shape>)
    requires forall shape :: |Listed(index.sites, shape)| <= 1
    requires forall p <- index.byPath :: Collected(index.sites, visited, p) != []
    ensures IsEmpty(index)
  {
    forall p
      ensures p !in index.byPath
    {
      NothingCollected(index.sites, visited, p);
    }
    assert index.byPath == map[];
  }

  lemma SharedShapeListed(index: Index, files: seq<File>, config: Config, visited: seq<Shape>, shape: Shape)
    requires Indexes(index, files, config, visited) && |Listed(index.sites, shape)| > 1
    ensures !IsEmpty(index)
  {
    var group := Listed(index.sites, shape);
    var path := group[0].path;
    FirstEntry(group, path, |group|);
    SomethingCollected(index.sites, visited, path, shape);
    SettledKeepsSomething(Collected(index.sites, visited, path));
    assert Listed(index.byPath, path) != [];
  }

  lemma {:induction false} FirstEntry(group: seq<Site>, path: Path, n: nat)
    requires 0 < n <= |group| && group[0].path == path
    ensures Entries(group, path, n) != []
  {
    if n > 1 {
      FirstEntry(group, path, n - 1);
    }
  }

  lemma {:induction false} SomethingCollected(
    groups: map<Shape, seq<Site>>, visited: seq<Shape>, path: Path, shape: Shape)
    requires shape in visited && GroupEntries(Listed(groups, shape), path) != []
    ensures Collected(groups, visited, path) != []
  {
    var init, last := visited[..|visited| - 1], visited[|visited| - 1];
    assert visited == init + [last];
    if last != shape {
      SomethingCollected(groups, init, path, shape);
    }
  }

  lemma {:induction false} NothingCollected(groups: map<Shape, seq<Site>>, visited: seq<Shape>, path: Path)
    requires forall shape :: |Listed(groups, shape)| <= 1
    ensures Collected(groups, visited, path) == []
  {
    if visited != [] {
      NothingCollected(groups, visited[..|visited| - 1], path);
      assert |Listed(groups, visited[|visited| - 1])| <= 1;
    }
  }
}
