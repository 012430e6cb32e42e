/** What the duplicate index and the comparison of one file report, in terms of files and functions
    (crates/code-health/src/duplication.rs). */
module Copies {
  import opened Common
  import opened Duplication
  import opened DuplicationLaws
  import opened Grouping
  import opened Sorting
  import opened Text

  // ----- what is to be reported

  /** Function `j` of file `i` is compared, and has this shape. */
  ghost predicate Counted(files: seq<File>, config: Config, shape: Shape, i: nat, j: nat) {
    && i < |files| && !files[i].test && j < |files[i].functions|
    && var f := files[i].functions[j];
       f.shape == shape && shape != Shape(0) && !f.test && f.nloc >= config.minNloc && f.shapeNodes >= config.minNodes
  }

  /** The places of all functions of a shape, each once. */
  ghost predicate AllPlaces(files: seq<File>, config: Config, shape: Shape, places: seq<(nat, nat)>) {
    && (forall i: nat, j: nat :: (i, j) in places <==> Counted(files, config, shape, i, j))
    && (forall k, l :: 0 <= k < l < |places| ==> places[k] != places[l])
  }

  ghost predicate Exists(files: seq<File>, place: (nat, nat)) {
    place.0 < |files| && place.1 < |files[place.0].functions|
  }

  /** The file, the name and the first line of a function. */
  ghost function Called(files: seq<File>, place: (nat, nat)): Copy
    requires Exists(files, place)
  {
    var f := files[place.0].functions[place.1];
    Copy(files[place.0].path, f.name, f.start)
  }

  /** `copies` name all functions of the shape but the one at `place`, each once. */
  ghost predicate NamesOthers(files: seq<File>, config: Config, shape: Shape, place: (nat, nat), copies: seq<Copy>) {
    exists places: seq<(nat, nat)> ::
      && AllPlaces(files, config, shape, places) && place in places
      && NamesAll(files, places, place, copies)
  }

  ghost predicate NamesAll(files: seq<File>, places: seq<(nat, nat)>, place: (nat, nat), copies: seq<Copy>) {
    && Exists(files, place) && (forall p <- places :: Exists(files, p))
    && multiset(copies) + multiset{Called(files, place)}
       == multiset(seq(|places|, k requires 0 <= k < |places| => assert places[k] in places; Called(files, places[k])))
  }

  /** By path, and by line within a file. */
  ghost predicate InPathOrder(copies: seq<Copy>) {
    forall k, l :: 0 <= k < l < |copies| ==>
      if copies[k].path == copies[l].path then copies[k].line <= copies[l].line
      else NotAfter(copies[k].path.text, copies[l].path.text)
  }

  /** Function `j` of file `i` is compared and another function has its shape. */
  ghost predicate HasCopy(files: seq<File>, config: Config, i: nat, j: nat) {
    && Exists(files, (i, j))
    && var shape := files[i].functions[j].shape;
       && Counted(files, config, shape, i, j)
       && exists k: nat, l: nat :: (k, l) != (i, j) && Counted(files, config, shape, k, l)
  }

  /** `d` is the report of function `j` of file `i`. */
  ghost predicate Reports(files: seq<File>, config: Config, i: nat, j: nat, d: Duplicate) {
    && HasCopy(files, config, i, j)
    && var f := files[i].functions[j];
       && d.name == f.name && d.start == f.start && d.end == f.end && d.nloc == f.nloc
       && NamesOthers(files, config, f.shape, (i, j), d.copies) && InPathOrder(d.copies)
  }

  /** Function `l` of file `k` has a copy, and spans more than lines `start` to `end` and all of them. */
  ghost predicate Spans(files: seq<File>, config: Config, path: Path, k: nat, l: nat, start: nat, end: nat) {
    && HasCopy(files, config, k, l) && files[k].path == path
    && var g := files[k].functions[l];
       g.start <= start && end <= g.end && (g.start < start || end < g.end)
  }

  /** Function `j` of file `i` is one that a list for a path is to report: it has a copy, and no function
      with a copy in a file of that path spans more. */
  ghost predicate ToReport(files: seq<File>, config: Config, path: Path, i: nat, j: nat) {
    && HasCopy(files, config, i, j) && files[i].path == path
    && var f := files[i].functions[j];
       forall k: nat, l: nat :: !Spans(files, config, path, k, l, f.start, f.end)
  }

  ghost predicate InLineOrder(list: seq<Duplicate>) {
    forall k, l :: 0 <= k < l < |list| ==>
      list[k].start < list[l].start || (list[k].start == list[l].start && NotAfter(list[k].name.text, list[l].name.text))
  }

  /** A list reports a path: its entries are the reports of the functions to report, in line order. */
  ghost predicate ReportsPath(files: seq<File>, config: Config, path: Path, list: seq<Duplicate>) {
    && (forall d <- list :: exists i: nat, j: nat :: ToReport(files, config, path, i, j) && Reports(files, config, i, j, d))
    && (forall i: nat, j: nat | ToReport(files, config, path, i, j) :: exists d <- list :: Reports(files, config, i, j, d))
    && InLineOrder(list)
  }

  // ----- the places of the sites of a shape

  function PlacesIn(functions: seq<Function>, config: Config, shape: Shape, i: nat): seq<(nat, nat)> {
    if functions == [] then []
    else
      var j := |functions| - 1;
      PlacesIn(functions[..j], config, shape, i)
      + if Comparable(functions[j], config) && functions[j].shape == shape then [(i, j)] else []
  }

  function PlacesFrom(files: seq<File>, config: Config, shape: Shape): seq<(nat, nat)> {
    if files == [] then []
    else
      var i := |files| - 1;
      PlacesFrom(files[..i], config, shape)
      + if files[i].test then [] else PlacesIn(files[i].functions, config, shape, i)
  }

  ghost predicate SiteAt(files: seq<File>, place: (nat, nat), site: Site) {
    && Exists(files, place)
    && var f := files[place.0].functions[place.1];
       site.path == files[place.0].path && site.name == f.name && site.start == f.start && site.end == f.end && site.nloc == f.nloc
  }

  lemma {:induction false} PlacesInMean(path: Path, functions: seq<Function>, config: Config, shape: Shape, i: nat)
    ensures var places, sites := PlacesIn(functions, config, shape, i), SitesIn(path, functions, config, shape);
            && |places| == |sites|
            && (forall k :: 0 <= k < |places| ==>
                  && places[k].0 == i && places[k].1 < |functions|
                  && sites[k] == SiteOf(path, functions[places[k].1]))
            && (forall k, l :: 0 <= k < l < |places| ==> places[k] != places[l])
    ensures forall j: nat :: (i, j) in PlacesIn(functions, config, shape, i)
                             <==> j < |functions| && Comparable(functions[j], config) && functions[j].shape == shape
  {
    if functions != [] {
      PlacesInMean(path, functions[..|functions| - 1], config, shape, i);
    }
  }

  lemma {:induction false} SitesAtPlaces(files: seq<File>, config: Config, shape: Shape)
    ensures |PlacesFrom(files, config, shape)| == |SitesFrom(files, config, shape)|
    ensures forall k :: 0 <= k < |PlacesFrom(files, config, shape)| ==>
              SiteAt(files, PlacesFrom(files, config, shape)[k], SitesFrom(files, config, shape)[k])
  {
    if files != [] {
      var i := |files| - 1;
      SitesAtPlaces(files[..i], config, shape);
      PlacesInMean(files[i].path, files[i].functions, config, shape, i);
      var before := PlacesFrom(files[..i], config, shape);
      forall k | 0 <= k < |before|
        ensures SiteAt(files, before[k], SitesFrom(files[..i], config, shape)[k])
      {
        assert SiteAt(files[..i], before[k], SitesFrom(files[..i], config, shape)[k]);
      }
    }
  }

  lemma {:induction false} PlacesCounted(files: seq<File>, config: Config, shape: Shape, a: nat, b: nat)
    ensures (a, b) in PlacesFrom(files, config, shape) <==> Counted(files, config, shape, a, b)
  {
    if files != [] {
      var i := |files| - 1;
      PlacesCounted(files[..i], config, shape, a, b);
      CountedAmong(files, config, shape, i, a, b);
      CountedLast(files, config, shape, i, a, b);
      JoinedMember(
        PlacesFrom(files[..i], config, shape),
        if files[i].test then [] else PlacesIn(files[i].functions, config, shape, i), (a, b));
    }
  }

  lemma JoinedMember<T>(s: seq<T>, t: seq<T>, x: T)
    ensures x in s + t <==> x in s || x in t
  {
  }

  lemma CountedAmong(files: seq<File>, config: Config, shape: Shape, i: nat, a: nat, b: nat)
    requires i < |files|
    ensures Counted(files[..i], config, shape, a, b) <==> a < i && Counted(files, config, shape, a, b)
  {
  }

  lemma CountedLast(files: seq<File>, config: Config, shape: Shape, i: nat, a: nat, b: nat)
    requires i == |files| - 1
    ensures (a, b) in (if files[i].test then [] else PlacesIn(files[i].functions, config, shape, i))
            <==> a == i && Counted(files, config, shape, a, b)
  {
    var more := PlacesIn(files[i].functions, config, shape, i);
    PlacesInMean(files[i].path, files[i].functions, config, shape, i);
    if (a, b) in more {
      var k :| 0 <= k < |more| && more[k] == (a, b);
    }
  }

  lemma {:induction false} PlacesDiffer(files: seq<File>, config: Config, shape: Shape)
    ensures forall p <- PlacesFrom(files, config, shape) :: p.0 < |files|
    ensures forall k, l :: 0 <= k < l < |PlacesFrom(files, config, shape)| ==>
              PlacesFrom(files, config, shape)[k] != PlacesFrom(files, config, shape)[l]
  {
    if files != [] {
      var i := |files| - 1;
      PlacesDiffer(files[..i], config, shape);
      PlacesInMean(files[i].path, files[i].functions, config, shape, i);
      var before, more := PlacesFrom(files[..i], config, shape), PlacesIn(files[i].functions, config, shape, i);
      assert forall k :: 0 <= k < |before| ==> before[k] in before;
      assert forall k :: 0 <= k < |more| ==> more[k].0 == i;
    }
  }

  lemma PlacesMean(files: seq<File>, config: Config, shape: Shape)
    ensures AllPlaces(files, config, shape, PlacesFrom(files, config, shape))
  {
    PlacesDiffer(files, config, shape);
    forall a: nat, b: nat
      ensures (a, b) in PlacesFrom(files, config, shape) <==> Counted(files, config, shape, a, b)
    {
      PlacesCounted(files, config, shape, a, b);
    }
  }

  // ----- one entry

  lemma {:induction false} CopiesMean(sites: seq<Site>)
    ensures |CopiesOf(sites)| == |sites|
    ensures forall k :: 0 <= k < |sites| ==> CopiesOf(sites)[k] == Copy(sites[k].path, sites[k].name, sites[k].start)
  {
    if sites != [] {
      CopiesMean(sites[..|sites| - 1]);
    }
  }

  lemma CopiesWithout(group: seq<Site>, q: nat)
    requires q < |group|
    ensures multiset(CopiesOf(group[..q] + group[q + 1..])) + multiset{CopyOf(group[q])} == multiset(CopiesOf(group))
  {
    var a, x, b := SplitAt(group, q);
    CopiesAround(a, x, b);
  }

  lemma SplitAt(group: seq<Site>, q: nat) returns (a: seq<Site>, x: Site, b: seq<Site>)
    requires q < |group|
    ensures a == group[..q] && x == group[q] && b == group[q + 1..] && group == a + [x] + b
  {
    a, x, b := group[..q], group[q], group[q + 1..];
  }

  lemma CopiesAround(a: seq<Site>, x: Site, b: seq<Site>)
    ensures multiset(CopiesOf(a + b)) + multiset{CopyOf(x)} == multiset(CopiesOf(a + [x] + b))
  {
    CopiesConcat(a + [x], b);
    CopiesConcat(a, b);
    CopiesPush(a, x);
    MovedOut(CopiesOf(a), CopyOf(x), CopiesOf(b));
  }

  lemma CopiesPush(a: seq<Site>, x: Site)
    ensures CopiesOf(a + [x]) == CopiesOf(a) + [CopyOf(x)]
  {
    assert (a + [x])[..|a|] == a;
  }

  lemma MovedOut(a: seq<Copy>, x: Copy, b: seq<Copy>)
    ensures multiset(a + b) + multiset{x} == multiset(a + [x] + b)
  {
  }

  /** The copies of an entry of a group name the other functions of its shape. */
  lemma EntryNamesOthers(files: seq<File>, config: Config, shape: Shape, q: nat, copies: seq<Copy>)
    requires q < |SitesFrom(files, config, shape)|
    requires multiset(copies) == multiset(Entry(SitesFrom(files, config, shape), q).copies)
    ensures |PlacesFrom(files, config, shape)| == |SitesFrom(files, config, shape)|
    ensures NamesOthers(files, config, shape, PlacesFrom(files, config, shape)[q], copies)
  {
    var places, group := PlacesFrom(files, config, shape), SitesFrom(files, config, shape);
    SitesAtPlaces(files, config, shape);
    PlacesMean(files, config, shape);
    CopiesMean(group);
    CopiesWithout(group, q);
    CalledAtSites(files, places, group);
    assert places[q] in places && SiteAt(files, places[q], group[q]);
    assert NamesAll(files, places, places[q], copies);
  }

  lemma CalledAtSites(files: seq<File>, places: seq<(nat, nat)>, group: seq<Site>)
    requires |places| == |group| && forall k :: 0 <= k < |places| ==> SiteAt(files, places[k], group[k])
    ensures forall p <- places :: Exists(files, p)
    ensures CopiesOf(group)
         == seq(|places|, k requires 0 <= k < |places| => assert places[k] in places; Called(files, places[k]))
  {
    CopiesMean(group);
    forall p <- places
      ensures Exists(files, p)
    {
      var k :| 0 <= k < |places| && places[k] == p;
      assert SiteAt(files, places[k], group[k]);
    }
  }

  lemma SortedCopiesMean(d: Duplicate)
    ensures multiset(WithSortedCopies(d).copies) == multiset(d.copies)
    ensures InPathOrder(WithSortedCopies(d).copies)
  {
    var copies := WithSortedCopies(d).copies;
    CopyOrder();
    SortIsPermutation(CopyLe, d.copies);
    SortIsSorted(CopyLe, d.copies);
    forall k, l | 0 <= k < l < |copies|
      ensures if copies[k].path == copies[l].path then copies[k].line <= copies[l].line
              else NotAfter(copies[k].path.text, copies[l].path.text)
    {
      assert CopyLe(copies[k], copies[l]);
      LexMeans(copies[k].path.text, copies[l].path.text);
    }
  }

  /** A group with several sites has entries that report its functions. */
  lemma EntryReports(files: seq<File>, config: Config, shape: Shape, q: nat)
    requires q < |SitesFrom(files, config, shape)| && |SitesFrom(files, config, shape)| > 1
    ensures |PlacesFrom(files, config, shape)| == |SitesFrom(files, config, shape)|
    ensures
      var place := PlacesFrom(files, config, shape)[q];
      && Reports(files, config, place.0, place.1, WithSortedCopies(Entry(SitesFrom(files, config, shape), q)))
      && files[place.0].path == SitesFrom(files, config, shape)[q].path
  {
    SitesAtPlaces(files, config, shape);
    var group := SitesFrom(files, config, shape);
    var place, d := PlacesFrom(files, config, shape)[q], Entry(group, q);
    PlaceHasCopy(files, config, shape, q);
    SortedCopiesMean(d);
    EntryNamesOthers(files, config, shape, q, WithSortedCopies(d).copies);
    assert SiteAt(files, place, group[q]);
  }

  lemma PlaceHasCopy(files: seq<File>, config: Config, shape: Shape, q: nat)
    requires q < |PlacesFrom(files, config, shape)| && |PlacesFrom(files, config, shape)| > 1
    ensures
      var place := PlacesFrom(files, config, shape)[q];
      HasCopy(files, config, place.0, place.1) && files[place.0].functions[place.1].shape == shape
  {
    var places := PlacesFrom(files, config, shape);
    PlacesMean(files, config, shape);
    var other := places[if q == 0 then 1 else 0];
    assert other != places[q] && other in places && places[q] in places;
    assert (places[q].0, places[q].1) == places[q] && (other.0, other.1) == other;
    assert Counted(files, config, shape, other.0, other.1) && Counted(files, config, shape, places[q].0, places[q].1);
  }

  /** Every function with a copy is at some place of its group. */
  lemma CopiedHasPlace(files: seq<File>, config: Config, i: nat, j: nat) returns (q: nat)
    requires HasCopy(files, config, i, j)
    ensures
      var shape := files[i].functions[j].shape;
      && q < |PlacesFrom(files, config, shape)| == |SitesFrom(files, config, shape)|
      && |PlacesFrom(files, config, shape)| > 1
      && PlacesFrom(files, config, shape)[q] == (i, j)
  {
    var shape := files[i].functions[j].shape;
    var places := PlacesFrom(files, config, shape);
    SitesAtPlaces(files, config, shape);
    PlacesMean(files, config, shape);
    assert (i, j) in places;
    q :| 0 <= q < |places| && places[q] == (i, j);
    var k: nat, l: nat :| (k, l) != (i, j) && Counted(files, config, shape, k, l);
    assert (k, l) in places;
    var other :| 0 <= other < |places| && places[other] == (k, l);
  }

  // ----- whole lists

  /** Up to the order of copies, `d` reports function `j` of file `i`, which has this path. */
  ghost predicate RawReport(files: seq<File>, config: Config, path: Path, i: nat, j: nat, d: Duplicate) {
    HasCopy(files, config, i, j) && files[i].path == path && Reports(files, config, i, j, WithSortedCopies(d))
  }

  /** `raw` are the entries of a path before settling: such reports of its functions with a copy. */
  ghost predicate RawReports(files: seq<File>, config: Config, path: Path, raw: seq<Duplicate>) {
    && (forall d <- raw :: IsRawReport(files, config, path, d))
    && (forall i: nat, j: nat | HasCopy(files, config, i, j) && files[i].path == path ::
          HasRawReport(files, config, path, i, j, raw))
  }

  ghost predicate IsRawReport(files: seq<File>, config: Config, path: Path, d: Duplicate) {
    exists i: nat, j: nat :: RawReport(files, config, path, i, j, d)
  }

  ghost predicate HasRawReport(files: seq<File>, config: Config, path: Path, i: nat, j: nat, raw: seq<Duplicate>) {
    exists d <- raw :: RawReport(files, config, path, i, j, d)
  }

  lemma RawSpan(files: seq<File>, config: Config, path: Path, i: nat, j: nat, d: Duplicate)
    requires RawReport(files, config, path, i, j, d)
    ensures HasCopy(files, config, i, j) && files[i].path == path
    ensures d.start == files[i].functions[j].start && d.end == files[i].functions[j].end
  {
  }

  /** An entry is outermost exactly when no function with a copy spans more. */
  lemma OutermostMeans(files: seq<File>, config: Config, path: Path, raw: seq<Duplicate>, i: nat, j: nat, d: Duplicate)
    requires RawReports(files, config, path, raw) == true && RawReport(files, config, path, i, j, d) == true
    ensures Outermost(raw, d) <==> ToReport(files, config, path, i, j)
  {
    RawSpan(files, config, path, i, j, d);
    if other :| other in raw && Inside(d, other) {
      InsideIsSpanned(files, config, path, raw, d, other);
    }
    if k: nat, l: nat :| Spans(files, config, path, k, l, d.start, d.end) == true {
      SpannedIsInside(files, config, path, raw, d, k, l);
    }
  }

  lemma InsideIsSpanned(files: seq<File>, config: Config, path: Path, raw: seq<Duplicate>, d: Duplicate, other: Duplicate)
    requires RawReports(files, config, path, raw) == true && other in raw && Inside(d, other)
    ensures exists k: nat, l: nat :: Spans(files, config, path, k, l, d.start, d.end)
  {
    assert IsRawReport(files, config, path, other);
    var k: nat, l: nat :| RawReport(files, config, path, k, l, other) == true;
    RawSpan(files, config, path, k, l, other);
    assert Spans(files, config, path, k, l, d.start, d.end);
  }

  lemma SpannedIsInside(files: seq<File>, config: Config, path: Path, raw: seq<Duplicate>, d: Duplicate, k: nat, l: nat)
    requires RawReports(files, config, path, raw) == true && Spans(files, config, path, k, l, d.start, d.end)
    ensures !Outermost(raw, d)
  {
    assert HasRawReport(files, config, path, k, l, raw);
    var other :| other in raw && RawReport(files, config, path, k, l, other) == true;
    RawSpan(files, config, path, k, l, other);
    assert Inside(d, other);
  }

  /** Settling such entries reports the path. */
  lemma SettledReports(files: seq<File>, config: Config, path: Path, raw: seq<Duplicate>)
    requires RawReports(files, config, path, raw) == true
    ensures ReportsPath(files, config, path, Settled(raw))
  {
    forall e <- Settled(raw)
      ensures exists i: nat, j: nat :: ToReport(files, config, path, i, j) && Reports(files, config, i, j, e)
    {
      SettledIsReport(files, config, path, raw, e);
    }
    forall i: nat, j: nat | ToReport(files, config, path, i, j)
      ensures exists e <- Settled(raw) :: Reports(files, config, i, j, e)
    {
      var e := ReportIsSettled(files, config, path, raw, i, j);
      assert e in Settled(raw);
    }
    LinesInOrder(raw);
  }

  lemma SettledIsReport(files: seq<File>, config: Config, path: Path, raw: seq<Duplicate>, e: Duplicate)
    requires RawReports(files, config, path, raw) == true && e in Settled(raw)
    ensures exists i: nat, j: nat :: ToReport(files, config, path, i, j) && Reports(files, config, i, j, e)
  {
    SettleInventsNothing(raw, e);
    var d :| d in raw && e == WithSortedCopies(d);
    SettleKeepsOutermost(raw, d);
    assert IsRawReport(files, config, path, d);
    var i: nat, j: nat :| RawReport(files, config, path, i, j, d) == true;
    OutermostMeans(files, config, path, raw, i, j, d);
  }

  lemma ReportIsSettled(files: seq<File>, config: Config, path: Path, raw: seq<Duplicate>, i: nat, j: nat) returns (e: Duplicate)
    requires RawReports(files, config, path, raw) == true && ToReport(files, config, path, i, j) == true
    ensures e in Settled(raw) && Reports(files, config, i, j, e)
  {
    assert HasRawReport(files, config, path, i, j, raw);
    var d :| d in raw && RawReport(files, config, path, i, j, d) == true;
    OutermostMeans(files, config, path, raw, i, j, d);
    SettleKeepsOutermost(raw, d);
    e := WithSortedCopies(d);
  }

  lemma LinesInOrder(raw: seq<Duplicate>)
    ensures InLineOrder(Settled(raw))
  {
    var list := Settled(raw);
    SettledInLineOrder(raw);
    forall k, l | 0 <= k < l < |list|
      ensures list[k].start < list[l].start || (list[k].start == list[l].start && NotAfter(list[k].name.text, list[l].name.text))
    {
      assert EntryLe(list[k], list[l]);
      LexMeans(list[k].name.text, list[l].name.text);
    }
  }

  // ----- the index

  lemma {:induction false} EntriesMembers(group: seq<Site>, path: Path, n: nat)
    requires n <= |group|
    ensures forall d :: d in Entries(group, path, n) <==> exists q :: 0 <= q < n && group[q].path == path && d == Entry(group, q)
  {
    if n > 0 {
      EntriesMembers(group, path, n - 1);
    }
  }

  lemma {:induction false} CollectedMembers(groups: map<Shape, seq<Site>>, visited: seq<Shape>, path: Path)
    ensures forall d :: d in Collected(groups, visited, path)
                        <==> exists shape <- visited :: d in GroupEntries(Listed(groups, shape), path)
  {
    if visited != [] {
      CollectedMembers(groups, visited[..|visited| - 1], path);
      assert visited == visited[..|visited| - 1] + [visited[|visited| - 1]];
    }
  }

  lemma CollectedReports(files: seq<File>, config: Config, groups: map<Shape, seq<Site>>, visited: seq<Shape>, path: Path)
    requires GroupsOf(groups, files, config) && Enumerates(visited, groups)
    ensures RawReports(files, config, path, Collected(groups, visited, path))
  {
    var raw := Collected(groups, visited, path);
    CollectedMembers(groups, visited, path);
    forall d <- raw
      ensures IsRawReport(files, config, path, d)
    {
      var shape :| shape in visited && d in GroupEntries(Listed(groups, shape), path);
      CollectedIsReport(files, config, groups, shape, path, d);
    }
    forall i: nat, j: nat | HasCopy(files, config, i, j) && files[i].path == path
      ensures HasRawReport(files, config, path, i, j, raw)
    {
      var d := ReportIsCollected(files, config, groups, visited, i, j);
      assert d in raw && RawReport(files, config, path, i, j, d);
    }
  }

  lemma CollectedIsReport(
    files: seq<File>, config: Config, groups: map<Shape, seq<Site>>, shape: Shape, path: Path, d: Duplicate)
    requires GroupsOf(groups, files, config) && d in GroupEntries(Listed(groups, shape), path)
    ensures IsRawReport(files, config, path, d)
  {
    var group := SitesFrom(files, config, shape);
    assert Listed(groups, shape) == group;
    EntriesMembers(group, path, |group|);
    var q: nat :| q < |group| && group[q].path == path && d == Entry(group, q);
    EntryReports(files, config, shape, q);
    var place := PlacesFrom(files, config, shape)[q];
    assert RawReport(files, config, path, place.0, place.1, d);
  }

  lemma ReportIsCollected(
    files: seq<File>, config: Config, groups: map<Shape, seq<Site>>, visited: seq<Shape>, i: nat, j: nat) returns (d: Duplicate)
    requires GroupsOf(groups, files, config) && Enumerates(visited, groups) && HasCopy(files, config, i, j)
    ensures Reports(files, config, i, j, WithSortedCopies(d))
    ensures exists shape <- visited :: d in GroupEntries(Listed(groups, shape), files[i].path)
  {
    var shape := files[i].functions[j].shape;
    var group := SitesFrom(files, config, shape);
    var q := CopiedHasPlace(files, config, i, j);
    EntryReports(files, config, shape, q);
    d := Entry(group, q);
    assert Listed(groups, shape) == group;
    EntriesMembers(group, files[i].path, |group|);
    assert shape in visited;
  }

  /** The index reports every path. */
  lemma IndexReports(index: Index, files: seq<File>, config: Config, visited: seq<Shape>, path: Path)
    requires Indexes(index, files, config, visited)
    ensures ReportsPath(files, config, path, DuplicatesIn(index, path))
  {
    CollectedReports(files, config, index.sites, visited, path);
    SettledReports(files, config, path, Collected(index.sites, visited, path));
  }

  // ----- the comparison of one file

  lemma {:induction false} PlacesPrefix(files: seq<File>, config: Config, shape: Shape, m: nat)
    requires m <= |files|
    ensures PlacesFrom(files[..m], config, shape) <= PlacesFrom(files, config, shape)
    decreases |files|
  {
    if m < |files| {
      var init := files[..|files| - 1];
      PlacesPrefix(init, config, shape, m);
      assert init[..m] == files[..m];
    } else {
      assert files[..m] == files;
    }
  }

  lemma {:induction false} PlacesInPrefix(functions: seq<Function>, config: Config, shape: Shape, i: nat, m: nat)
    requires m <= |functions|
    ensures PlacesIn(functions[..m], config, shape, i) <= PlacesIn(functions, config, shape, i)
    decreases |functions|
  {
    if m < |functions| {
      var init := functions[..|functions| - 1];
      PlacesInPrefix(init, config, shape, i, m);
      assert init[..m] == functions[..m];
    } else {
      assert functions[..m] == functions;
    }
  }

  /** The function `i` of the edited file is at the place where its site is in the rebuilt group. */
  lemma OwnPlace(before: seq<File>, path: Path, functions: seq<Function>, after: seq<File>, config: Config, i: nat, q: nat)
    requires i < |functions| && Comparable(functions[i], config)
    requires q == OwnAt(before, path, functions, config, functions[i].shape, i)
    ensures
      var places := PlacesFrom(With(before, path, functions, after), config, functions[i].shape);
      q < |places| && places[q] == (|before|, i)
  {
    var shape := functions[i].shape;
    var files, file := With(before, path, functions, after), File(path, functions, false);
    var r := |SitesIn(path, functions[..i], config, shape)|;
    PlacesInMean(path, functions[..i], config, shape, |before|);
    SitesAtPlaces(before, config, shape);
    OwnPlaceIn(functions, config, |before|, i);
    assert files[..|before| + 1] == before + [file];
    assert (before + [file])[..|before|] == before;
    PlacesPrefix(files, config, shape, |before| + 1);
    PlaceInPrefix(
      PlacesFrom(before, config, shape), PlacesIn(functions, config, shape, |before|), PlacesFrom(files, config, shape), r, q);
  }

  lemma PlaceInPrefix<T>(a: seq<T>, b: seq<T>, all: seq<T>, r: nat, q: nat)
    requires a + b <= all && r < |b| && q == |a| + r
    ensures q < |all| && all[q] == b[r]
  {
  }

  lemma OwnPlaceIn(functions: seq<Function>, config: Config, at: nat, i: nat)
    requires i < |functions| && Comparable(functions[i], config)
    ensures
      var shape := functions[i].shape;
      var r := |PlacesIn(functions[..i], config, shape, at)|;
      r < |PlacesIn(functions, config, shape, at)| && PlacesIn(functions, config, shape, at)[r] == (at, i)
  {
    PlacesInPrefix(functions, config, functions[i].shape, at, i + 1);
    assert functions[..i + 1][..i] == functions[..i];
  }

  lemma FreshMembers(sites: map<Shape, seq<Site>>, path: Path, functions: seq<Function>, config: Config)
    ensures forall d :: d in FreshEntries(sites, path, functions, config, |functions|)
                        <==> exists i: nat :: i < |functions| && d in FreshAt(sites, path, functions, config, i)
  {
    var chunks := seq(|functions|, j requires 0 <= j < |functions| => FreshAt(sites, path, functions, config, j));
    FreshIsFlat(sites, path, functions, config, chunks);
    FlatMembers(chunks);
  }

  lemma {:induction false} FlatMembers<T(!new)>(chunks: seq<seq<T>>)
    ensures forall t :: t in Flat(chunks) <==> exists i: nat :: i < |chunks| && t in chunks[i]
  {
    if chunks != [] {
      FlatMembers(chunks[..|chunks| - 1]);
    }
  }

  /** A function of the edited file has an entry exactly when it has a copy, and then that reports it. */
  lemma FreshReports(
    stale: map<Shape, seq<Site>>, seen: seq<File>, before: seq<File>, path: Path, functions: seq<Function>,
    after: seq<File>, config: Config, i: nat)
    requires GroupsOf(stale, seen, config) && Filter(NotAt(path), seen) == before + after && Others(before, after, path)
    requires i < |functions|
    ensures
      var files, d := With(before, path, functions, after), Fresh(stale, path, functions, config, i);
      && FreshAt(stale, path, functions, config, i) == (if HasCopy(files, config, |before|, i) then [d] else [])
      && (HasCopy(files, config, |before|, i) ==> Reports(files, config, |before|, i, WithSortedCopies(d)))
  {
    var files, f := With(before, path, functions, after), functions[i];
    assert files[|before|] == File(path, functions, false);
    if Comparable(f, config) {
      var group, q := SitesFrom(files, config, f.shape), OwnAt(before, path, functions, config, f.shape, i);
      assert Listed(stale, f.shape) == SitesFrom(seen, config, f.shape);
      ElsewhereIsOtherFiles(seen, path, config, f.shape);
      SameEntry(stale, before, path, functions, after, config, i, group, q);
      OwnPlace(before, path, functions, after, config, i, q);
      if |group| > 1 {
        EntryReports(files, config, f.shape, q);
      } else if HasCopy(files, config, |before|, i) {
        var at := CopiedHasPlace(files, config, |before|, i);
      }
    }
  }

  lemma OnlyAtPath(before: seq<File>, path: Path, functions: seq<Function>, after: seq<File>, i: nat)
    requires Others(before, after, path) && i < |With(before, path, functions, after)|
    requires With(before, path, functions, after)[i].path == path
    ensures i == |before| && With(before, path, functions, after)[i].functions == functions
  {
    var files := With(before, path, functions, after);
    assert forall k :: 0 <= k < |before| ==> files[k] == (before + after)[k];
    assert forall k :: |before| < k < |files| ==> files[k] == (before + after)[k - 1];
    assert forall k :: 0 <= k < |before + after| ==> (before + after)[k] in before + after;
  }

  /** What is found of a changed file is what an index of the repository with that file is to report,
      whatever its functions share. */
  lemma ComparisonReports(
    stale: map<Shape, seq<Site>>, seen: seq<File>, before: seq<File>, path: Path, functions: seq<Function>,
    after: seq<File>, config: Config)
    requires GroupsOf(stale, seen, config) && Filter(NotAt(path), seen) == before + after && Others(before, after, path)
    ensures ReportsPath(
              With(before, path, functions, after), config, path,
              Settled(FreshEntries(stale, path, functions, config, |functions|)))
  {
    var files := With(before, path, functions, after);
    var raw := FreshEntries(stale, path, functions, config, |functions|);
    forall d <- raw
      ensures IsRawReport(files, config, path, d)
    {
      FreshIsReport(stale, seen, before, path, functions, after, config, d);
    }
    forall i: nat, j: nat | HasCopy(files, config, i, j) && files[i].path == path
      ensures HasRawReport(files, config, path, i, j, raw)
    {
      ReportIsFresh(stale, seen, before, path, functions, after, config, i, j);
    }
    SettledReports(files, config, path, raw);
  }

  lemma FreshIsReport(
    stale: map<Shape, seq<Site>>, seen: seq<File>, before: seq<File>, path: Path, functions: seq<Function>,
    after: seq<File>, config: Config, d: Duplicate)
    requires GroupsOf(stale, seen, config) && Filter(NotAt(path), seen) == before + after && Others(before, after, path)
    requires d in FreshEntries(stale, path, functions, config, |functions|)
    ensures IsRawReport(With(before, path, functions, after), config, path, d)
  {
    FreshMembers(stale, path, functions, config);
    var i: nat :| i < |functions| && d in FreshAt(stale, path, functions, config, i);
    FreshReports(stale, seen, before, path, functions, after, config, i);
    assert RawReport(With(before, path, functions, after), config, path, |before|, i, d);
  }

  lemma ReportIsFresh(
    stale: map<Shape, seq<Site>>, seen: seq<File>, before: seq<File>, path: Path, functions: seq<Function>,
    after: seq<File>, config: Config, i: nat, j: nat)
    requires GroupsOf(stale, seen, config) && Filter(NotAt(path), seen) == before + after && Others(before, after, path)
    requires HasCopy(With(before, path, functions, after), config, i, j) && With(before, path, functions, after)[i].path == path
    ensures HasRawReport(
              With(before, path, functions, after), config, path, i, j,
              FreshEntries(stale, path, functions, config, |functions|))
  {
    OnlyAtPath(before, path, functions, after, i);
    var d := Fresh(stale, path, functions, config, j);
    FreshReports(stale, seen, before, path, functions, after, config, j);
    FreshListed(stale, path, functions, config, j, d);
    RawIn(
      With(before, path, functions, after), config, path, i, j, FreshEntries(stale, path, functions, config, |functions|), d);
  }

  lemma FreshListed(sites: map<Shape, seq<Site>>, path: Path, functions: seq<Function>, config: Config, j: nat, d: Duplicate)
    requires j < |functions| && d in FreshAt(sites, path, functions, config, j)
    ensures d in FreshEntries(sites, path, functions, config, |functions|)
  {
    FreshMembers(sites, path, functions, config);
  }

  lemma RawIn(files: seq<File>, config: Config, path: Path, i: nat, j: nat, raw: seq<Duplicate>, d: Duplicate)
    requires d in raw && HasCopy(files, config, i, j) && files[i].path == path
    requires Reports(files, config, i, j, WithSortedCopies(d)) == true
    ensures HasRawReport(files, config, path, i, j, raw)
  {
    assert RawReport(files, config, path, i, j, d);
  }
}
