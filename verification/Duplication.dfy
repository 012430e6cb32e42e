/** The index of near copies of functions (crates/code-health/src/duplication.rs). */
module Duplication {
  import opened Sorting
  import opened Text

  datatype Path = Path(text: string)
  datatype Name = Name(text: string)
  datatype Shape = Shape(hash: nat)

  datatype Config = Config(minNloc: nat, minNodes: nat)

  datatype Function = Function(
    name: Name, start: nat, end: nat, nloc: nat, test: bool, shape: Shape, shapeNodes: nat)

  datatype File = File(path: Path, functions: seq<Function>, test: bool)

  datatype Site = Site(path: Path, name: Name, start: nat, end: nat, nloc: nat)

  datatype Copy = Copy(path: Path, name: Name, line: nat)

  datatype Duplicate = Duplicate(name: Name, start: nat, end: nat, nloc: nat, copies: seq<Copy>)

  datatype Index = Index(byPath: map<Path, seq<Duplicate>>, sites: map<Shape, seq<Site>>)

  /** What a map of lists holds under a key; nothing when the key is absent. */
  function Listed<K, V>(table: map<K, seq<V>>, key: K): seq<V> {
    if key in table then table[key] else []
  }

  function Push<K, V>(table: map<K, seq<V>>, key: K, value: V): map<K, seq<V>> {
    table[key := Listed(table, key) + [value]]
  }

  lemma PushListed<K, V>(table: map<K, seq<V>>, key: K, value: V, k: K)
    ensures Listed(Push(table, key, value), k) == Listed(table, k) + if k == key then [value] else []
  {
  }

  // ----- the comparable functions of a repository, by shape

  predicate Comparable(f: Function, config: Config) {
    f.shape != Shape(0) && !f.test && f.nloc >= config.minNloc && f.shapeNodes >= config.minNodes
  }

  function SiteOf(path: Path, f: Function): Site {
    Site(path, f.name, f.start, f.end, f.nloc)
  }

  /** The functions of one file that have a shape and are comparable, in order. */
  function SitesIn(path: Path, functions: seq<Function>, config: Config, shape: Shape): seq<Site> {
    if functions == [] then []
    else
      var f := functions[|functions| - 1];
      SitesIn(path, functions[..|functions| - 1], config, shape)
      + if Comparable(f, config) && f.shape == shape then [SiteOf(path, f)] else []
  }

  /** The same over a repository; test files contribute nothing. */
  function SitesFrom(files: seq<File>, config: Config, shape: Shape): seq<Site> {
    if files == [] then []
    else
      var file := files[|files| - 1];
      SitesFrom(files[..|files| - 1], config, shape)
      + if file.test then [] else SitesIn(file.path, file.functions, config, shape)
  }

  // ----- the entries of a group

  function CopyOf(site: Site): Copy {
    Copy(site.path, site.name, site.start)
  }

  function CopiesOf(sites: seq<Site>): seq<Copy> {
    if sites == [] then [] else CopiesOf(sites[..|sites| - 1]) + [CopyOf(sites[|sites| - 1])]
  }

  /** The entry of the site at `i`: every other site of its group is a copy. */
  function Entry(group: seq<Site>, i: nat): Duplicate
    requires i < |group|
  {
    var site := group[i];
    Duplicate(site.name, site.start, site.end, site.nloc, CopiesOf(group[..i] + group[i + 1..]))
  }

  /** The entries of the first `n` sites that belong to a path. */
  function Entries(group: seq<Site>, path: Path, n: nat): seq<Duplicate>
    requires n <= |group|
  {
    if n == 0 then []
    else Entries(group, path, n - 1) + if group[n - 1].path == path then [Entry(group, n - 1)] else []
  }

  function GroupEntries(group: seq<Site>, path: Path): seq<Duplicate> {
    if |group| > 1 then Entries(group, path, |group|) else []
  }

  /** A path's entries when the groups are visited in a given order. */
  function Collected(groups: map<Shape, seq<Site>>, visited: seq<Shape>, path: Path): seq<Duplicate> {
    if visited == [] then []
    else
      Collected(groups, visited[..|visited| - 1], path)
      + GroupEntries(Listed(groups, visited[|visited| - 1]), path)
  }

  // ----- settling a file's entries

  predicate EntryLe(a: Duplicate, b: Duplicate) {
    a.start < b.start || (a.start == b.start && LexLe(a.name.text, b.name.text))
  }

  predicate CopyLe(a: Copy, b: Copy) {
    (a.path != b.path && LexLe(a.path.text, b.path.text)) || (a.path == b.path && a.line <= b.line)
  }

  function WithSortedCopies(d: Duplicate): Duplicate {
    d.(copies := StableSort(CopyLe, d.copies))
  }

  function CopiesSorted(list: seq<Duplicate>): seq<Duplicate> {
    if list == [] then [] else [WithSortedCopies(list[0])] + CopiesSorted(list[1..])
  }

  /** The span of `b` is another one that covers the span of `a`. */
  predicate Inside(a: Duplicate, b: Duplicate) {
    (a.start, a.end) != (b.start, b.end) && b.start <= a.start && a.end <= b.end
  }

  predicate Outermost(list: seq<Duplicate>, d: Duplicate) {
    forall other <- list :: !Inside(d, other)
  }

  function Retained(list: seq<Duplicate>): seq<Duplicate> {
    Filter(d => Outermost(list, d), list)
  }

  function Settled(list: seq<Duplicate>): seq<Duplicate> {
    Retained(CopiesSorted(StableSort(EntryLe, list)))
  }

  /** Sorts a file's entries and their copies, and drops those inside another copied function. */
  method Settle(list: seq<Duplicate>) returns (settled: seq<Duplicate>)
    ensures settled == Settled(list)
  {
    var sorted := StableSort(EntryLe, list);
    var entries := [];
    for i := 0 to |sorted|
      invariant entries == CopiesSorted(sorted[..i])
    {
      entries := entries + [sorted[i].(copies := StableSort(CopyLe, sorted[i].copies))];
      assert sorted[..i + 1] == sorted[..i] + [sorted[i]];
      CopiesSortedConcat(sorted[..i], [sorted[i]]);
    }
    assert sorted[..|sorted|] == sorted;
    settled := [];
    var outermost := (d: Duplicate) => Outermost(entries, d);
    for i := 0 to |entries|
      invariant settled == Filter(outermost, entries[..i])
    {
      var inside := exists other :: other in entries && Inside(entries[i], other);
      if !inside {
        settled := settled + [entries[i]];
      }
      assert entries[..i + 1] == entries[..i] + [entries[i]];
      FilterConcat(outermost, entries[..i], [entries[i]]);
      FilterOne(outermost, entries[i]);
    }
    assert entries[..|entries|] == entries;
  }

  lemma {:induction false} CopiesSortedConcat(a: seq<Duplicate>, b: seq<Duplicate>)
    ensures CopiesSorted(a + b) == CopiesSorted(a) + CopiesSorted(b)
  {
    if a == [] {
      assert a + b == b;
    } else {
      CopiesSortedConcat(a[1..], b);
      assert (a + b)[0] == a[0] && (a + b)[1..] == a[1..] + b;
      Associative([WithSortedCopies(a[0])], CopiesSorted(a[1..]), CopiesSorted(b));
    }
  }

  // ----- building the index

  /** The groups are those of the repository, each listed under its shape. */
  ghost predicate GroupsOf(groups: map<Shape, seq<Site>>, files: seq<File>, config: Config) {
    forall shape :: Listed(groups, shape) == SitesFrom(files, config, shape)
  }

  /** The groups `r` are `groups` with the sites of a file added. */
  ghost predicate AddedSites(
    r: map<Shape, seq<Site>>, groups: map<Shape, seq<Site>>, path: Path, functions: seq<Function>, config: Config)
  {
    forall shape :: Listed(r, shape) == Listed(groups, shape) + SitesIn(path, functions, config, shape)
  }

  lemma AddSite(
    r: map<Shape, seq<Site>>, groups: map<Shape, seq<Site>>,
    path: Path, functions: seq<Function>, config: Config, f: Function)
    requires AddedSites(r, groups, path, functions, config)
    ensures AddedSites(
      if Comparable(f, config) then Push(r, f.shape, SiteOf(path, f)) else r,
      groups, path, functions + [f], config)
  {
    var next := if Comparable(f, config) then Push(r, f.shape, SiteOf(path, f)) else r;
    assert (functions + [f])[..|functions|] == functions;
    forall shape
      ensures Listed(next, shape) == Listed(groups, shape) + SitesIn(path, functions + [f], config, shape)
    {
      var more := if Comparable(f, config) && f.shape == shape then [SiteOf(path, f)] else [];
      PushListed(r, f.shape, SiteOf(path, f), shape);
      assert Listed(next, shape) == Listed(r, shape) + more;
      Associative(Listed(groups, shape), SitesIn(path, functions, config, shape), more);
    }
  }

  method AddFile(groups: map<Shape, seq<Site>>, file: File, config: Config) returns (r: map<Shape, seq<Site>>)
    requires !file.test
    ensures AddedSites(r, groups, file.path, file.functions, config)
  {
    r := groups;
    assert AddedSites(r, groups, file.path, [], config);
    for i := 0 to |file.functions|
      invariant AddedSites(r, groups, file.path, file.functions[..i], config)
    {
      var f := file.functions[i];
      AddSite(r, groups, file.path, file.functions[..i], config, f);
      assert file.functions[..i + 1] == file.functions[..i] + [f];
      if !(f.shape == Shape(0) || f.test || f.nloc < config.minNloc || f.shapeNodes < config.minNodes) {
        r := Push(r, f.shape, Site(file.path, f.name, f.start, f.end, f.nloc));
      }
    }
    assert file.functions[..|file.functions|] == file.functions;
  }

  method Group(files: seq<File>, config: Config) returns (groups: map<Shape, seq<Site>>)
    ensures GroupsOf(groups, files, config)
  {
    groups := map[];
    for i := 0 to |files|
      invariant GroupsOf(groups, files[..i], config)
    {
      assert files[..i + 1][..i] == files[..i];
      if !files[i].test {
        groups := AddFile(groups, files[i], config);
      }
    }
    assert files[..|files|] == files;
  }

  /** The lists `r` are `byPath` with the entries of the first `n` sites of a group added; none is empty. */
  ghost predicate AddedEntries(
    r: map<Path, seq<Duplicate>>, byPath: map<Path, seq<Duplicate>>, group: seq<Site>, n: nat)
    requires n <= |group|
  {
    && (forall p :: Listed(r, p) == Listed(byPath, p) + Entries(group, p, n))
    && (forall p <- r :: r[p] != [])
  }

  lemma AddEntry(r: map<Path, seq<Duplicate>>, byPath: map<Path, seq<Duplicate>>, group: seq<Site>, n: nat)
    requires n < |group| && AddedEntries(r, byPath, group, n)
    ensures AddedEntries(Push(r, group[n].path, Entry(group, n)), byPath, group, n + 1)
  {
    var d := Entry(group, n);
    forall p
      ensures Listed(Push(r, group[n].path, d), p) == Listed(byPath, p) + Entries(group, p, n + 1)
    {
      var more := if group[n].path == p then [d] else [];
      PushListed(r, group[n].path, d, p);
      Associative(Listed(byPath, p), Entries(group, p, n), more);
    }
  }

  /** Adds the entries of one group to the lists of their paths. */
  method AddGroup(byPath: map<Path, seq<Duplicate>>, group: seq<Site>) returns (r: map<Path, seq<Duplicate>>)
    requires forall p <- byPath :: byPath[p] != []
    ensures AddedEntries(r, byPath, group, |group|)
  {
    r := byPath;
    for i := 0 to |group|
      invariant AddedEntries(r, byPath, group, i)
    {
      AddEntry(r, byPath, group, i);
      r := Push(r, group[i].path, Entry(group, i));
    }
  }

  /** The order in which a hash map yields its keys: each once. */
  ghost predicate Enumerates(visited: seq<Shape>, groups: map<Shape, seq<Site>>) {
    && (forall shape :: shape in visited <==> shape in groups)
    && (forall i, j :: 0 <= i < j < |visited| ==> visited[i] != visited[j])
  }

  /** The lists of every path for one order of visiting the groups. */
  ghost predicate Indexes(index: Index, files: seq<File>, config: Config, visited: seq<Shape>) {
    && GroupsOf(index.sites, files, config)
    && Enumerates(visited, index.sites)
    && (forall p <- index.byPath :: Collected(index.sites, visited, p) != [])
    && (forall p :: Listed(index.byPath, p) == Settled(Collected(index.sites, visited, p)))
  }

  /** Builds the index, for some order of visiting the groups. */
  method Build(files: seq<File>, config: Config) returns (index: Index)
    ensures exists visited :: Indexes(index, files, config, visited)
  {
    var groups := Group(files, config);
    var byPath, visited := Collect(groups);
    var settled := SettleAll(byPath);
    index := Index(settled, groups);
    forall p
      ensures Listed(settled, p) == Settled(Collected(groups, visited, p))
    {
      assert Listed(byPath, p) == Collected(groups, visited, p);
    }
    assert Indexes(index, files, config, visited);
  }

  /** The lists hold what visiting some of the groups collects; none is empty. */
  ghost predicate Collects(byPath: map<Path, seq<Duplicate>>, groups: map<Shape, seq<Site>>, visited: seq<Shape>) {
    && (forall p :: Listed(byPath, p) == Collected(groups, visited, p))
    && (forall p <- byPath :: byPath[p] != [])
  }

  method CollectGroup(
    groups: map<Shape, seq<Site>>, byPath: map<Path, seq<Duplicate>>, ghost visited: seq<Shape>, shape: Shape)
    returns (r: map<Path, seq<Duplicate>>)
    requires shape in groups && Collects(byPath, groups, visited)
    ensures Collects(r, groups, visited + [shape])
  {
    assert (visited + [shape])[..|visited|] == visited;
    r := byPath;
    if |groups[shape]| > 1 {
      r := AddGroup(byPath, groups[shape]);
    }
    forall p
      ensures Listed(r, p) == Collected(groups, visited + [shape], p)
    {
      assert Listed(r, p) == Listed(byPath, p) + GroupEntries(groups[shape], p);
    }
  }

  method Collect(groups: map<Shape, seq<Site>>) returns (byPath: map<Path, seq<Duplicate>>, ghost visited: seq<Shape>)
    ensures Enumerates(visited, groups) && Collects(byPath, groups, visited)
  {
    byPath, visited := map[], [];
    var pending := groups.Keys;
    while pending != {}
      invariant pending <= groups.Keys
      invariant forall shape :: shape in visited <==> shape in groups && shape !in pending
      invariant forall i, j :: 0 <= i < j < |visited| ==> visited[i] != visited[j]
      invariant Collects(byPath, groups, visited)
      decreases |pending|
    {
      var shape :| shape in pending;
      byPath := CollectGroup(groups, byPath, visited, shape);
      pending := pending - {shape};
      visited := visited + [shape];
    }
  }

  method SettleAll(byPath: map<Path, seq<Duplicate>>) returns (r: map<Path, seq<Duplicate>>)
    ensures r.Keys == byPath.Keys
    ensures forall p :: Listed(r, p) == Settled(Listed(byPath, p))
  {
    r := byPath;
    var pending := byPath.Keys;
    while pending != {}
      invariant pending <= r.Keys == byPath.Keys
      invariant forall p <- byPath :: r[p] == if p in pending then byPath[p] else Settled(byPath[p])
      decreases |pending|
    {
      var p :| p in pending;
      var settled := Settle(r[p]);
      r := r[p := settled];
      pending := pending - {p};
    }
  }

  function DuplicatesIn(index: Index, path: Path): seq<Duplicate> {
    Listed(index.byPath, path)
  }

  predicate IsEmpty(index: Index) {
    index.byPath == map[]
  }

  // ----- comparing one edited file

  /** The sites of a shape that other files have. */
  function Elsewhere(sites: map<Shape, seq<Site>>, path: Path, shape: Shape): seq<Site> {
    Filter((site: Site) => site.path != path, Listed(sites, shape))
  }

  /** The functions of the file itself that share a shape, except the one at `i`. */
  function OwnExcept(path: Path, functions: seq<Function>, config: Config, shape: Shape, i: nat): seq<Site> {
    if functions == [] then []
    else
      var last := |functions| - 1;
      OwnExcept(path, functions[..last], config, shape, i)
      + if Comparable(functions[last], config) && last != i && functions[last].shape == shape
        then [SiteOf(path, functions[last])] else []
  }

  function Fresh(sites: map<Shape, seq<Site>>, path: Path, functions: seq<Function>, config: Config, i: nat): Duplicate
    requires i < |functions|
  {
    var f := functions[i];
    Duplicate(f.name, f.start, f.end, f.nloc,
              CopiesOf(Elsewhere(sites, path, f.shape)) + CopiesOf(OwnExcept(path, functions, config, f.shape, i)))
  }

  /** The entry of a function, if it is comparable and has copies. */
  function FreshAt(sites: map<Shape, seq<Site>>, path: Path, functions: seq<Function>, config: Config, i: nat): seq<Duplicate>
    requires i < |functions|
  {
    var d := Fresh(sites, path, functions, config, i);
    if Comparable(functions[i], config) && d.copies != [] then [d] else []
  }

  /** The entries of the first `n` functions. */
  function FreshEntries(
    sites: map<Shape, seq<Site>>, path: Path, functions: seq<Function>, config: Config, n: nat): seq<Duplicate>
    requires n <= |functions|
  {
    if n == 0 then []
    else FreshEntries(sites, path, functions, config, n - 1) + FreshAt(sites, path, functions, config, n - 1)
  }

  method CompareFunction(
    sites: map<Shape, seq<Site>>, path: Path, functions: seq<Function>, config: Config, i: nat)
    returns (found: seq<Duplicate>)
    requires i < |functions|
    ensures found == FreshAt(sites, path, functions, config, i)
  {
    var f := functions[i];
    found := [];
    if Comparable(f, config) {
      var copies := CopiesOf(Elsewhere(sites, path, f.shape)) + CopiesOf(OwnExcept(path, functions, config, f.shape, i));
      if copies != [] {
        found := [Duplicate(f.name, f.start, f.end, f.nloc, copies)];
      }
    }
  }

  /** The incremental comparison: settled entries, with copies looked up in the stale groups and in the
      functions given. */
  method DuplicatesFor(index: Index, path: Path, functions: seq<Function>, config: Config) returns (r: seq<Duplicate>)
    ensures r == Settled(FreshEntries(index.sites, path, functions, config, |functions|))
  {
    var found := [];
    for i := 0 to |functions|
      invariant found == FreshEntries(index.sites, path, functions, config, i)
    {
      var more := CompareFunction(index.sites, path, functions, config, i);
      found := found + more;
    }
    r := Settle(found);
  }
}
