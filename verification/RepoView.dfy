/** Import adjacency over one repository snapshot and the bounded search on it
    (crates/findings/src/view.rs). */
module RepoView {
  import opened Common
  import opened Reach

  datatype RootRelativePath = RootRelativePath(text: string)

  /** An import site; `target` is present when the import was resolved to a file of the repository. */
  datatype ImportEdge = ImportEdge(fact: nat, importingFile: RootRelativePath, target: Option<RootRelativePath>)

  datatype Direction = Imports | ImportedBy

  type Adjacency = map<RootRelativePath, seq<ImportEdge>>

  function Listed(table: Adjacency, file: RootRelativePath): seq<ImportEdge> {
    if file in table then table[file] else []
  }

  function Push(table: Adjacency, file: RootRelativePath, edge: ImportEdge): Adjacency {
    table[file := Listed(table, file) + [edge]]
  }

  /** Resolved to a file other than the importing one. */
  predicate Internal(edge: ImportEdge) {
    edge.target.Some? && edge.target.value != edge.importingFile
  }

  /** Resolved imports of `file` among the first `n` sites, in order. */
  function OutgoingOf(edges: seq<ImportEdge>, file: RootRelativePath, n: nat): seq<ImportEdge>
    requires n <= |edges|
  {
    if n == 0 then []
    else OutgoingOf(edges, file, n - 1) + if Internal(edges[n - 1]) && edges[n - 1].importingFile == file then [edges[n - 1]] else []
  }

  /** Resolved imports that target `file` among the first `n` sites, in order. */
  function IncomingOf(edges: seq<ImportEdge>, file: RootRelativePath, n: nat): seq<ImportEdge>
    requires n <= |edges|
  {
    if n == 0 then []
    else IncomingOf(edges, file, n - 1) + if Internal(edges[n - 1]) && edges[n - 1].target.value == file then [edges[n - 1]] else []
  }

  datatype View = View(edges: seq<ImportEdge>, outgoing: Adjacency, incoming: Adjacency) {
    ghost predicate Valid() {
      && (forall file :: Listed(outgoing, file) == OutgoingOf(edges, file, |edges|))
      && (forall file :: Listed(incoming, file) == IncomingOf(edges, file, |edges|))
    }
  }

  function PushedOutgoing(edges: seq<ImportEdge>, n: nat): Adjacency
    requires n <= |edges|
  {
    if n == 0 then map[]
    else if Internal(edges[n - 1]) then Push(PushedOutgoing(edges, n - 1), edges[n - 1].importingFile, edges[n - 1])
    else PushedOutgoing(edges, n - 1)
  }

  function PushedIncoming(edges: seq<ImportEdge>, n: nat): Adjacency
    requires n <= |edges|
  {
    if n == 0 then map[]
    else if Internal(edges[n - 1]) then Push(PushedIncoming(edges, n - 1), edges[n - 1].target.value, edges[n - 1])
    else PushedIncoming(edges, n - 1)
  }

  lemma {:induction false} PushedScan(edges: seq<ImportEdge>, file: RootRelativePath, n: nat)
    requires n <= |edges|
    ensures Listed(PushedOutgoing(edges, n), file) == OutgoingOf(edges, file, n)
    ensures Listed(PushedIncoming(edges, n), file) == IncomingOf(edges, file, n)
  {
    if n > 0 {
      PushedScan(edges, file, n - 1);
    }
  }

  /** Both adjacency tables agree with a plain scan of the import sites. */
  method NewView(edges: seq<ImportEdge>) returns (view: View)
    ensures view.edges == edges && view.Valid()
  {
    var outgoing: Adjacency, incoming: Adjacency := map[], map[];
    for i := 0 to |edges|
      invariant outgoing == PushedOutgoing(edges, i)
      invariant incoming == PushedIncoming(edges, i)
    {
      var edge := edges[i];
      if Internal(edge) {
        outgoing := Push(outgoing, edge.importingFile, edge);
        incoming := Push(incoming, edge.target.value, edge);
      }
    }
    view := View(edges, outgoing, incoming);
    forall file
      ensures Listed(outgoing, file) == OutgoingOf(edges, file, |edges|)
      ensures Listed(incoming, file) == IncomingOf(edges, file, |edges|)
    {
      PushedScan(edges, file, |edges|);
    }
  }

  // ----- bounded search

  /** The files one resolved import away, by a plain scan. */
  ghost function StepOf(edges: seq<ImportEdge>, direction: Direction): RootRelativePath -> set<RootRelativePath> {
    file =>
      match direction
      case Imports => set e | e in edges && Internal(e) && e.importingFile == file :: e.target.value
      case ImportedBy => set e | e in edges && Internal(e) && e.target.value == file :: e.importingFile
  }

  ghost function Files(edges: seq<ImportEdge>): set<RootRelativePath> {
    (set e | e in edges :: e.importingFile) + (set e | e in edges && e.target.Some? :: e.target.value)
  }

  lemma {:induction false} ScanMembers(edges: seq<ImportEdge>, file: RootRelativePath, n: nat)
    requires n <= |edges|
    ensures forall e :: e in OutgoingOf(edges, file, n) <==> e in edges[..n] && Internal(e) && e.importingFile == file
    ensures forall e :: e in IncomingOf(edges, file, n) <==> e in edges[..n] && Internal(e) && e.target.value == file
  {
    if n > 0 {
      ScanMembers(edges, file, n - 1);
      assert edges[..n] == edges[..n - 1] + [edges[n - 1]];
    }
  }

  /** Every file lists exactly its internal imports, and exactly the internal imports of it. */
  ghost predicate ListsEdges(view: View) {
    && (forall file, e :: e in Listed(view.outgoing, file) <==> e in view.edges && Internal(e) && e.importingFile == file)
    && (forall file, e :: e in Listed(view.incoming, file) <==> e in view.edges && Internal(e) && e.target.value == file)
  }

  lemma ValidListsEdges(view: View)
    requires view.Valid()
    ensures ListsEdges(view)
  {
    assert view.edges[..|view.edges|] == view.edges;
    forall file
      ensures forall e :: e in Listed(view.outgoing, file) <==> e in view.edges && Internal(e) && e.importingFile == file
      ensures forall e :: e in Listed(view.incoming, file) <==> e in view.edges && Internal(e) && e.target.value == file
    {
      ScanMembers(view.edges, file, |view.edges|);
    }
  }

  /** The neighbours the search visits from `file`, in table order. */
  method NextFiles(view: View, file: RootRelativePath, direction: Direction) returns (next: seq<RootRelativePath>)
    requires ListsEdges(view)
    ensures forall w :: w in next <==> w in StepOf(view.edges, direction)(file)
  {
    if direction == Imports {
      next := TargetsOf(Listed(view.outgoing, file));
    } else {
      next := ImportersOf(Listed(view.incoming, file));
    }
  }

  method TargetsOf(edges: seq<ImportEdge>) returns (files: seq<RootRelativePath>)
    ensures forall w :: w in files <==> exists e <- edges :: e.target == Some(w)
  {
    files := [];
    for i := 0 to |edges|
      invariant forall w :: w in files <==> exists e <- edges[..i] :: e.target == Some(w)
    {
      assert edges[..i + 1] == edges[..i] + [edges[i]];
      if edges[i].target.Some? {
        files := files + [edges[i].target.value];
      }
    }
    assert edges[..|edges|] == edges;
  }

  method ImportersOf(edges: seq<ImportEdge>) returns (files: seq<RootRelativePath>)
    ensures forall w :: w in files <==> exists e <- edges :: e.importingFile == w
  {
    files := [];
    for i := 0 to |edges|
      invariant forall w :: w in files <==> exists e <- edges[..i] :: e.importingFile == w
    {
      assert edges[..i + 1] == edges[..i] + [edges[i]];
      files := files + [edges[i].importingFile];
    }
    assert edges[..|edges|] == edges;
  }

  /** The ball of radius `hops`, less its centre: the specification of the call-graph walk, met with
      the other marking discipline. */
  method ReachableFiles(view: View, start: RootRelativePath, hops: nat, direction: Direction) returns (found: set<RootRelativePath>)
    requires view.Valid()
    ensures found == Ball(StepOf(view.edges, direction), {start}, hops) - {start}
    // the same read off the edges
    ensures forall file :: file in found <==> file != start && WithinHops(view.edges, direction, start, file, hops)
  {
    forall file
      ensures file in Ball(StepOf(view.edges, direction), {start}, hops) <==> WithinHops(view.edges, direction, start, file, hops)
    {
      HopsMean(view.edges, direction, start, file, hops);
    }
    ValidListsEdges(view);
    var seen := Search(view, start, hops, direction);
    found := seen - {start};
  }

  method Search(view: View, start: RootRelativePath, hops: nat, direction: Direction) returns (seen: set<RootRelativePath>)
    requires ListsEdges(view)
    ensures seen == Ball(StepOf(view.edges, direction), {start}, hops)
  {
    ghost var succ := StepOf(view.edges, direction);
    ghost var dist: map<RootRelativePath, nat>, level: nat := map[start := 0], 0;
    ghost var files := Files(view.edges) + {start};
    seen := {start};
    var frontier: seq<(RootRelativePath, nat)> := [(start, 0)];
    PushMarkingStart(succ, start, hops);
    while frontier != []
      invariant PushMarking(succ, start, hops, dist, frontier, level, {}) == true
      invariant seen == dist.Keys <= files
      decreases files - seen, |frontier|
    {
      var (file, depth) := frontier[0];
      assert frontier[0] in frontier;
      PopToExpand(succ, start, hops, dist, frontier, level);
      frontier, level := frontier[1..], depth;
      if depth == hops {
        FinishExpand(succ, start, hops, dist, frontier, level, file);
      } else {
        var next := NextFiles(view, file, direction);
        StepsStayInFiles(view.edges, direction, file);
        seen, frontier, dist := PushUnseen(next, file, depth, seen, frontier, succ, start, hops, dist);
      }
    }
    PushMarkingDone(succ, start, hops, dist, level);
  }

  /** Marks and queues the neighbours not seen before. */
  method PushUnseen(next: seq<RootRelativePath>, file: RootRelativePath, depth: nat, seen: set<RootRelativePath>, frontier: seq<(RootRelativePath, nat)>,
                    ghost succ: RootRelativePath -> set<RootRelativePath>, ghost start: RootRelativePath, ghost hops: nat, ghost dist: map<RootRelativePath, nat>)
    returns (marked: set<RootRelativePath>, queue: seq<(RootRelativePath, nat)>, ghost recorded: map<RootRelativePath, nat>)
    requires PushMarking(succ, start, hops, dist, frontier, depth, {file})
    requires seen == dist.Keys && file in dist && dist[file] == depth < hops
    requires forall w :: w in next <==> w in succ(file)
    ensures PushMarking(succ, start, hops, recorded, queue, depth, {}) == true
    ensures marked == recorded.Keys && seen <= marked <= seen + succ(file)
    ensures marked == seen ==> queue == frontier
  {
    marked, queue, recorded := seen, frontier, dist;
    for i := 0 to |next|
      invariant Expanding(succ, start, hops, recorded, queue, depth, file, seen, frontier) == true
      invariant marked == recorded.Keys
      invariant forall w <- next[..i] :: w in marked
    {
      var w := next[i];
      assert next[..i + 1] == next[..i] + [w];
      if w !in marked {
        PushFresh(succ, start, hops, recorded, queue, depth, file, seen, frontier, w);
        var deeper: (RootRelativePath, nat) := (w, depth + 1);
        marked, queue, recorded := marked + {w}, queue + [deeper], recorded[w := depth + 1];
      }
    }
    assert next[..|next|] == next;
    FinishExpand(succ, start, hops, recorded, queue, depth, file);
  }

  lemma StepsStayInFiles(edges: seq<ImportEdge>, direction: Direction, file: RootRelativePath)
    ensures StepOf(edges, direction)(file) <= Files(edges)
  {
  }

  // ----- the search in terms of the import sites

  /** Some site imports one of two different files into the other. */
  ghost predicate Leads(edges: seq<ImportEdge>, direction: Direction, a: RootRelativePath, b: RootRelativePath) {
    && a != b
    && exists e <- edges ::
         if direction == Imports then e.importingFile == a && e.target == Some(b)
         else e.importingFile == b && e.target == Some(a)
  }

  /** A chain of at most so many imports leads from the start to the file. */
  ghost predicate WithinHops(
    edges: seq<ImportEdge>, direction: Direction, start: RootRelativePath, file: RootRelativePath, hops: nat)
  {
    exists path: seq<RootRelativePath> ::
      && path != [] && path[0] == start && path[|path| - 1] == file && |path| <= hops + 1
      && forall i :: 0 <= i < |path| - 1 ==> Leads(edges, direction, path[i], path[i + 1])
  }

  lemma StepMeans(edges: seq<ImportEdge>, direction: Direction, a: RootRelativePath, b: RootRelativePath)
    ensures b in StepOf(edges, direction)(a) <==> Leads(edges, direction, a, b)
  {
  }

  lemma PathMeans(edges: seq<ImportEdge>, direction: Direction, path: seq<RootRelativePath>)
    ensures IsPath(StepOf(edges, direction), path)
            <==> path != [] && forall i :: 0 <= i < |path| - 1 ==> Leads(edges, direction, path[i], path[i + 1])
  {
    forall i | 0 <= i < |path| - 1
      ensures path[i + 1] in StepOf(edges, direction)(path[i]) <==> Leads(edges, direction, path[i], path[i + 1])
    {
      StepMeans(edges, direction, path[i], path[i + 1]);
    }
  }

  lemma HopsMean(edges: seq<ImportEdge>, direction: Direction, start: RootRelativePath, file: RootRelativePath, hops: nat)
    ensures file in Ball(StepOf(edges, direction), {start}, hops) <==> WithinHops(edges, direction, start, file, hops)
  {
    var succ := StepOf(edges, direction);
    BallIsShortPaths(succ, {start}, file, hops);
    if HasPath(succ, {start}, file, hops) {
      var path :| IsPath(succ, path) && path[0] in {start} && path[|path| - 1] == file && |path| <= hops + 1;
      PathMeans(edges, direction, path);
    }
    if WithinHops(edges, direction, start, file, hops) {
      var path: seq<RootRelativePath> :|
        && path != [] && path[0] == start && path[|path| - 1] == file && |path| <= hops + 1
        && forall i :: 0 <= i < |path| - 1 ==> Leads(edges, direction, path[i], path[i + 1]);
      PathMeans(edges, direction, path);
    }
  }

  /** A file lists its imports of other files and the imports of it by other files, and nothing else. */
  lemma ListingMeans(view: View, file: RootRelativePath, e: ImportEdge)
    requires view.Valid()
    ensures e in Listed(view.outgoing, file)
            <==> e in view.edges && e.importingFile == file && e.target.Some? && e.target != Some(file)
    ensures e in Listed(view.incoming, file)
            <==> e in view.edges && e.target == Some(file) && e.importingFile != file
  {
    ValidListsEdges(view);
  }
}
