/** The extraction cache of the call graph: entries are staged while a refresh runs and committed
    only when its snapshot was published (crates/code-analysis/src/service.rs). */
module RefreshCache {
  import opened Common
  import opened Text

  const MAX_FILES: nat := 10_000
  const CACHE_LIMIT: nat := 20_000

  datatype Name = Name(text: string)
  datatype Bytes = Bytes(data: seq<nat>)
  datatype SourceText = SourceText(text: string)
  datatype Facts = Facts(value: nat)

  datatype SourceFile = SourceFile(path: Name, bytes: Bytes, hash: Name)

  datatype Key = Key(path: Name, hash: Name, version: Name)

  type Cache = map<Key, Facts>

  datatype Error =
    | InvalidRequest
    | Cancelled
    | DiscoveryFailed
    | ExtractionFailed(code: nat)
    | PublishFailed

  /** What an adapter answers: facts, a file it will not analyse, or an error that stops the refresh. */
  datatype Extraction = Extracted(facts: Facts) | Rejected | Broken(code: nat)

  /** The parts of the service that do not change: which adapter version handles a path, how bytes
      become text, what an adapter extracts, and how files are hashed. */
  datatype Environment = Environment(
    adapterVersion: Name -> Option<Name>,
    decode: Bytes -> Option<SourceText>,
    extract: (Name, SourceText, Name) -> Extraction,
    hashOf: Bytes -> Name)

  ghost predicate HashesIdentify(env: Environment) {
    forall a, b :: env.hashOf(a) == env.hashOf(b) ==> a == b
  }

  ghost predicate Hashed(env: Environment, files: seq<SourceFile>) {
    forall file <- files :: file.hash == env.hashOf(file.bytes)
  }

  // ----- what a refresh without any cache would use

  /** One file's key and facts, extracted from its current bytes; nothing for a skipped file. */
  function FreshFacts(env: Environment, file: SourceFile): Result<Option<(Key, Facts)>, Error> {
    match env.adapterVersion(file.path)
    case None => Ok(None)
    case Some(version) =>
      match env.decode(file.bytes)
      case None => Ok(None)
      case Some(text) =>
        match env.extract(file.path, text, version)
        case Extracted(facts) => Ok(Some((Key(file.path, file.hash, version), facts)))
        case Rejected => Ok(None)
        case Broken(code) => Err(ExtractionFailed(code))
  }

  /** The facts of every file that has some, in discovery order. */
  function FreshAll(env: Environment, files: seq<SourceFile>): seq<(Name, Facts)> {
    if files == [] then []
    else
      var last := files[|files| - 1];
      FreshAll(env, files[..|files| - 1])
      + match FreshFacts(env, last)
        case Ok(Some((_, facts))) => [(last.path, facts)]
        case Ok(None) => []
        case Err(_) => []
  }

  /** The cache keys of those files. */
  function LiveKeys(env: Environment, files: seq<SourceFile>): set<Key> {
    if files == [] then {}
    else
      LiveKeys(env, files[..|files| - 1])
      + match FreshFacts(env, files[|files| - 1])
        case Ok(Some((key, _))) => {key}
        case Ok(None) => {}
        case Err(_) => {}
  }

  lemma FreshNext(env: Environment, files: seq<SourceFile>, i: nat)
    requires i < |files| && FreshFacts(env, files[i]).Ok?
    ensures FreshAll(env, files[..i + 1]) == FreshAll(env, files[..i])
              + match FreshFacts(env, files[i]).value case Some((_, facts)) => [(files[i].path, facts)] case None => []
    ensures LiveKeys(env, files[..i + 1]) == LiveKeys(env, files[..i])
              + match FreshFacts(env, files[i]).value case Some((key, _)) => {key} case None => {}
  {
    assert files[..i + 1][..i] == files[..i];
  }

  /** At most one live key for each file, so the live keys of a discovery fit in the cache. */
  lemma {:induction false} LiveKeysFit(env: Environment, files: seq<SourceFile>)
    ensures |LiveKeys(env, files)| <= |files|
    ensures |files| <= MAX_FILES ==> |LiveKeys(env, files)| <= CACHE_LIMIT
    ensures forall key <- LiveKeys(env, files) :: exists file <- files :: FreshFacts(env, file).Ok? && FreshFacts(env, file).value.Some? && FreshFacts(env, file).value.value.0 == key
  {
    if files != [] {
      LiveKeysFit(env, files[..|files| - 1]);
      assert files == files[..|files| - 1] + [files[|files| - 1]];
    }
  }

  /** Every entry is what its adapter extracts from any bytes with the hash it is stored under. */
  ghost predicate Sound(env: Environment, cache: Cache) {
    forall key, bytes | key in cache && env.hashOf(bytes) == key.hash ::
      && env.decode(bytes).Some?
      && env.extract(key.path, env.decode(bytes).value, key.version) == Extracted(cache[key])
  }

  // ----- bounded maps

  predicate KeyLe(a: Key, b: Key) {
    if a.path != b.path then LexLe(a.path.text, b.path.text)
    else if a.hash != b.hash then LexLe(a.hash.text, b.hash.text)
    else LexLe(a.version.text, b.version.text)
  }

  lemma KeyTotal(a: Key, b: Key)
    ensures KeyLe(a, b) || KeyLe(b, a)
  {
    LexTotal(a.path.text, b.path.text);
    LexTotal(a.hash.text, b.hash.text);
    LexTotal(a.version.text, b.version.text);
  }

  lemma KeyTransitive(a: Key, b: Key, c: Key)
    requires KeyLe(a, b) && KeyLe(b, c)
    ensures KeyLe(a, c)
  {
    NameTransitive(a.path, b.path, c.path);
    NameTransitive(a.hash, b.hash, c.hash);
    NameTransitive(a.version, b.version, c.version);
  }

  lemma NameTransitive(a: Name, b: Name, c: Name)
    ensures LexLe(a.text, b.text) && LexLe(b.text, c.text) ==> LexLe(a.text, c.text)
    ensures LexLe(a.text, b.text) && LexLe(b.text, c.text) && a == c ==> a == b
  {
    if LexLe(a.text, b.text) && LexLe(b.text, c.text) {
      LexTransitive(a.text, b.text, c.text);
      if a == c {
        LexAntisymmetric(a.text, b.text);
      }
    }
  }

  ghost predicate Smallest(key: Key, keys: set<Key>) {
    key in keys && forall other <- keys :: KeyLe(key, other)
  }

  /** The first key in map order. */
  method FirstKey(keys: set<Key>) returns (first: Key)
    requires keys != {}
    ensures Smallest(first, keys)
  {
    first :| first in keys;
    var rest := keys - {first};
    LexReflexive(first.version.text);
    while rest != {}
      invariant rest <= keys && first in keys
      invariant forall other <- keys - rest :: KeyLe(first, other)
      decreases rest
    {
      var next :| next in rest;
      if !KeyLe(first, next) {
        KeyTotal(first, next);
        forall other | other in keys - rest
          ensures KeyLe(next, other)
        {
          KeyTransitive(next, first, other);
        }
        first := next;
        LexReflexive(first.version.text);
      }
      rest := rest - {next};
    }
  }

  ghost predicate Restricts(small: Cache, large: Cache) {
    forall key <- small :: key in large && small[key] == large[key]
  }

  /** Removes first keys until the limit holds: the largest keys stay. */
  method Evict(cache: Cache) returns (kept: Cache)
    ensures Restricts(kept, cache)
    ensures |cache| <= 20_000 ==> kept == cache
    ensures |cache| > 20_000 ==> |kept| == 20_000
    ensures forall gone, stays | gone in cache && gone !in kept && stays in kept :: KeyLe(gone, stays)
  {
    kept := cache;
    while |kept| > CACHE_LIMIT
      invariant Restricts(kept, cache)
      invariant |cache| <= CACHE_LIMIT ==> kept == cache
      invariant |cache| > CACHE_LIMIT ==> |kept| >= CACHE_LIMIT
      invariant forall gone, stays | gone in cache && gone !in kept && stays in kept :: KeyLe(gone, stays)
      decreases |kept|
    {
      var first := FirstKey(kept.Keys);
      kept := WithoutKey(kept, first);
    }
  }

  function WithoutKey(cache: Cache, key: Key): (r: Cache)
    requires key in cache
    ensures r.Keys == cache.Keys - {key} && |r| == |cache| - 1
    ensures Restricts(r, cache)
  {
    var r := map k | k in cache && k != key :: cache[k];
    assert r.Keys == cache.Keys - {key};
    r
  }

  // ----- the service

  /** One call of `refresh` and how its surroundings behave: what the source finds when it is asked for
      at most so many files, at which of the successive cancellation checks the token is found cancelled,
      and whether publishing works. */
  datatype Attempt = Attempt(
    maxFiles: Option<nat>,
    discover: nat -> Option<seq<SourceFile>>,
    cancelled: nat -> bool,
    publishes: bool)

  /** How many files the source is asked for. */
  function FileBound(maxFiles: Option<nat>): nat {
    match maxFiles
    case None => MAX_FILES
    case Some(requested) => if requested < MAX_FILES then requested else MAX_FILES
  }

  /** At most 10,000, and at most as many as were asked for. */
  lemma BoundMeans(maxFiles: Option<nat>)
    ensures FileBound(maxFiles) <= 10_000
    ensures maxFiles.Some? && maxFiles.value <= 10_000 ==> FileBound(maxFiles) == maxFiles.value
    ensures maxFiles.None? || maxFiles.value > 10_000 ==> FileBound(maxFiles) == 10_000
  {
  }

  function Discovery(attempt: Attempt): Option<seq<SourceFile>> {
    attempt.discover(FileBound(attempt.maxFiles))
  }

  /** The source finds no more files than it is asked for, and hashes them. */
  ghost predicate KeepsBound(env: Environment, attempt: Attempt) {
    forall n | attempt.discover(n).Some? :: |attempt.discover(n).value| <= n && Hashed(env, attempt.discover(n).value)
  }

  /** Neither cancellation nor the adapter stops the extraction of file `i`. */
  ghost predicate Clears(env: Environment, files: seq<SourceFile>, cancelled: nat -> bool, firstCheck: nat, i: nat)
    requires i < |files|
  {
    !cancelled(firstCheck + i) && FreshFacts(env, files[i]).Ok?
  }

  /** Nothing stops it before file `n`. */
  ghost predicate Passes(env: Environment, files: seq<SourceFile>, cancelled: nat -> bool, firstCheck: nat, n: nat)
    requires n <= |files|
  {
    forall i :: 0 <= i < n ==> Clears(env, files, cancelled, firstCheck, i)
  }

  /** File `i` is the first that stops it: its check is cancelled, or else its adapter breaks on it. */
  ghost predicate StopsAt(
    env: Environment, files: seq<SourceFile>, cancelled: nat -> bool, firstCheck: nat, i: nat, error: Error)
  {
    && i < |files| && Passes(env, files, cancelled, firstCheck, i)
    && if cancelled(firstCheck + i) then error == Cancelled else FreshFacts(env, files[i]) == Err(error)
  }

  /** The first thing that stands in the way of a refresh, in the order in which they are met. */
  ghost predicate StoppedBy(env: Environment, attempt: Attempt, error: Error) {
    if attempt.maxFiles == Some(0) then error == InvalidRequest
    else if attempt.cancelled(0) || attempt.cancelled(1) then error == Cancelled
    else if Discovery(attempt).None? then error == DiscoveryFailed
    else
      var files := Discovery(attempt).value;
      if !Passes(env, files, attempt.cancelled, 2, |files|) then
        exists i :: StopsAt(env, files, attempt.cancelled, 2, i, error)
      else if attempt.cancelled(2 + |files|) || attempt.cancelled(3 + |files|) then error == Cancelled
      else !attempt.publishes && error == PublishFailed
  }

  /** Neither cancellation nor discovery stops the refresh before it extracts anything. */
  ghost predicate GetsToExtract(attempt: Attempt) {
    && attempt.maxFiles != Some(0) && !attempt.cancelled(0) && !attempt.cancelled(1)
    && Discovery(attempt).Some?
  }

  /** Nor does anything stop it before it publishes. */
  ghost predicate GoesThrough(env: Environment, attempt: Attempt) {
    && GetsToExtract(attempt)
    && var n := |Discovery(attempt).value|;
       && Passes(env, Discovery(attempt).value, attempt.cancelled, 2, n)
       && !attempt.cancelled(2 + n) && !attempt.cancelled(3 + n)
  }

  lemma StoppedExtracting(env: Environment, attempt: Attempt, error: Error)
    requires GetsToExtract(attempt)
    requires !Passes(env, Discovery(attempt).value, attempt.cancelled, 2, |Discovery(attempt).value|)
    requires exists i :: StopsAt(env, Discovery(attempt).value, attempt.cancelled, 2, i, error)
    ensures StoppedBy(env, attempt, error) == true
  {
  }

  lemma StoppedAfterExtracting(env: Environment, attempt: Attempt, error: Error)
    requires GetsToExtract(attempt)
    requires Passes(env, Discovery(attempt).value, attempt.cancelled, 2, |Discovery(attempt).value|)
    ensures
      var n := |Discovery(attempt).value|;
      StoppedBy(env, attempt, error)
      <==> if attempt.cancelled(2 + n) || attempt.cancelled(3 + n) then error == Cancelled
           else !attempt.publishes && error == PublishFailed
  {
  }

  lemma NeverCancelled(env: Environment, attempt: Attempt)
    requires GoesThrough(env, attempt)
    ensures forall n :: 0 <= n < 4 + |Discovery(attempt).value| ==> !attempt.cancelled(n)
  {
    var files := Discovery(attempt).value;
    forall n | 0 <= n < 4 + |files|
      ensures !attempt.cancelled(n)
    {
      if 2 <= n < 2 + |files| {
        assert Clears(env, files, attempt.cancelled, 2, n - 2);
      }
    }
  }

  lemma NothingStopped(env: Environment, attempt: Attempt)
    requires GoesThrough(env, attempt) && attempt.publishes
    ensures !Stopped(env, attempt)
  {
    forall error
      ensures !StoppedBy(env, attempt, error)
    {
      StoppedAfterExtracting(env, attempt, error);
    }
  }

  ghost predicate Stopped(env: Environment, attempt: Attempt) {
    exists error :: StoppedBy(env, attempt, error)
  }

  /** At most one thing is the first to stop a refresh. */
  lemma StoppedByOne(env: Environment, attempt: Attempt, a: Error, b: Error)
    requires StoppedBy(env, attempt, a) && StoppedBy(env, attempt, b)
    ensures a == b
  {
    if attempt.maxFiles != Some(0) && !attempt.cancelled(0) && !attempt.cancelled(1) && Discovery(attempt).Some? {
      var files := Discovery(attempt).value;
      if !Passes(env, files, attempt.cancelled, 2, |files|) {
        var i: nat :| StopsAt(env, files, attempt.cancelled, 2, i, a);
        var j: nat :| StopsAt(env, files, attempt.cancelled, 2, j, b);
        assert i < j ==> Clears(env, files, attempt.cancelled, 2, i);
        assert j < i ==> Clears(env, files, attempt.cancelled, 2, j);
      }
    }
  }

  /** The key of a file that some adapter may be asked about, and that neither cache holds. */
  ghost predicate AskedFor(env: Environment, file: SourceFile, key: Key, committed: Cache, staged: Cache) {
    && env.adapterVersion(file.path) == Some(key.version) && env.decode(file.bytes).Some?
    && key.path == file.path && key.hash == file.hash
    && key !in committed && key !in staged
  }

  /** An adapter was asked exactly for the keys of these files that no cache held before. */
  ghost predicate AskedOnce(env: Environment, asked: set<Key>, files: seq<SourceFile>, committed: Cache, staged: Cache) {
    forall key :: key in asked <==> exists file <- files :: AskedFor(env, file, key, committed, staged)
  }

  lemma AskedMore(
    env: Environment, asked: set<Key>, files: seq<SourceFile>, file: SourceFile, more: set<Key>,
    committed: Cache, before: Cache, staged: Cache)
    requires AskedOnce(env, asked, files, committed, before)
    requires Restricts(before, staged) && staged.Keys <= before.Keys + asked
    requires forall key :: key in more <==> AskedFor(env, file, key, committed, staged)
    ensures AskedOnce(env, asked + more, files + [file], committed, before)
  {
    forall key
      ensures key in asked + more <==> exists f <- files + [file] :: AskedFor(env, f, key, committed, before)
    {
      if key in asked {
        var f :| f in files && AskedFor(env, f, key, committed, before);
        assert f in files + [file];
      }
      if key in more {
        assert file in files + [file] && AskedFor(env, file, key, committed, before);
      }
    }
  }

  lemma AskedNext(
    env: Environment, asked: set<Key>, files: seq<SourceFile>, i: nat, more: set<Key>,
    committed: Cache, before: Cache, staged: Cache)
    requires i < |files| && AskedOnce(env, asked, files[..i], committed, before) == true
    requires Restricts(before, staged) && staged.Keys <= before.Keys + asked
    requires forall key :: key in more <==> AskedFor(env, files[i], key, committed, staged)
    ensures AskedOnce(env, asked + more, files[..i + 1], committed, before) == true
  {
    AskedMore(env, asked, files[..i], files[i], more, committed, before, staged);
    assert files[..i + 1] == files[..i] + [files[i]];
  }

  lemma PassesNext(env: Environment, files: seq<SourceFile>, cancelled: nat -> bool, firstCheck: nat, i: nat, error: Error)
    requires i < |files| && Passes(env, files, cancelled, firstCheck, i)
    ensures StopsAt(env, files, cancelled, firstCheck, i, error) ==> !Passes(env, files, cancelled, firstCheck, |files|)
    ensures Clears(env, files, cancelled, firstCheck, i) ==> Passes(env, files, cancelled, firstCheck, i + 1)
  {
    assert StopsAt(env, files, cancelled, firstCheck, i, error) ==> !Clears(env, files, cancelled, firstCheck, i);
  }

  /** The facts the snapshot was built from, and the keys an adapter was asked for. */
  datatype Refreshed = Refreshed(facts: seq<(Name, Facts)>, live: set<Key>, asked: set<Key>)

  class CallGraph {
    const env: Environment
    var committed: Cache
    var staged: Cache

    constructor (env: Environment)
      ensures this.env == env && committed == map[] && staged == map[]
      ensures Valid()
    {
      this.env := env;
      committed, staged := map[], map[];
    }

    ghost predicate Valid()
      reads this
    {
      Sound(env, committed) && Sound(env, staged)
    }

    /** One file's facts, from a cache or freshly extracted: in both cases what its adapter extracts
        from its current bytes. An adapter is asked only for a key that no cache holds. */
    method FactsOf(file: SourceFile) returns (r: Result<Option<(Key, Facts)>, Error>, asked: set<Key>)
      requires Valid() && HashesIdentify(env) && file.hash == env.hashOf(file.bytes)
      modifies this`staged
      ensures Valid()
      ensures r == FreshFacts(env, file)
      ensures Restricts(old(staged), staged)
      ensures r.Ok? && r.value.Some? ==> r.value.value.0 in committed.Keys + staged.Keys
      ensures forall key :: key in asked <==> AskedFor(env, file, key, committed, old(staged))
      ensures staged.Keys <= old(staged).Keys + asked
    {
      asked := {};
      var version := env.adapterVersion(file.path);
      if version.None? {
        return Ok(None), asked;
      }
      var text := env.decode(file.bytes);
      if text.None? {
        return Ok(None), asked;
      }
      var key := Key(file.path, file.hash, version.value);
      if key in committed {
        return Ok(Some((key, committed[key]))), asked;
      }
      if key in staged {
        return Ok(Some((key, staged[key]))), asked;
      }
      asked := {key};
      match env.extract(file.path, text.value, version.value)
      case Extracted(facts) =>
        staged := staged[key := facts];
        r := Ok(Some((key, facts)));
      case Rejected =>
        r := Ok(None);
      case Broken(code) =>
        r := Err(ExtractionFailed(code));
    }

    /** Yields `FreshAll` and `LiveKeys` of the files. Whatever stops the loop, the committed cache
        is untouched and what was staged stays staged. */
    method ExtractFiles(files: seq<SourceFile>, cancelled: nat -> bool, firstCheck: nat) returns (r: Result<Refreshed, Error>)
      requires Valid() && HashesIdentify(env) && Hashed(env, files)
      modifies this`staged
      ensures Valid() && Restricts(old(staged), staged)
      ensures r.Ok? ==> r.value.facts == FreshAll(env, files) && r.value.live == LiveKeys(env, files)
      ensures r.Ok? ==> r.value.live <= committed.Keys + staged.Keys
      ensures r.Ok? ==> AskedOnce(env, r.value.asked, files, committed, old(staged))
      // it goes through exactly when nothing stops it, and the error tells what was first
      ensures r.Ok? <==> Passes(env, files, cancelled, firstCheck, |files|)
      ensures r.Err? ==> exists i :: StopsAt(env, files, cancelled, firstCheck, i, r.error)
    {
      var facts: seq<(Name, Facts)> := [];
      var live: set<Key>, asked: set<Key> := {}, {};
      for i := 0 to |files|
        invariant Valid() && Restricts(old(staged), staged)
        invariant facts == FreshAll(env, files[..i]) && live == LiveKeys(env, files[..i])
        invariant live <= committed.Keys + staged.Keys
        invariant AskedOnce(env, asked, files[..i], committed, old(staged)) == true
        invariant staged.Keys <= old(staged).Keys + asked
        invariant Passes(env, files, cancelled, firstCheck, i) == true
      {
        if cancelled(firstCheck + i) {
          PassesNext(env, files, cancelled, firstCheck, i, Cancelled);
          assert StopsAt(env, files, cancelled, firstCheck, i, Cancelled);
          return Err(Cancelled);
        }
        assert files[i] in files;
        ghost var before := staged;
        var one, askedNow := FactsOf(files[i]);
        AskedNext(env, asked, files, i, askedNow, committed, old(staged), before);
        asked := asked + askedNow;
        if one.Err? {
          PassesNext(env, files, cancelled, firstCheck, i, one.error);
          assert StopsAt(env, files, cancelled, firstCheck, i, one.error);
          return Err(one.error);
        }
        PassesNext(env, files, cancelled, firstCheck, i, Cancelled);
        FreshNext(env, files, i);
        if one.value.Some? {
          live := live + {one.value.value.0};
          facts := facts + [(files[i].path, one.value.value.1)];
        }
      }
      assert files[..|files|] == files;
      r := Ok(Refreshed(facts, live, asked));
    }

    method TakeStaged() returns (taken: Cache)
      modifies this`staged
      ensures taken == old(staged) && staged == map[]
    {
      taken := staged;
      staged := map[];
    }

    method RestoreStaged(taken: Cache)
      requires Valid() && Sound(env, taken)
      modifies this`staged
      ensures Valid()
      ensures |old(staged) + taken| <= CACHE_LIMIT ==> staged == old(staged) + taken
      ensures staged == old(staged) + taken || |staged| == CACHE_LIMIT
    {
      staged := Evict(staged + taken);
    }

    /** Merges what was staged and drops what no file of the workspace uses any more. */
    method Commit(taken: Cache, live: set<Key>)
      requires Valid() && Sound(env, taken)
      requires live <= committed.Keys + taken.Keys
      modifies this`committed
      ensures Valid()
      ensures committed.Keys <= live
      ensures |live| <= CACHE_LIMIT ==> committed.Keys == live
      ensures |live| > CACHE_LIMIT ==> |committed| == CACHE_LIMIT
    {
      var merged := committed + taken;
      var retained := map key | key in merged && key in live :: merged[key];
      assert retained.Keys == live;
      var kept := Evict(retained);
      assert Restricts(kept, retained) && Restricts(retained, merged);
      committed := kept;
    }

    /** One refresh. Success: the snapshot is built from freshly extracted facts in all but cost, the
        committed cache holds exactly the live keys, and nothing is staged. Failure of any kind: the
        committed cache is unchanged. */
    method Refresh(attempt: Attempt) returns (r: Result<Refreshed, Error>)
      requires Valid() && HashesIdentify(env)
      requires KeepsBound(env, attempt)
      modifies this
      ensures Valid()
      ensures r.Err? ==> committed == old(committed)
      // it fails exactly when something stands in its way, and tells what was first
      ensures r.Ok? ==> !Stopped(env, attempt)
      ensures r.Err? ==> StoppedBy(env, attempt, r.error) == true
      ensures r.Ok? ==> Discovery(attempt).Some? && attempt.publishes
      ensures r.Ok? ==> forall n :: 0 <= n < 4 + |Discovery(attempt).value| ==> !attempt.cancelled(n)
      ensures r.Ok? ==>
        var files := Discovery(attempt).value;
        && r.value.facts == FreshAll(env, files)
        && r.value.live == LiveKeys(env, files)
        && staged == map[]
        && committed.Keys == r.value.live
        && AskedOnce(env, r.value.asked, files, old(committed), old(staged))
      // nothing learned is lost when a refresh fails, unless what is staged no longer fits
      ensures r.Err? ==> Restricts(old(staged), staged) || (r.error.PublishFailed? && |staged| == CACHE_LIMIT)
    {
      if attempt.maxFiles == Some(0) {
        return Err(InvalidRequest);
      }
      if attempt.cancelled(0) || attempt.cancelled(1) {
        return Err(Cancelled);
      }
      var discovery := attempt.discover(FileBound(attempt.maxFiles));
      if discovery.None? {
        return Err(DiscoveryFailed);
      }
      r := BuildSnapshot(attempt, discovery.value);
      if r.Err? {
        return;
      }
      var taken := TakeStaged();
      StoppedAfterExtracting(env, attempt, PublishFailed);
      if !attempt.publishes {
        RestoreStaged(taken);
        return Err(PublishFailed);
      }
      LiveKeysFit(env, discovery.value);
      NeverCancelled(env, attempt);
      NothingStopped(env, attempt);
      Commit(taken, r.value.live);
    }

    /** What is extracted from the files found, unless an adapter breaks or the refresh is cancelled
        meanwhile or afterwards. */
    method BuildSnapshot(attempt: Attempt, files: seq<SourceFile>) returns (r: Result<Refreshed, Error>)
      requires Valid() && HashesIdentify(env) && Hashed(env, files)
      requires GetsToExtract(attempt) && Discovery(attempt) == Some(files)
      modifies this`staged
      ensures Valid() && Restricts(old(staged), staged)
      ensures r.Err? ==> StoppedBy(env, attempt, r.error) == true
      ensures r.Err? ==> r.error != PublishFailed
      ensures r.Ok? ==> GoesThrough(env, attempt) == true
      ensures r.Ok? ==> r.value.facts == FreshAll(env, files) && r.value.live == LiveKeys(env, files)
      ensures r.Ok? ==> r.value.live <= committed.Keys + staged.Keys
      ensures r.Ok? ==> AskedOnce(env, r.value.asked, files, committed, old(staged))
    {
      r := ExtractFiles(files, attempt.cancelled, 2);
      if r.Err? {
        StoppedExtracting(env, attempt, r.error);
        return;
      }
      StoppedAfterExtracting(env, attempt, Cancelled);
      if attempt.cancelled(2 + |files|) || attempt.cancelled(3 + |files|) {
        return Err(Cancelled);
      }
    }

    /** Any sequence of refreshes, whatever fails on the way: every one that succeeds used the facts
        a fresh extraction of its files gives. */
    method RefreshAll(attempts: seq<Attempt>) returns (results: seq<Result<Refreshed, Error>>)
      requires Valid() && HashesIdentify(env)
      requires forall attempt <- attempts :: KeepsBound(env, attempt)
      modifies this
      ensures Valid() && |results| == |attempts|
      ensures forall i :: 0 <= i < |attempts| && results[i].Ok? ==>
                Discovery(attempts[i]).Some? && results[i].value.facts == FreshAll(env, Discovery(attempts[i]).value)
    {
      results := [];
      for i := 0 to |attempts|
        invariant Valid() && |results| == i
        invariant forall j :: 0 <= j < i && results[j].Ok? ==>
                    Discovery(attempts[j]).Some? && results[j].value.facts == FreshAll(env, Discovery(attempts[j]).value)
      {
        assert attempts[i] in attempts;
        var r := Refresh(attempts[i]);
        results := results + [r];
      }
    }

    /** Repeating a successful refresh of the same files asks no adapter for a file that had facts the
        first time. */
    method RefreshTwice(first: Attempt, second: Attempt) returns (r: Result<Refreshed, Error>, again: Result<Refreshed, Error>)
      requires Valid() && HashesIdentify(env)
      requires KeepsBound(env, first) && KeepsBound(env, second) && Discovery(second) == Discovery(first)
      modifies this
      ensures Valid()
      ensures r.Ok? && again.Ok? ==>
                && Discovery(first).Some?
                && again.value.asked !! LiveKeys(env, Discovery(first).value) && again.value.facts == r.value.facts
    {
      r := Refresh(first);
      again := Refresh(second);
    }
  }
}
