/**
 * `cache_init`: checks the source, settles the cache path, takes the lock,
 * and then makes, loads and re-checks the cache. The part under the lock
 * (cache.py lines 291-310) is specified step by step by pure functions over
 * a `Run`: the value of the local `cache` (or the exception raised), the
 * tree, and the events logged since the lock was taken.
 */
module CacheInit {
  import opened Common
  import opened Paths
  import opened CacheData
  import opened Environment
  import opened Disk
  import opened CachePaths
  import opened Locking
  import opened CacheStore
  import opened Hashing

  /** The state under the lock: `cache` (`None` before it is set) or the exception, the tree, and the events. */
  datatype Run = Run(cache: Result<Option<Cache>>, nodes: Nodes, events: seq<Event>)

  /** The run before the first step. */
  function Start(nodes: Nodes): Run {
    Run(Ok(None), nodes, [])
  }

  /** `cache = make_cache(path, cache_path=cache_path)` */
  function Made(r: Run, now: int, env: Env, p: Path, cp: Path): Run {
    var s := MakeCacheSpec(r.nodes, now, env, p, None, cp);
    Run(if s.result.Ok? then Ok(Some(s.result.value)) else Err(s.result.error), s.nodes, r.events + s.events)
  }

  /** `cache = load_cache(cache_path)` */
  function Loaded(r: Run, env: Env, cp: Path): Run {
    var l := LoadCache(r.nodes, env, cp);
    Run(if l.Ok? then Ok(Some(l.value)) else Err(l.error), r.nodes, r.events)
  }

  /** Lines 291-294: with `force_cache` a cache is made first. */
  function ForceStep(r: Run, now: int, env: Env, p: Path, cp: Path, force: bool): Run {
    if r.cache.Err? || !force then r else Made(r, now, env, p, cp)
  }

  /** Lines 296-299: a cache is made when none is at the cache path, and loaded from there otherwise. */
  function EnsureStep(r: Run, now: int, env: Env, p: Path, cp: Path): Run {
    if r.cache.Err? then r
    else
      var probed := Run(r.cache, r.nodes, r.events + [Probed(Resolve(cp))]);
      if Resolve(cp) in r.nodes then Loaded(probed, env, cp) else Made(probed, now, env, p, cp)
  }

  /** Lines 301-302: with `check_cache_time`, a cache older than the source is made again. */
  function TimeStep(r: Run, now: int, env: Env, p: Path, cp: Path, checkTime: bool): Run {
    if r.cache.Err? || !checkTime || r.cache.value.None? then r
    else
      match CacheTimeValid(r.nodes, p, r.cache.value.value)
      case Err(e) => Run(Err(e), r.nodes, r.events)
      case Ok(valid) => if valid then r else Made(r, now, env, p, cp)
  }

  /** Lines 304-305: with `check_cache_hash`, a cache whose hash differs from the source's is made again. */
  function HashStep(r: Run, now: int, env: Env, p: Path, cp: Path, checkHash: bool): Run {
    if r.cache.Err? || !checkHash || r.cache.value.None? then r
    else
      match CacheHashValid(r.nodes, env, p, r.cache.value.value)
      case Err(e) => Run(Err(e), r.nodes, r.events)
      case Ok(valid) => if valid then r else Made(r, now, env, p, cp)
  }

  /** Lines 308-309: a cache still unset is loaded. */
  function FinalStep(r: Run, env: Env, cp: Path): Run {
    if r.cache.Err? || r.cache.value.Some? then r else Loaded(r, env, cp)
  }

  /** Lines 291-309: everything `cache_init` does while it holds the lock. */
  function Locked(nodes: Nodes, now: int, env: Env, p: Path, cp: Path, force: bool, checkTime: bool, checkHash: bool): Run {
    var forced := ForceStep(Start(nodes), now, env, p, cp, force);
    var ensured := EnsureStep(forced, now, env, p, cp);
    var timed := TimeStep(ensured, now, env, p, cp, checkTime);
    var hashed := HashStep(timed, now, env, p, cp, checkHash);
    FinalStep(hashed, env, cp)
  }

  /** `cache_init` returns `c` where the run ends with `cache == c`, and raises the run's exception. */
  predicate Returns(r: Result<Cache>, run: Run) {
    && (r.Ok? <==> run.cache.Ok?)
    && (r.Ok? ==> run.cache.value == Some(r.value))
    && (r.Err? ==> r.error == run.cache.error)
  }

  /**
   * Lines 276-286 on a tree: the cache path, or the exception raised, and
   * the tree left behind (the derived path's directories are made).
   */
  function SettleSpec(nodes: Nodes, now: int, env: Env, p: Path, cachePath: Option<Path>): (Result<Path>, Nodes)
    requires ValidPath(p)
  {
    if Resolve(p) !in nodes then (Err(FileNotFound(Posix(p))), nodes)
    else if cachePath.Some? then
      (if Resolve(cachePath.value) == Resolve(p) then Err(SameLocation(Posix(cachePath.value))) else Ok(cachePath.value), nodes)
    else DeriveSpec(nodes, now, env, p)
  }

  /** Lines 276-289: the cache path and the tree the lock is taken on, or the exception raised before. */
  function BeforeLock(nodes: Nodes, now: int, env: Env, p: Path, cachePath: Option<Path>): Result<(Path, Nodes)>
    requires ValidPath(p)
  {
    var s := SettleSpec(nodes, now, env, p, cachePath);
    if s.0.Err? then Err(s.0.error)
    else
      match LockDirSpec(s.1, now, s.0.value)
      case Err(e) => Err(e)
      case Ok(t) => Ok((s.0.value, t))
  }

  /**
   * `cache_init` on the tree `nodes` returns or raises `r` and leaves the
   * tree `after`: an exception before the lock leaves the settled tree, and
   * otherwise the steps run on the tree the lock was taken on.
   */
  predicate Initialized(nodes: Nodes, now: int, env: Env, p: Path, cachePath: Option<Path>,
                        force: bool, checkTime: bool, checkHash: bool, r: Result<Cache>, after: Nodes)
    requires ValidPath(p)
  {
    match BeforeLock(nodes, now, env, p, cachePath)
    case Err(e) => r == Err(e) && after == SettleSpec(nodes, now, env, p, cachePath).1
    case Ok(at) =>
      var run := Locked(at.1, now, env, p, at.0, force, checkTime, checkHash);
      Returns(r, run) && after == run.nodes
  }

  /** A raised exception ends the run: the later steps change nothing. */
  lemma ErrorStops(r: Run, now: int, env: Env, p: Path, cp: Path, checkTime: bool, checkHash: bool)
    requires r.cache.Err?
    ensures EnsureStep(r, now, env, p, cp) == r
    ensures TimeStep(r, now, env, p, cp, checkTime) == r
    ensures HashStep(r, now, env, p, cp, checkHash) == r
    ensures FinalStep(r, env, cp) == r
  {
  }

  /** Two trees that agree everywhere except, perhaps, at `k`. */
  ghost predicate SameExcept(a: Nodes, b: Nodes, k: Path) {
    forall j :: j != k ==> (j in a <==> j in b) && (j in a ==> a[j] == b[j])
  }

  /** `make_cache` touches nothing but the cache file. */
  lemma MadeSameExcept(r: Run, now: int, env: Env, p: Path, cp: Path)
    ensures SameExcept(r.nodes, Made(r, now, env, p, cp).nodes, Resolve(cp))
  {
    var s := MakeCacheSpec(r.nodes, now, env, p, None, cp);
    assert s.nodes == r.nodes || exists b :: s.nodes == r.nodes[Resolve(cp) := File(b, now)];
  }

  /** Agreement outside `k` carries from one step to the next. */
  lemma SameExceptTrans(a: Nodes, b: Nodes, c: Nodes, k: Path)
    requires SameExcept(a, b, k) && SameExcept(b, c, k)
    ensures SameExcept(a, c, k)
  {
  }

  /** The first two steps under the lock leave all but the cache file as they found it. */
  lemma EarlyStepsSameExcept(r: Run, now: int, env: Env, p: Path, cp: Path, force: bool)
    ensures SameExcept(r.nodes, ForceStep(r, now, env, p, cp, force).nodes, Resolve(cp))
    ensures SameExcept(r.nodes, EnsureStep(r, now, env, p, cp).nodes, Resolve(cp))
  {
    MadeSameExcept(r, now, env, p, cp);
    MadeSameExcept(Run(r.cache, r.nodes, r.events + [Probed(Resolve(cp))]), now, env, p, cp);
  }

  /** The checks leave all but the cache file as they found it. */
  lemma CheckStepsSameExcept(r: Run, now: int, env: Env, p: Path, cp: Path, checkTime: bool, checkHash: bool)
    ensures SameExcept(r.nodes, TimeStep(r, now, env, p, cp, checkTime).nodes, Resolve(cp))
    ensures SameExcept(r.nodes, HashStep(r, now, env, p, cp, checkHash).nodes, Resolve(cp))
  {
    MadeSameExcept(r, now, env, p, cp);
  }

  /** While it holds the lock `cache_init` writes the cache file and nothing else. */
  lemma OnlyCacheFileChanges(nodes: Nodes, now: int, env: Env, p: Path, cp: Path, force: bool, checkTime: bool, checkHash: bool)
    ensures SameExcept(nodes, Locked(nodes, now, env, p, cp, force, checkTime, checkHash).nodes, Resolve(cp))
  {
    var forced := ForceStep(Start(nodes), now, env, p, cp, force);
    var ensured := EnsureStep(forced, now, env, p, cp);
    var timed := TimeStep(ensured, now, env, p, cp, checkTime);
    var hashed := HashStep(timed, now, env, p, cp, checkHash);
    EarlyStepsSameExcept(Start(nodes), now, env, p, cp, force);
    EarlyStepsSameExcept(forced, now, env, p, cp, force);
    CheckStepsSameExcept(ensured, now, env, p, cp, checkTime, checkHash);
    CheckStepsSameExcept(timed, now, env, p, cp, checkTime, checkHash);
    SameExceptTrans(nodes, forced.nodes, ensured.nodes, Resolve(cp));
    SameExceptTrans(nodes, ensured.nodes, timed.nodes, Resolve(cp));
    SameExceptTrans(nodes, timed.nodes, hashed.nodes, Resolve(cp));
  }

  /** After lines 296-299 the cache is set unless an exception was raised, and the checks keep it set. */
  lemma CacheIsSet(r: Run, now: int, env: Env, p: Path, cp: Path, checkTime: bool, checkHash: bool)
    ensures EnsureStep(r, now, env, p, cp).cache.Ok? ==> EnsureStep(r, now, env, p, cp).cache.value.Some?
    ensures r.cache.Ok? && r.cache.value.Some? && TimeStep(r, now, env, p, cp, checkTime).cache.Ok? ==>
              TimeStep(r, now, env, p, cp, checkTime).cache.value.Some?
    ensures r.cache.Ok? && r.cache.value.Some? && HashStep(r, now, env, p, cp, checkHash).cache.Ok? ==>
              HashStep(r, now, env, p, cp, checkHash).cache.value.Some?
  {
  }

  /** The final load (lines 308-309) never runs: `cache_init` returns the cache the checks settled on. */
  lemma FinalLoadIsDead(nodes: Nodes, now: int, env: Env, p: Path, cp: Path, force: bool, checkTime: bool, checkHash: bool)
    ensures Locked(nodes, now, env, p, cp, force, checkTime, checkHash) ==
            HashStep(TimeStep(EnsureStep(ForceStep(Start(nodes), now, env, p, cp, force), now, env, p, cp), now, env, p, cp, checkTime), now, env, p, cp, checkHash)
    ensures Locked(nodes, now, env, p, cp, force, checkTime, checkHash).cache.Ok? ==>
            Locked(nodes, now, env, p, cp, force, checkTime, checkHash).cache.value.Some?
  {
    var forced := ForceStep(Start(nodes), now, env, p, cp, force);
    var ensured := EnsureStep(forced, now, env, p, cp);
    var timed := TimeStep(ensured, now, env, p, cp, checkTime);
    CacheIsSet(forced, now, env, p, cp, checkTime, checkHash);
    CacheIsSet(ensured, now, env, p, cp, checkTime, checkHash);
    CacheIsSet(timed, now, env, p, cp, checkTime, checkHash);
  }

  /** With no flags and a cache file present, `cache_init` only probes and loads it. */
  lemma ExistingCacheIsLoaded(nodes: Nodes, now: int, env: Env, p: Path, cp: Path)
    requires Resolve(cp) in nodes
    ensures Returns(LoadCache(nodes, env, cp), Locked(nodes, now, env, p, cp, false, false, false))
    ensures Locked(nodes, now, env, p, cp, false, false, false).nodes == nodes
    ensures Locked(nodes, now, env, p, cp, false, false, false).events == [Probed(Resolve(cp))]
  {
  }

  /** Outside the cache file, a write leaves the source file's tests as they were. */
  lemma MadeKeepsSource(nodes: Nodes, now: int, env: Env, p: Path, cp: Path, c: Cache)
    requires Resolve(cp) != Resolve(p)
    ensures CacheTimeValid(MakeCacheSpec(nodes, now, env, p, None, cp).nodes, p, c) == CacheTimeValid(nodes, p, c)
    ensures CacheHashValid(MakeCacheSpec(nodes, now, env, p, None, cp).nodes, env, p, c) == CacheHashValid(nodes, env, p, c)
  {
    MadeSameExcept(Start(nodes), now, env, p, cp);
    var after := MakeCacheSpec(nodes, now, env, p, None, cp).nodes;
    var k := Resolve(p);
    assert (k in nodes <==> k in after) && (k in nodes ==> nodes[k] == after[k]);
    if k !in nodes && Parent(k) != Resolve(cp) {
      assert (Parent(k) in nodes <==> Parent(k) in after) && (Parent(k) in nodes ==> nodes[Parent(k)] == after[Parent(k)]);
    }
  }

  /** A cache just made from the source passes both checks, since the write does not touch the source. */
  lemma MadeIsValid(nodes: Nodes, now: int, env: Env, p: Path, cp: Path)
    requires Resolve(cp) != Resolve(p)
    requires MakeCacheSpec(nodes, now, env, p, None, cp).result.Ok?
    ensures CacheTimeValid(MakeCacheSpec(nodes, now, env, p, None, cp).nodes, p, MakeCacheSpec(nodes, now, env, p, None, cp).result.value) == Ok(true)
    ensures CacheHashValid(MakeCacheSpec(nodes, now, env, p, None, cp).nodes, env, p, MakeCacheSpec(nodes, now, env, p, None, cp).result.value) == Ok(true)
  {
    MadeKeepsSource(nodes, now, env, p, cp, MakeCacheSpec(nodes, now, env, p, None, cp).result.value);
    GeneratedIsValid(nodes, env, p);
  }

  /** A cache that passes both checks is kept by lines 301-305. */
  lemma ValidChecksPass(r: Run, now: int, env: Env, p: Path, cp: Path, checkTime: bool, checkHash: bool)
    requires r.cache.Ok? && r.cache.value.Some?
    requires CacheTimeValid(r.nodes, p, r.cache.value.value) == Ok(true)
    requires CacheHashValid(r.nodes, env, p, r.cache.value.value) == Ok(true)
    ensures TimeStep(r, now, env, p, cp, checkTime) == r
    ensures HashStep(r, now, env, p, cp, checkHash) == r
  {
  }

  /**
   * With no cache file, `cache_init` makes one once, whatever checks are
   * asked for: the new cache describes the source as it is.
   */
  lemma MissingCacheIsMade(nodes: Nodes, now: int, env: Env, p: Path, cp: Path, checkTime: bool, checkHash: bool)
    requires Resolve(cp) !in nodes && Resolve(cp) != Resolve(p)
    ensures Returns(MakeCacheSpec(nodes, now, env, p, None, cp).result, Locked(nodes, now, env, p, cp, false, checkTime, checkHash))
    ensures Locked(nodes, now, env, p, cp, false, checkTime, checkHash).nodes == MakeCacheSpec(nodes, now, env, p, None, cp).nodes
    ensures Locked(nodes, now, env, p, cp, false, checkTime, checkHash).events ==
            [Probed(Resolve(cp))] + MakeCacheSpec(nodes, now, env, p, None, cp).events
  {
    var probed := Run(Ok(None), nodes, [Probed(Resolve(cp))]);
    var ensured := Made(probed, now, env, p, cp);
    assert EnsureStep(Start(nodes), now, env, p, cp) == ensured;
    if ensured.cache.Ok? {
      MadeIsValid(nodes, now, env, p, cp);
      ValidChecksPass(ensured, now, env, p, cp, checkTime, checkHash);
    } else {
      ErrorStops(ensured, now, env, p, cp, checkTime, checkHash);
    }
  }

  /** A cache just written is found at the cache path and read back as it was made. */
  lemma ForcedCacheIsFound(nodes: Nodes, now: int, env: Env, p: Path, cp: Path)
    requires Wellformed(nodes) && ValidPath(cp) && DocRoundTrip(env)
    requires Made(Start(nodes), now, env, p, cp).cache.Ok?
    ensures EnsureStep(Made(Start(nodes), now, env, p, cp), now, env, p, cp) ==
            Run(Made(Start(nodes), now, env, p, cp).cache, Made(Start(nodes), now, env, p, cp).nodes,
                Made(Start(nodes), now, env, p, cp).events + [Probed(Resolve(cp))])
  {
    MakeCacheWrites(nodes, now, env, p, None, cp);
    LoadMadeCache(nodes, now, env, p, None, cp);
  }

  /**
   * With `force_cache`, the cache is made first and, once written, is found
   * and read back as it was made; the checks then keep it.
   */
  lemma ForcedCacheIsFresh(nodes: Nodes, now: int, env: Env, p: Path, cp: Path, checkTime: bool, checkHash: bool)
    requires Wellformed(nodes) && ValidPath(cp) && DocRoundTrip(env) && Resolve(cp) != Resolve(p)
    ensures Returns(MakeCacheSpec(nodes, now, env, p, None, cp).result, Locked(nodes, now, env, p, cp, true, checkTime, checkHash))
    ensures Locked(nodes, now, env, p, cp, true, checkTime, checkHash).nodes == MakeCacheSpec(nodes, now, env, p, None, cp).nodes
    ensures MakeCacheSpec(nodes, now, env, p, None, cp).result.Ok? ==>
              Locked(nodes, now, env, p, cp, true, checkTime, checkHash).events ==
              MakeCacheSpec(nodes, now, env, p, None, cp).events + [Probed(Resolve(cp))]
    ensures MakeCacheSpec(nodes, now, env, p, None, cp).result.Err? ==>
              Locked(nodes, now, env, p, cp, true, checkTime, checkHash).events == MakeCacheSpec(nodes, now, env, p, None, cp).events
  {
    var forced := Made(Start(nodes), now, env, p, cp);
    var ensured := EnsureStep(forced, now, env, p, cp);
    if forced.cache.Ok? {
      ForcedCacheIsFound(nodes, now, env, p, cp);
      MadeIsValid(nodes, now, env, p, cp);
      ValidChecksPass(ensured, now, env, p, cp, checkTime, checkHash);
    } else {
      ErrorStops(forced, now, env, p, cp, checkTime, checkHash);
    }
  }

  /**
   * With `check_cache_time`, a readable cache is kept when it records a
   * time no older than the source's, and is made again otherwise.
   */
  lemma TimeCheckRemakes(nodes: Nodes, now: int, env: Env, p: Path, cp: Path, c: Cache)
    requires Resolve(cp) in nodes && LoadCache(nodes, env, cp) == Ok(c) && Resolve(p) in nodes
    ensures c.meta.mtime >= nodes[Resolve(p)].mtime ==>
              Locked(nodes, now, env, p, cp, false, true, false) == Run(Ok(Some(c)), nodes, [Probed(Resolve(cp))])
    ensures c.meta.mtime < nodes[Resolve(p)].mtime ==>
              && Returns(MakeCacheSpec(nodes, now, env, p, None, cp).result, Locked(nodes, now, env, p, cp, false, true, false))
              && Locked(nodes, now, env, p, cp, false, true, false).nodes == MakeCacheSpec(nodes, now, env, p, None, cp).nodes
              && Locked(nodes, now, env, p, cp, false, true, false).events ==
                 [Probed(Resolve(cp))] + MakeCacheSpec(nodes, now, env, p, None, cp).events
  {
    var ensured := Run(Ok(Some(c)), nodes, [Probed(Resolve(cp))]);
    assert EnsureStep(Start(nodes), now, env, p, cp) == ensured;
    var timed := TimeStep(ensured, now, env, p, cp, true);
    if timed.cache.Err? {
      ErrorStops(timed, now, env, p, cp, false, false);
    }
  }

  /**
   * With `check_cache_hash`, a readable cache is kept when it records the
   * token of the source's content, and is made again otherwise.
   */
  lemma HashCheckRemakes(nodes: Nodes, now: int, env: Env, p: Path, cp: Path, c: Cache)
    requires Resolve(cp) in nodes && LoadCache(nodes, env, cp) == Ok(c) && IsFile(nodes, Resolve(p))
    ensures c.meta.hash == ContentToken(env.sha, nodes[Resolve(p)].content) ==>
              Locked(nodes, now, env, p, cp, false, false, true) == Run(Ok(Some(c)), nodes, [Probed(Resolve(cp))])
    ensures c.meta.hash != ContentToken(env.sha, nodes[Resolve(p)].content) ==>
              && Returns(MakeCacheSpec(nodes, now, env, p, None, cp).result, Locked(nodes, now, env, p, cp, false, false, true))
              && Locked(nodes, now, env, p, cp, false, false, true).nodes == MakeCacheSpec(nodes, now, env, p, None, cp).nodes
              && Locked(nodes, now, env, p, cp, false, false, true).events ==
                 [Probed(Resolve(cp))] + MakeCacheSpec(nodes, now, env, p, None, cp).events
  {
    var ensured := Run(Ok(Some(c)), nodes, [Probed(Resolve(cp))]);
    assert EnsureStep(Start(nodes), now, env, p, cp) == ensured;
    var hashed := HashStep(ensured, now, env, p, cp, true);
    if hashed.cache.Err? {
      ErrorStops(hashed, now, env, p, cp, false, false);
    }
  }

  /* ---------------- `cache_init` from the caller's tree ---------------- */

  /**
   * Before the lock: the source exists; the cache path is the given one,
   * which is not the source, or the derived one; and the tree the lock is
   * taken on is well formed and keeps every entry of the caller's tree.
   */
  lemma BeforeLockFacts(nodes: Nodes, now: int, env: Env, p: Path, cachePath: Option<Path>)
    requires Wellformed(nodes) && ValidPath(p) && ValidPath(env.home)
    requires cachePath.Some? ==> ValidPath(cachePath.value)
    ensures BeforeLock(nodes, now, env, p, cachePath).Ok? ==>
              && Resolve(p) in nodes
              && ValidPath(BeforeLock(nodes, now, env, p, cachePath).value.0)
              && (cachePath.Some? ==> BeforeLock(nodes, now, env, p, cachePath).value.0 == cachePath.value
                                      && Resolve(cachePath.value) != Resolve(p))
              && (cachePath.None? ==> CachePathFor(env, p) == Ok(BeforeLock(nodes, now, env, p, cachePath).value.0))
              && Wellformed(BeforeLock(nodes, now, env, p, cachePath).value.1)
              && Extends(nodes, BeforeLock(nodes, now, env, p, cachePath).value.1)
  {
    var s := SettleSpec(nodes, now, env, p, cachePath);
    if BeforeLock(nodes, now, env, p, cachePath).Ok? {
      if cachePath.None? {
        DeriveReady(nodes, now, env, p);
        CachePathValid(env, p);
      }
      LockDirFacts(s.1, now, s.0.value);
      ExtendsTrans(nodes, s.1, LockDirSpec(s.1, now, s.0.value).value);
    }
  }

  /** A tree that keeps the entry of the source (and of the cache file) reads them as the old tree does. */
  lemma ExtendedReadsAlike(nodes: Nodes, after: Nodes, env: Env, p: Path, cp: Path, c: Cache)
    requires Extends(nodes, after) && Resolve(p) in nodes
    ensures GenerateSpec(after, env, p) == GenerateSpec(nodes, env, p)
    ensures CacheTimeValid(after, p, c) == CacheTimeValid(nodes, p, c)
    ensures CacheHashValid(after, env, p, c) == CacheHashValid(nodes, env, p, c)
    ensures Resolve(cp) in nodes ==> LoadCache(after, env, cp) == LoadCache(nodes, env, cp)
  {
  }

  /**
   * `cache_init` with no flags, where a file is already at the cache path:
   * it returns that file as `load_cache` reads it, and the tree gains only
   * what was made before the lock.
   */
  lemma InitLoadsExisting(nodes: Nodes, now: int, env: Env, p: Path, cachePath: Option<Path>, r: Result<Cache>, after: Nodes)
    requires Wellformed(nodes) && ValidPath(p) && ValidPath(env.home)
    requires cachePath.Some? ==> ValidPath(cachePath.value)
    requires Initialized(nodes, now, env, p, cachePath, false, false, false, r, after)
    requires BeforeLock(nodes, now, env, p, cachePath).Ok? && Resolve(BeforeLock(nodes, now, env, p, cachePath).value.0) in nodes
    ensures r == LoadCache(nodes, env, BeforeLock(nodes, now, env, p, cachePath).value.0)
    ensures after == BeforeLock(nodes, now, env, p, cachePath).value.1
  {
    var at := BeforeLock(nodes, now, env, p, cachePath).value;
    BeforeLockFacts(nodes, now, env, p, cachePath);
    ExtendedReadsAlike(nodes, at.1, env, p, at.0, Cache(Meta([], 0, []), map[]));
    ExistingCacheIsLoaded(at.1, now, env, p, at.0);
  }

  /**
   * `cache_init` without `force_cache`, where nothing is at the cache path
   * when the lock is taken: the cache is generated from the source as the
   * caller saw it and saved once, whatever checks are asked for.
   */
  lemma InitMakesMissing(nodes: Nodes, now: int, env: Env, p: Path, cachePath: Option<Path>,
                         checkTime: bool, checkHash: bool, r: Result<Cache>, after: Nodes)
    requires Wellformed(nodes) && ValidPath(p) && ValidPath(env.home)
    requires cachePath.Some? ==> ValidPath(cachePath.value)
    requires Initialized(nodes, now, env, p, cachePath, false, checkTime, checkHash, r, after)
    requires BeforeLock(nodes, now, env, p, cachePath).Ok?
    requires Resolve(BeforeLock(nodes, now, env, p, cachePath).value.0) !in BeforeLock(nodes, now, env, p, cachePath).value.1
    requires Resolve(BeforeLock(nodes, now, env, p, cachePath).value.0) != Resolve(p)
    ensures r.Ok? ==> GenerateSpec(nodes, env, p) == Ok(r.value)
    ensures var at := BeforeLock(nodes, now, env, p, cachePath).value;
            && (r.Ok? <==> MakeCacheSpec(at.1, now, env, p, None, at.0).result.Ok?)
            && after == MakeCacheSpec(at.1, now, env, p, None, at.0).nodes
  {
    var at := BeforeLock(nodes, now, env, p, cachePath).value;
    BeforeLockFacts(nodes, now, env, p, cachePath);
    ExtendedReadsAlike(nodes, at.1, env, p, at.0, Cache(Meta([], 0, []), map[]));
    MissingCacheIsMade(at.1, now, env, p, at.0, checkTime, checkHash);
    MakeCacheSucceeds(at.1, now, env, p, None, at.0);
  }

  /**
   * `cache_init` with `force_cache`: when `json.load` reads back what
   * `json.dump` wrote, the result is the cache generated from the source as
   * the caller saw it, and the tree is the one saving it leaves.
   */
  lemma InitForced(nodes: Nodes, now: int, env: Env, p: Path, cachePath: Option<Path>,
                   checkTime: bool, checkHash: bool, r: Result<Cache>, after: Nodes)
    requires Wellformed(nodes) && ValidPath(p) && ValidPath(env.home) && DocRoundTrip(env)
    requires cachePath.Some? ==> ValidPath(cachePath.value)
    requires Initialized(nodes, now, env, p, cachePath, true, checkTime, checkHash, r, after)
    requires BeforeLock(nodes, now, env, p, cachePath).Ok?
    requires Resolve(BeforeLock(nodes, now, env, p, cachePath).value.0) != Resolve(p)
    ensures r.Ok? ==> GenerateSpec(nodes, env, p) == Ok(r.value)
    ensures var at := BeforeLock(nodes, now, env, p, cachePath).value;
            && (r.Ok? <==> MakeCacheSpec(at.1, now, env, p, None, at.0).result.Ok?)
            && after == MakeCacheSpec(at.1, now, env, p, None, at.0).nodes
  {
    var at := BeforeLock(nodes, now, env, p, cachePath).value;
    BeforeLockFacts(nodes, now, env, p, cachePath);
    ExtendedReadsAlike(nodes, at.1, env, p, at.0, Cache(Meta([], 0, []), map[]));
    ForcedCacheIsFresh(at.1, now, env, p, at.0, checkTime, checkHash);
    MakeCacheSucceeds(at.1, now, env, p, None, at.0);
  }

  /**
   * `cache_init` with `check_cache_time` only, where a readable cache `c` is
   * already at the cache path: `c` is returned when it records a time no
   * older than the source's, and the cache is made again otherwise.
   */
  lemma InitTimeCheck(nodes: Nodes, now: int, env: Env, p: Path, cachePath: Option<Path>, c: Cache, r: Result<Cache>, after: Nodes)
    requires Wellformed(nodes) && ValidPath(p) && ValidPath(env.home)
    requires cachePath.Some? ==> ValidPath(cachePath.value)
    requires Initialized(nodes, now, env, p, cachePath, false, true, false, r, after)
    requires BeforeLock(nodes, now, env, p, cachePath).Ok?
    requires Resolve(BeforeLock(nodes, now, env, p, cachePath).value.0) in nodes
    requires LoadCache(nodes, env, BeforeLock(nodes, now, env, p, cachePath).value.0) == Ok(c)
    ensures c.meta.mtime >= nodes[Resolve(p)].mtime ==> r == Ok(c) && after == BeforeLock(nodes, now, env, p, cachePath).value.1
    ensures var at := BeforeLock(nodes, now, env, p, cachePath).value;
            c.meta.mtime < nodes[Resolve(p)].mtime ==>
              && (r.Ok? <==> MakeCacheSpec(at.1, now, env, p, None, at.0).result.Ok?)
              && (r.Ok? ==> GenerateSpec(nodes, env, p) == Ok(r.value))
              && after == MakeCacheSpec(at.1, now, env, p, None, at.0).nodes
  {
    var at := BeforeLock(nodes, now, env, p, cachePath).value;
    BeforeLockFacts(nodes, now, env, p, cachePath);
    ExtendedReadsAlike(nodes, at.1, env, p, at.0, c);
    TimeCheckRemakes(at.1, now, env, p, at.0, c);
    MakeCacheSucceeds(at.1, now, env, p, None, at.0);
  }

  /**
   * `cache_init` with `check_cache_hash` only, where a readable cache `c` is
   * already at the cache path of a regular source file: `c` is returned
   * when it records the token of the source's content, and the cache is
   * made again otherwise.
   */
  lemma InitHashCheck(nodes: Nodes, now: int, env: Env, p: Path, cachePath: Option<Path>, c: Cache, r: Result<Cache>, after: Nodes)
    requires Wellformed(nodes) && ValidPath(p) && ValidPath(env.home) && IsFile(nodes, Resolve(p))
    requires cachePath.Some? ==> ValidPath(cachePath.value)
    requires Initialized(nodes, now, env, p, cachePath, false, false, true, r, after)
    requires BeforeLock(nodes, now, env, p, cachePath).Ok?
    requires Resolve(BeforeLock(nodes, now, env, p, cachePath).value.0) in nodes
    requires LoadCache(nodes, env, BeforeLock(nodes, now, env, p, cachePath).value.0) == Ok(c)
    ensures c.meta.hash == ContentToken(env.sha, nodes[Resolve(p)].content) ==>
              r == Ok(c) && after == BeforeLock(nodes, now, env, p, cachePath).value.1
    ensures var at := BeforeLock(nodes, now, env, p, cachePath).value;
            c.meta.hash != ContentToken(env.sha, nodes[Resolve(p)].content) ==>
              && (r.Ok? <==> MakeCacheSpec(at.1, now, env, p, None, at.0).result.Ok?)
              && (r.Ok? ==> GenerateSpec(nodes, env, p) == Ok(r.value))
              && after == MakeCacheSpec(at.1, now, env, p, None, at.0).nodes
  {
    var at := BeforeLock(nodes, now, env, p, cachePath).value;
    BeforeLockFacts(nodes, now, env, p, cachePath);
    ExtendedReadsAlike(nodes, at.1, env, p, at.0, c);
    HashCheckRemakes(at.1, now, env, p, at.0, c);
    MakeCacheSucceeds(at.1, now, env, p, None, at.0);
  }

  /* ---------------- the methods ---------------- */

  /** `cache = make_cache(path, cache_path=cache_path)` on the disk. */
  method MakeStep(fs: FileSystem, env: Env, p: Path, cp: Path, ghost run: Run, ghost base: seq<Event>)
      returns (cache: Result<Option<Cache>>)
    requires fs.Valid() && ValidPath(cp) && fs.nodes == run.nodes && fs.log == base + run.events
    modifies fs`nodes, fs`log
    ensures fs.Valid()
    ensures cache == Made(run, fs.now, env, p, cp).cache
    ensures fs.nodes == Made(run, fs.now, env, p, cp).nodes
    ensures fs.log == base + Made(run, fs.now, env, p, cp).events
  {
    var made := MakeCacheAt(fs, env, p, None, cp);
    cache := if made.Ok? then Ok(Some(made.value)) else Err(made.error);
  }

  /** Lines 291-294. */
  method ForcePhase(fs: FileSystem, env: Env, p: Path, cp: Path, force: bool, ghost run: Run, ghost base: seq<Event>)
      returns (cache: Result<Option<Cache>>)
    requires fs.Valid() && ValidPath(cp) && run.cache == Ok(None) && fs.nodes == run.nodes && fs.log == base + run.events
    modifies fs`nodes, fs`log
    ensures fs.Valid()
    ensures cache == ForceStep(run, fs.now, env, p, cp, force).cache
    ensures fs.nodes == ForceStep(run, fs.now, env, p, cp, force).nodes
    ensures fs.log == base + ForceStep(run, fs.now, env, p, cp, force).events
  {
    if force {
      cache := MakeStep(fs, env, p, cp, run, base);
    } else {
      cache := Ok(None);
    }
  }

  /** Lines 296-299. */
  method EnsurePhase(fs: FileSystem, env: Env, p: Path, cp: Path, cache0: Option<Cache>, ghost run: Run, ghost base: seq<Event>)
      returns (cache: Result<Option<Cache>>)
    requires fs.Valid() && ValidPath(cp) && run.cache == Ok(cache0) && fs.nodes == run.nodes && fs.log == base + run.events
    modifies fs`nodes, fs`log
    ensures fs.Valid()
    ensures cache == EnsureStep(run, fs.now, env, p, cp).cache
    ensures fs.nodes == EnsureStep(run, fs.now, env, p, cp).nodes
    ensures fs.log == base + EnsureStep(run, fs.now, env, p, cp).events
  {
    var there := CacheExists(fs, env, p, Some(cp));
    ghost var probed := Run(run.cache, run.nodes, run.events + [Probed(Resolve(cp))]);
    assert fs.log == base + probed.events;
    if !there.value {
      cache := MakeStep(fs, env, p, cp, probed, base);
    } else {
      var loaded := LoadCacheFile(fs, env, cp);
      cache := if loaded.Ok? then Ok(Some(loaded.value)) else Err(loaded.error);
    }
  }

  /** Lines 301-302. */
  method TimePhase(fs: FileSystem, env: Env, p: Path, cp: Path, checkTime: bool, cache0: Option<Cache>, ghost run: Run, ghost base: seq<Event>)
      returns (cache: Result<Option<Cache>>)
    requires fs.Valid() && ValidPath(cp) && run.cache == Ok(cache0) && fs.nodes == run.nodes && fs.log == base + run.events
    modifies fs`nodes, fs`log
    ensures fs.Valid()
    ensures cache == TimeStep(run, fs.now, env, p, cp, checkTime).cache
    ensures fs.nodes == TimeStep(run, fs.now, env, p, cp, checkTime).nodes
    ensures fs.log == base + TimeStep(run, fs.now, env, p, cp, checkTime).events
  {
    cache := Ok(cache0);
    if checkTime && cache0.Some? {
      var valid := CacheTimeValid(fs.nodes, p, cache0.value);
      if valid.Err? {
        cache := Err(valid.error);
      } else if !valid.value {
        cache := MakeStep(fs, env, p, cp, run, base);
      }
    }
  }

  /** Lines 304-305. */
  method HashPhase(fs: FileSystem, env: Env, p: Path, cp: Path, checkHash: bool, cache0: Option<Cache>, ghost run: Run, ghost base: seq<Event>)
      returns (cache: Result<Option<Cache>>)
    requires fs.Valid() && ValidPath(cp) && run.cache == Ok(cache0) && fs.nodes == run.nodes && fs.log == base + run.events
    modifies fs`nodes, fs`log
    ensures fs.Valid()
    ensures cache == HashStep(run, fs.now, env, p, cp, checkHash).cache
    ensures fs.nodes == HashStep(run, fs.now, env, p, cp, checkHash).nodes
    ensures fs.log == base + HashStep(run, fs.now, env, p, cp, checkHash).events
  {
    cache := Ok(cache0);
    if checkHash && cache0.Some? {
      var valid := CheckCacheHash(fs, env, p, cache0.value);
      if valid.Err? {
        cache := Err(valid.error);
      } else if !valid.value {
        cache := MakeStep(fs, env, p, cp, run, base);
      }
    }
  }

  /** Lines 291-310: the steps under the lock, in order; an exception ends them. */
  method LockedSteps(fs: FileSystem, env: Env, p: Path, cp: Path, force: bool, checkTime: bool, checkHash: bool)
      returns (r: Result<Cache>)
    requires fs.Valid() && ValidPath(cp)
    modifies fs`nodes, fs`log
    ensures fs.Valid()
    ensures Returns(r, Locked(old(fs.nodes), fs.now, env, p, cp, force, checkTime, checkHash))
    ensures fs.nodes == Locked(old(fs.nodes), fs.now, env, p, cp, force, checkTime, checkHash).nodes
    ensures fs.log == old(fs.log) + Locked(old(fs.nodes), fs.now, env, p, cp, force, checkTime, checkHash).events
  {
    ghost var base := fs.log;
    ghost var run := Start(fs.nodes);
    assert fs.log == base + run.events;
    var cache := ForcePhase(fs, env, p, cp, force, run, base);
    run := ForceStep(run, fs.now, env, p, cp, force);
    if cache.Err? {
      ErrorStops(run, fs.now, env, p, cp, checkTime, checkHash);
      return Err(cache.error);
    }
    cache := EnsurePhase(fs, env, p, cp, cache.value, run, base);
    run := EnsureStep(run, fs.now, env, p, cp);
    if cache.Err? {
      ErrorStops(run, fs.now, env, p, cp, checkTime, checkHash);
      return Err(cache.error);
    }
    cache := TimePhase(fs, env, p, cp, checkTime, cache.value, run, base);
    run := TimeStep(run, fs.now, env, p, cp, checkTime);
    if cache.Err? {
      ErrorStops(run, fs.now, env, p, cp, checkTime, checkHash);
      return Err(cache.error);
    }
    cache := HashPhase(fs, env, p, cp, checkHash, cache.value, run, base);
    run := HashStep(run, fs.now, env, p, cp, checkHash);
    if cache.Err? {
      ErrorStops(run, fs.now, env, p, cp, checkTime, checkHash);
      return Err(cache.error);
    }
    var c := cache.value;
    if c.None? {
      var loaded := LoadCacheFile(fs, env, cp);
      if loaded.Err? {
        return Err(loaded.error);
      }
      c := Some(loaded.value);
    }
    r := Ok(c.value);
  }

  /**
   * Lines 276-286: the source must exist, and the cache path is the given
   * one, which must not resolve to the source, or the derived one, whose
   * directories are made.
   */
  method SettleCachePath(fs: FileSystem, env: Env, p: Path, cachePath: Option<Path>) returns (r: Result<Path>)
    requires fs.Valid() && ValidPath(p) && ValidPath(env.home)
    requires cachePath.Some? ==> ValidPath(cachePath.value)
    modifies fs`nodes, fs`log
    ensures fs.Valid()
    ensures Resolve(p) !in old(fs.nodes) ==> r == Err(FileNotFound(Posix(p))) && fs.nodes == old(fs.nodes)
    ensures Resolve(p) in old(fs.nodes) && cachePath.Some? ==>
              && r == (if Resolve(cachePath.value) == Resolve(p) then Err(SameLocation(Posix(cachePath.value))) else Ok(cachePath.value))
              && fs.nodes == old(fs.nodes)
    ensures Resolve(p) in old(fs.nodes) && cachePath.None? ==>
              && r == DeriveSpec(old(fs.nodes), fs.now, env, p).0
              && fs.nodes == DeriveSpec(old(fs.nodes), fs.now, env, p).1
    ensures r.Ok? ==> ValidPath(r.value) && (cachePath.None? ==> CachePathFor(env, p) == r)
    ensures (r, fs.nodes) == SettleSpec(old(fs.nodes), fs.now, env, p, cachePath)
    ensures Extends(old(fs.nodes), fs.nodes)
    ensures OnlyProbesAndDirs(old(fs.log), fs.log)
  {
    ghost var log0 := fs.log;
    var found := fs.Exists(p);
    ProbesAndDirsStep(log0, log0, Probed(Resolve(p)));
    if !found {
      return Err(FileNotFound(Posix(p)));
    }
    if cachePath.None? {
      ghost var log1 := fs.log;
      r := FilepathToCachepath(fs, env, p);
      DirsMadeOnlyProbesAndDirs(log1, fs.log);
      ProbesAndDirsTrans(log0, log1, fs.log);
    } else if Resolve(cachePath.value) == Resolve(p) {
      r := Err(SameLocation(Posix(cachePath.value)));
    } else {
      r := Ok(cachePath.value);
    }
  }

  /**
   * Lines 288-312: takes the lock on `cp`, runs the steps under it, and gives
   * it back when they return. An exception leaves the lock held, as the
   * source has no `finally`. The ghost results name what the steps ran on:
   * `locked` says whether the lock was taken, `atLock` is the tree and
   * `beforeLock` the log at that moment, and `run` is the steps' run.
   */
  method LockAndRun(fs: FileSystem, env: Env, p: Path, cp: Path, force: bool, checkTime: bool, checkHash: bool)
      returns (r: Result<Cache>, ghost locked: bool, ghost atLock: Nodes, ghost beforeLock: seq<Event>, ghost run: Run)
    requires fs.Valid() && ValidPath(cp)
    modifies fs`nodes, fs`log
    ensures fs.Valid()
    ensures locked <==> LockDirSpec(old(fs.nodes), fs.now, cp).Ok?
    ensures !locked ==> r == Err(LockDirSpec(old(fs.nodes), fs.now, cp).error) && fs.nodes == old(fs.nodes)
                        && OnlyProbesAndDirs(old(fs.log), fs.log)
    ensures locked ==>
              && atLock == LockDirSpec(old(fs.nodes), fs.now, cp).value
              && run == Locked(atLock, fs.now, env, p, cp, force, checkTime, checkHash)
              && Wellformed(atLock) && Extends(old(fs.nodes), atLock)
              && OnlyProbesAndDirs(old(fs.log), beforeLock)
              && Returns(r, run) && fs.nodes == run.nodes
              && fs.log == beforeLock + [Acquired(LockPath(cp))] + run.events + (if r.Ok? then [Released(LockPath(cp))] else [])
  {
    locked, atLock, beforeLock, run := false, fs.nodes, fs.log, Start(fs.nodes);
    var lock := MakeLock(fs, cp);
    if lock.Err? {
      r := Err(lock.error);
      return;
    }
    beforeLock := fs.log;
    lock.value.Acquire(fs);
    locked, atLock := true, fs.nodes;
    run := Locked(atLock, fs.now, env, p, cp, force, checkTime, checkHash);
    r := LockedSteps(fs, env, p, cp, force, checkTime, checkHash);
    if r.Ok? {
      lock.value.Release(fs);
    }
  }

  /**
   * `cache_init`: settles the cache path (lines 276-286), then takes the lock
   * and runs the steps under it (lines 288-312). The ghost results name the
   * cache path `cp` the steps ran on, besides what `LockAndRun` names.
   */
  method CacheInitialize(fs: FileSystem, env: Env, p: Path, cachePath: Option<Path>, force: bool, checkTime: bool, checkHash: bool)
      returns (r: Result<Cache>, ghost cp: Path, ghost locked: bool, ghost atLock: Nodes, ghost beforeLock: seq<Event>, ghost run: Run)
    requires fs.Valid() && ValidPath(p) && ValidPath(env.home)
    requires cachePath.Some? ==> ValidPath(cachePath.value)
    modifies fs`nodes, fs`log
    ensures fs.Valid()
    ensures Resolve(p) !in old(fs.nodes) ==> r == Err(FileNotFound(Posix(p))) && fs.nodes == old(fs.nodes) && !locked
    ensures Resolve(p) in old(fs.nodes) && cachePath.Some? && Resolve(cachePath.value) == Resolve(p) ==>
              r == Err(SameLocation(Posix(cachePath.value))) && fs.nodes == old(fs.nodes) && !locked
    ensures Resolve(p) in old(fs.nodes) && cachePath.None? && CachePathFor(env, p).Err? ==>
              r == Err(UnknownDirMethod(env.dirMethod)) && fs.nodes == old(fs.nodes) && !locked
    ensures Initialized(old(fs.nodes), fs.now, env, p, cachePath, force, checkTime, checkHash, r, fs.nodes)
    ensures locked <==> BeforeLock(old(fs.nodes), fs.now, env, p, cachePath).Ok?
    ensures !locked ==> r.Err? && Extends(old(fs.nodes), fs.nodes) && OnlyProbesAndDirs(old(fs.log), fs.log)
    ensures locked ==>
              && (cp, atLock) == BeforeLock(old(fs.nodes), fs.now, env, p, cachePath).value
              && Resolve(p) in old(fs.nodes) && ValidPath(cp)
              && (cachePath.Some? ==> cp == cachePath.value && Resolve(cp) != Resolve(p))
              && (cachePath.None? ==> CachePathFor(env, p) == Ok(cp))
              && run == Locked(atLock, fs.now, env, p, cp, force, checkTime, checkHash)
              && Wellformed(atLock) && Extends(old(fs.nodes), atLock)
              && OnlyProbesAndDirs(old(fs.log), beforeLock)
              && Returns(r, run) && fs.nodes == run.nodes
              && fs.log == beforeLock + [Acquired(LockPath(cp))] + run.events + (if r.Ok? then [Released(LockPath(cp))] else [])
  {
    cp, locked, atLock, beforeLock, run := p, false, fs.nodes, fs.log, Start(fs.nodes);
    var settled := SettleCachePath(fs, env, p, cachePath);
    if settled.Err? {
      r := Err(settled.error);
      return;
    }
    var path := settled.value;
    cp := path;
    ghost var nodes1, log1 := fs.nodes, fs.log;
    r, locked, atLock, beforeLock, run := LockAndRun(fs, env, p, path, force, checkTime, checkHash);
    if locked {
      ExtendsTrans(old(fs.nodes), nodes1, atLock);
      ProbesAndDirsTrans(old(fs.log), log1, beforeLock);
    } else {
      ExtendsTrans(old(fs.nodes), nodes1, fs.nodes);
      ProbesAndDirsTrans(old(fs.log), log1, fs.log);
    }
  }
}
