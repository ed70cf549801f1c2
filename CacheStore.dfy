/**
 * Building, saving, loading and checking a cache (`generate_cache_data`,
 * `make_cache`, `load_cache`, `cache_exists`, `cache_time_valid`,
 * `cache_hash_valid`). Files are read through `FileSystem.Read`, which
 * changes nothing; only probes, directory making and writes go to the
 * event log.
 */
module CacheStore {
  import opened Common
  import opened Paths
  import opened Hashing
  import opened Scanner
  import opened CacheData
  import opened Environment
  import opened Disk
  import opened CachePaths

  /** What an operation on the disk returns, the tree after it, and the events it logs. */
  datatype Step<T> = Step(result: Result<T>, nodes: Nodes, events: seq<Event>)

  /* ---------------- `generate_cache_data` ---------------- */

  /** The cache of a source file at resolved path `k` with the given content and mtime. */
  function Generated(env: Env, k: Path, content: seq<Byte>, mtime: int): Cache {
    Cache(Meta(Posix(k), mtime, ContentToken(env.sha, content)), IndexMap(Offsets(content, 0, env.parse)))
  }

  /** `generate_cache_data`: `stat` first, then the file is opened to hash and to scan it. */
  function GenerateSpec(nodes: Nodes, env: Env, p: Path): Result<Cache> {
    var k := Resolve(p);
    match MtimeSpec(nodes, k)
    case Err(e) => Err(e)
    case Ok(mtime) =>
      match ReadSpec(nodes, k)
      case Err(e) => Err(e)
      case Ok(content) => Ok(Generated(env, k, content, mtime))
  }

  /**
   * A cache is generated exactly for a regular file, from its content and
   * mtime; a missing source raises `FileNotFoundError` and a directory
   * `IsADirectoryError`.
   */
  lemma GenerateSpecCases(nodes: Nodes, env: Env, p: Path)
    ensures GenerateSpec(nodes, env, p).Ok? <==> IsFile(nodes, Resolve(p))
    ensures IsFile(nodes, Resolve(p)) ==>
              GenerateSpec(nodes, env, p).value ==
              Generated(env, Resolve(p), nodes[Resolve(p)].content, nodes[Resolve(p)].mtime)
    ensures Resolve(p) !in nodes ==> GenerateSpec(nodes, env, p) == Err(FileNotFound(Posix(Resolve(p))))
    ensures IsDir(nodes, Resolve(p)) ==> GenerateSpec(nodes, env, p) == Err(IsADirectory(Posix(Resolve(p))))
  {
  }

  /**
   * What a generated cache says about its source: the resolved path, the
   * token of the content, one index per line that parses, and each offset
   * leads back to that record.
   */
  lemma GeneratedDescribesSource(env: Env, k: Path, content: seq<Byte>, mtime: int)
    ensures Generated(env, k, content, mtime).meta == Meta(Posix(k), mtime, ContentToken(env.sha, content))
    ensures forall i :: i in Generated(env, k, content, mtime).lines <==>
              0 <= i < |Parsed(LinesFrom(content, 0), env.parse)|
    ensures forall i :: 0 <= i < |Parsed(LinesFrom(content, 0), env.parse)| ==>
              && 0 <= Generated(env, k, content, mtime).lines[i] < |content|
              && env.parse(StripNewline(ReadLine(content, Generated(env, k, content, mtime).lines[i])))
                 == Some(Parsed(LinesFrom(content, 0), env.parse)[i])
  {
    ReadBackAtOffsets(content, 0, env.parse);
    OffsetsOrdered(content, 0, env.parse);
  }

  /** `generate_cache_data`: the metadata and the scanned line index of the source. */
  method GenerateCacheData(fs: FileSystem, env: Env, p: Path) returns (r: Result<Cache>)
    ensures r == GenerateSpec(fs.nodes, env, p)
  {
    var k := Resolve(p);
    var mtime := MtimeSpec(fs.nodes, k);
    if mtime.Err? {
      return Err(mtime.error);
    }
    var content := fs.Read(p);
    if content.Err? {
      return Err(content.error);
    }
    var hash := GetFileHash(content.value, env.sha);
    var lines := ScanLines(content.value, env.parse);
    r := Ok(Cache(Meta(Posix(k), mtime.value, hash), lines));
  }

  /* ---------------- `make_cache` and `load_cache` ---------------- */

  /**
   * `make_cache(path, cache_path=cp, cache=cache)`: the given cache, or one
   * generated from the source, saved with `json.dump` at `cp`.
   */
  function MakeCacheSpec(nodes: Nodes, now: int, env: Env, p: Path, cache: Option<Cache>, cp: Path): Step<Cache> {
    var made := if cache.Some? then Ok(cache.value) else GenerateSpec(nodes, env, p);
    if made.Err? then Step(Err(made.error), nodes, [])
    else
      var k := Resolve(cp);
      match WriteSpec(nodes, now, k, env.dumpDoc(Dump(made.value)))
      case Err(e) => Step(Err(e), nodes, [Wrote(k)])
      case Ok(written) => Step(made, written, [Wrote(k)])
  }

  /** `load_cache`: read the file, `json.load` it, convert the keys with `int()`. */
  function LoadCache(nodes: Nodes, env: Env, cp: Path): Result<Cache> {
    var k := Resolve(cp);
    match ReadSpec(nodes, k)
    case Err(e) => Err(e)
    case Ok(bytes) =>
      match env.loadDoc(bytes)
      case None => Err(Unreadable(Posix(k)))
      case Some(doc) => Load(doc)
  }

  /** `load_cache` on the disk: the cache file is read, then decoded. */
  method LoadCacheFile(fs: FileSystem, env: Env, cp: Path) returns (r: Result<Cache>)
    ensures !IsFile(fs.nodes, Resolve(cp)) ==> r.Err?
    ensures r == LoadCache(fs.nodes, env, cp)
  {
    var bytes := fs.Read(cp);
    if bytes.Err? {
      return Err(bytes.error);
    }
    match env.loadDoc(bytes.value)
    case None => r := Err(Unreadable(Posix(Resolve(cp))));
    case Some(doc) => r := Load(doc);
  }

  /**
   * `make_cache` succeeds exactly when there is a cache to save (given, or
   * a regular source file) and its file can be opened for writing; the
   * cache it returns is the one it was given or generated.
   */
  lemma MakeCacheSucceeds(nodes: Nodes, now: int, env: Env, p: Path, cache: Option<Cache>, cp: Path)
    requires Wellformed(nodes) && ValidPath(cp)
    ensures MakeCacheSpec(nodes, now, env, p, cache, cp).result.Ok? <==>
              (cache.Some? || IsFile(nodes, Resolve(p))) && !IsDir(nodes, Resolve(cp)) && IsDir(nodes, Parent(Resolve(cp)))
    ensures MakeCacheSpec(nodes, now, env, p, cache, cp).result.Ok? ==>
              MakeCacheSpec(nodes, now, env, p, cache, cp).result.value ==
              if cache.Some? then cache.value else GenerateSpec(nodes, env, p).value
  {
    GenerateSpecCases(nodes, env, p);
    if cache.Some? || IsFile(nodes, Resolve(p)) {
      var c := if cache.Some? then cache.value else GenerateSpec(nodes, env, p).value;
      WriteFacts(nodes, now, Resolve(cp), env.dumpDoc(Dump(c)));
    }
  }

  /**
   * After `make_cache` the cache file holds the dumped cache, nothing else
   * in the tree changes, and the tree stays well formed.
   */
  lemma MakeCacheWrites(nodes: Nodes, now: int, env: Env, p: Path, cache: Option<Cache>, cp: Path)
    requires Wellformed(nodes) && ValidPath(cp)
    requires MakeCacheSpec(nodes, now, env, p, cache, cp).result.Ok?
    ensures Wellformed(MakeCacheSpec(nodes, now, env, p, cache, cp).nodes)
    ensures MakeCacheSpec(nodes, now, env, p, cache, cp).nodes ==
              nodes[Resolve(cp) := File(env.dumpDoc(Dump(MakeCacheSpec(nodes, now, env, p, cache, cp).result.value)), now)]
  {
    var c := if cache.Some? then cache.value else GenerateSpec(nodes, env, p).value;
    WriteFacts(nodes, now, Resolve(cp), env.dumpDoc(Dump(c)));
  }

  /** With a `json` that reads back what it writes, loading a cache just made gives that cache. */
  lemma LoadMadeCache(nodes: Nodes, now: int, env: Env, p: Path, cache: Option<Cache>, cp: Path)
    requires Wellformed(nodes) && ValidPath(cp) && DocRoundTrip(env)
    requires MakeCacheSpec(nodes, now, env, p, cache, cp).result.Ok?
    ensures LoadCache(MakeCacheSpec(nodes, now, env, p, cache, cp).nodes, env, cp) ==
              MakeCacheSpec(nodes, now, env, p, cache, cp).result
  {
    var c := MakeCacheSpec(nodes, now, env, p, cache, cp).result.value;
    MakeCacheWrites(nodes, now, env, p, cache, cp);
    assert env.loadDoc(env.dumpDoc(Dump(c))) == Some(Dump(c));
    LoadDumpRoundTrip(c);
  }

  /** `make_cache(path, cache_path=cp, cache=cache)` with the cache path given, as `cache_init` calls it. */
  method MakeCacheAt(fs: FileSystem, env: Env, p: Path, cache: Option<Cache>, cp: Path) returns (r: Result<Cache>)
    requires fs.Valid() && ValidPath(cp)
    modifies fs`nodes, fs`log
    ensures fs.Valid()
    ensures r == MakeCacheSpec(old(fs.nodes), fs.now, env, p, cache, cp).result
    ensures fs.nodes == MakeCacheSpec(old(fs.nodes), fs.now, env, p, cache, cp).nodes
    ensures fs.log == old(fs.log) + MakeCacheSpec(old(fs.nodes), fs.now, env, p, cache, cp).events
  {
    var c: Cache;
    if cache.None? {
      var generated := GenerateCacheData(fs, env, p);
      if generated.Err? {
        return Err(generated.error);
      }
      c := generated.value;
    } else {
      c := cache.value;
    }
    var saved := fs.Write(cp, env.dumpDoc(Dump(c)));
    if saved.Err? {
      return Err(saved.error);
    }
    r := Ok(c);
  }

  /**
   * `make_cache`: generates the cache unless one is given, derives the
   * cache path (making its directories) unless one is given, and saves the
   * cache there.
   */
  method MakeCache(fs: FileSystem, env: Env, p: Path, cachePath: Option<Path>, cache: Option<Cache>) returns (r: Result<Cache>)
    requires fs.Valid() && ValidPath(p) && ValidPath(env.home)
    requires cachePath.Some? ==> ValidPath(cachePath.value)
    modifies fs`nodes, fs`log
    ensures fs.Valid()
    ensures cachePath.Some? ==>
              && r == MakeCacheSpec(old(fs.nodes), fs.now, env, p, cache, cachePath.value).result
              && fs.nodes == MakeCacheSpec(old(fs.nodes), fs.now, env, p, cache, cachePath.value).nodes
              && fs.log == old(fs.log) + MakeCacheSpec(old(fs.nodes), fs.now, env, p, cache, cachePath.value).events
    ensures cachePath.None? && r.Ok? ==>
              && (cache.Some? ==> r.value == cache.value)
              && (cache.None? ==> GenerateSpec(old(fs.nodes), env, p) == r)
              && CachePathFor(env, p).Ok?
              && ReadSpec(fs.nodes, Resolve(CachePathFor(env, p).value)) == Ok(env.dumpDoc(Dump(r.value)))
  {
    if cachePath.Some? {
      r := MakeCacheAt(fs, env, p, cache, cachePath.value);
      return;
    }
    var c: Cache;
    if cache.None? {
      var generated := GenerateCacheData(fs, env, p);
      if generated.Err? {
        return Err(generated.error);
      }
      c := generated.value;
    } else {
      c := cache.value;
    }
    var saved := SaveAtDerivedPath(fs, env, p, Dump(c));
    if saved.Err? {
      return Err(saved.error);
    }
    r := Ok(c);
  }

  /** The tail of `make_cache` without a cache path: derive it, making its directories, and save the document there. */
  method SaveAtDerivedPath(fs: FileSystem, env: Env, p: Path, doc: CacheDoc) returns (r: Result<()>)
    requires fs.Valid() && ValidPath(p) && ValidPath(env.home)
    modifies fs`nodes, fs`log
    ensures fs.Valid()
    ensures r.Ok? ==>
              && CachePathFor(env, p).Ok?
              && ReadSpec(fs.nodes, Resolve(CachePathFor(env, p).value)) == Ok(env.dumpDoc(doc))
  {
    var derived := FilepathToCachepath(fs, env, p);
    if derived.Err? {
      return Err(derived.error);
    }
    WriteFacts(fs.nodes, fs.now, Resolve(derived.value), env.dumpDoc(doc));
    r := fs.Write(derived.value, env.dumpDoc(doc));
  }

  /* ---------------- `cache_exists` ---------------- */

  /** `cache_exists`: whether anything is at the given cache path, or at the derived one (whose directories it makes). */
  method CacheExists(fs: FileSystem, env: Env, p: Path, cachePath: Option<Path>) returns (r: Result<bool>)
    requires fs.Valid()
    requires cachePath.None? ==> ValidPath(p) && ValidPath(env.home)
    modifies fs`nodes, fs`log
    ensures fs.Valid()
    ensures cachePath.Some? ==>
              && r == Ok(Resolve(cachePath.value) in old(fs.nodes))
              && fs.nodes == old(fs.nodes)
              && fs.log == old(fs.log) + [Probed(Resolve(cachePath.value))]
    ensures cachePath.None? && r.Ok? ==>
              CachePathFor(env, p).Ok? && (r.value <==> Resolve(CachePathFor(env, p).value) in fs.nodes)
  {
    var cp: Path;
    if cachePath.None? {
      var derived := FilepathToCachepath(fs, env, p);
      if derived.Err? {
        return Err(derived.error);
      }
      cp := derived.value;
    } else {
      cp := cachePath.value;
    }
    var there := fs.Exists(cp);
    r := Ok(there);
  }

  /* ---------------- `cache_time_valid` and `cache_hash_valid` ---------------- */

  /** `cache_time_valid`: the recorded mtime is not older than the file's. */
  function CacheTimeValid(nodes: Nodes, p: Path, cache: Cache): Result<bool> {
    match MtimeSpec(nodes, Resolve(p))
    case Err(e) => Err(e)
    case Ok(mtime) => Ok(cache.meta.mtime >= mtime)
  }

  /** `cache_hash_valid`: the recorded hash is the token of the file's content. */
  function CacheHashValid(nodes: Nodes, env: Env, p: Path, cache: Cache): Result<bool> {
    match ReadSpec(nodes, Resolve(p))
    case Err(e) => Err(e)
    case Ok(content) => Ok(cache.meta.hash == ContentToken(env.sha, content))
  }

  /** `cache_hash_valid`, hashing the file chunk by chunk. */
  method CheckCacheHash(fs: FileSystem, env: Env, p: Path, cache: Cache) returns (r: Result<bool>)
    ensures r == CacheHashValid(fs.nodes, env, p, cache)
  {
    var content := fs.Read(p);
    if content.Err? {
      return Err(content.error);
    }
    var hash := GetFileHash(content.value, env.sha);
    r := Ok(cache.meta.hash == hash);
  }

  /** A cache generated from the file as it is now passes both checks. */
  lemma GeneratedIsValid(nodes: Nodes, env: Env, p: Path)
    requires GenerateSpec(nodes, env, p).Ok?
    ensures CacheTimeValid(nodes, p, GenerateSpec(nodes, env, p).value) == Ok(true)
    ensures CacheHashValid(nodes, env, p, GenerateSpec(nodes, env, p).value) == Ok(true)
  {
  }

  /**
   * Once the file's content hashes differently from the content the cache
   * was generated from, the hash check fails; the time check fails exactly
   * when the file's mtime is newer than the recorded one.
   */
  lemma StaleCacheIsInvalid(nodes: Nodes, env: Env, p: Path, old_content: seq<Byte>, mtime: int)
    requires IsFile(nodes, Resolve(p))
    ensures env.sha(old_content) != env.sha(nodes[Resolve(p)].content) ==>
              CacheHashValid(nodes, env, p, Generated(env, Resolve(p), old_content, mtime)) == Ok(false)
    ensures CacheTimeValid(nodes, p, Generated(env, Resolve(p), old_content, mtime)) ==
              Ok(mtime >= nodes[Resolve(p)].mtime)
  {
    TokenInjective(env.sha(old_content), env.sha(nodes[Resolve(p)].content));
  }
}
