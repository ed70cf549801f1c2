/**
 * Where the cache of a JSONL file lives (`filepath_to_cachepath` and its two
 * strategies), and the directories made on the way there.
 *
 *   local: <parent>/.fj_cache/<stem>/<token of name>.cache.json
 *   user:  <home>/.local/share/fj_cache/<posix path, "/" as "--">/<token of posix path>.cache.json
 */
module CachePaths {
  import opened Common
  import opened Paths
  import opened Hashing
  import opened Environment
  import opened Disk

  const CacheSuffix: string := ".cache.json"

  /* ---------------- `str.replace("/", "--")` ---------------- */

  /** `s.replace("/", "--")` */
  function ReplaceSlash(s: string): (r: string)
    ensures '/' !in r
    ensures |r| >= |s|
  {
    if s == [] then [] else (if s[0] == '/' then "--" else [s[0]]) + ReplaceSlash(s[1..])
  }

  /** `s.replace("--", "/")`, scanning from the left. */
  function RestoreSlash(r: string): string {
    if r == [] then []
    else if |r| >= 2 && r[0] == '-' && r[1] == '-' then "/" + RestoreSlash(r[2..])
    else [r[0]] + RestoreSlash(r[1..])
  }

  /**
   * On paths without `-` the replacement loses nothing: `"--"` is read back
   * as `"/"`. Paths holding `-` can collide (`ReplaceSlashCollides`), which
   * is why the file name also carries a hash of the whole path.
   */
  lemma {:induction false} ReplaceSlashRoundTrip(s: string)
    requires '-' !in s
    ensures RestoreSlash(ReplaceSlash(s)) == s
  {
    if s != [] {
      ReplaceSlashRoundTrip(s[1..]);
      var rest := ReplaceSlash(s[1..]);
      if s[0] == '/' {
        assert ("--" + rest)[2..] == rest;
      } else {
        assert ([s[0]] + rest)[1..] == rest;
      }
      assert s == [s[0]] + s[1..];
    }
  }

  /* ---------------- names ---------------- */

  /** A posix path starts with `/`. */
  lemma {:induction false} JoinPartsStartsWithSlash(parts: seq<string>)
    requires parts != []
    ensures JoinParts(parts)[0] == '/'
  {
    if |parts| > 1 {
      JoinPartsStartsWithSlash(parts[..|parts| - 1]);
    }
  }

  lemma PosixStartsWithSlash(p: Path)
    ensures |Posix(p)| >= 1 && Posix(p)[0] == '/'
  {
    if p.parts != [] {
      JoinPartsStartsWithSlash(p.parts);
    }
  }

  /** A token followed by `.cache.json` is a single plain path component. */
  lemma CacheFileNameIsPlain(sha: HashFunction, text: string)
    ensures PlainName(TextToken(sha, text) + CacheSuffix)
  {
    var t := TextToken(sha, text);
    Base62Shape(Base16ToBase10(sha(Utf8(text))));
    assert forall i :: 0 <= i < |t| ==> IsBase62Char(t[i]);
    var name := t + CacheSuffix;
    forall i | 0 <= i < |name|
      ensures name[i] != '/'
    {
      if i < |t| {
        assert IsBase62Char(t[i]);
      }
    }
  }

  function CacheFileName(sha: HashFunction, text: string): (name: string)
    ensures PlainName(name)
  {
    CacheFileNameIsPlain(sha, text);
    TextToken(sha, text) + CacheSuffix
  }

  /* ---------------- the local strategy ---------------- */

  /** `path.parent / ".fj_cache"` */
  function LocalCacheDir(p: Path): Path {
    Child(Parent(p), ".fj_cache")
  }

  /** `cache_dir / path.stem` */
  function LocalCollisionDir(p: Path): Path
    requires ValidPath(p)
  {
    Child(LocalCacheDir(p), Stem(Name(p)))
  }

  /** `filepath_to_cachepath_local`, without its directory making. */
  function LocalCachePath(sha: HashFunction, p: Path): Path
    requires ValidPath(p)
  {
    Child(LocalCollisionDir(p), CacheFileName(sha, Name(p)))
  }

  /**
   * The local cache sits below `<parent>/.fj_cache`, in the directory named
   * after the stem (dropped when the stem is `.`), and is named after the
   * token of the file's name.
   */
  lemma LocalCachePathShape(sha: HashFunction, p: Path)
    requires ValidPath(p)
    ensures Name(LocalCachePath(sha, p)) == TextToken(sha, Name(p)) + CacheSuffix
    ensures Parent(LocalCachePath(sha, p)) == LocalCollisionDir(p)
    ensures Parent(p).parts + [".fj_cache"] <= LocalCachePath(sha, p).parts
    ensures ValidPath(LocalCachePath(sha, p))
  {
    var c := LocalCachePath(sha, p);
    assert c.parts[..|c.parts| - 1] == LocalCollisionDir(p).parts;
  }

  /* ---------------- the user strategy ---------------- */

  /** `Path.home() / ".local/share/fj_cache"` */
  function UserCacheDir(home: Path): Path {
    Child(Child(Child(home, ".local"), "share"), "fj_cache")
  }

  /** `cache_dir / posix_path.replace("/", "--")` */
  function UserCollisionDir(home: Path, p: Path): Path {
    Child(UserCacheDir(home), ReplaceSlash(Posix(Resolve(p))))
  }

  /** `filepath_to_cachepath_user`, without its directory making. */
  function UserCachePath(env: Env, p: Path): Path {
    Child(UserCollisionDir(env.home, p), CacheFileName(env.sha, Posix(Resolve(p))))
  }

  /** The directory name the user strategy gives a path is one plain component. */
  lemma DashedNameIsPlain(p: Path)
    ensures PlainName(ReplaceSlash(Posix(Resolve(p))))
  {
    PosixStartsWithSlash(Resolve(p));
    var dashed := ReplaceSlash(Posix(Resolve(p)));
    assert dashed[..2] == "--";
  }

  /**
   * The user cache is exactly two components below
   * `<home>/.local/share/fj_cache`: the resolved posix path with every `/`
   * written `--`, then the token of that posix path followed by
   * `.cache.json`.
   */
  lemma UserCachePathShape(env: Env, p: Path)
    ensures UserCachePath(env, p).parts ==
              env.home.parts + [".local", "share", "fj_cache",
                                ReplaceSlash(Posix(Resolve(p))),
                                TextToken(env.sha, Posix(Resolve(p))) + CacheSuffix]
  {
    DashedNameIsPlain(p);
    var root := UserCacheDir(env.home);
    assert root.parts == env.home.parts + [".local", "share", "fj_cache"];
    var dir := UserCollisionDir(env.home, p);
    assert dir.parts == root.parts + [ReplaceSlash(Posix(Resolve(p)))];
  }

  /** `"/a/b"` and `"/a--b"` are both written `"--a--b"`. */
  lemma SlashAndDashesAlike()
    ensures ReplaceSlash("/a/b") == "--a--b" == ReplaceSlash("/a--b")
  {
    assert ReplaceSlash("/b") == "--b";
    assert ReplaceSlash("-b") == "-b";
    assert ReplaceSlash("--b") == "--b";
  }

  /** `/a/b` and `/a--b` are two files whose user caches share a directory, `--a--b`. */
  lemma ReplaceSlashCollides(home: Path)
    ensures Posix(Resolve(Path(["a", "b"]))) == "/a/b"
    ensures Posix(Resolve(Path(["a--b"]))) == "/a--b"
    ensures UserCollisionDir(home, Path(["a", "b"])) == UserCollisionDir(home, Path(["a--b"]))
  {
    var p1, p2 := Path(["a", "b"]), Path(["a--b"]);
    assert Resolve(p1) == p1 by {
      NormalizeIdentity(p1.parts);
    }
    assert Resolve(p2) == p2 by {
      NormalizeIdentity(p2.parts);
    }
    assert Posix(p1) == "/a/b" by {
      assert p1.parts[..1] == ["a"] && ["a"][..0] == [];
    }
    assert Posix(p2) == "/a--b" by {
      assert p2.parts[..0] == [];
    }
    SlashAndDashesAlike();
  }

  /**
   * The hash in the file name keeps files apart where the directory name
   * does not: two files get the same user cache exactly when their resolved
   * posix paths are equal, unless SHA-256 collides on those two paths.
   */
  lemma UserCachePathsDistinct(env: Env, p: Path, q: Path)
    requires NoCollision(env.sha, Utf8(Posix(Resolve(p))), Utf8(Posix(Resolve(q))))
    ensures Resolve(UserCachePath(env, p)) == Resolve(UserCachePath(env, q)) <==>
              Posix(Resolve(p)) == Posix(Resolve(q))
  {
    var a, b := Posix(Resolve(p)), Posix(Resolve(q));
    if Resolve(UserCachePath(env, p)) == Resolve(UserCachePath(env, q)) {
      var na, nb := CacheFileName(env.sha, a), CacheFileName(env.sha, b);
      ResolveChild(UserCollisionDir(env.home, p), na);
      ResolveChild(UserCollisionDir(env.home, q), nb);
      var ra := Child(Resolve(UserCollisionDir(env.home, p)), na).parts;
      var rb := Child(Resolve(UserCollisionDir(env.home, q)), nb).parts;
      assert na == ra[|ra| - 1] == rb[|rb| - 1] == nb;
      var ta, tb := TextToken(env.sha, a), TextToken(env.sha, b);
      assert |ta| == |tb| by {
        Base62Shape(Base16ToBase10(env.sha(Utf8(a))));
        Base62Shape(Base16ToBase10(env.sha(Utf8(b))));
        assert na == ta + CacheSuffix && nb == tb + CacheSuffix;
      }
      assert ta == na[..|ta|] == nb[..|tb|] == tb;
      TextTokenInjective(env.sha, a, b);
    }
  }

  /* ---------------- `filepath_to_cachepath` ---------------- */

  /** The cache path for `p` under the configured strategy, or the `ValueError` naming the unknown value. */
  function CachePathFor(env: Env, p: Path): Result<Path>
    requires ValidPath(p)
  {
    if env.dirMethod == "local" then Ok(LocalCachePath(env.sha, p))
    else if env.dirMethod == "user" then Ok(UserCachePath(env, p))
    else Err(UnknownDirMethod(env.dirMethod))
  }

  /** Either strategy names a valid path. */
  lemma CachePathValid(env: Env, p: Path)
    requires ValidPath(p) && ValidPath(env.home) && CachePathFor(env, p).Ok?
    ensures ValidPath(CachePathFor(env, p).value)
  {
    if env.dirMethod == "local" {
      LocalCachePathShape(env.sha, p);
    } else {
      DashedNameIsPlain(p);
      assert ValidPath(UserCollisionDir(env.home, p));
    }
  }

  /**
   * `cache_dir.mkdir(parents=True, exist_ok=True)` and then
   * `collision_dir.mkdir(exist_ok=True)`: the result and the tree after
   * them, which keeps the first directories made when the second call fails.
   */
  function CacheDirsSpec(nodes: Nodes, now: int, cacheDir: Path, collisionDir: Path): (Result<()>, Nodes) {
    var made := MakeDirsSpec(nodes, now, Resolve(cacheDir));
    if made.Err? then (Err(made.error), nodes)
    else
      var done := MkdirSpec(made.value, now, Resolve(collisionDir));
      if done.Err? then (Err(done.error), made.value) else (Ok(()), done.value)
  }

  /** One strategy's work: make its two directories, then name the cache file `cp`. */
  function StrategySpec(nodes: Nodes, now: int, cacheDir: Path, collisionDir: Path, cp: Path): (Result<Path>, Nodes) {
    var dirs := CacheDirsSpec(nodes, now, cacheDir, collisionDir);
    (if dirs.0.Ok? then Ok(cp) else Err(dirs.0.error), dirs.1)
  }

  /**
   * `filepath_to_cachepath` on a tree: the cache path it returns, or the
   * exception it raises, and the tree after it.
   */
  function DeriveSpec(nodes: Nodes, now: int, env: Env, p: Path): (Result<Path>, Nodes)
    requires ValidPath(p)
  {
    if env.dirMethod == "local" then
      StrategySpec(nodes, now, LocalCacheDir(p), LocalCollisionDir(p), LocalCachePath(env.sha, p))
    else if env.dirMethod == "user" then
      StrategySpec(nodes, now, UserCacheDir(env.home), UserCollisionDir(env.home, p), UserCachePath(env, p))
    else (Err(UnknownDirMethod(env.dirMethod)), nodes)
  }

  /**
   * When both directories are made, the tree stays well formed, nothing that
   * was there changes, and a file named in the second directory can be
   * written.
   */
  lemma DirsReady(nodes: Nodes, now: int, cacheDir: Path, collisionDir: Path, name: string)
    requires Wellformed(nodes) && ValidPath(cacheDir) && ValidPath(collisionDir) && PlainName(name)
    requires CacheDirsSpec(nodes, now, cacheDir, collisionDir).0.Ok?
    ensures Wellformed(CacheDirsSpec(nodes, now, cacheDir, collisionDir).1)
    ensures IsDir(CacheDirsSpec(nodes, now, cacheDir, collisionDir).1, Parent(Resolve(Child(collisionDir, name))))
    ensures Extends(nodes, CacheDirsSpec(nodes, now, cacheDir, collisionDir).1)
  {
    var made := MakeDirsSpec(nodes, now, Resolve(cacheDir)).value;
    MakeDirsMakes(nodes, now, Resolve(cacheDir));
    MakeDirsKeeps(nodes, now, Resolve(cacheDir));
    MkdirFacts(made, now, Resolve(collisionDir));
    ResolveChild(collisionDir, name);
  }

  /**
   * When `filepath_to_cachepath` succeeds it returns the path its strategy
   * names, the tree stays well formed, nothing that was there changes, and
   * the cache file's directory exists, so the cache can be written there.
   */
  lemma DeriveReady(nodes: Nodes, now: int, env: Env, p: Path)
    requires Wellformed(nodes) && ValidPath(p) && ValidPath(env.home)
    requires DeriveSpec(nodes, now, env, p).0.Ok?
    ensures DeriveSpec(nodes, now, env, p).0 == CachePathFor(env, p)
    ensures Wellformed(DeriveSpec(nodes, now, env, p).1)
    ensures IsDir(DeriveSpec(nodes, now, env, p).1, Parent(Resolve(DeriveSpec(nodes, now, env, p).0.value)))
    ensures Extends(nodes, DeriveSpec(nodes, now, env, p).1)
  {
    if env.dirMethod == "local" {
      DirsReady(nodes, now, LocalCacheDir(p), LocalCollisionDir(p), CacheFileName(env.sha, Name(p)));
    } else {
      DashedNameIsPlain(p);
      DirsReady(nodes, now, UserCacheDir(env.home), UserCollisionDir(env.home, p), CacheFileName(env.sha, Posix(Resolve(p))));
    }
  }

  /** The two `mkdir` calls both strategies make: the cache directory with its parents, then the collision directory. */
  method MakeCacheDirs(fs: FileSystem, cacheDir: Path, collisionDir: Path) returns (r: Result<()>)
    requires fs.Valid() && ValidPath(cacheDir) && ValidPath(collisionDir)
    modifies fs`nodes, fs`log
    ensures fs.Valid()
    ensures r == CacheDirsSpec(old(fs.nodes), fs.now, cacheDir, collisionDir).0
    ensures fs.nodes == CacheDirsSpec(old(fs.nodes), fs.now, cacheDir, collisionDir).1
    ensures Extends(old(fs.nodes), fs.nodes)
    ensures OnlyDirsMade(old(fs.log), fs.log)
  {
    ghost var log0 := fs.log;
    var made := fs.MakeDirs(cacheDir);
    DirsMadeStep(log0, log0, Resolve(cacheDir));
    if made.Err? {
      return Err(made.error);
    }
    ghost var log1 := fs.log;
    var done := fs.Mkdir(collisionDir);
    DirsMadeStep(log0, log1, Resolve(collisionDir));
    if done.Err? {
      return Err(done.error);
    }
    r := Ok(());
  }

  /** `filepath_to_cachepath_local` */
  method FilepathToCachepathLocal(fs: FileSystem, env: Env, p: Path) returns (r: Result<Path>)
    requires fs.Valid() && ValidPath(p)
    modifies fs`nodes, fs`log
    ensures fs.Valid()
    ensures r == StrategySpec(old(fs.nodes), fs.now, LocalCacheDir(p), LocalCollisionDir(p), LocalCachePath(env.sha, p)).0
    ensures fs.nodes == StrategySpec(old(fs.nodes), fs.now, LocalCacheDir(p), LocalCollisionDir(p), LocalCachePath(env.sha, p)).1
    ensures Extends(old(fs.nodes), fs.nodes)
    ensures OnlyDirsMade(old(fs.log), fs.log)
  {
    var dirs := MakeCacheDirs(fs, LocalCacheDir(p), LocalCollisionDir(p));
    if dirs.Err? {
      return Err(dirs.error);
    }
    r := Ok(LocalCachePath(env.sha, p));
  }

  /** Resolving the user strategy's directories resolves only the home directory. */
  lemma UserDirsResolve(home: Path, p: Path)
    ensures PlainName(ReplaceSlash(Posix(Resolve(p))))
    ensures Resolve(UserCacheDir(home)) == UserCacheDir(Resolve(home))
    ensures Resolve(UserCollisionDir(home, p)) == UserCollisionDir(Resolve(home), p)
  {
    DashedNameIsPlain(p);
    ResolveChild(home, ".local");
    ResolveChild(Child(home, ".local"), "share");
    ResolveChild(Child(Child(home, ".local"), "share"), "fj_cache");
    ResolveChild(UserCacheDir(home), ReplaceSlash(Posix(Resolve(p))));
  }

  /** `filepath_to_cachepath_user` */
  method FilepathToCachepathUser(fs: FileSystem, env: Env, p: Path) returns (r: Result<Path>)
    requires fs.Valid() && ValidPath(env.home)
    modifies fs`nodes, fs`log
    ensures fs.Valid()
    ensures r == StrategySpec(old(fs.nodes), fs.now, UserCacheDir(env.home), UserCollisionDir(env.home, p), UserCachePath(env, p)).0
    ensures fs.nodes == StrategySpec(old(fs.nodes), fs.now, UserCacheDir(env.home), UserCollisionDir(env.home, p), UserCachePath(env, p)).1
    ensures Extends(old(fs.nodes), fs.nodes)
    ensures OnlyDirsMade(old(fs.log), fs.log)
  {
    UserDirsResolve(env.home, p);
    var dirs := MakeCacheDirs(fs, UserCacheDir(env.home), UserCollisionDir(env.home, p));
    if dirs.Err? {
      return Err(dirs.error);
    }
    r := Ok(UserCachePath(env, p));
  }

  /** `filepath_to_cachepath`: picks the strategy named by `FAST_JSONL_DIR_METHOD`. */
  method FilepathToCachepath(fs: FileSystem, env: Env, p: Path) returns (r: Result<Path>)
    requires fs.Valid() && ValidPath(p) && ValidPath(env.home)
    modifies fs`nodes, fs`log
    ensures fs.Valid()
    ensures r == DeriveSpec(old(fs.nodes), fs.now, env, p).0
    ensures fs.nodes == DeriveSpec(old(fs.nodes), fs.now, env, p).1
    ensures r.Ok? ==> r == CachePathFor(env, p) && ValidPath(r.value)
    ensures Extends(old(fs.nodes), fs.nodes)
    ensures OnlyDirsMade(old(fs.log), fs.log)
  {
    if env.dirMethod == "local" {
      r := FilepathToCachepathLocal(fs, env, p);
    } else if env.dirMethod == "user" {
      r := FilepathToCachepathUser(fs, env, p);
    } else {
      return Err(UnknownDirMethod(env.dirMethod));
    }
    if r.Ok? {
      CachePathValid(env, p);
    }
  }
}
