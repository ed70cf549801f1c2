/**
 * The lock that guards a cache file: `Lock.get_filelock_path` names a file
 * in a `.locks` directory beside the cache, and `Lock` wraps a
 * `filelock.FileLock` on it. Mutual exclusion between processes is not
 * modelled; the wrapped lock is its hold count, as `FileLock` keeps it.
 */
module Locking {
  import opened Common
  import opened Paths
  import opened Disk

  const LockSuffix: string := ".lock"

  /** `path.parent / ".locks"` */
  function LockDir(p: Path): Path {
    Child(Parent(p), ".locks")
  }

  /** `get_filelock_path` without its `mkdir`: `(lockdir / path.name).resolve().as_posix() + ".lock"`. */
  function LockPath(p: Path): string
    requires ValidPath(p)
  {
    Posix(Resolve(Child(LockDir(p), Name(p)))) + LockSuffix
  }

  /**
   * The tree `Lock(path)` leaves: `.locks` is made beside the file when
   * nothing is there yet, or the `mkdir` error.
   */
  function LockDirSpec(nodes: Nodes, now: int, p: Path): Result<Nodes> {
    var d := Resolve(LockDir(p));
    if d in nodes then Ok(nodes) else MkdirSpec(nodes, now, d)
  }

  /**
   * Taking the lock fails exactly when `.locks` is missing and its parent is
   * not a directory; otherwise `.locks` is there afterwards, the tree stays
   * well formed, and it gains at most that one entry.
   */
  lemma LockDirFacts(nodes: Nodes, now: int, p: Path)
    requires Wellformed(nodes) && ValidPath(p)
    ensures LockDirSpec(nodes, now, p).Ok? <==>
              Resolve(LockDir(p)) in nodes || IsDir(nodes, Parent(Resolve(LockDir(p))))
    ensures LockDirSpec(nodes, now, p).Ok? ==>
              && Wellformed(LockDirSpec(nodes, now, p).value)
              && Extends(nodes, LockDirSpec(nodes, now, p).value)
              && Resolve(LockDir(p)) in LockDirSpec(nodes, now, p).value
              && forall j :: j in LockDirSpec(nodes, now, p).value ==> j in nodes || j == Resolve(LockDir(p))
  {
    var d := Resolve(LockDir(p));
    if d !in nodes {
      MkdirFacts(nodes, now, d);
    }
  }

  /* ---------------- lengths of posix forms ---------------- */

  /** The length of the posix form grows with every component. */
  lemma PosixLength(parts: seq<string>)
    ensures |Posix(Path(parts))| == if parts == [] then 1 else |parts| + SumLengths(parts)
  {
  }

  /** Dropping the last component shortens the posix form (the root stays `/`). */
  lemma {:induction false} PosixOfInitShorter(parts: seq<string>)
    requires parts != []
    ensures |Posix(Path(parts[..|parts| - 1]))| <= |Posix(Path(parts))|
  {
    PosixLength(parts);
    PosixLength(parts[..|parts| - 1]);
  }

  /* ---------------- what the lock path is ---------------- */

  /** The lock path always ends in `.lock`. */
  lemma LockPathSuffix(p: Path)
    requires ValidPath(p)
    ensures |LockPath(p)| > |LockSuffix| && LockPath(p)[|LockPath(p)| - |LockSuffix|..] == LockSuffix
  {
  }

  /** For a file named `n` in a directory, the lock is `<resolved dir>/.locks/n.lock`. */
  lemma LockPathOfChild(dir: Path, n: string)
    requires ValidPath(dir) && PlainName(n)
    ensures LockPath(Child(dir, n)) == JoinParts(Resolve(dir).parts + [".locks"]) + "/" + n + LockSuffix
  {
    var c := Child(dir, n);
    assert Parent(c) == dir && Name(c) == n by {
      assert c.parts[..|c.parts| - 1] == dir.parts;
    }
    ResolveChild(Child(dir, ".locks"), n);
    ResolveChild(dir, ".locks");
    PosixChild(Resolve(Child(dir, ".locks")), n);
  }

  /** `dir/.locks/..` resolves to `dir` itself. */
  lemma LockOfUpIsDir(dir: Path)
    ensures Resolve(Child(Child(dir, ".locks"), "..")) == Resolve(dir)
  {
    var m := dir.parts + [".locks"];
    assert m[..|m| - 1] == dir.parts;
    var l := Child(Child(dir, ".locks"), "..");
    assert l.parts[..|l.parts| - 1] == m;
    var rd := Normalize(dir.parts);
    assert Normalize(m) == rd + [".locks"];
    assert (rd + [".locks"])[..|rd|] == rd;
  }

  /** The lock path is never the posix form of the path it guards. */
  lemma LockPathIsNotGuardedPath(p: Path)
    requires ValidPath(p)
    ensures LockPath(p) != Posix(Resolve(p))
  {
    if p.parts == [] {
      assert |LockPath(p)| > 1;
    } else {
      var dir, n := Parent(p), Name(p);
      assert p == Child(dir, n) by {
        assert p.parts == p.parts[..|p.parts| - 1] + [n];
      }
      var rd := Resolve(dir).parts;
      if n == ".." {
        LockOfUpIsDir(dir);
        PosixLength(rd);
        if rd != [] {
          PosixOfInitShorter(rd);
        }
      } else {
        LockPathOfChild(dir, n);
        ResolveChild(dir, n);
        PosixChild(Resolve(dir), n);
        assert JoinParts(rd + [".locks"]) == JoinParts(rd) + "/" + ".locks" by {
          assert (rd + [".locks"])[..|rd|] == rd;
        }
      }
    }
  }

  /** Strings with the same prefix and suffix around them are equal only when the middles are. */
  lemma CancelAround(a: string, x: string, y: string, b: string)
    ensures a + x + b == a + y + b ==> x == y
  {
    if a + x + b == a + y + b {
      assert |x| == |y|;
      assert x == (a + x + b)[|a|..|a| + |x|];
    }
  }

  /** Files with different names in the same directory get different locks. */
  lemma LockPathsDistinct(dir: Path, n1: string, n2: string)
    requires ValidPath(dir) && PlainName(n1) && PlainName(n2) && n1 != n2
    ensures LockPath(Child(dir, n1)) != LockPath(Child(dir, n2))
  {
    LockPathOfChild(dir, n1);
    LockPathOfChild(dir, n2);
    CancelAround(JoinParts(Resolve(dir).parts + [".locks"]) + "/", n1, n2, LockSuffix);
  }

  /**
   * `get_filelock_path`: makes `<parent>/.locks` only when nothing is there,
   * then names the lock. A second call finds the directory and changes
   * nothing.
   */
  method GetFilelockPath(fs: FileSystem, p: Path) returns (r: Result<string>)
    requires fs.Valid() && ValidPath(p)
    modifies fs`nodes, fs`log
    ensures fs.Valid()
    ensures r.Ok? ==> r.value == LockPath(p) && Resolve(LockDir(p)) in fs.nodes
    ensures Extends(old(fs.nodes), fs.nodes)
    ensures old(Resolve(LockDir(p)) in fs.nodes) ==>
              r == Ok(LockPath(p)) && fs.nodes == old(fs.nodes) &&
              fs.log == old(fs.log) + [Probed(Resolve(LockDir(p)))]
    ensures !old(Resolve(LockDir(p)) in fs.nodes) ==>
              && (r.Ok? <==> MkdirSpec(old(fs.nodes), fs.now, Resolve(LockDir(p))).Ok?)
              && (r.Err? ==> r.error == MkdirSpec(old(fs.nodes), fs.now, Resolve(LockDir(p))).error)
              && fs.nodes == (if r.Ok? then MkdirSpec(old(fs.nodes), fs.now, Resolve(LockDir(p))).value else old(fs.nodes))
              && fs.log == old(fs.log) + [Probed(Resolve(LockDir(p))), MadeDir(Resolve(LockDir(p)))]
  {
    var lockdir := LockDir(p);
    var there := fs.Exists(lockdir);
    if !there {
      var made := fs.Mkdir(lockdir);
      if made.Err? {
        return Err(made.error);
      }
    }
    r := Ok(LockPath(p));
  }

  /** `Lock`: the lock file's path and the wrapped `FileLock`, reduced to how many times it is held. */
  class Lock {
    const path: string
    var level: nat

    /** `FileLock(self.path)`: not held yet. */
    constructor (path: string)
      ensures this.path == path && level == 0
    {
      this.path := path;
      level := 0;
    }

    /** `acquire`: `FileLock.acquire` takes the lock, or takes it once more. */
    method Acquire(fs: FileSystem)
      modifies this`level, fs`log
      ensures level == old(level) + 1
      ensures fs.log == old(fs.log) + [Acquired(path)]
    {
      level := level + 1;
      fs.log := fs.log + [Acquired(path)];
    }

    /** `release`: `FileLock.release` gives one hold back, and does nothing when the lock is not held. */
    method Release(fs: FileSystem)
      modifies this`level, fs`log
      ensures level == if old(level) > 0 then old(level) - 1 else 0
      ensures fs.log == old(fs.log) + [Released(path)]
    {
      if level > 0 {
        level := level - 1;
      }
      fs.log := fs.log + [Released(path)];
    }
  }

  /** `Lock(path)`: names the lock file, making its directory when needed. */
  method MakeLock(fs: FileSystem, p: Path) returns (r: Result<Lock>)
    requires fs.Valid() && ValidPath(p)
    modifies fs`nodes, fs`log
    ensures fs.Valid()
    ensures r.Ok? ==> fresh(r.value) && r.value.path == LockPath(p) && r.value.level == 0
    ensures r.Ok? <==> LockDirSpec(old(fs.nodes), fs.now, p).Ok?
    ensures r.Err? ==> r.error == LockDirSpec(old(fs.nodes), fs.now, p).error
    ensures fs.nodes == if r.Ok? then LockDirSpec(old(fs.nodes), fs.now, p).value else old(fs.nodes)
    ensures old(Resolve(LockDir(p)) in fs.nodes) ==> r.Ok? && fs.nodes == old(fs.nodes)
    ensures Extends(old(fs.nodes), fs.nodes)
    ensures OnlyProbesAndDirs(old(fs.log), fs.log)
  {
    var lockPath := GetFilelockPath(fs, p);
    if lockPath.Err? {
      return Err(lockPath.error);
    }
    var lock := new Lock(lockPath.value);
    r := Ok(lock);
  }
}
