/**
 * The part of the filesystem the library touches, keyed by resolved path:
 * directories, and files with their bytes and modification time. The
 * operations are the `pathlib` and `open` calls the library makes, with the
 * exceptions Python raises for them.
 */
module Disk {
  import opened Common
  import opened Paths

  datatype Node = Dir(mtime: int) | File(content: seq<Byte>, mtime: int)

  type Nodes = map<Path, Node>

  /** What a run does to the cache files, their directories and the lock, in order. */
  datatype Event =
    | Probed(path: Path)      // Path.exists()
    | MadeDir(path: Path)     // Path.mkdir()
    | Wrote(path: Path)       // open(path, "w")
    | Acquired(lock: string)
    | Released(lock: string)

  /** `after` is `before` followed by directory making only. */
  predicate OnlyDirsMade(before: seq<Event>, after: seq<Event>) {
    before <= after && forall i :: |before| <= i < |after| ==> after[i].MadeDir?
  }

  /** `after` is `before` followed by existence checks and directory making only. */
  predicate OnlyProbesAndDirs(before: seq<Event>, after: seq<Event>) {
    before <= after && forall i :: |before| <= i < |after| ==> after[i].Probed? || after[i].MadeDir?
  }

  /** Everything in `before` is still in `after`, unchanged. */
  predicate Extends(before: Nodes, after: Nodes) {
    forall j :: j in before ==> j in after && after[j] == before[j]
  }

  /** Logging one more directory keeps a log that made only directories. */
  lemma DirsMadeStep(before: seq<Event>, mid: seq<Event>, k: Path)
    requires mid == before || OnlyDirsMade(before, mid)
    ensures OnlyDirsMade(before, mid + [MadeDir(k)])
  {
  }

  /** A log that made only directories only probed and made directories. */
  lemma DirsMadeOnlyProbesAndDirs(before: seq<Event>, after: seq<Event>)
    requires OnlyDirsMade(before, after)
    ensures OnlyProbesAndDirs(before, after)
  {
  }

  /** Logging one more probe or directory keeps a log of probes and directories. */
  lemma ProbesAndDirsStep(before: seq<Event>, mid: seq<Event>, e: Event)
    requires mid == before || OnlyProbesAndDirs(before, mid)
    requires e.Probed? || e.MadeDir?
    ensures OnlyProbesAndDirs(before, mid + [e])
  {
  }

  /** A tree that extends one that extends `before` extends `before`. */
  lemma ExtendsTrans(before: Nodes, mid: Nodes, after: Nodes)
    requires Extends(before, mid) && Extends(mid, after)
    ensures Extends(before, after)
  {
  }

  /** Two logs of probes and directories, one after the other, are one such log. */
  lemma ProbesAndDirsTrans(before: seq<Event>, mid: seq<Event>, after: seq<Event>)
    requires OnlyProbesAndDirs(before, mid) && OnlyProbesAndDirs(mid, after)
    ensures OnlyProbesAndDirs(before, after)
  {
  }

  predicate IsDir(nodes: Nodes, k: Path) {
    k in nodes && nodes[k].Dir?
  }

  predicate IsFile(nodes: Nodes, k: Path) {
    k in nodes && nodes[k].File?
  }

  /** Every key is a resolved path; the root is a directory and every other entry sits in one. */
  predicate Listed(nodes: Nodes, k: Path) {
    k in nodes
  }

  predicate Wellformed(nodes: Nodes) {
    && IsDir(nodes, Root)
    && forall k {:trigger Listed(nodes, k)} :: k in nodes && Listed(nodes, k) ==> Resolved(k) && (k != Root ==> IsDir(nodes, Parent(k)))
  }

  /** What well-formedness says of one entry. */
  lemma EntryPlaced(nodes: Nodes, k: Path)
    requires Wellformed(nodes) && k in nodes
    ensures Resolved(k) && (k != Root ==> IsDir(nodes, Parent(k)))
  {
    assert Listed(nodes, k);
  }

  /** The first `i` components of `k`: the root, then `k`'s ancestors, then `k` itself. */
  function Prefix(k: Path, i: nat): (q: Path)
    requires i <= |k.parts|
    ensures |q.parts| == i
  {
    Path(k.parts[..i])
  }

  /** `Path(k).mkdir(exist_ok=True)` */
  function MkdirSpec(nodes: Nodes, now: int, k: Path): Result<Nodes> {
    if IsDir(nodes, k) then Ok(nodes)
    else if k in nodes then Err(NotADirectory(Posix(k)))             // FileExistsError
    else if IsDir(nodes, Parent(k)) then Ok(nodes[k := Dir(now)])
    else if Parent(k) in nodes then Err(NotADirectory(Posix(k)))
    else Err(FileNotFound(Posix(k)))
  }

  /**
   * `Path(k).mkdir(parents=True, exist_ok=True)`: a missing parent is made
   * first, the same way; a file anywhere on the way is an error.
   */
  function MakeDirsSpec(nodes: Nodes, now: int, k: Path): Result<Nodes>
    decreases |k.parts|
  {
    if IsDir(nodes, k) then Ok(nodes)
    else if k in nodes then Err(NotADirectory(Posix(k)))
    else if k.parts == [] then Err(FileNotFound(Posix(k)))
    else if IsFile(nodes, Parent(k)) then Err(NotADirectory(Posix(k)))
    else
      match MakeDirsSpec(nodes, now, Parent(k))
      case Ok(made) => Ok(made[k := Dir(now)])
      case Err(e) => Err(e)
  }

  /** `open(k, "w")` followed by a write of `bytes`. */
  function WriteSpec(nodes: Nodes, now: int, k: Path, bytes: seq<Byte>): Result<Nodes> {
    if IsDir(nodes, k) then Err(IsADirectory(Posix(k)))
    else if IsDir(nodes, Parent(k)) then Ok(nodes[k := File(bytes, now)])
    else if Parent(k) in nodes then Err(NotADirectory(Posix(k)))
    else Err(FileNotFound(Posix(k)))
  }

  /** `open(k, "rb").read()` */
  function ReadSpec(nodes: Nodes, k: Path): Result<seq<Byte>> {
    if IsFile(nodes, k) then Ok(nodes[k].content)
    else if k in nodes then Err(IsADirectory(Posix(k)))
    else if IsFile(nodes, Parent(k)) then Err(NotADirectory(Posix(k)))
    else Err(FileNotFound(Posix(k)))
  }

  /** `Path(k).stat().st_mtime` */
  function MtimeSpec(nodes: Nodes, k: Path): Result<int> {
    if k in nodes then Ok(nodes[k].mtime) else Err(FileNotFound(Posix(k)))
  }

  /** Success or the error of an operation, without its value. */
  function Status<T>(r: Result<T>): Result<()> {
    if r.Ok? then Ok(()) else Err(r.error)
  }

  /* ---------------- what the operations keep and make ---------------- */

  lemma {:induction false} PrefixOfParent(k: Path, i: nat)
    requires k.parts != [] && i < |k.parts|
    ensures Prefix(Parent(k), i) == Prefix(k, i)
  {
    assert k.parts[..|k.parts| - 1][..i] == k.parts[..i];
  }

  /** In a well-formed tree, everything above an entry is a directory. */
  lemma {:induction false} AncestorsAreDirs(nodes: Nodes, k: Path)
    requires Wellformed(nodes) && k in nodes
    ensures forall i :: 0 <= i < |k.parts| ==> IsDir(nodes, Prefix(k, i))
    decreases |k.parts|
  {
    if k.parts != [] {
      var p := Parent(k);
      EntryPlaced(nodes, k);
      AncestorsAreDirs(nodes, p);
      forall i | 0 <= i < |k.parts|
        ensures IsDir(nodes, Prefix(k, i))
      {
        if i < |p.parts| {
          PrefixOfParent(k, i);
        } else {
          assert Prefix(k, i) == p;
        }
      }
    }
  }

  /** Nothing on the way from the root down to `k`, `k` included, is a file. */
  predicate NoFileOnWay(nodes: Nodes, k: Path) {
    forall i :: 0 <= i <= |k.parts| ==> !IsFile(nodes, Prefix(k, i))
  }

  /** Nothing is a file on the way to a directory of a well-formed tree. */
  lemma NoFileAboveDir(nodes: Nodes, k: Path)
    requires Wellformed(nodes) && IsDir(nodes, k)
    ensures NoFileOnWay(nodes, k)
  {
    AncestorsAreDirs(nodes, k);
    assert Prefix(k, |k.parts|) == k;
  }

  /** Below the root, the way to `k` is free of files when the way to its parent is and `k` is no file. */
  lemma NoFileOnWayStep(nodes: Nodes, k: Path)
    requires k.parts != []
    ensures NoFileOnWay(nodes, k) <==> NoFileOnWay(nodes, Parent(k)) && !IsFile(nodes, k)
  {
    var p := Parent(k);
    assert Prefix(k, |k.parts|) == k;
    assert Prefix(p, |p.parts|) == p;
    forall i | 0 <= i < |k.parts|
      ensures Prefix(p, i) == Prefix(k, i)
    {
      PrefixOfParent(k, i);
    }
  }

  /** `mkdir(parents=True, exist_ok=True)` fails exactly when a file is in the way. */
  lemma {:induction false} MakeDirsSucceeds(nodes: Nodes, now: int, k: Path)
    requires Wellformed(nodes) && Resolved(k)
    ensures MakeDirsSpec(nodes, now, k).Ok? <==> NoFileOnWay(nodes, k)
    decreases |k.parts|
  {
    if IsDir(nodes, k) {
      NoFileAboveDir(nodes, k);
    } else if k in nodes {
      assert Prefix(k, |k.parts|) == k;
    } else if k.parts == [] {
      assert false;
    } else {
      NoFileOnWayStep(nodes, k);
      if IsFile(nodes, Parent(k)) {
        assert Prefix(k, |k.parts| - 1) == Parent(k);
      } else {
        MakeDirsSucceeds(nodes, now, Parent(k));
      }
    }
  }

  /** After `mkdir(parents=True)` the path and every ancestor of it is a directory. */
  lemma {:induction false} MakeDirsPrefixes(nodes: Nodes, now: int, k: Path)
    requires Wellformed(nodes) && MakeDirsSpec(nodes, now, k).Ok?
    ensures forall i :: 0 <= i <= |k.parts| ==> IsDir(MakeDirsSpec(nodes, now, k).value, Prefix(k, i))
    decreases |k.parts|
  {
    var made := MakeDirsSpec(nodes, now, k).value;
    assert Prefix(k, |k.parts|) == k;
    if IsDir(nodes, k) {
      AncestorsAreDirs(nodes, k);
    } else {
      var p := Parent(k);
      MakeDirsPrefixes(nodes, now, p);
      var before := MakeDirsSpec(nodes, now, p).value;
      assert made == before[k := Dir(now)];
      forall i | 0 <= i < |k.parts|
        ensures IsDir(made, Prefix(k, i))
      {
        PrefixOfParent(k, i);
      }
    }
  }

  /** `mkdir(parents=True)` keeps the tree well formed. */
  lemma {:induction false} MakeDirsWellformed(nodes: Nodes, now: int, k: Path)
    requires Wellformed(nodes) && Resolved(k) && MakeDirsSpec(nodes, now, k).Ok?
    ensures Wellformed(MakeDirsSpec(nodes, now, k).value)
    decreases |k.parts|
  {
    if !IsDir(nodes, k) {
      var p := Parent(k);
      MakeDirsWellformed(nodes, now, p);
      MakeDirsPrefixes(nodes, now, p);
      assert Prefix(p, |p.parts|) == p;
      var before := MakeDirsSpec(nodes, now, p).value;
      var made := before[k := Dir(now)];
      assert IsDir(before, p) && p != k;
      forall j | j in made
        ensures Resolved(j) && (j != Root ==> IsDir(made, Parent(j)))
      {
        if j in before {
          EntryPlaced(before, j);
        }
      }
    }
  }

  /**
   * After `mkdir(parents=True, exist_ok=True)` succeeds, the tree is still
   * well formed and `k` and everything above it are directories.
   */
  lemma MakeDirsMakes(nodes: Nodes, now: int, k: Path)
    requires Wellformed(nodes) && Resolved(k) && MakeDirsSpec(nodes, now, k).Ok?
    ensures Wellformed(MakeDirsSpec(nodes, now, k).value)
    ensures forall i :: 0 <= i <= |k.parts| ==> IsDir(MakeDirsSpec(nodes, now, k).value, Prefix(k, i))
  {
    MakeDirsPrefixes(nodes, now, k);
    MakeDirsWellformed(nodes, now, k);
  }


  /**
   * `mkdir(parents=True, exist_ok=True)` keeps every entry as it was and
   * adds only directories, each on the way down to `k`.
   */
  lemma {:induction false} MakeDirsKeeps(nodes: Nodes, now: int, k: Path)
    requires MakeDirsSpec(nodes, now, k).Ok?
    ensures forall j :: j in nodes ==> j in MakeDirsSpec(nodes, now, k).value && MakeDirsSpec(nodes, now, k).value[j] == nodes[j]
    ensures forall j :: j in MakeDirsSpec(nodes, now, k).value && j !in nodes ==>
              MakeDirsSpec(nodes, now, k).value[j] == Dir(now) && j.parts <= k.parts
    decreases |k.parts|
  {
    if !IsDir(nodes, k) {
      var p := Parent(k);
      MakeDirsKeeps(nodes, now, p);
      var made := MakeDirsSpec(nodes, now, k).value;
      var before := MakeDirsSpec(nodes, now, p).value;
      assert made == before[k := Dir(now)];
      forall j | j in made && j !in nodes
        ensures made[j] == Dir(now) && j.parts <= k.parts
      {
        if j != k {
          assert j.parts <= p.parts;
        }
      }
    }
  }

  /** Making a directory that exists changes nothing, so a second call is a no-op. */
  lemma MakeDirsIdempotent(nodes: Nodes, now: int, k: Path)
    requires Wellformed(nodes) && Resolved(k) && MakeDirsSpec(nodes, now, k).Ok?
    ensures MakeDirsSpec(MakeDirsSpec(nodes, now, k).value, now, k) == MakeDirsSpec(nodes, now, k)
  {
    MakeDirsMakes(nodes, now, k);
    assert Prefix(k, |k.parts|) == k;
  }

  /**
   * `mkdir(exist_ok=True)` succeeds exactly when `k` is a directory already
   * or its parent is one and `k` is free; then the tree stays well formed,
   * `k` is a directory and nothing else changes.
   */
  lemma MkdirFacts(nodes: Nodes, now: int, k: Path)
    requires Wellformed(nodes) && Resolved(k)
    ensures MkdirSpec(nodes, now, k).Ok? <==> IsDir(nodes, k) || (k !in nodes && IsDir(nodes, Parent(k)))
    ensures MkdirSpec(nodes, now, k).Ok? ==>
              && Wellformed(MkdirSpec(nodes, now, k).value)
              && IsDir(MkdirSpec(nodes, now, k).value, k)
              && forall j :: j != k ==> (j in nodes <==> j in MkdirSpec(nodes, now, k).value)
    ensures MkdirSpec(nodes, now, k).Ok? ==> forall j :: j != k && j in nodes ==> MkdirSpec(nodes, now, k).value[j] == nodes[j]
  {
    if MkdirSpec(nodes, now, k).Ok? && !IsDir(nodes, k) {
      var made := nodes[k := Dir(now)];
      forall j | j in made
        ensures Resolved(j) && (j != Root ==> IsDir(made, Parent(j)))
      {
        if j in nodes {
          EntryPlaced(nodes, j);
        }
      }
    }
  }

  /**
   * A write succeeds exactly when `k` is not a directory and its parent is
   * one; then the tree stays well formed, `k` holds the bytes, and nothing
   * else changes.
   */
  lemma WriteFacts(nodes: Nodes, now: int, k: Path, bytes: seq<Byte>)
    requires Wellformed(nodes) && Resolved(k)
    ensures WriteSpec(nodes, now, k, bytes).Ok? <==> !IsDir(nodes, k) && IsDir(nodes, Parent(k))
    ensures WriteSpec(nodes, now, k, bytes).Ok? ==>
              && Wellformed(WriteSpec(nodes, now, k, bytes).value)
              && ReadSpec(WriteSpec(nodes, now, k, bytes).value, k) == Ok(bytes)
              && forall j :: j != k ==> (j in nodes <==> j in WriteSpec(nodes, now, k, bytes).value)
    ensures WriteSpec(nodes, now, k, bytes).Ok? ==> forall j :: j != k && j in nodes ==> WriteSpec(nodes, now, k, bytes).value[j] == nodes[j]
  {
    if WriteSpec(nodes, now, k, bytes).Ok? {
      var made := nodes[k := File(bytes, now)];
      assert k != Root;
      forall j | j in made
        ensures Resolved(j) && (j != Root ==> IsDir(made, Parent(j)))
      {
        if j != Root && j != k {
          EntryPlaced(nodes, j);
          assert Parent(j) != k;
        }
      }
    }
  }

  /* ---------------- the filesystem as the library sees it ---------------- */

  class FileSystem {
    var nodes: Nodes
    /** The modification time every write stamps; the model's clock does not advance. */
    const now: int
    ghost var log: seq<Event>

    ghost predicate Valid()
      reads this
    {
      Wellformed(nodes)
    }

    constructor (initial: Nodes, now: int)
      requires Wellformed(initial)
      ensures Valid() && nodes == initial && this.now == now && log == []
    {
      nodes := initial;
      this.now := now;
      log := [];
    }

    /** `Path(p).exists()` */
    method Exists(p: Path) returns (b: bool)
      modifies this`log
      ensures b <==> Resolve(p) in nodes
      ensures log == old(log) + [Probed(Resolve(p))]
    {
      b := Resolve(p) in nodes;
      log := log + [Probed(Resolve(p))];
    }

    /** `Path(p).mkdir(exist_ok=True)` */
    method Mkdir(p: Path) returns (r: Result<()>)
      requires Valid() && ValidPath(p)
      modifies this`nodes, this`log
      ensures Valid()
      ensures r == Status(MkdirSpec(old(nodes), now, Resolve(p)))
      ensures nodes == if r.Ok? then MkdirSpec(old(nodes), now, Resolve(p)).value else old(nodes)
      ensures Extends(old(nodes), nodes)
      ensures log == old(log) + [MadeDir(Resolve(p))]
    {
      var k := Resolve(p);
      MkdirFacts(nodes, now, k);
      var made := MkdirSpec(nodes, now, k);
      if made.Ok? {
        nodes := made.value;
      }
      r := Status(made);
      log := log + [MadeDir(k)];
    }

    /** `Path(p).mkdir(parents=True, exist_ok=True)` */
    method MakeDirs(p: Path) returns (r: Result<()>)
      requires Valid() && ValidPath(p)
      modifies this`nodes, this`log
      ensures Valid()
      ensures r == Status(MakeDirsSpec(old(nodes), now, Resolve(p)))
      ensures nodes == if r.Ok? then MakeDirsSpec(old(nodes), now, Resolve(p)).value else old(nodes)
      ensures Extends(old(nodes), nodes)
      ensures log == old(log) + [MadeDir(Resolve(p))]
    {
      var k := Resolve(p);
      var made := MakeDirsSpec(nodes, now, k);
      if made.Ok? {
        MakeDirsMakes(nodes, now, k);
        MakeDirsKeeps(nodes, now, k);
        nodes := made.value;
      }
      r := Status(made);
      log := log + [MadeDir(k)];
    }

    /** `open(p, "w")` and a write of `bytes`. */
    method Write(p: Path, bytes: seq<Byte>) returns (r: Result<()>)
      requires Valid() && ValidPath(p)
      modifies this`nodes, this`log
      ensures Valid()
      ensures r == Status(WriteSpec(old(nodes), now, Resolve(p), bytes))
      ensures nodes == if r.Ok? then WriteSpec(old(nodes), now, Resolve(p), bytes).value else old(nodes)
      ensures log == old(log) + [Wrote(Resolve(p))]
    {
      var k := Resolve(p);
      WriteFacts(nodes, now, k, bytes);
      var written := WriteSpec(nodes, now, k, bytes);
      if written.Ok? {
        nodes := written.value;
      }
      r := Status(written);
      log := log + [Wrote(k)];
    }

    /** `open(p).read()` of a cache file: its bytes, or the error `open` raises. */
    method Read(p: Path) returns (r: Result<seq<Byte>>)
      ensures r.Ok? <==> IsFile(nodes, Resolve(p))
      ensures r.Ok? ==> r.value == nodes[Resolve(p)].content
      ensures r == ReadSpec(nodes, Resolve(p))
    {
      r := ReadSpec(nodes, Resolve(p));
    }
  }
}
