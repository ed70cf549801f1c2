/**
 * `Reader`: a JSONL file read by record number through its cache. The
 * reader keeps the file's path, the cache path it was given (if any) and
 * the cache `cache_init` returned; `recache` replaces the last two. Reading
 * record `idx` looks its offset up in the cache, seeks there in the file,
 * reads one line and decodes it without its newline.
 */
module Readers {
  import opened Common
  import opened Paths
  import opened Environment
  import opened Disk
  import opened Scanner
  import opened CacheData
  import opened CacheStore
  import opened CachePaths
  import opened CacheInit
  import opened Slicing

  /**
   * `Reader._getitem`: `cache["lines"][idx]`, `open(path)`, `seek`,
   * `readline`; a line with a newline loses it, an empty read means the
   * offset is past the last line, and the line must decode.
   */
  function ItemAt(nodes: Nodes, parse: Decoder, p: Path, lines: map<int, int>, idx: int): Result<Json> {
    if idx !in lines then Err(MissingKey(idx))
    else
      match ReadSpec(nodes, Resolve(p))
      case Err(e) => Err(e)
      case Ok(content) =>
        if lines[idx] < 0 then Err(NegativeSeek(lines[idx]))
        else
          var raw := ReadLine(content, lines[idx]);
          if raw == [] then Err(MoreCachedThanActual(idx))
          else
            match parse(StripNewline(raw))
            case None => Err(Unparsable(idx))
            case Some(v) => Ok(v)
  }

  /**
   * A record is read exactly when its number is cached, the file is there,
   * the offset lies inside the file and the line there decodes; each
   * failure raises its own error, the missing key first.
   */
  lemma ItemAtCases(nodes: Nodes, parse: Decoder, p: Path, lines: map<int, int>, idx: int)
    ensures ItemAt(nodes, parse, p, lines, idx).Ok? <==>
              && idx in lines && IsFile(nodes, Resolve(p))
              && 0 <= lines[idx] < |nodes[Resolve(p)].content|
              && parse(StripNewline(ReadLine(nodes[Resolve(p)].content, lines[idx]))).Some?
    ensures idx !in lines ==> ItemAt(nodes, parse, p, lines, idx) == Err(MissingKey(idx))
    ensures idx in lines && IsFile(nodes, Resolve(p)) && lines[idx] >= |nodes[Resolve(p)].content| ==>
              ItemAt(nodes, parse, p, lines, idx) == Err(MoreCachedThanActual(idx))
    ensures idx in lines && !IsFile(nodes, Resolve(p)) ==> ItemAt(nodes, parse, p, lines, idx) == Err(ReadSpec(nodes, Resolve(p)).error)
  {
  }

  /**
   * Against a cache made from the file as it is, record i is the i-th line
   * that decodes, for each i below the number of such lines, and every
   * other number is a missing key.
   */
  lemma FreshCacheReadsRecords(nodes: Nodes, env: Env, p: Path, k: Path, mtime: int)
    requires IsFile(nodes, Resolve(p))
    ensures forall i :: 0 <= i < |Parsed(LinesFrom(nodes[Resolve(p)].content, 0), env.parse)| ==>
              ItemAt(nodes, env.parse, p, Generated(env, k, nodes[Resolve(p)].content, mtime).lines, i) ==
              Ok(Parsed(LinesFrom(nodes[Resolve(p)].content, 0), env.parse)[i])
    ensures forall i :: !(0 <= i < |Parsed(LinesFrom(nodes[Resolve(p)].content, 0), env.parse)|) ==>
              ItemAt(nodes, env.parse, p, Generated(env, k, nodes[Resolve(p)].content, mtime).lines, i) == Err(MissingKey(i))
  {
    GeneratedDescribesSource(env, k, nodes[Resolve(p)].content, mtime);
  }

  /** The numbers 0 .. n - 1, as a set. */
  function Below(n: nat): (r: set<int>)
    ensures |r| == n
    ensures forall i :: i in r <==> 0 <= i < n
  {
    if n == 0 then {} else Below(n - 1) + {n - 1}
  }

  /** A map whose keys are exactly 0 .. n - 1 has n entries. */
  lemma DenseMapSize(m: map<int, int>, n: nat)
    requires forall i :: i in m <==> 0 <= i < n
    ensures |m| == n
  {
    assert m.Keys == Below(n);
  }

  /** `len(reader)` of a cache made from the file is the number of lines that decode. */
  lemma FreshCacheLength(env: Env, k: Path, content: seq<Byte>, mtime: int)
    ensures |Generated(env, k, content, mtime).lines| == |Parsed(LinesFrom(content, 0), env.parse)|
  {
    GeneratedDescribesSource(env, k, content, mtime);
    DenseMapSize(Generated(env, k, content, mtime).lines, |Parsed(LinesFrom(content, 0), env.parse)|);
  }

  /**
   * A file written one valid record per line reads back record by record:
   * the item at i, from the cache `scan_lines` builds, is line i decoded.
   */
  lemma JoinedFileReadsBack(nodes: Nodes, parse: Decoder, p: Path, ls: seq<seq<Byte>>, i: nat)
    requires WellFormedLines(ls, parse) && i < |ls|
    requires IsFile(nodes, Resolve(p)) && nodes[Resolve(p)].content == JoinLines(ls)
    ensures ItemAt(nodes, parse, p, IndexMap(Offsets(JoinLines(ls), 0, parse)), i) == Ok(parse(ls[i]).value)
  {
    SliceBetweenOffsets(ls, parse, i);
    var offsets := Offsets(JoinLines(ls), 0, parse);
    OffsetsOrdered(JoinLines(ls), 0, parse);
    assert offsets[i] < |JoinLines(ls)|;
  }

  /** `reader[idx]` takes a number or a slice. */
  datatype Key = Index(i: int) | Slice(start: Option<int>, stop: Option<int>, step: Option<int>)

  /** What `reader[idx]` returns: one record, or the list a slice reads. */
  datatype Item = One(value: Json) | Many(values: seq<Json>)

  /** A file read through its cache. */
  class Reader {
    const path: Path
    var cachePath: Option<Path>
    var cache: Cache

    /** The state `__init__` leaves once `recache` has returned `cache`. */
    constructor (path: Path, cachePath: Option<Path>, cache: Cache)
      ensures this.path == path && this.cachePath == cachePath && this.cache == cache
    {
      this.path := path;
      this.cachePath := cachePath;
      this.cache := cache;
    }

    /** `__len__`: the number of records in the cache. */
    function Len(): nat
      reads this
    {
      |cache.lines|
    }

    /** `_getitem`, on the tree as it is now. */
    function Get(nodes: Nodes, parse: Decoder): Getter
      reads this
    {
      var p, lines := path, cache.lines;
      (idx: int) => ItemAt(nodes, parse, p, lines, idx)
    }

    /** `_slice`: the records at the positions of the slice, in order, or the first exception. */
    function SliceOf(nodes: Nodes, parse: Decoder, start: Option<int>, stop: Option<int>, step: Option<int>): Result<seq<Json>>
      reads this
    {
      match SliceIndices(Len(), start, stop, step)
      case Err(e) => Err(e)
      case Ok(idxs) => Collect(Get(nodes, parse), idxs)
    }

    /** `__getitem__`: a slice goes to `_slice`, anything else to `_getitem`. */
    function GetItem(nodes: Nodes, parse: Decoder, key: Key): Result<Item>
      reads this
    {
      match key
      case Index(i) => (match Get(nodes, parse)(i) case Err(e) => Err(e) case Ok(v) => Ok(One(v)))
      case Slice(start, stop, step) =>
        match SliceOf(nodes, parse, start, stop, step) case Err(e) => Err(e) case Ok(vs) => Ok(Many(vs))
    }

    /**
     * `__iter__`: the records from 0 up to `len(self)`, then the exception
     * that stopped it; a full run reads what `reader[:]` reads.
     */
    method Iterate(nodes: Nodes, parse: Decoder) returns (items: seq<Json>, err: Option<Error>)
      ensures forall i :: 0 <= i < |items| ==> GetItem(nodes, parse, Index(i)) == Ok(One(items[i]))
      ensures err.None? ==> |items| == Len() && GetItem(nodes, parse, Slice(None, None, None)) == Ok(Many(items))
      ensures err.Some? ==> |items| < Len() && GetItem(nodes, parse, Index(|items|)) == Err(err.value)
    {
      items, err := IterateItems(Len(), Get(nodes, parse));
      FullSlice(Len());
    }

    /**
     * `recache`: a new cache path replaces the stored one, otherwise the
     * stored one is used; `cache_init` runs on that path, and the cache
     * becomes what it returns, or stays as it was when it raises. The ghost
     * result is what `cache_init` returned.
     */
    method Recache(fs: FileSystem, env: Env, newPath: Option<Path>, force: bool, checkTime: bool, checkHash: bool)
        returns (err: Option<Error>, ghost result: Result<Cache>)
      requires fs.Valid() && ValidPath(path) && ValidPath(env.home)
      requires cachePath.Some? ==> ValidPath(cachePath.value)
      requires newPath.Some? ==> ValidPath(newPath.value)
      modifies this`cachePath, this`cache, fs`nodes, fs`log
      ensures fs.Valid()
      ensures cachePath == if newPath.Some? then newPath else old(cachePath)
      ensures Initialized(old(fs.nodes), fs.now, env, path, cachePath, force, checkTime, checkHash, result, fs.nodes)
      ensures err.None? <==> result.Ok?
      ensures result.Ok? ==> cache == result.value
      ensures result.Err? ==> cache == old(cache) && err == Some(result.error)
    {
      if newPath.Some? {
        cachePath := newPath;
      }
      ghost var cp, locked, atLock, beforeLock, run;
      var got;
      got, cp, locked, atLock, beforeLock, run := CacheInitialize(fs, env, path, cachePath, force, checkTime, checkHash);
      result := got;
      if got.Ok? {
        cache := got.value;
        err := None;
      } else {
        err := Some(got.error);
      }
    }

    /**
     * `force_recache`: `recache` with `force_cache=True`. When `json.load`
     * reads back what `json.dump` wrote and the cache file is not the
     * source, a successful call leaves the cache generated from the source
     * as it was before the call.
     */
    method ForceRecache(fs: FileSystem, env: Env, newPath: Option<Path>) returns (err: Option<Error>, ghost result: Result<Cache>)
      requires fs.Valid() && ValidPath(path) && ValidPath(env.home)
      requires cachePath.Some? ==> ValidPath(cachePath.value)
      requires newPath.Some? ==> ValidPath(newPath.value)
      modifies this`cachePath, this`cache, fs`nodes, fs`log
      ensures fs.Valid()
      ensures cachePath == if newPath.Some? then newPath else old(cachePath)
      ensures Initialized(old(fs.nodes), fs.now, env, path, cachePath, true, false, false, result, fs.nodes)
      ensures err.None? <==> result.Ok?
      ensures err.Some? ==> cache == old(cache)
      ensures err.None? ==> BeforeLock(old(fs.nodes), fs.now, env, path, cachePath).Ok?
      ensures err.None? && DocRoundTrip(env) && Resolve(BeforeLock(old(fs.nodes), fs.now, env, path, cachePath).value.0) != Resolve(path) ==>
                GenerateSpec(old(fs.nodes), env, path) == Ok(cache)
    {
      err, result := Recache(fs, env, newPath, true, false, false);
      if err.None? && DocRoundTrip(env) && Resolve(BeforeLock(old(fs.nodes), fs.now, env, path, cachePath).value.0) != Resolve(path) {
        InitForced(old(fs.nodes), fs.now, env, path, cachePath, false, false, result, fs.nodes);
      }
    }
  }

  /**
   * `Reader(path, cache_path, ...)`: stores the paths and runs `recache`;
   * when `cache_init` raises, no reader is made.
   */
  method OpenReader(fs: FileSystem, env: Env, p: Path, cachePath: Option<Path>, force: bool, checkTime: bool, checkHash: bool)
      returns (r: Result<Reader>, ghost result: Result<Cache>)
    requires fs.Valid() && ValidPath(p) && ValidPath(env.home)
    requires cachePath.Some? ==> ValidPath(cachePath.value)
    modifies fs`nodes, fs`log
    ensures fs.Valid()
    ensures r.Ok? <==> result.Ok?
    ensures r.Err? ==> r.error == result.error
    ensures Initialized(old(fs.nodes), fs.now, env, p, cachePath, force, checkTime, checkHash, result, fs.nodes)
    ensures r.Ok? ==> fresh(r.value) && r.value.path == p && r.value.cachePath == cachePath && r.value.cache == result.value
    ensures Resolve(p) !in old(fs.nodes) ==> r == Err(FileNotFound(Posix(p))) && fs.nodes == old(fs.nodes)
  {
    ghost var cp, locked, atLock, beforeLock, run;
    var got;
    got, cp, locked, atLock, beforeLock, run := CacheInitialize(fs, env, p, cachePath, force, checkTime, checkHash);
    result := got;
    if got.Err? {
      return Err(got.error), result;
    }
    var reader := new Reader(p, cachePath, got.value);
    r := Ok(reader);
  }
}
