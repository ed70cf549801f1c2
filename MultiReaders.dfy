/**
 * `MultiReader`: several JSONL files read as one. Each file gets its own
 * `Reader`; `recache` records, for the readers in order, the running totals
 * of their lengths (`cumulative_sizes`) and, for every overall position, the
 * reader that holds it (`instance_reader_map`). Position `idx` is then
 * record `idx - floor` of its reader, where `floor` is the total length of
 * the readers before it.
 */
module MultiReaders {
  import opened Common
  import opened Paths
  import opened Environment
  import opened Disk
  import opened CacheData
  import opened CacheInit
  import opened Slicing
  import opened Readers

  /** `sum(lengths[:n])`: the total length of the first n readers. */
  function Total(lengths: seq<nat>, n: nat): nat
    requires n <= |lengths|
  {
    if n == 0 then 0 else Total(lengths, n - 1) + lengths[n - 1]
  }

  /** Running totals never decrease. */
  lemma {:induction false} TotalMono(lengths: seq<nat>, i: nat, j: nat)
    requires i <= j <= |lengths|
    ensures Total(lengths, i) <= Total(lengths, j)
    decreases j - i
  {
    if i < j {
      TotalMono(lengths, i, j - 1);
    }
  }

  /**
   * `{i: sum(lengths[:i+1]) for i in range(n)}`, entry by entry, for the
   * first n readers.
   */
  function CumulativeUpTo(lengths: seq<nat>, n: nat): map<int, int>
    requires n <= |lengths|
  {
    if n == 0 then map[] else CumulativeUpTo(lengths, n - 1)[n - 1 := Total(lengths, n)]
  }

  /** Entry g of the running totals is the total length of readers 0 .. g, for each reader and nothing else. */
  lemma {:induction false} CumulativeEntries(lengths: seq<nat>, n: nat)
    requires n <= |lengths|
    ensures forall g :: g in CumulativeUpTo(lengths, n) <==> 0 <= g < n
    ensures forall g :: 0 <= g < n ==> CumulativeUpTo(lengths, n)[g] == Total(lengths, g + 1)
  {
    if n > 0 {
      CumulativeEntries(lengths, n - 1);
    }
  }

  /** `readers_info["cumulative_sizes"]`. */
  function CumulativeSizes(lengths: seq<nat>): map<int, int> {
    CumulativeUpTo(lengths, |lengths|)
  }

  /** `{idx: g for idx in range(lo, hi)}`: every position from lo up to hi belongs to g. */
  function Block(lo: int, hi: int, g: int): (r: map<int, int>)
    ensures forall idx :: idx in r <==> lo <= idx < hi
    ensures forall idx :: idx in r ==> r[idx] == g
    decreases hi - lo
  {
    if lo >= hi then map[] else Block(lo, hi - 1, g)[hi - 1 := g]
  }

  /**
   * `instance_reader_map`, built group by group as the comprehension does:
   * the positions of the first n readers, reader g claiming the positions
   * from the total before it up to the total including it.
   */
  function ReaderMapUpTo(lengths: seq<nat>, n: nat): map<int, int>
    requires n <= |lengths|
  {
    if n == 0 then map[]
    else ReaderMapUpTo(lengths, n - 1) + Block(Total(lengths, n - 1), Total(lengths, n), n - 1)
  }

  /**
   * The keys of the reader map are the positions 0 up to the total length,
   * and the reader of a position starts at or before it and ends after it.
   */
  lemma {:induction false} ReaderMapEntries(lengths: seq<nat>, n: nat)
    requires n <= |lengths|
    ensures forall idx :: idx in ReaderMapUpTo(lengths, n) <==> 0 <= idx < Total(lengths, n)
    ensures forall idx :: idx in ReaderMapUpTo(lengths, n) ==>
              0 <= ReaderMapUpTo(lengths, n)[idx] < n
              && Total(lengths, ReaderMapUpTo(lengths, n)[idx]) <= idx < Total(lengths, ReaderMapUpTo(lengths, n)[idx] + 1)
  {
    if n > 0 {
      ReaderMapEntries(lengths, n - 1);
      var prev, m := ReaderMapUpTo(lengths, n - 1), ReaderMapUpTo(lengths, n);
      var block := Block(Total(lengths, n - 1), Total(lengths, n), n - 1);
      assert m == prev + block;
      forall idx | idx in m
        ensures 0 <= m[idx] < n && Total(lengths, m[idx]) <= idx < Total(lengths, m[idx] + 1)
      {
        if idx in block {
          assert m[idx] == n - 1;
        } else {
          assert m[idx] == prev[idx];
        }
      }
    }
  }

  /** `readers_info["instance_reader_map"]`; every reader it names exists and has a floor to read. */
  function ReaderMap(lengths: seq<nat>): (r: map<int, int>)
    ensures TablesFit(r, CumulativeSizes(lengths), |lengths|)
  {
    ReaderMapEntries(lengths, |lengths|);
    CumulativeEntries(lengths, |lengths|);
    ReaderMapUpTo(lengths, |lengths|)
  }

  /** The positions of a multi-reader are 0 up to the sum of its readers' lengths. */
  lemma ReaderMapDomain(lengths: seq<nat>)
    ensures forall idx :: idx in ReaderMap(lengths) <==> 0 <= idx < Total(lengths, |lengths|)
  {
    ReaderMapEntries(lengths, |lengths|);
  }

  /**
   * Each position belongs to exactly one reader: the one whose running
   * totals enclose it. So a reader with no records owns no position.
   */
  lemma OwnerIsUnique(lengths: seq<nat>, idx: int, g: nat)
    requires g < |lengths| && Total(lengths, g) <= idx < Total(lengths, g + 1)
    ensures idx in ReaderMap(lengths) && ReaderMap(lengths)[idx] == g
    ensures lengths[g] > 0
  {
    TotalMono(lengths, g + 1, |lengths|);
    ReaderMapEntries(lengths, |lengths|);
    var h := ReaderMap(lengths)[idx];
    if h < g {
      TotalMono(lengths, h + 1, g);
    } else if h > g {
      TotalMono(lengths, g + 1, h);
    }
  }

  /**
   * Position `floor + j` of reader g is looked up as reader g, and the
   * floor read back from the running totals is the total before reader g.
   */
  lemma OwnerAndFloor(lengths: seq<nat>, g: nat, j: int)
    requires g < |lengths| && 0 <= j < lengths[g]
    ensures Total(lengths, g) + j in ReaderMap(lengths) && ReaderMap(lengths)[Total(lengths, g) + j] == g
    ensures g > 0 ==> g - 1 in CumulativeSizes(lengths) && CumulativeSizes(lengths)[g - 1] == Total(lengths, g)
    ensures g == 0 ==> Total(lengths, g) == 0
  {
    OwnerIsUnique(lengths, Total(lengths, g) + j, g);
    CumulativeEntries(lengths, |lengths|);
    if g > 0 {
      assert g - 1 + 1 == g;
    }
  }

  /** `sub_index = idx - floor`, for any position in the table, is a position of the reader that owns it. */
  lemma SubIndexInRange(lengths: seq<nat>, idx: int)
    requires idx in ReaderMap(lengths)
    ensures var g := ReaderMap(lengths)[idx];
            0 <= idx - (if g > 0 then CumulativeSizes(lengths)[g - 1] else 0) < lengths[g]
  {
    ReaderMapEntries(lengths, |lengths|);
    CumulativeEntries(lengths, |lengths|);
    var g := ReaderMap(lengths)[idx];
    if g > 0 {
      assert CumulativeSizes(lengths)[g - 1] == Total(lengths, g);
    }
  }

  /** Every owner in the table is one of n readers, and every reader after the first has a running total. */
  predicate TablesFit(owner: map<int, int>, cumulative: map<int, int>, n: nat) {
    forall idx :: idx in owner ==> 0 <= owner[idx] < n && (owner[idx] > 0 ==> owner[idx] - 1 in cumulative)
  }

  /**
   * `MultiReader._getitem`, given each reader's `_getitem`: the reader that
   * owns `idx` (a `KeyError` for a position no reader owns), then the floor
   * of that reader, then the record at `idx - floor` of that reader.
   */
  function MultiItemAt(owner: map<int, int>, cumulative: map<int, int>, gets: seq<Getter>, idx: int): Result<Json>
    requires TablesFit(owner, cumulative, |gets|)
  {
    if idx !in owner then Err(MissingKey(idx))
    else
      var g := owner[idx];
      var floor := if g > 0 then cumulative[g - 1] else 0;
      gets[g](idx - floor)
  }

  /**
   * Position `floor + j` of the multi-reader, for `j` below the length of
   * reader g, is record j of reader g.
   */
  lemma MultiItemLocates(lengths: seq<nat>, gets: seq<Getter>, g: nat, j: int)
    requires |gets| == |lengths| && g < |lengths| && 0 <= j < lengths[g]
    ensures MultiItemAt(ReaderMap(lengths), CumulativeSizes(lengths), gets, Total(lengths, g) + j) == gets[g](j)
  {
    OwnerAndFloor(lengths, g, j);
  }

  /** Every position outside 0 up to the total length is a `KeyError`. */
  lemma MultiItemOutside(lengths: seq<nat>, gets: seq<Getter>, idx: int)
    requires |gets| == |lengths| && !(0 <= idx < Total(lengths, |lengths|))
    ensures MultiItemAt(ReaderMap(lengths), CumulativeSizes(lengths), gets, idx) == Err(MissingKey(idx))
  {
    ReaderMapDomain(lengths);
  }

  /** `_getitem` through an owner table and a table of cumulative sizes, as a getter. */
  function TableGet(owner: map<int, int>, cumulative: map<int, int>, gets: seq<Getter>): Getter
    requires TablesFit(owner, cumulative, |gets|)
  {
    (idx: int) => MultiItemAt(owner, cumulative, gets, idx)
  }

  /** With the tables `recache` builds, `_getitem` lays the readers end to end. */
  lemma TablesConcatenate(lengths: seq<nat>, gets: seq<Getter>)
    requires |gets| == |lengths|
    ensures Concatenates(TableGet(ReaderMap(lengths), CumulativeSizes(lengths), gets), lengths, gets)
  {
    forall g, i | 0 <= g < |lengths| && 0 <= i < lengths[g]
      ensures TableGet(ReaderMap(lengths), CumulativeSizes(lengths), gets)(Total(lengths, g) + i) == gets[g](i)
    {
      MultiItemLocates(lengths, gets, g, i);
    }
  }

  /**
   * Reading every record of the first n readers, reader after reader: all
   * of them in order, or the first exception.
   */
  function ReadAllUpTo(lengths: seq<nat>, gets: seq<Getter>, n: nat): Result<seq<Json>>
    requires |gets| == |lengths| && n <= |lengths|
  {
    if n == 0 then Ok([])
    else Then(ReadAllUpTo(lengths, gets, n - 1), Collect(gets[n - 1], Range(0, lengths[n - 1], 1)))
  }

  /** `range(a, c)` is `range(a, b)` followed by `range(b, c)`. */
  lemma {:induction false} RangeSplit(a: int, b: int, c: int)
    requires a <= b <= c
    ensures Range(a, c, 1) == Range(a, b, 1) + Range(b, c, 1)
    decreases b - a
  {
    if a < b {
      RangeSplit(a + 1, b, c);
    }
  }

  /** Position `floor + i` of `m`, for the floor of reader g, is record i of reader g. */
  predicate Concatenates(m: Getter, lengths: seq<nat>, gets: seq<Getter>)
    requires |gets| == |lengths|
  {
    forall g, i :: 0 <= g < |lengths| && 0 <= i < lengths[g] ==> m(Total(lengths, g) + i) == gets[g](i)
  }

  /** Reading the first n - 1 readers' positions, then reader n - 1's, reads the first n readers. */
  lemma ReadsOneMore(m: Getter, lengths: seq<nat>, gets: seq<Getter>, n: nat)
    requires |gets| == |lengths| && 0 < n <= |lengths|
    requires Collect(m, Range(0, Total(lengths, n - 1), 1)) == ReadAllUpTo(lengths, gets, n - 1)
    requires Collect(m, Range(Total(lengths, n - 1), Total(lengths, n - 1) + lengths[n - 1], 1)) ==
             Collect(gets[n - 1], Range(0, lengths[n - 1], 1))
    ensures Collect(m, Range(0, Total(lengths, n), 1)) == ReadAllUpTo(lengths, gets, n)
  {
    var lo, hi := Total(lengths, n - 1), Total(lengths, n);
    assert hi == lo + lengths[n - 1];
    RangeSplit(0, lo, hi);
    CollectAppend(m, Range(0, lo, 1), Range(lo, hi, 1));
  }

  /** Positions 0 up to the total of the first n readers read as those readers one after another. */
  lemma {:induction false} ReadsUpTo(m: Getter, lengths: seq<nat>, gets: seq<Getter>, n: nat)
    requires |gets| == |lengths| && n <= |lengths| && Concatenates(m, lengths, gets)
    ensures Collect(m, Range(0, Total(lengths, n), 1)) == ReadAllUpTo(lengths, gets, n)
  {
    if n > 0 {
      ReadsUpTo(m, lengths, gets, n - 1);
      ShiftedCollect(m, gets[n - 1], Total(lengths, n - 1), lengths[n - 1]);
      ReadsOneMore(m, lengths, gets, n);
    }
  }

  /** `len(reader) for reader in self.readers`. */
  function Lengths(rs: seq<Reader>): (r: seq<nat>)
    reads rs
    ensures |r| == |rs| && forall i :: 0 <= i < |rs| ==> r[i] == rs[i].Len()
  {
    if rs == [] then [] else Lengths(rs[..|rs| - 1]) + [rs[|rs| - 1].Len()]
  }

  /** Each reader's `_getitem` on the tree as it is now. */
  function Getters(rs: seq<Reader>, nodes: Nodes, parse: Decoder): (r: seq<Getter>)
    reads rs
    ensures |r| == |rs| && forall i :: 0 <= i < |rs| ==> r[i] == rs[i].Get(nodes, parse)
  {
    if rs == [] then [] else Getters(rs[..|rs| - 1], nodes, parse) + [rs[|rs| - 1].Get(nodes, parse)]
  }

  function Min(a: nat, b: nat): nat {
    if a <= b then a else b
  }

  /** Every file path is one the file system can resolve. */
  predicate Resolvable(paths: seq<Path>) {
    forall i :: 0 <= i < |paths| ==> ValidPath(paths[i])
  }

  /** Every cache path given is one the file system can resolve. */
  predicate CachesResolvable(cachePaths: seq<Option<Path>>) {
    forall i :: 0 <= i < |cachePaths| ==> cachePaths[i].Some? ==> ValidPath(cachePaths[i].value)
  }

  /** The readers are those of `zip(paths, cache_paths)`, pair by pair, as far as the shorter list goes. */
  predicate OpenedOn(rs: seq<Reader>, paths: seq<Path>, cachePaths: seq<Option<Path>>)
    reads rs
  {
    && |rs| <= |paths| && |rs| <= |cachePaths|
    && forall j :: 0 <= j < |rs| ==> rs[j].path == paths[j] && rs[j].cachePath == cachePaths[j]
  }

  /**
   * `Reader(path, cache_path, **kwargs)` as the comprehension of `recache`
   * makes it: a new reader on the pair, or the exception `cache_init`
   * raised, the tree keeping its shape.
   */
  method OpenPair(fs: FileSystem, env: Env, p: Path, cachePath: Option<Path>, force: bool, checkTime: bool, checkHash: bool)
      returns (r: Result<Reader>)
    requires fs.Valid() && ValidPath(p) && ValidPath(env.home)
    requires cachePath.Some? ==> ValidPath(cachePath.value)
    modifies fs`nodes, fs`log
    ensures fs.Valid()
    ensures r.Ok? ==> fresh(r.value) && r.value.path == p && r.value.cachePath == cachePath
    ensures Resolve(p) !in old(fs.nodes) ==> r == Err(FileNotFound(Posix(p))) && fs.nodes == old(fs.nodes)
  {
    ghost var result;
    r, result := OpenReader(fs, env, p, cachePath, force, checkTime, checkHash);
  }

  /**
   * The loop of `recache`: a reader for each file and cache path of
   * `zip(paths, cache_paths)`, in order, or the exception of the first one
   * that cannot be made.
   */
  method OpenAll(fs: FileSystem, env: Env, paths: seq<Path>, cachePaths: seq<Option<Path>>, force: bool, checkTime: bool, checkHash: bool)
      returns (r: Result<seq<Reader>>)
    requires fs.Valid() && ValidPath(env.home) && Resolvable(paths) && CachesResolvable(cachePaths)
    modifies fs`nodes, fs`log
    ensures fs.Valid()
    ensures r.Ok? ==> |r.value| == Min(|paths|, |cachePaths|) && OpenedOn(r.value, paths, cachePaths)
    ensures r.Ok? ==> forall x :: x in r.value ==> fresh(x)
  {
    var n := Min(|paths|, |cachePaths|);
    var made: seq<Reader> := [];
    while |made| < n
      invariant |made| <= n && fs.Valid()
      invariant OpenedOn(made, paths, cachePaths)
      invariant forall x :: x in made ==> fresh(x)
    {
      var got := OpenPair(fs, env, paths[|made|], cachePaths[|made|], force, checkTime, checkHash);
      if got.Err? {
        return Err(got.error);
      }
      made := made + [got.value];
    }
    r := Ok(made);
  }

  /** Several files read as one. */
  class MultiReader {
    const paths: seq<Path>
    var cachePaths: seq<Option<Path>>
    var readers: seq<Reader>
    var cumulative: map<int, int>
    var owner: map<int, int>

    /** The tables are those of the readers as they are now. */
    ghost predicate Valid()
      reads this`readers, this`cumulative, this`owner, readers
    {
      cumulative == CumulativeSizes(Lengths(readers)) && owner == ReaderMap(Lengths(readers))
    }

    /** Every path the readers are opened on is one the file system can resolve. */
    predicate PathsValid()
      reads this
    {
      Resolvable(paths) && CachesResolvable(cachePaths)
    }

    /** `__init__` before `recache`: no readers yet. */
    constructor (paths: seq<Path>, cachePaths: seq<Option<Path>>)
      ensures this.paths == paths && this.cachePaths == cachePaths
      ensures readers == [] && Valid()
    {
      this.paths := paths;
      this.cachePaths := cachePaths;
      readers := [];
      cumulative := map[];
      owner := map[];
    }

    /** `__len__`: the sum of the readers' lengths. */
    function Len(): nat
      reads this, readers
    {
      Total(Lengths(readers), |readers|)
    }

    /** `_getitem`, through the stored tables, on the tree as it is now. */
    function Get(nodes: Nodes, parse: Decoder): Getter
      reads this, readers
      requires Valid()
    {
      TableGet(owner, cumulative, Getters(readers, nodes, parse))
    }

    /** `_getitem` lays the readers end to end, each from the floor the tables give it. */
    lemma GetConcatenates(nodes: Nodes, parse: Decoder)
      requires Valid()
      ensures Concatenates(Get(nodes, parse), Lengths(readers), Getters(readers, nodes, parse))
    {
      TablesConcatenate(Lengths(readers), Getters(readers, nodes, parse));
    }

    /** `_slice`, inherited from `Reader`, over the multi-reader's length and `_getitem`. */
    function SliceOf(nodes: Nodes, parse: Decoder, start: Option<int>, stop: Option<int>, step: Option<int>): Result<seq<Json>>
      reads this, readers
      requires Valid()
    {
      match SliceIndices(Len(), start, stop, step)
      case Err(e) => Err(e)
      case Ok(idxs) => Collect(Get(nodes, parse), idxs)
    }

    /** `__getitem__`, inherited from `Reader`. */
    function GetItem(nodes: Nodes, parse: Decoder, key: Key): Result<Item>
      reads this, readers
      requires Valid()
    {
      match key
      case Index(i) => (match Get(nodes, parse)(i) case Err(e) => Err(e) case Ok(v) => Ok(One(v)))
      case Slice(start, stop, step) =>
        match SliceOf(nodes, parse, start, stop, step) case Err(e) => Err(e) case Ok(vs) => Ok(Many(vs))
    }

    /**
     * `__iter__`, inherited from `Reader`: the records of the files one
     * after another, stopping at the first exception.
     */
    method Iterate(nodes: Nodes, parse: Decoder) returns (items: seq<Json>, err: Option<Error>)
      requires Valid()
      ensures forall i :: 0 <= i < |items| ==> GetItem(nodes, parse, Index(i)) == Ok(One(items[i]))
      ensures err.None? ==> |items| == Len() && ReadAllUpTo(Lengths(readers), Getters(readers, nodes, parse), |readers|) == Ok(items)
      ensures err.Some? ==> |items| < Len() && GetItem(nodes, parse, Index(|items|)) == Err(err.value)
      ensures err.Some? ==> ReadAllUpTo(Lengths(readers), Getters(readers, nodes, parse), |readers|) == Err(err.value)
    {
      items, err := IterateItems(Len(), Get(nodes, parse));
      GetConcatenates(nodes, parse);
      ReadsUpTo(Get(nodes, parse), Lengths(readers), Getters(readers, nodes, parse), |readers|);
    }

    /**
     * `recache`: a new list of cache paths must have one entry per file
     * (an `AssertionError` otherwise, before anything changes) and replaces
     * the stored one. A reader is opened for each file and cache path, as
     * far as the shorter of the two lists goes; the first one that raises
     * stops the rest and leaves the readers and tables as they were.
     * Otherwise the readers are the new ones and the tables are rebuilt.
     */
    method Recache(fs: FileSystem, env: Env, newPaths: Option<seq<Option<Path>>>, force: bool, checkTime: bool, checkHash: bool)
        returns (err: Option<Error>)
      requires Valid() && PathsValid() && fs.Valid() && ValidPath(env.home)
      requires newPaths.Some? ==> CachesResolvable(newPaths.value)
      modifies this`cachePaths, this`readers, this`cumulative, this`owner, fs`nodes, fs`log
      ensures Valid() && PathsValid() && fs.Valid()
      ensures newPaths.Some? && |newPaths.value| != |paths| ==>
                err == Some(CachePathCount) && cachePaths == old(cachePaths) && readers == old(readers)
                && fs.nodes == old(fs.nodes) && fs.log == old(fs.log)
      ensures newPaths.Some? && |newPaths.value| == |paths| ==> cachePaths == newPaths.value
      ensures newPaths.None? ==> cachePaths == old(cachePaths)
      ensures err.Some? ==> readers == old(readers) && cumulative == old(cumulative) && owner == old(owner)
      ensures err.None? ==> |readers| == Min(|paths|, |cachePaths|) && OpenedOn(readers, paths, cachePaths)
      ensures err.None? ==> forall x :: x in readers ==> fresh(x)
    {
      if newPaths.Some? && |newPaths.value| != |paths| {
        err := Some(CachePathCount);
      } else {
        if newPaths.Some? {
          cachePaths := newPaths.value;
        }
        var tried := OpenAll(fs, env, paths, cachePaths, force, checkTime, checkHash);
        if tried.Err? {
          err := Some(tried.error);
        } else {
          Install(tried.value);
          err := None;
        }
      }
    }

    /** The new readers, and the tables `recache` builds from their lengths. */
    method Install(made: seq<Reader>)
      modifies this`readers, this`cumulative, this`owner
      ensures readers == made && Valid()
    {
      var lengths := Lengths(made);
      readers, cumulative, owner := made, CumulativeSizes(lengths), ReaderMap(lengths);
      assert Lengths(readers) == lengths;
    }

    /** `force_recache`, inherited from `Reader`: `recache` with `force_cache=True`. */
    method ForceRecache(fs: FileSystem, env: Env, newPaths: Option<seq<Option<Path>>>) returns (err: Option<Error>)
      requires Valid() && PathsValid() && fs.Valid() && ValidPath(env.home)
      requires newPaths.Some? ==> CachesResolvable(newPaths.value)
      modifies this`cachePaths, this`readers, this`cumulative, this`owner, fs`nodes, fs`log
      ensures Valid() && PathsValid() && fs.Valid()
      ensures newPaths.Some? && |newPaths.value| != |paths| ==> err == Some(CachePathCount) && readers == old(readers)
      ensures err.Some? ==> readers == old(readers) && cumulative == old(cumulative) && owner == old(owner)
      ensures err.None? ==> |readers| == Min(|paths|, |cachePaths|) && OpenedOn(readers, paths, cachePaths)
      ensures err.None? ==> forall x :: x in readers ==> fresh(x)
    {
      err := Recache(fs, env, newPaths, true, false, false);
    }
  }

  /**
   * `MultiReader(path, cache_path, ...)`: no cache paths means one `None`
   * per file; the list given is stored without a length check, so `zip`
   * pairs files and cache paths only as far as the shorter list goes. When
   * a reader cannot be made, no multi-reader is made.
   */
  method OpenMulti(fs: FileSystem, env: Env, paths: seq<Path>, cachePaths: Option<seq<Option<Path>>>, force: bool, checkTime: bool, checkHash: bool)
      returns (r: Result<MultiReader>)
    requires fs.Valid() && ValidPath(env.home)
    requires Resolvable(paths) && (cachePaths.Some? ==> CachesResolvable(cachePaths.value))
    modifies fs`nodes, fs`log
    ensures fs.Valid()
    ensures r.Ok? ==> fresh(r.value) && r.value.Valid() && r.value.paths == paths
    ensures r.Ok? && cachePaths.None? ==> r.value.cachePaths == seq(|paths|, _ => None) && |r.value.readers| == |paths|
    ensures r.Ok? && cachePaths.Some? ==> r.value.cachePaths == cachePaths.value && |r.value.readers| == Min(|paths|, |cachePaths.value|)
    ensures r.Ok? ==> OpenedOn(r.value.readers, paths, r.value.cachePaths) && forall x :: x in r.value.readers ==> fresh(x)
  {
    var cps := if cachePaths.Some? then cachePaths.value else seq(|paths|, _ => None);
    var m := new MultiReader(paths, cps);
    var err := m.Recache(fs, env, None, force, checkTime, checkHash);
    if err.Some? {
      return Err(err.value);
    }
    r := Ok(m);
  }
}
