# fast_jsonl, modelled in Dafny

fast_jsonl reads large JSONL files by record number. The first time a file
is opened, `scan_lines` walks it once and records the byte offset where each
line that parses as JSON starts. That index is saved, together with the
file's resolved path, mtime and a SHA-256 token of its content, as a JSON
cache file. A `Reader` then serves `len`, `reader[i]`, slices and iteration
by seeking to the cached offset and decoding one line. A `MultiReader` lays
several readers end to end through a table of running totals and a table
from overall position to owning reader. `cache_init` decides, under a file
lock, whether to reuse, build or rebuild the cache.

The model covers `src/fast_jsonl/cache.py`, `src/fast_jsonl/reader.py` and
`src/fast_jsonl/lock.py`, one Dafny module per concern:

| module | models |
|---|---|
| `Common` | bytes, `Option`/`Result`, the exceptions the library raises, JSON values, digests |
| `Environment` | what the library takes from its process: `FAST_JSONL_DIR_METHOD`, `Path.home()`, SHA-256, `json.loads`, `json.dump`/`json.load` |
| `Paths` | the `pathlib` operations used: `/`, `parent`, `name`, `stem`, `resolve()`, `as_posix()` |
| `Disk` | the directories and files the library touches, as a `FileSystem` class whose methods are `exists`, `mkdir`, `open(..., "w")` and reads, with an event log |
| `Hashing` | `get_text_hash`, `get_file_hash`, `base16_to_base10`, `base10_to_base62` |
| `Scanner` | `scan_lines`, and what its offsets mean when read back |
| `CacheData` | the cache document, `str()`/`int()` on its keys, `json.dump` then `load_cache` |
| `CachePaths` | `filepath_to_cachepath`, `filepath_to_cachepath_local`, `filepath_to_cachepath_user` |
| `CacheStore` | `generate_cache_data`, `make_cache`, `load_cache`, `cache_exists`, `cache_time_valid`, `cache_hash_valid` |
| `Locking` | `Lock.get_filelock_path` and the `Lock` wrapper |
| `CacheInit` | `cache_init` |
| `Slicing` | `range`, the `_slice` defaults, the list comprehension of `_slice`, `__iter__` |
| `Readers` | `Reader` |
| `MultiReaders` | `MultiReader` |

Imperative code stays imperative:
- `scan_lines`, `base10_to_base62` and `get_file_hash` are methods with loops. Each is proved equal to a specification function, and the properties are lemmas about that function.
- `Reader`, `MultiReader`, `Lock` and the file system are classes whose methods update their fields.
- `cache_init` is a method over the `FileSystem`. Its steps under the lock are also specified step by step as pure functions over a `Run`: the value of the local `cache`, the tree, and the events since the lock was taken.

Where the code and the library's written description differ, the model
follows the code:
- The base-62 alphabet is `string.digits + string.ascii_letters`: digits, then lower-case, then upper-case letters.
- The time check keeps a cache whose recorded mtime is at least the file's (`>=`, cache.py line 216), not only one that "matches" it.
- Hash tokens use SHA-256, as `get_text_hash` and `get_file_hash` default to. The blake2b digests some tests expect are not what the code computes.

## Model

| member | source | states |
|---|---|---|
| Paths.JoinParts | src/fast_jsonl/cache.py:58 | the posix form has one `/` per component plus the components' characters |
| Paths.Parent | src/fast_jsonl/cache.py:44 | `parent` drops exactly one component, and the root is its own parent |
| Paths.Child | src/fast_jsonl/cache.py:44 | `p / name` appends the name as one component; `""` and `"."` leave `p` unchanged; valid paths stay valid |
| Paths.Normalize | src/fast_jsonl/cache.py:58 | resolving never lengthens a path, leaves no `..`, and keeps components valid |
| Paths.Resolve | src/fast_jsonl/cache.py:58 | `resolve()` of a valid path is a resolved path |
| Paths.NormalizeIdentity | src/fast_jsonl/cache.py:58 | resolving a path that has no `..` changes nothing |
| Paths.ResolveResolved | src/fast_jsonl/cache.py:58 | `resolve()` is the identity on resolved paths |
| Paths.ResolveChild | src/fast_jsonl/lock.py:31-32 | resolving commutes with appending a plain name |
| Paths.PosixChild | src/fast_jsonl/lock.py:32 | the posix form of `p / name` is that of `p` followed by `/name` |
| Paths.Stem | src/fast_jsonl/cache.py:46 | `stem` is a prefix of the name, empty only for the empty name, and has no `/` when the name has none |
| Hashing.Utf8Char | src/fast_jsonl/cache.py:35 | `str.encode()` gives 1 to 4 bytes per code point: one byte exactly for ASCII, otherwise a lead byte then continuation bytes |
| Hashing.Utf8 | src/fast_jsonl/cache.py:35 | `text.encode()` gives at least one byte per code point |
| Hashing.Utf8CharInjective | src/fast_jsonl/cache.py:35 | different code points are encoded as different bytes |
| Hashing.LastCharAlike | src/fast_jsonl/cache.py:35 | the last code point's encoding can be found from the end of the bytes: two encodings ending the same byte string have the same length |
| Hashing.Utf8Injective | src/fast_jsonl/cache.py:35 | `text.encode()` is injective: different texts have different UTF-8 bytes |
| Hashing.HexDigitValue | src/fast_jsonl/cache.py:128-129 | a hex digit of either case is worth less than 16 |
| Hashing.HexChar | src/fast_jsonl/cache.py:128-129 | the lower-case digit `hexdigest()` writes for d reads back as d |
| Hashing.Base16ToBase10 | src/fast_jsonl/cache.py:128-129 | `int(value, 16)` of n hex digits is below 16^n |
| Hashing.ToHex | src/fast_jsonl/cache.py:128-129 | writing a value back in hex gives exactly the requested number of digits |
| Hashing.HexRoundTrip | src/fast_jsonl/cache.py:128-129 | a lower-case hex string read with `int(., 16)` and written back in as many digits is the string again |
| Hashing.HexValueInjective | src/fast_jsonl/cache.py:128-129 | two digests with the same `int(., 16)` value are the same digest |
| Hashing.Digit62Value | src/fast_jsonl/cache.py:133-135 | every alphabet character has a position below 62 that `MAP62` maps back to it |
| Hashing.Digits62 | src/fast_jsonl/cache.py:136-141 | the digit list is non-empty and every digit is below 62 |
| Hashing.Digits62Leading | src/fast_jsonl/cache.py:136-141 | the most significant digit is 0 exactly when the value is 0 |
| Hashing.Base62 | src/fast_jsonl/cache.py:132-142 | `base10_to_base62` as a function: the base-62 spelling, most significant digit first; its properties are `Hashing.Base62Shape`, `Hashing.Base62RoundTrip` and `Hashing.Base62Injective` |
| Hashing.Base62Shape | src/fast_jsonl/cache.py:132-142 | the token is non-empty, uses only the alphabet, starts with `'0'` only for value 0, and is then exactly `"0"` |
| Hashing.Base62RoundTrip | src/fast_jsonl/cache.py:132-142 | reading the token back in base 62, most significant digit first, gives the value |
| Hashing.Base62Injective | src/fast_jsonl/cache.py:132-142 | distinct values get distinct tokens |
| Hashing.Base10ToBase62 | src/fast_jsonl/cache.py:132-142 | the loop that collects digits least significant first and then reverses them returns the base-62 spelling of the value |
| Hashing.TokenInjective | src/fast_jsonl/cache.py:33-36 | two digests give the same token exactly when they are the same digest |
| Hashing.TextToken | src/fast_jsonl/cache.py:33-36 | `get_text_hash`: the base-62 value of the SHA-256 hex digest of the UTF-8 bytes; `Hashing.TextTokenInjective` says when two texts share it |
| Hashing.TextTokenInjective | src/fast_jsonl/cache.py:33-36 | unless SHA-256 collides on their bytes, two texts have the same `get_text_hash` exactly when they are the same text |
| Hashing.ContentToken | src/fast_jsonl/cache.py:145-150 | the token of a byte content; `Hashing.TokenInjective` says equal tokens mean equal digests, and `Hashing.GetFileHash` is proved equal to it |
| Hashing.ReadChunk | src/fast_jsonl/cache.py:148 | `f.read(n)` returns the next bytes of the file, and nothing exactly at end of file |
| Hashing.GetFileHash | src/fast_jsonl/cache.py:145-150 | hashing the file 8192 bytes at a time gives the token of hashing its whole content at once |
| CacheData.DigitChar | src/fast_jsonl/cache.py:170-172 | the character written for a digit below 10 is a decimal digit |
| CacheData.NatString | src/fast_jsonl/cache.py:170-172 | `str(n)` of a natural is a non-empty string of digits |
| CacheData.NatStringRoundTrip | src/fast_jsonl/cache.py:191 | `str(n)` has no leading zero, reads back as n, and is `"0"` exactly for 0 |
| CacheData.CanonicalRoundTrip | src/fast_jsonl/cache.py:191 | digits without a leading zero are what `str()` writes for their value |
| CacheData.ParseNegative | src/fast_jsonl/cache.py:191 | `int("-" + t)` is minus the value of t |
| CacheData.DecimalRoundTrip | src/fast_jsonl/cache.py:189-191 | `int(str(n)) == n` for every integer n |
| CacheData.ParseDecimalExact | src/fast_jsonl/cache.py:191 | a key `int()` accepts is exactly `str()` of its value |
| CacheData.DecimalStringInjective | src/fast_jsonl/cache.py:170-172 | distinct indices are written as distinct keys |
| CacheData.ParseDecimalInjective | src/fast_jsonl/cache.py:191 | distinct accepted keys give distinct indices |
| CacheData.LoadLinesAt | src/fast_jsonl/cache.py:191 | each key of the file's table, converted with `int()`, holds the offset it held in the file |
| CacheData.LoadLinesKey | src/fast_jsonl/cache.py:191 | every loaded index comes from the key `str(index)` of the file's table |
| CacheData.LoadLinesSpec | src/fast_jsonl/cache.py:191 | `load_cache` fails exactly when some key is not a number; otherwise every key is converted, keeps its offset, and nothing else is in the table |
| CacheData.DumpLinesAt | src/fast_jsonl/cache.py:170-172 | `json.dump` writes every index under `str(index)` with its offset |
| CacheData.DumpLinesKey | src/fast_jsonl/cache.py:170-172 | every key `json.dump` writes converts back to an index of the table |
| CacheData.LoadDumpOk | src/fast_jsonl/cache.py:189-191 | loading a dumped table never raises `ValueError` |
| CacheData.LoadDumpKeeps | src/fast_jsonl/cache.py:189-191 | every saved index is loaded back with its offset |
| CacheData.LoadDumpAdds | src/fast_jsonl/cache.py:189-191 | nothing but the saved indices is loaded back |
| CacheData.LoadDumpLines | src/fast_jsonl/cache.py:189-191 | loading the dumped line table gives back the table |
| CacheData.LoadDumpRoundTrip | src/fast_jsonl/cache.py:180-192 | `load_cache` of what `make_cache` saved is the cache it saved |
| Scanner.LineEnd | src/fast_jsonl/cache.py:107 | a line read from `pos` ends after `pos`, inside the file, and is empty only at end of file |
| Scanner.TextEnd | src/fast_jsonl/cache.py:109-110 | a line's text ends between its start and the end of the line |
| Scanner.ReadLine | src/fast_jsonl/cache.py:107 | `readline()` returns `""` exactly at or past end of file, and otherwise the bytes up to the line end |
| Scanner.StrippedLine | src/fast_jsonl/cache.py:109-110 | a line read and stripped of its one trailing newline is the line's text |
| Scanner.LineEndShape | src/fast_jsonl/cache.py:107 | a line holds no newline except possibly its last byte, and ends with one unless it runs to end of file |
| Scanner.LineEndAt | src/fast_jsonl/cache.py:107 | a newline-free stretch followed by a newline or end of file is read as one line |
| Scanner.Offsets | src/fast_jsonl/cache.py:101-121 | what `scan_lines` records: the start offsets of the lines that parse, in file order; its properties are `Scanner.OffsetsOrdered`, `Scanner.OffsetsStartLines`, `Scanner.ReadBackAtOffsets` and `Scanner.EmptyLinesAddNone`, and `Scanner.ScanLines` is proved equal to it |
| Scanner.EmptyLinesAddNone | src/fast_jsonl/cache.py:103-118 | when the decoder rejects empty text (`json.loads("")` raises; the hypothesis `RejectsEmpty`), a `\n` alone is skipped, and no recorded offset starts a line with no text |
| Scanner.IndexMap | src/fast_jsonl/cache.py:115 | the record table's keys are exactly 0 .. k-1, and key i holds the i-th offset |
| Scanner.ScanStep | src/fast_jsonl/cache.py:108-120 | one pass of the loop keeps the offsets found so far plus those still ahead equal to all offsets of the file; a malformed line adds none |
| Scanner.ScanLines | src/fast_jsonl/cache.py:101-121 | the loop returns the table of the offsets of exactly the lines that parse, numbered in file order |
| Scanner.OffsetsOrdered | src/fast_jsonl/cache.py:115-119 | offsets lie inside the file and strictly increase with the record number |
| Scanner.OffsetsStartLines | src/fast_jsonl/cache.py:106-119 | every offset is the file's start or the byte just after a newline |
| Scanner.ReadBackAtOffsets | src/fast_jsonl/cache.py:113-119 | there is one offset per line that parses; reading one line back from offset i gives a non-empty line that decodes to the i-th parsed record |
| Scanner.JoinedLength | tests/data.py:9-16 | a file written one record per line without a final newline ends where its last line does |
| Scanner.JoinedAt | tests/data.py:9-16 | line i of such a file sits at its start offset |
| Scanner.JoinedNewline | tests/data.py:9-16 | every line but the last is followed by a newline |
| Scanner.JoinedLineEnd | tests/data.py:9-16 | line i of such a file is read back as exactly that line, ending where line i+1 starts |
| Scanner.OffsetsOfChain | src/fast_jsonl/cache.py:108-120 | when every line from a start to end of file parses, the offsets from there are exactly those line starts |
| Scanner.ScanOfJoined | tests/test_cache.py:63-85 | a file of valid records, one per line and no final newline (the empty file included), is indexed with one offset per line, at that line's start |
| Scanner.SliceBetweenOffsets | tests/test_cache.py:63-71 | the bytes from offset i to the next line start, with one newline stripped, are record i's line |
| CachePaths.ReplaceSlash | src/fast_jsonl/cache.py:59 | `replace("/", "--")` leaves no `/` and never shortens the string |
| CachePaths.ReplaceSlashRoundTrip | src/fast_jsonl/cache.py:59 | on paths without `-`, reading `--` back as `/` recovers the path |
| CachePaths.ReplaceSlashCollides | src/fast_jsonl/cache.py:78-84 | the files `/a/b` and `/a--b` get the same collision directory, `--a--b`: the `"/"` to `"--"` change alone does not keep files apart |
| CachePaths.JoinPartsStartsWithSlash | src/fast_jsonl/cache.py:58 | the posix form of a non-root path starts with `/` |
| CachePaths.PosixStartsWithSlash | src/fast_jsonl/cache.py:58 | every posix path starts with `/` |
| CachePaths.CacheFileNameIsPlain | src/fast_jsonl/cache.py:48 | a token followed by `.cache.json` is one plain path component |
| CachePaths.CacheFileName | src/fast_jsonl/cache.py:62-63 | the cache file name is a plain component |
| CachePaths.LocalCachePathShape | src/fast_jsonl/cache.py:39-48 | the local cache is `<parent>/.fj_cache/<stem>/<token of name>.cache.json`, and its parent is the stem directory |
| CachePaths.DashedNameIsPlain | src/fast_jsonl/cache.py:58-60 | the user strategy's directory name is a single component: it has no `/` and starts with `--` |
| CachePaths.UserCachePathShape | src/fast_jsonl/cache.py:51-63 | the user cache is `<home>/.local/share/fj_cache/<posix path with "--" for "/">/<token of posix path>.cache.json` |
| CachePaths.LocalCachePath | src/fast_jsonl/cache.py:39-48 | the local strategy's cache path; its shape is `CachePaths.LocalCachePathShape` |
| CachePaths.UserCachePath | src/fast_jsonl/cache.py:51-63 | the user strategy's cache path; its shape is `CachePaths.UserCachePathShape` |
| CachePaths.UserCachePathsDistinct | src/fast_jsonl/cache.py:82-84 | the hashed file name prevents the collisions: two files get the same user cache exactly when their resolved posix paths are equal, unless SHA-256 collides on those two paths |
| CachePaths.CachePathFor | src/fast_jsonl/cache.py:66-98 | `filepath_to_cachepath` without its directories: the strategy's path, or `ValueError` naming an unknown strategy; `CachePaths.CachePathValid` and `CachePaths.FilepathToCachepath` state its properties |
| CachePaths.CachePathValid | src/fast_jsonl/cache.py:89-92 | either strategy names a valid path |
| CachePaths.DirsReady | src/fast_jsonl/cache.py:45-47 | once both `mkdir` calls succeed, the tree stays well formed, nothing that was there changes, and the cache file's directory exists |
| CachePaths.DeriveReady | src/fast_jsonl/cache.py:66-98 | when derivation succeeds it returns the strategy's path, keeps the tree well formed and extends it, and the cache file can be written |
| CachePaths.MakeCacheDirs | src/fast_jsonl/cache.py:45-47 | the cache directory with its parents, then the collision directory: the result and new tree, which keeps the first directories if the second call fails; only directory making is logged |
| CachePaths.FilepathToCachepathLocal | src/fast_jsonl/cache.py:39-48 | makes the local strategy's directories and returns its path, or the `mkdir` error |
| CachePaths.UserDirsResolve | src/fast_jsonl/cache.py:56-60 | resolving the user strategy's directories resolves only the home directory |
| CachePaths.FilepathToCachepathUser | src/fast_jsonl/cache.py:51-63 | makes the user strategy's directories and returns its path, or the `mkdir` error |
| CachePaths.FilepathToCachepath | src/fast_jsonl/cache.py:66-98 | dispatches on `"local"` or `"user"`; any other value raises `ValueError` naming that value and touches nothing; success returns the strategy's path |
| Disk.MkdirFacts | src/fast_jsonl/cache.py:47 | `mkdir(exist_ok=True)` succeeds exactly when the path is a directory, or is free with a directory as parent; then the tree stays well formed and only that path changes |
| Disk.MakeDirsSucceeds | src/fast_jsonl/cache.py:45 | `mkdir(parents=True, exist_ok=True)` fails exactly when a file is on the way |
| Disk.MakeDirsPrefixes | src/fast_jsonl/cache.py:45 | afterwards the path and every ancestor of it are directories |
| Disk.MakeDirsWellformed | src/fast_jsonl/cache.py:45 | making directories with their parents keeps the tree well formed |
| Disk.MakeDirsMakes | src/fast_jsonl/cache.py:57 | after success the tree is well formed and the path and its ancestors are directories |
| Disk.MakeDirsKeeps | src/fast_jsonl/cache.py:57 | every existing entry is kept; each new entry is a directory on the way down to the path |
| Disk.MakeDirsIdempotent | src/fast_jsonl/cache.py:45 | making the same directories a second time changes nothing |
| Disk.WriteFacts | src/fast_jsonl/cache.py:170-172 | `open(path, "w")` succeeds exactly when the path is not a directory and its parent is one; then the file holds the bytes, the tree stays well formed, and nothing else changes |
| Disk.FileSystem.Exists | src/fast_jsonl/cache.py:203 | `exists()` is whether the resolved path is in the tree, and is logged as a probe |
| Disk.FileSystem.Mkdir | src/fast_jsonl/cache.py:47 | the tree after `mkdir(exist_ok=True)` and its result, the tree kept well formed and extended |
| Disk.FileSystem.MakeDirs | src/fast_jsonl/cache.py:45 | the tree after `mkdir(parents=True, exist_ok=True)` and its result, the tree kept well formed and extended |
| Disk.FileSystem.Write | src/fast_jsonl/cache.py:170-172 | the tree after a write and its result, the tree kept well formed |
| Disk.FileSystem.Read | src/fast_jsonl/cache.py:175-177 | `open(...).read()` of a cache file succeeds exactly when the path is a regular file, and returns its bytes; otherwise `IsADirectoryError`/`NotADirectoryError`/`FileNotFoundError`; nothing changes |
| CacheStore.GenerateSpecCases | src/fast_jsonl/cache.py:153-167 | a cache is generated exactly for a regular file, from its content and mtime; a missing source raises `FileNotFoundError`, a directory `IsADirectoryError` |
| CacheStore.GenerateSpec | src/fast_jsonl/cache.py:153-167 | `generate_cache_data` on a tree; its meaning is `CacheStore.GenerateSpecCases` and `CacheStore.GeneratedDescribesSource` |
| CacheStore.GeneratedDescribesSource | src/fast_jsonl/cache.py:153-167 | the cache records the resolved posix path, the mtime and the content token, has keys 0 .. k-1 for the k lines that parse, and offset i reads back as record i |
| CacheStore.GenerateCacheData | src/fast_jsonl/cache.py:163-167 | stats, hashes and scans the source, returning the cache of its content and mtime or the error |
| CacheStore.MakeCacheSucceeds | src/fast_jsonl/cache.py:180-186 | `make_cache` succeeds exactly when there is a cache to save and the file can be written, and returns the given or generated cache unchanged |
| CacheStore.MakeCacheWrites | src/fast_jsonl/cache.py:180-186 | afterwards the cache file holds the dumped cache, nothing else changes, and the tree stays well formed |
| CacheStore.MakeCacheSpec | src/fast_jsonl/cache.py:180-186 | `make_cache` at a cache path on a tree: result, tree and events; its meaning is `CacheStore.MakeCacheSucceeds` and `CacheStore.MakeCacheWrites` |
| CacheStore.LoadCache | src/fast_jsonl/cache.py:189-192 | `load_cache` on a tree: read, `json.load`, keys converted with `int()`; `CacheStore.LoadMadeCache` and `CacheData.LoadDumpRoundTrip` are its round trip |
| CacheStore.LoadCacheFile | src/fast_jsonl/cache.py:189-192 | `load_cache` on the disk raises unless a regular file is at the path, and otherwise returns what `CacheStore.LoadCache` gives for the tree |
| CacheStore.LoadMadeCache | src/fast_jsonl/cache.py:180-192 | when `json.load` reads back what `json.dump` wrote, `load_cache` of the file `make_cache` wrote is the cache it returned |
| CacheStore.MakeCacheAt | src/fast_jsonl/cache.py:180-186 | with a cache path: the result, the tree and the write event of saving the given or generated cache there |
| CacheStore.MakeCache | src/fast_jsonl/cache.py:180-186 | with a cache path as above; without one, the derived path holds the dumped cache and the result is the given or generated cache |
| CacheStore.SaveAtDerivedPath | src/fast_jsonl/cache.py:183-185 | on success the derived path exists and holds the dumped document |
| CacheStore.CacheExists | src/fast_jsonl/cache.py:195-203 | with a cache path: whether anything is there, probing only; without one: whether anything is at the derived path |
| CacheStore.CacheTimeValid | src/fast_jsonl/cache.py:206-216 | `cache_time_valid`: the recorded mtime is at least the file's; see `CacheStore.StaleCacheIsInvalid` |
| CacheStore.CacheHashValid | src/fast_jsonl/cache.py:219-232 | `cache_hash_valid`: the recorded hash is the token of the file's content; see `CacheStore.GeneratedIsValid` and `CacheStore.StaleCacheIsInvalid` |
| CacheStore.CheckCacheHash | src/fast_jsonl/cache.py:219-232 | hashing the file chunk by chunk decides whether the recorded hash is the token of its current content |
| CacheStore.GeneratedIsValid | src/fast_jsonl/cache.py:206-232 | a cache generated from the file as it is passes both checks |
| CacheStore.StaleCacheIsInvalid | src/fast_jsonl/cache.py:206-232 | the time check passes exactly when the recorded mtime is at least the file's; once the content hashes differently, the hash check fails |
| CacheInit.ErrorStops | src/fast_jsonl/cache.py:291-309 | once an exception is raised, the later steps change nothing |
| CacheInit.Made | src/fast_jsonl/cache.py:292 | `cache = make_cache(...)` as a step of the run; `CacheInit.MadeSameExcept` and `CacheInit.MadeIsValid` state what it keeps |
| CacheInit.Loaded | src/fast_jsonl/cache.py:298 | `cache = load_cache(cache_path)` as a step of the run: the tree and events are kept |
| CacheInit.ForceStep | src/fast_jsonl/cache.py:291-294 | lines 291-294 as a step of the run; `CacheInit.ForcedCacheIsFresh` states their effect |
| CacheInit.EnsureStep | src/fast_jsonl/cache.py:296-299 | lines 296-299 as a step of the run; `CacheInit.ExistingCacheIsLoaded` and `CacheInit.MissingCacheIsMade` state their effect |
| CacheInit.TimeStep | src/fast_jsonl/cache.py:301-302 | lines 301-302 as a step of the run; `CacheInit.TimeCheckRemakes` states their effect |
| CacheInit.HashStep | src/fast_jsonl/cache.py:304-305 | lines 304-305 as a step of the run; `CacheInit.HashCheckRemakes` states their effect |
| CacheInit.FinalStep | src/fast_jsonl/cache.py:308-309 | lines 308-309 as a step of the run; `CacheInit.FinalLoadIsDead` proves it never changes anything |
| CacheInit.Locked | src/fast_jsonl/cache.py:291-309 | the steps under the lock in order; `CacheInit.OnlyCacheFileChanges` and the lemmas after it state what they do |
| CacheInit.SettleSpec | src/fast_jsonl/cache.py:276-286 | lines 276-286 on a tree: `FileNotFoundError` for a missing source, `AssertionError` for a given cache path resolving to the source, otherwise the given path or the derived one with its directories |
| CacheInit.BeforeLock | src/fast_jsonl/cache.py:276-289 | lines 276-289 on a tree: the cache path and the tree the lock is taken on (`.locks` made when missing), or the exception raised first; `CacheInit.BeforeLockFacts` states its properties |
| CacheInit.MadeSameExcept | src/fast_jsonl/cache.py:292 | `make_cache` under the lock changes nothing but the cache file |
| CacheInit.EarlyStepsSameExcept | src/fast_jsonl/cache.py:291-299 | the force and ensure steps change nothing but the cache file |
| CacheInit.CheckStepsSameExcept | src/fast_jsonl/cache.py:301-305 | the time and hash checks change nothing but the cache file |
| CacheInit.OnlyCacheFileChanges | src/fast_jsonl/cache.py:291-309 | while holding the lock, `cache_init` writes the cache file and nothing else |
| CacheInit.CacheIsSet | src/fast_jsonl/cache.py:296-305 | after lines 296-299 the cache is set unless an exception was raised, and the checks keep it set |
| CacheInit.FinalLoadIsDead | src/fast_jsonl/cache.py:307-309 | the final load never runs: the result is that of the steps before it, and it is set |
| CacheInit.ExistingCacheIsLoaded | src/fast_jsonl/cache.py:296-299 | with no flags and a cache file present, `cache_init` returns `load_cache` of it, writes nothing and only probes |
| CacheInit.MadeKeepsSource | src/fast_jsonl/cache.py:301-305 | writing the cache file leaves the source's time and hash checks as they were |
| CacheInit.MadeIsValid | src/fast_jsonl/cache.py:301-305 | a cache just made from the source passes both checks |
| CacheInit.ValidChecksPass | src/fast_jsonl/cache.py:301-305 | a cache passing both checks is kept by lines 301-305 |
| CacheInit.MissingCacheIsMade | src/fast_jsonl/cache.py:296-305 | with no cache file, `cache_init` builds and saves one exactly once, whatever checks are asked for |
| CacheInit.ForcedCacheIsFound | src/fast_jsonl/cache.py:291-299 | after a forced build the file is probed again and loaded back as it was made |
| CacheInit.ForcedCacheIsFresh | src/fast_jsonl/cache.py:291-305 | with `force_cache`, the result is the cache made from the source; the run builds, then probes and reloads, and the checks keep it |
| CacheInit.TimeCheckRemakes | src/fast_jsonl/cache.py:301-302 | with `check_cache_time`, a loaded cache is kept exactly when its mtime is at least the source's, and rebuilt otherwise |
| CacheInit.HashCheckRemakes | src/fast_jsonl/cache.py:304-305 | with `check_cache_hash`, a loaded cache is kept exactly when its hash is the source's token, and rebuilt otherwise |
| CacheInit.BeforeLockFacts | src/fast_jsonl/cache.py:276-289 | when the lock is taken, the source existed, the cache path is the given one (not the source) or the derived one, and the tree at the lock is well formed and keeps every entry the caller had |
| CacheInit.ExtendedReadsAlike | src/fast_jsonl/cache.py:291-305 | a tree that keeps the source's entry generates, time-checks and hash-checks it as the caller's tree does, and loads an existing cache file the same way |
| CacheInit.InitLoadsExisting | src/fast_jsonl/cache.py:235-312 | `cache_init` with no flags, where a file is already at the cache path, returns `load_cache` of it as the caller's tree holds it and adds only what was made before the lock; this is why a stale cache is kept (tests/test_reader.py lines 193-197) |
| CacheInit.InitMakesMissing | src/fast_jsonl/cache.py:235-312 | `cache_init` without `force_cache`, with nothing at the cache path, succeeds exactly when saving works, returns the cache generated from the source as the caller saw it, and leaves the tree saving it leaves |
| CacheInit.InitForced | src/fast_jsonl/cache.py:235-312 | `cache_init` with `force_cache` returns the cache generated from the source as the caller saw it, whatever was at the cache path, when `json.load` reads back what `json.dump` wrote |
| CacheInit.InitTimeCheck | src/fast_jsonl/cache.py:235-312 | `cache_init` with `check_cache_time` returns the existing cache when its mtime is at least the source's, and otherwise a cache generated from the source |
| CacheInit.InitHashCheck | src/fast_jsonl/cache.py:235-312 | `cache_init` with `check_cache_hash` returns the existing cache when its hash is the source's token, and otherwise a cache generated from the source |
| CacheInit.MakeStep | src/fast_jsonl/cache.py:292 | `cache = make_cache(...)` on the disk follows its specification step |
| CacheInit.ForcePhase | src/fast_jsonl/cache.py:291-294 | lines 291-294 on the disk follow their specification step |
| CacheInit.EnsurePhase | src/fast_jsonl/cache.py:296-299 | lines 296-299 on the disk follow their specification step |
| CacheInit.TimePhase | src/fast_jsonl/cache.py:301-302 | lines 301-302 on the disk follow their specification step |
| CacheInit.HashPhase | src/fast_jsonl/cache.py:304-305 | lines 304-305 on the disk follow their specification step |
| CacheInit.LockedSteps | src/fast_jsonl/cache.py:291-309 | the steps under the lock return the run's cache or its exception, and leave its tree and events |
| CacheInit.SettleCachePath | src/fast_jsonl/cache.py:276-286 | the result and the tree are those of `CacheInit.SettleSpec`: a missing source raises `FileNotFoundError` and changes nothing; a given cache path resolving to the source raises `AssertionError`; otherwise the given path, or the derived one, whose directories are made |
| CacheInit.LockAndRun | src/fast_jsonl/cache.py:288-312 | the lock is taken exactly when `.locks` is there or can be made, on the tree `Locking.LockDirSpec` gives; otherwise the `mkdir` error with nothing changed; the steps then run once, and the lock is released once only on a normal return |
| CacheInit.CacheInitialize | src/fast_jsonl/cache.py:235-312 | `cache_init` on the caller's tree returns and leaves what `Initialized` relates: the pre-lock exceptions touch no cache and take no lock; the lock is taken exactly when `CacheInit.BeforeLock` succeeds, on its cache path and tree; then the result is the run under the lock, bracketed by acquire and release |
| Locking.LockPathSuffix | src/fast_jsonl/lock.py:32 | the lock path always ends in `.lock` |
| Locking.LockPathOfChild | src/fast_jsonl/lock.py:26-33 | for a file `n` in a directory, the lock is `<resolved directory>/.locks/n.lock` |
| Locking.LockOfUpIsDir | src/fast_jsonl/lock.py:31-32 | `dir/.locks/..` resolves to `dir` |
| Locking.LockPathIsNotGuardedPath | src/fast_jsonl/lock.py:26-33 | the lock path is never the posix form of the path it guards |
| Locking.LockPathsDistinct | src/fast_jsonl/lock.py:31-32 | files with different names in one directory get different locks |
| Locking.LockPath | src/fast_jsonl/lock.py:26-33 | `get_filelock_path` without its `mkdir`; its properties are `Locking.LockPathSuffix` to `Locking.LockPathsDistinct` |
| Locking.LockDirSpec | src/fast_jsonl/lock.py:29-30 | the tree `Lock(path)` leaves: `.locks` made when nothing is there, or the `mkdir` error |
| Locking.LockDirFacts | src/fast_jsonl/lock.py:29-30 | taking the lock fails exactly when `.locks` is missing and its parent is not a directory; otherwise `.locks` is there, and the tree stays well formed and gains at most that entry |
| Locking.GetFilelockPath | src/fast_jsonl/lock.py:26-33 | makes `.locks` only when it is missing, then returns the lock path; a second call probes and changes nothing |
| Locking.Lock.constructor | src/fast_jsonl/lock.py:21-23 | the lock keeps its path and is not held |
| Locking.Lock.Acquire | src/fast_jsonl/lock.py:35-36 | holds the lock once more and logs it, changing nothing else |
| Locking.Lock.Release | src/fast_jsonl/lock.py:38-39 | gives one hold back (none when not held) and logs it, changing nothing else |
| Locking.MakeLock | src/fast_jsonl/lock.py:21-23 | a new, unheld lock on the lock path exactly when `Locking.LockDirSpec` succeeds, leaving its tree; otherwise its error with the tree unchanged |
| Readers.ItemAtCases | src/fast_jsonl/reader.py:141-162 | a record is read exactly when its number is cached, the file is there, the offset is inside the file and the line decodes; a missing key raises `KeyError` and an offset at end of file the "more cached than actual" `RuntimeError` |
| Readers.ItemAt | src/fast_jsonl/reader.py:141-162 | `_getitem` on a tree and a line table; its cases are `Readers.ItemAtCases` |
| Readers.FreshCacheReadsRecords | src/fast_jsonl/reader.py:141-162 | against a cache made from the file as it is, record i is the i-th line that decodes, and every other number is a missing key |
| Readers.FreshCacheLength | src/fast_jsonl/reader.py:129-130 | `len(reader)` of a fresh cache is the number of lines that decode |
| Readers.JoinedFileReadsBack | src/fast_jsonl/reader.py:141-156 | in a file written one valid record per line, item i is line i decoded |
| Readers.Reader.constructor | src/fast_jsonl/reader.py:84-86 | the reader stores its path, cache path and cache |
| Readers.Reader.Len | src/fast_jsonl/reader.py:129-130 | `__len__`; `Readers.FreshCacheLength` says what it counts |
| Readers.Reader.Get | src/fast_jsonl/reader.py:141-162 | `_getitem` over the stored path and cache; `Readers.FreshCacheReadsRecords` says what it reads |
| Readers.Reader.SliceOf | src/fast_jsonl/reader.py:132-139 | `_slice`: the records at the slice's positions, in order, or the first exception; see `Slicing.CollectMeaning` |
| Readers.Reader.GetItem | src/fast_jsonl/reader.py:164-177 | `__getitem__`: an index goes to `_getitem`, a slice to `_slice` |
| Readers.Reader.Iterate | src/fast_jsonl/reader.py:179-181 | `__iter__` yields `reader[i]` for i from 0 in order; a full run has `len` items equal to `reader[:]`, and an early stop is `reader[i]`'s exception |
| Readers.Reader.Recache | src/fast_jsonl/reader.py:94-114 | a new cache path replaces the stored one; `cache_init` runs on the stored path as `CacheInit.CacheInitialize` states it, from the tree before the call; the cache becomes what it returns, and stays when it raises |
| Readers.Reader.ForceRecache | src/fast_jsonl/reader.py:116-127 | `recache` with `force_cache=True`, with the same guarantees; a success leaves the cache generated from the source as it was before the call |
| Readers.OpenReader | src/fast_jsonl/reader.py:60-92 | `Reader(...)` stores its arguments and the cache `cache_init` returns on the caller's tree, as `CacheInit.CacheInitialize` states it; an exception means no reader, and a missing file raises `FileNotFoundError` |
| Slicing.RangeMembers | src/fast_jsonl/reader.py:139 | element i of `range(start, stop, step)` is `start + step*i`, every element is before `stop` in the step's direction, and the next would not be |
| Slicing.Range | src/fast_jsonl/reader.py:139 | `range(start, stop, step)`; its elements are `Slicing.RangeMembers` |
| Slicing.CountingRange | src/fast_jsonl/reader.py:180 | `range(n)` is 0, 1, ..., n-1, and empty when n is not positive |
| Slicing.CountingFrom | src/fast_jsonl/reader.py:262 | `range(a, b)` is a, a+1, ..., b-1 |
| Slicing.SliceIndices | src/fast_jsonl/reader.py:132-139 | the positions `_slice` reads, after filling in the defaults; see `Slicing.FullSlice`, `Slicing.BackwardSliceSkipsFirst` and `Slicing.ZeroStepRefused` |
| Slicing.FullSlice | src/fast_jsonl/reader.py:132-139 | `reader[:]` reads every position in order |
| Slicing.BackwardSliceSkipsFirst | src/fast_jsonl/reader.py:135-139 | `reader[::-1]` reads from the last position down, and its default stop leaves position 0 out |
| Slicing.ZeroStepRefused | src/fast_jsonl/reader.py:139 | a step of 0 raises `ValueError` whatever the bounds |
| Slicing.Collect | src/fast_jsonl/reader.py:139 | the list comprehension of `_slice`; its meaning is `Slicing.CollectMeaning` |
| Slicing.CollectMeaning | src/fast_jsonl/reader.py:139 | the comprehension succeeds exactly when every read does, giving each item at its position; otherwise it raises the exception of a read that follows only successes |
| Slicing.FirstErrorIsRaised | src/fast_jsonl/reader.py:139 | the first failing read's exception is the one raised |
| Slicing.CollectAppend | src/fast_jsonl/reader.py:139 | reading two lists of indices one after the other gives the items of both, or the first exception |
| Slicing.IterateItems | src/fast_jsonl/reader.py:179-181 | the generator yields `get(i)` for i from 0 in order; a full run is what the whole range reads, and an early stop carries `get(i)`'s exception |
| MultiReaders.CumulativeEntries | src/fast_jsonl/reader.py:254-257 | `cumulative_sizes[g]` is the total length of readers 0 .. g, for each reader and nothing else |
| MultiReaders.Block | src/fast_jsonl/reader.py:259-263 | every position from `lo` up to `hi` belongs to reader g, and no other |
| MultiReaders.ReaderMapEntries | src/fast_jsonl/reader.py:259-263 | the reader map covers exactly 0 up to the total, and each position's reader starts at or before it and ends after it |
| MultiReaders.ReaderMap | src/fast_jsonl/reader.py:259-263 | every reader the map names exists, and each one after the first has a running total to read its floor from |
| MultiReaders.ReaderMapDomain | src/fast_jsonl/reader.py:259-266 | the positions are exactly 0 up to the sum of the readers' lengths, which is `len` |
| MultiReaders.OwnerIsUnique | src/fast_jsonl/reader.py:259-263 | each position belongs to the unique reader whose running totals enclose it, so an empty reader owns nothing |
| MultiReaders.OwnerAndFloor | src/fast_jsonl/reader.py:268-271 | position `floor + j` of reader g maps to g, and the floor read from the running totals is the total before g |
| MultiReaders.SubIndexInRange | src/fast_jsonl/reader.py:268-271 | `sub_index = idx - floor` lies in `[0, len(readers[g]))` for the owning reader g |
| MultiReaders.MultiItemAt | src/fast_jsonl/reader.py:268-272 | `MultiReader._getitem` through the two tables; `MultiReaders.MultiItemLocates` and `MultiReaders.MultiItemOutside` state what it reads |
| MultiReaders.MultiItemLocates | src/fast_jsonl/reader.py:268-272 | `_getitem` at position `floor + j`, where `floor` is the total before reader g and j is below its length, is record j of reader g |
| MultiReaders.MultiItemOutside | src/fast_jsonl/reader.py:268-269 | a position outside 0 up to the total raises `KeyError` |
| MultiReaders.TablesConcatenate | src/fast_jsonl/reader.py:252-272 | with the tables `recache` builds, `_getitem` lays the readers end to end |
| MultiReaders.ReadsUpTo | src/fast_jsonl/reader.py:179-181 | reading positions 0 up to the total of the first n readers reads those readers one after another, or raises the first exception |
| MultiReaders.Lengths | src/fast_jsonl/reader.py:252 | `lengths[i]` is `len(readers[i])` |
| MultiReaders.OpenPair | src/fast_jsonl/reader.py:241-251 | `Reader(path, cache_path, **kwargs)` in the comprehension: a new reader on that pair, or the exception; a missing file raises `FileNotFoundError` |
| MultiReaders.OpenAll | src/fast_jsonl/reader.py:241-251 | a new reader for each pair of `zip(path, cache_path)`, in order and as far as the shorter list goes, or the first exception |
| MultiReaders.MultiReader.constructor | src/fast_jsonl/reader.py:216-221 | stores the paths and cache paths, with no readers yet |
| MultiReaders.MultiReader.Len | src/fast_jsonl/reader.py:265-266 | `__len__`: the sum of the readers' lengths; `MultiReaders.ReaderMapDomain` says the positions are exactly those below it |
| MultiReaders.MultiReader.Get | src/fast_jsonl/reader.py:268-272 | `_getitem` through the stored tables; `MultiReaders.MultiReader.GetConcatenates` states what it reads |
| MultiReaders.MultiReader.SliceOf | src/fast_jsonl/reader.py:132-139 | the inherited `_slice` over the multi-reader's `_getitem` |
| MultiReaders.MultiReader.GetItem | src/fast_jsonl/reader.py:164-177 | the inherited `__getitem__` over the multi-reader's `_getitem` and `_slice` |
| MultiReaders.MultiReader.GetConcatenates | src/fast_jsonl/reader.py:268-272 | `_getitem` through the stored tables lays the readers end to end |
| MultiReaders.MultiReader.Iterate | src/fast_jsonl/reader.py:179-181 | iteration yields `self[i]` in order; a full run is the records of the files one after another, and an early stop raises the first exception of that concatenation |
| MultiReaders.MultiReader.Recache | src/fast_jsonl/reader.py:228-263 | a cache path list of the wrong length raises `AssertionError` before anything changes; otherwise it replaces the stored list; an exception leaves readers and tables as they were; success installs new readers on `zip(path, cache_path)` and rebuilds the tables from them |
| MultiReaders.MultiReader.Install | src/fast_jsonl/reader.py:252-263 | the tables are rebuilt from the new readers' lengths |
| MultiReaders.MultiReader.ForceRecache | src/fast_jsonl/reader.py:116-127 | `recache` with `force_cache=True`, with the same guarantees |
| MultiReaders.OpenMulti | src/fast_jsonl/reader.py:186-226 | no cache paths means one `None` per file; a given list is stored unchecked; the new readers are those of `zip(path, cache_path)`, as far as the shorter list goes |

## Left out

- Bytes and text: files are byte sequences split at `\n`. Universal-newline translation and text-mode decoding are left out. `tell()` and offsets are byte positions.
- `int()` is modelled only on the spellings `str()` writes: an optional `-` and digits without a leading zero. Other spellings that Python accepts (`"+1"`, `"007"`, spaces, underscores) are modelled as `ValueError`. `json.dump` never writes them.
- Paths are absolute lists of components. `resolve()` removes `..` and ignores symbolic links. Relative paths and the working directory are not modelled.
- mtimes are integers, and every write in one run stamps the same time, `FileSystem.now`. The clock does not advance.
- SHA-256, `json.loads` of one line, `json.dump`/`json.load` of a cache document and `Path.home()` are uninterpreted fields of `Env`. `json.load(json.dump(d)) == d` is a hypothesis (`DocRoundTrip`) where it is needed. SHA-256 has finitely many digests, so it cannot be injective; where distinct inputs need distinct tokens, the hypothesis `NoCollision` names the two inputs.
- `FAST_JSONL_DIR_METHOD` is the field `Env.dirMethod`, with default `"user"`. `src/fast_jsonl/constants.py` and `src/fast_jsonl/cli.py` (argument parsing, a thread pool, printing) are not part of this model.
- `filelock.FileLock`: mutual exclusion between processes, blocking and the lock file on disk are not modelled. The lock is its hold count, and acquire and release are logged.
- The lock stays held when a step under it raises, as in the source (no `finally`). The model states this through the event log rather than as a property.
- Reads are not logged: only probes, directory making, writes and lock events are.
- The dead branch at cache.py lines 308-309 is modelled and proved dead (`CacheInit.FinalLoadIsDead`). The `and cache` guards at lines 301 and 304 are modelled as "the cache is set", since a cache dict is never empty.
- Garbage collection, and readers shared with other code (aliasing), are not modelled.
- `Readers.Reader.GetItem`, `Readers.Reader.SliceOf`, `Readers.Reader.Iterate` and their `MultiReaders.MultiReader` counterparts take the tree and the decoder as parameters. They read the file as it is at that moment.
- The concrete test of three 10-record files giving length 30 is not restated. The general sum law is `MultiReaders.ReaderMapDomain`.
- Tests that disagree with the code were followed by the code: blake2b digests and a missing `get_hash`, outdated expected paths, and list indexing of a reader.
- CacheStore.SaveAtDerivedPath: states only the success case, not the tree after a failed directory or write step.
- CacheStore.MakeCache: without a cache path, states the result and the content of the derived cache file, not the whole tree or the event log.
- CacheStore.CacheExists: without a cache path, does not state the directories the derivation makes.
- Readers.Reader.ForceRecache: the generated cache is stated outright only when `json.load` reads back what `json.dump` wrote and the cache file is not the source. Otherwise the result is given through `Initialized`.
- CacheStore.LoadCache: a cache file that `json.load` reads but that lacks `"meta"`, or has other malformed parts, is modelled as `Unreadable`. `load_cache` itself only needs `"lines"`. The distinctions between `KeyError`, `TypeError` and `JSONDecodeError` are not modelled either.
- MultiReaders.OpenAll: states each reader's path and cache path, but not its cache or the tree afterwards.
- MultiReaders.OpenPair: states the reader's path and cache path, and the missing-file error, but not its cache (which `Readers.OpenReader` states).
- MultiReaders.OpenMulti: inherits the gap of `MultiReaders.OpenAll`: the readers' caches are not tied to `cache_init`'s results.
- Scanner.EmptyLinesAddNone: the guarantee that empty lines are never recorded holds under the hypothesis `RejectsEmpty` (`json.loads("")` raises). Lines of whitespace only, which `json.loads` also rejects, are not covered, since the decoder is a parameter.
- MultiReaders.MultiReader.Recache: ties the new readers to their paths, not their caches to `cache_init`'s results.
- MultiReaders.MultiReader.ForceRecache: inherits the weaker guarantees of `MultiReaders.MultiReader.Recache`.
