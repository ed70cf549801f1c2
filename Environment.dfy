/**
 * What the library takes from the process it runs in: the value of
 * `FAST_JSONL_DIR_METHOD` (`constants.DIR_METHOD`, `"user"` when unset),
 * `Path.home()`, SHA-256, `json.loads` for one line, and `json.dump` /
 * `json.load` for a cache document. None of them is implemented here.
 */
module Environment {
  import opened Common
  import opened Paths
  import opened CacheData

  const DefaultDirMethod: string := "user"

  datatype Env = Env(
    dirMethod: string,
    home: Path,
    sha: HashFunction,
    parse: Decoder,
    dumpDoc: CacheDoc -> seq<Byte>,
    loadDoc: seq<Byte> -> Option<CacheDoc>)

  /** `json.load` reads back what `json.dump` wrote. */
  ghost predicate DocRoundTrip(env: Env) {
    forall d :: env.loadDoc(env.dumpDoc(d)) == Some(d)
  }
}
