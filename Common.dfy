/**
 * Types shared by the whole model: bytes, the Option/Result wrappers, the
 * errors the library raises, JSON values, and the types of SHA-256 and of
 * the JSON decoder, which the model does not implement and takes as given.
 */
module Common {
  type Byte = b: int | 0 <= b < 256

  const Newline: Byte := 10

  datatype Option<T> = None | Some(value: T)

  datatype Result<T> = Ok(value: T) | Err(error: Error)

  /** The exceptions of the library, by the condition that raises them. */
  datatype Error =
    | FileNotFound(path: string)              // FileNotFoundError
    | NotADirectory(path: string)             // FileExistsError / NotADirectoryError from mkdir: a file is in the way
    | IsADirectory(path: string)              // IsADirectoryError: a directory opened as a file
    | Unreadable(path: string)                // the file at a cache path is not a cache document
    | SameLocation(path: string)              // AssertionError: cache path resolves to the source
    | UnknownDirMethod(value: string)         // ValueError: naming strategy is neither "local" nor "user"
    | BadCacheKey                             // ValueError: int() of a cache key
    | MissingKey(index: int)                  // KeyError: index absent from a lookup table
    | MoreCachedThanActual(index: int)        // RuntimeError: the cached offset is at end of file
    | Unparsable(index: int)                  // RuntimeError: the line at the offset is not JSON
    | NegativeSeek(offset: int)               // ValueError from seek()
    | ZeroStep                                // ValueError: range() with step 0
    | CachePathCount                          // AssertionError: cache path list of the wrong length

  /** A JSON value (RFC 8259); numbers keep their literal text. */
  datatype Json =
    | Null
    | Bool(b: bool)
    | Number(literal: string)
    | Str(s: string)
    | Array(elems: seq<Json>)
    | Object(members: seq<(string, Json)>)

  /** `json.loads` on the bytes of one line: `None` when it does not parse. */
  type Decoder = seq<Byte> -> Option<Json>

  predicate IsLowerHexDigit(c: char) {
    '0' <= c <= '9' || 'a' <= c <= 'f'
  }

  /** What `hashlib.sha256(...).hexdigest()` returns: 64 lower-case hex digits. */
  type Digest = s: string | |s| == 64 && forall i :: 0 <= i < |s| ==> IsLowerHexDigit(s[i])
    witness seq(64, _ => '0')

  type HashFunction = seq<Byte> -> Digest
}
