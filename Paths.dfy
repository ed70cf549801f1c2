/**
 * The part of Python's `pathlib` that the cache and lock path derivations
 * use. A path is absolute: a list of components, each non-empty, without a
 * `/` and other than `.`. A component may be `..` until the path is
 * resolved. Its posix form is `/` followed by the components joined with
 * `/`; the root is `/`.
 */
module Paths {

  datatype Path = Path(parts: seq<string>)

  const Root: Path := Path([])

  /** A component as a pure path stores it: `.` and empty names are dropped when joining. */
  predicate ValidPart(s: string) {
    s != [] && '/' !in s && s != "."
  }

  predicate ValidPath(p: Path) {
    forall i :: 0 <= i < |p.parts| ==> ValidPart(p.parts[i])
  }

  /** A path as `resolve()` returns it: no `..` left. */
  predicate Resolved(p: Path) {
    ValidPath(p) && forall i :: 0 <= i < |p.parts| ==> p.parts[i] != ".."
  }

  /** `"/" + part` for each component, concatenated. */
  function JoinParts(parts: seq<string>): (s: string)
    ensures |s| == |parts| + SumLengths(parts)
  {
    if parts == [] then "" else JoinParts(parts[..|parts| - 1]) + "/" + parts[|parts| - 1]
  }

  function SumLengths(parts: seq<string>): nat {
    if parts == [] then 0 else SumLengths(parts[..|parts| - 1]) + |parts[|parts| - 1]|
  }

  /** `Path.as_posix()` */
  function Posix(p: Path): string {
    if p.parts == [] then "/" else JoinParts(p.parts)
  }

  /** `Path.parent`, purely on the components: the root is its own parent. */
  function Parent(p: Path): (q: Path)
    ensures |q.parts| == if p.parts == [] then 0 else |p.parts| - 1
  {
    if p.parts == [] then p else Path(p.parts[..|p.parts| - 1])
  }

  /** `Path.name`: the last component, empty for the root. */
  function Name(p: Path): string {
    if p.parts == [] then "" else p.parts[|p.parts| - 1]
  }

  /** `p / name` for a single component; joining the empty name or `.` gives `p`. */
  function Child(p: Path, name: string): (c: Path)
    requires '/' !in name
    ensures ValidPath(p) ==> ValidPath(c)
    ensures name == [] || name == "." ==> c == p
    ensures name != [] && name != "." ==> c.parts == p.parts + [name]
  {
    if name == [] || name == "." then p else Path(p.parts + [name])
  }

  /**
   * `resolve()` without symbolic links: `..` removes the component before
   * it, and the root is its own parent.
   */
  function Normalize(parts: seq<string>): (r: seq<string>)
    ensures |r| <= |parts|
    ensures forall i :: 0 <= i < |r| ==> r[i] != ".."
    ensures (forall i :: 0 <= i < |parts| ==> ValidPart(parts[i])) ==> forall i :: 0 <= i < |r| ==> ValidPart(r[i])
  {
    if parts == [] then []
    else
      var init := Normalize(parts[..|parts| - 1]);
      if parts[|parts| - 1] == ".." then (if init == [] then [] else init[..|init| - 1])
      else init + [parts[|parts| - 1]]
  }

  function Resolve(p: Path): (r: Path)
    ensures ValidPath(p) ==> Resolved(r)
  {
    Path(Normalize(p.parts))
  }

  /** Resolving a path without `..` leaves it as it is. */
  lemma {:induction false} NormalizeIdentity(parts: seq<string>)
    requires forall i :: 0 <= i < |parts| ==> parts[i] != ".."
    ensures Normalize(parts) == parts
  {
    if parts != [] {
      NormalizeIdentity(parts[..|parts| - 1]);
      assert parts == parts[..|parts| - 1] + [parts[|parts| - 1]];
    }
  }

  lemma ResolveResolved(p: Path)
    requires Resolved(p)
    ensures Resolve(p) == p
  {
    NormalizeIdentity(p.parts);
  }

  /** A name that resolving keeps as it is: one component other than `..`. */
  predicate PlainName(s: string) {
    ValidPart(s) && s != ".."
  }

  /** Resolving commutes with appending a plain name. */
  lemma ResolveChild(p: Path, name: string)
    requires PlainName(name)
    ensures Resolve(Child(p, name)) == Child(Resolve(p), name)
  {
    var c := Child(p, name);
    assert c.parts[..|c.parts| - 1] == p.parts;
  }

  /** The posix form of a child extends its parent's by `/name`. */
  lemma PosixChild(p: Path, name: string)
    requires name != [] && name != "." && '/' !in name
    ensures Posix(Child(p, name)) == JoinParts(p.parts) + "/" + name
  {
    var c := Child(p, name);
    assert c.parts[..|c.parts| - 1] == p.parts;
  }

  /** Index of the last occurrence of `c` in `s`, or -1 (`str.rfind`). */
  function RFind(s: string, c: char): (i: int)
    ensures -1 <= i < |s|
    ensures i >= 0 ==> s[i] == c
    ensures forall j :: i < j < |s| ==> s[j] != c
  {
    if s == [] then -1
    else if s[|s| - 1] == c then |s| - 1
    else RFind(s[..|s| - 1], c)
  }

  /**
   * `PurePath.stem` applied to a name: the name without its last suffix,
   * where a suffix starts at a dot that is neither the first nor the last
   * character.
   */
  function Stem(name: string): (s: string)
    ensures s <= name
    ensures (s == []) == (name == [])
    ensures '/' !in name ==> '/' !in s
  {
    var i := RFind(name, '.');
    if 0 < i < |name| - 1 then name[..i] else name
  }
}
