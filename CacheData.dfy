/**
 * The cache document: `{"meta": {"path", "mtime", "hash"}, "lines": {index:
 * offset}}`. In memory (`generate_cache_data`, `load_cache`) the keys of
 * `lines` are integers; `json.dump` writes them as `str(index)` and
 * `load_cache` turns them back with `int()`.
 */
module CacheData {
  import opened Common

  /** `scan_meta`: the resolved posix path, the mtime (whole units) and the content token. */
  datatype Meta = Meta(path: string, mtime: int, hash: string)

  /** A cache as `generate_cache_data` builds it and `load_cache` returns it. */
  datatype Cache = Cache(meta: Meta, lines: map<int, int>)

  /** A cache as it stands in its file, which `json.load` reads back unchanged. */
  datatype CacheDoc = CacheDoc(meta: Meta, lines: map<string, int>)

  /* ---------------- `str()` and `int()` on the keys ---------------- */

  predicate IsDigit(c: char) {
    '0' <= c <= '9'
  }

  predicate AllDigits(s: string) {
    forall i :: 0 <= i < |s| ==> IsDigit(s[i])
  }

  function DigitChar(d: nat): (c: char)
    requires d < 10
    ensures IsDigit(c)
  {
    ('0' as int + d) as char
  }

  /** The decimal digits of `n`, most significant first. */
  function NatString(n: nat): (s: string)
    ensures |s| >= 1 && AllDigits(s)
    decreases n
  {
    if n < 10 then [DigitChar(n)] else NatString(n / 10) + [DigitChar(n % 10)]
  }

  /** `str(n)` */
  function DecimalString(n: int): string {
    if n < 0 then "-" + NatString(-n) else NatString(n)
  }

  function DigitsValue(s: string): nat
    requires AllDigits(s)
  {
    if s == [] then 0 else 10 * DigitsValue(s[..|s| - 1]) + (s[|s| - 1] as int - '0' as int)
  }

  /** Digits as `str()` writes them: no leading zero except in `"0"` itself. */
  predicate CanonicalDigits(s: string) {
    |s| >= 1 && AllDigits(s) && (s[0] == '0' ==> |s| == 1)
  }

  /**
   * `int(s)` on the spellings `str()` produces: optional `-` and canonical
   * digits, `-0` excluded. `None` stands for the `ValueError`.
   */
  function ParseDecimal(s: string): Option<int> {
    if CanonicalDigits(s) then Some(DigitsValue(s))
    else if |s| >= 2 && s[0] == '-' && CanonicalDigits(s[1..]) && s[1..] != "0" then Some(0 - DigitsValue(s[1..]))
    else None
  }

  lemma {:induction false} NatStringRoundTrip(n: nat)
    ensures CanonicalDigits(NatString(n)) && DigitsValue(NatString(n)) == n
    ensures NatString(n) == "0" <==> n == 0
    decreases n
  {
    var s := NatString(n);
    if n >= 10 {
      NatStringRoundTrip(n / 10);
      assert s[..|s| - 1] == NatString(n / 10);
      assert s[0] == NatString(n / 10)[0];
    }
  }

  lemma {:induction false} CanonicalRoundTrip(s: string)
    requires CanonicalDigits(s)
    ensures NatString(DigitsValue(s)) == s
    decreases |s|
  {
    if |s| > 1 {
      var init := s[..|s| - 1];
      assert init[0] == s[0];
      CanonicalRoundTrip(init);
      var v, d := DigitsValue(init), s[|s| - 1] as int - '0' as int;
      assert v >= 1 by {
        NatStringRoundTrip(0);
      }
      assert (10 * v + d) / 10 == v && (10 * v + d) % 10 == d;
      assert s == init + [s[|s| - 1]];
    }
  }

  /** `int()` of a minus sign followed by canonical digits other than `"0"`. */
  lemma ParseNegative(t: string)
    requires CanonicalDigits(t) && t != "0"
    ensures ParseDecimal("-" + t) == Some(0 - DigitsValue(t))
  {
    var s := "-" + t;
    assert s[1..] == t;
    assert !IsDigit(s[0]);
  }

  /** `int(str(n)) == n` */
  lemma DecimalRoundTrip(n: int)
    ensures ParseDecimal(DecimalString(n)) == Some(n)
  {
    if n < 0 {
      NatStringRoundTrip(-n);
      ParseNegative(NatString(-n));
    } else {
      NatStringRoundTrip(n);
    }
  }

  /** A key that `int()` accepts is exactly what `str()` writes for its value. */
  lemma ParseDecimalExact(s: string)
    requires ParseDecimal(s).Some?
    ensures DecimalString(ParseDecimal(s).value) == s
  {
    if CanonicalDigits(s) {
      CanonicalRoundTrip(s);
    } else {
      CanonicalRoundTrip(s[1..]);
      NatStringRoundTrip(0);
      assert s == "-" + s[1..];
    }
  }

  /** Distinct indices are written as distinct keys. */
  lemma DecimalStringInjective()
    ensures forall a, b :: DecimalString(a) == DecimalString(b) ==> a == b
  {
    forall a, b | DecimalString(a) == DecimalString(b)
      ensures a == b
    {
      DecimalRoundTrip(a);
      DecimalRoundTrip(b);
    }
  }

  lemma ParseDecimalInjective()
    ensures forall s, t :: ParseDecimal(s).Some? && ParseDecimal(t).Some? && ParseDecimal(s) == ParseDecimal(t) ==> s == t
  {
    forall s, t | ParseDecimal(s).Some? && ParseDecimal(t).Some? && ParseDecimal(s) == ParseDecimal(t)
      ensures s == t
    {
      ParseDecimalExact(s);
      ParseDecimalExact(t);
    }
  }

  /* ---------------- dump and load ---------------- */

  /** `json.dump` of the line table: every key becomes `str(key)`. */
  function DumpLines(lines: map<int, int>): map<string, int> {
    DecimalStringInjective();
    map k | k in lines :: DecimalString(k) := lines[k]
  }

  function Dump(c: Cache): CacheDoc {
    CacheDoc(c.meta, DumpLines(c.lines))
  }

  /**
   * The comprehension of `load_cache`: every key goes through `int()` and
   * keeps its offset; a key `int()` refuses raises `ValueError`.
   */
  function LoadLines(lines: map<string, int>): Result<map<int, int>> {
    if exists s :: s in lines && ParseDecimal(s).None? then Err(BadCacheKey)
    else
      ParseDecimalInjective();
      Ok(map s | s in lines :: ParseDecimal(s).value := lines[s])
  }

  /** A key of the file's table, converted, holds the offset it held in the file. */
  lemma LoadLinesAt(lines: map<string, int>, s: string)
    requires LoadLines(lines).Ok? && s in lines
    ensures ParseDecimal(s).Some?
    ensures ParseDecimal(s).value in LoadLines(lines).value
    ensures LoadLines(lines).value[ParseDecimal(s).value] == lines[s]
  {
    ParseDecimalInjective();
  }

  /** Every index of the loaded table comes from a key of the file's table. */
  lemma LoadLinesKey(lines: map<string, int>, i: int)
    requires LoadLines(lines).Ok? && i in LoadLines(lines).value
    ensures DecimalString(i) in lines && ParseDecimal(DecimalString(i)) == Some(i)
  {
    var s :| s in lines && ParseDecimal(s).value == i;
    ParseDecimalExact(s);
  }

  /**
   * `load_cache` fails exactly when some key is not a number; otherwise
   * every key is converted with `int()`, keeps its offset, and nothing else
   * is in the table.
   */
  lemma LoadLinesSpec(lines: map<string, int>)
    ensures LoadLines(lines).Err? <==> exists s :: s in lines && ParseDecimal(s).None?
    ensures LoadLines(lines).Ok? ==>
              forall s :: s in lines ==>
                ParseDecimal(s).value in LoadLines(lines).value && LoadLines(lines).value[ParseDecimal(s).value] == lines[s]
    ensures LoadLines(lines).Ok? ==>
              forall i :: i in LoadLines(lines).value ==> DecimalString(i) in lines
  {
    if LoadLines(lines).Ok? {
      forall s | s in lines
        ensures ParseDecimal(s).value in LoadLines(lines).value && LoadLines(lines).value[ParseDecimal(s).value] == lines[s]
      {
        LoadLinesAt(lines, s);
      }
      forall i | i in LoadLines(lines).value
        ensures DecimalString(i) in lines
      {
        LoadLinesKey(lines, i);
      }
    }
  }

  /** `load_cache`'s conversion of the document it reads. */
  function Load(doc: CacheDoc): Result<Cache> {
    match LoadLines(doc.lines)
    case Ok(lines) => Ok(Cache(doc.meta, lines))
    case Err(e) => Err(e)
  }

  /** `json.dump` writes every index of the table under its decimal key, with its offset. */
  lemma DumpLinesAt(lines: map<int, int>, k: int)
    requires k in lines
    ensures DecimalString(k) in DumpLines(lines) && DumpLines(lines)[DecimalString(k)] == lines[k]
  {
    DecimalStringInjective();
  }

  /** Every key `json.dump` writes converts back to an index of the table. */
  lemma DumpLinesKey(lines: map<int, int>, s: string)
    requires s in DumpLines(lines)
    ensures ParseDecimal(s).Some? && ParseDecimal(s).value in lines
  {
    var k :| k in lines && DecimalString(k) == s;
    DecimalRoundTrip(k);
  }

  /** Every key `json.dump` writes converts, so loading it does not fail. */
  lemma LoadDumpOk(lines: map<int, int>)
    ensures LoadLines(DumpLines(lines)).Ok?
  {
    var d := DumpLines(lines);
    forall s | s in d
      ensures ParseDecimal(s).Some?
    {
      DumpLinesKey(lines, s);
    }
  }

  /** Every index of the saved table is loaded back with its offset. */
  lemma LoadDumpKeeps(lines: map<int, int>, k: int)
    requires k in lines
    ensures LoadLines(DumpLines(lines)).Ok?
    ensures k in LoadLines(DumpLines(lines)).value && LoadLines(DumpLines(lines)).value[k] == lines[k]
  {
    LoadDumpOk(lines);
    DumpLinesAt(lines, k);
    DecimalRoundTrip(k);
    LoadLinesAt(DumpLines(lines), DecimalString(k));
  }

  /** Nothing but the saved indices is loaded back. */
  lemma LoadDumpAdds(lines: map<int, int>, i: int)
    requires LoadLines(DumpLines(lines)).Ok? && i in LoadLines(DumpLines(lines)).value
    ensures i in lines
  {
    LoadLinesKey(DumpLines(lines), i);
    DumpLinesKey(lines, DecimalString(i));
  }

  /** Two tables with the same indices and the same offsets at them are equal. */
  lemma SameEntries(m: map<int, int>, lines: map<int, int>)
    requires forall k :: k in lines ==> k in m && m[k] == lines[k]
    requires forall i :: i in m ==> i in lines
    ensures m == lines
  {
    forall k
      ensures k in m <==> k in lines
    {
    }
    assert m.Keys == lines.Keys;
    forall k | k in m
      ensures m[k] == lines[k]
    {
    }
  }

  /** Loading the saved table gives back the table. */
  lemma LoadDumpLines(lines: map<int, int>)
    ensures LoadLines(DumpLines(lines)) == Ok(lines)
  {
    LoadDumpOk(lines);
    var m := LoadLines(DumpLines(lines)).value;
    forall k | k in lines
      ensures k in m && m[k] == lines[k]
    {
      LoadDumpKeeps(lines, k);
    }
    forall i | i in m
      ensures i in lines
    {
      LoadDumpAdds(lines, i);
    }
    SameEntries(m, lines);
  }

  /** Loading what `make_cache` saved gives back the cache it saved. */
  lemma LoadDumpRoundTrip(c: Cache)
    ensures Load(Dump(c)) == Ok(c)
  {
    LoadDumpLines(c.lines);
  }
}
