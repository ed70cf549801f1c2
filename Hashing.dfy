/**
 * Hash tokens: `get_text_hash`, `get_file_hash`, `base16_to_base10` and
 * `base10_to_base62`. A token is the SHA-256 hex digest of some bytes, read
 * as a base-16 number and written back in base 62, most significant digit
 * first, with the alphabet `string.digits + string.ascii_letters`.
 */
module Hashing {
  import opened Common

  /* ---------------- UTF-8 (`str.encode()`) ---------------- */

  /** The UTF-8 encoding of one code point: its length follows from the code point's range. */
  function Utf8Char(c: char): (bs: seq<Byte>)
    ensures 1 <= |bs| <= 4
    ensures |bs| == 1 <==> c as int < 0x80
    ensures |bs| == 1 ==> bs[0] == c as int
    ensures |bs| > 1 ==> 0xC0 <= bs[0] && forall k :: 1 <= k < |bs| ==> 0x80 <= bs[k] < 0xC0
  {
    var n := c as int;
    if n < 0x80 then [n]
    else if n < 0x800 then [0xC0 + n / 64, 0x80 + n % 64]
    else if n < 0x10000 then [0xE0 + n / 4096, 0x80 + (n / 64) % 64, 0x80 + n % 64]
    else [0xF0 + n / 262144, 0x80 + (n / 4096) % 64, 0x80 + (n / 64) % 64, 0x80 + n % 64]
  }

  /** `s.encode()`: the code points' encodings one after another. */
  function Utf8(s: string): (bs: seq<Byte>)
    ensures |bs| >= |s|
  {
    if s == [] then [] else Utf8(s[..|s| - 1]) + Utf8Char(s[|s| - 1])
  }

  /** Dividing by 64 twice or three times is dividing by 4096 or 262144. */
  lemma DivideBy64Twice(n: nat)
    ensures n / 4096 == n / 64 / 64
    ensures n / 262144 == n / 4096 / 64
  {
  }

  /** Different code points have different encodings. */
  lemma Utf8CharInjective(c: char, d: char)
    ensures Utf8Char(c) == Utf8Char(d) ==> c == d
  {
    var n, m := c as int, d as int;
    DivideBy64Twice(n);
    DivideBy64Twice(m);
    if Utf8Char(c) == Utf8Char(d) {
      var bs := Utf8Char(c);
      if |bs| == 2 {
        assert n / 64 == m / 64 && n % 64 == m % 64 by {
          assert bs[0] == 0xC0 + n / 64 == 0xC0 + m / 64;
          assert bs[1] == 0x80 + n % 64 == 0x80 + m % 64;
        }
      } else if |bs| == 3 {
        assert n / 4096 == m / 4096 && (n / 64) % 64 == (m / 64) % 64 && n % 64 == m % 64 by {
          assert bs[0] == 0xE0 + n / 4096 == 0xE0 + m / 4096;
          assert bs[1] == 0x80 + (n / 64) % 64 == 0x80 + (m / 64) % 64;
          assert bs[2] == 0x80 + n % 64 == 0x80 + m % 64;
        }
        assert n / 64 == m / 64;
      } else if |bs| == 4 {
        assert n / 262144 == m / 262144 && (n / 4096) % 64 == (m / 4096) % 64 by {
          assert bs[0] == 0xF0 + n / 262144 == 0xF0 + m / 262144;
          assert bs[1] == 0x80 + (n / 4096) % 64 == 0x80 + (m / 4096) % 64;
        }
        assert (n / 64) % 64 == (m / 64) % 64 && n % 64 == m % 64 by {
          assert bs[2] == 0x80 + (n / 64) % 64 == 0x80 + (m / 64) % 64;
          assert bs[3] == 0x80 + n % 64 == 0x80 + m % 64;
        }
        assert n / 4096 == m / 4096;
        assert n / 64 == m / 64;
      }
    }
  }

  /**
   * The last code point's encoding is the byte that is not a continuation
   * byte (`0b10xxxxxx`) and every byte after it, so two encodings that end
   * a common byte string have the same length.
   */
  lemma LastCharAlike(x: seq<Byte>, a: seq<Byte>, c: char, b: seq<Byte>, d: char)
    requires x == a + Utf8Char(c) && x == b + Utf8Char(d)
    ensures |Utf8Char(c)| == |Utf8Char(d)|
  {
    var ec, ed := Utf8Char(c), Utf8Char(d);
    assert x[|x| - |ec|] == ec[0];
    assert x[|x| - |ed|] == ed[0];
  }

  /** `str.encode()` loses nothing: different texts have different UTF-8 bytes. */
  lemma {:induction false} Utf8Injective(s: string, t: string)
    ensures Utf8(s) == Utf8(t) ==> s == t
    decreases |s|
  {
    if Utf8(s) == Utf8(t) && s != [] && t != [] {
      var s0, t0 := s[..|s| - 1], t[..|t| - 1];
      var c, d := s[|s| - 1], t[|t| - 1];
      var x := Utf8(s);
      LastCharAlike(x, Utf8(s0), c, Utf8(t0), d);
      var k := |x| - |Utf8Char(c)|;
      assert Utf8Char(c) == x[k..] == Utf8Char(d);
      Utf8CharInjective(c, d);
      assert Utf8(s0) == x[..k] == Utf8(t0);
      Utf8Injective(s0, t0);
      assert s == s0 + [c] && t == t0 + [d];
    }
  }

  /* ---------------- base 16 (`int(value, 16)`) ---------------- */

  predicate IsHexDigit(c: char) {
    IsLowerHexDigit(c) || 'A' <= c <= 'F'
  }

  function HexDigitValue(c: char): (d: nat)
    requires IsHexDigit(c)
    ensures d < 16
  {
    if '0' <= c <= '9' then c as int - '0' as int
    else if 'a' <= c <= 'f' then c as int - 'a' as int + 10
    else c as int - 'A' as int + 10
  }

  /** The lower-case hex digit of `d`, as `hexdigest()` writes it. */
  function HexChar(d: nat): (c: char)
    requires d < 16
    ensures IsLowerHexDigit(c) && IsHexDigit(c) && HexDigitValue(c) == d
  {
    if d < 10 then ('0' as int + d) as char else ('a' as int + d - 10) as char
  }

  function Pow16(n: nat): (p: nat)
    ensures p >= 1
  {
    if n == 0 then 1 else 16 * Pow16(n - 1)
  }

  /** The value of a string of hex digits, most significant first. */
  function HexValue(s: string): (v: nat)
    requires forall i :: 0 <= i < |s| ==> IsHexDigit(s[i])
    ensures v < Pow16(|s|)
  {
    if s == [] then 0 else 16 * HexValue(s[..|s| - 1]) + HexDigitValue(s[|s| - 1])
  }

  /** `base16_to_base10`: `int(value, 16)` on a string of hex digits. */
  function Base16ToBase10(s: string): (v: nat)
    requires |s| > 0 && forall i :: 0 <= i < |s| ==> IsHexDigit(s[i])
    ensures v < Pow16(|s|)
  {
    HexValue(s)
  }

  /** `width` lower-case hex digits of `v`, most significant first. */
  function ToHex(v: nat, width: nat): (s: string)
    ensures |s| == width
  {
    if width == 0 then [] else ToHex(v / 16, width - 1) + [HexChar(v % 16)]
  }

  /** Writing a lower-case hex string's value back in as many digits gives the string again. */
  lemma {:induction false} HexRoundTrip(s: string)
    requires forall i :: 0 <= i < |s| ==> IsLowerHexDigit(s[i])
    ensures ToHex(HexValue(s), |s|) == s
  {
    if s != [] {
      var init, last := s[..|s| - 1], s[|s| - 1];
      HexRoundTrip(init);
      var h, d := HexValue(init), HexDigitValue(last);
      assert (16 * h + d) / 16 == h && (16 * h + d) % 16 == d;
      assert HexChar(d) == last;
      assert s == init + [last];
    }
  }

  /** Hex strings of equal length (such as two digests) with the same value are equal. */
  lemma HexValueInjective(a: string, b: string)
    requires forall i :: 0 <= i < |a| ==> IsLowerHexDigit(a[i])
    requires forall i :: 0 <= i < |b| ==> IsLowerHexDigit(b[i])
    requires |a| == |b| && HexValue(a) == HexValue(b)
    ensures a == b
  {
    HexRoundTrip(a);
    HexRoundTrip(b);
  }

  /* ---------------- base 62 (`base10_to_base62`) ---------------- */

  /**
   * `MAP62[d]`: `string.digits + string.ascii_letters`, that is `0`-`9`,
   * then `a`-`z`, then `A`-`Z`.
   */
  function Digit62(d: nat): (c: char)
    requires d < 62
  {
    if d < 10 then ('0' as int + d) as char
    else if d < 36 then ('a' as int + d - 10) as char
    else ('A' as int + d - 36) as char
  }

  predicate IsBase62Char(c: char) {
    '0' <= c <= '9' || 'a' <= c <= 'z' || 'A' <= c <= 'Z'
  }

  /** The position of a character in the alphabet. */
  function Digit62Value(c: char): (d: nat)
    requires IsBase62Char(c)
    ensures d < 62 && Digit62(d) == c
  {
    if '0' <= c <= '9' then c as int - '0' as int
    else if 'a' <= c <= 'z' then c as int - 'a' as int + 10
    else c as int - 'A' as int + 36
  }

  /** The base-62 digits of `v`, most significant first. */
  function Digits62(v: nat): (ds: seq<nat>)
    ensures |ds| >= 1 && forall i :: 0 <= i < |ds| ==> ds[i] < 62
    decreases v
  {
    if v < 62 then [v] else Digits62(v / 62) + [v % 62]
  }

  /** The specification of `base10_to_base62`. */
  function Base62(v: nat): (s: string) {
    DigitsToString(Digits62(v))
  }

  /** Reads a base-62 string back, most significant digit first. */
  function FromBase62(s: string): nat
    requires forall i :: 0 <= i < |s| ==> IsBase62Char(s[i])
  {
    if s == [] then 0 else 62 * FromBase62(s[..|s| - 1]) + Digit62Value(s[|s| - 1])
  }

  lemma {:induction false} Digits62Leading(v: nat)
    ensures Digits62(v)[0] == 0 <==> v == 0
    decreases v
  {
    if v >= 62 {
      Digits62Leading(v / 62);
    }
  }

  /**
   * The token is non-empty, uses only the alphabet, and starts with `'0'`
   * only when the value is 0, in which case it is exactly `"0"`.
   */
  lemma Base62Shape(v: nat)
    ensures |Base62(v)| >= 1
    ensures forall i :: 0 <= i < |Base62(v)| ==> IsBase62Char(Base62(v)[i])
    ensures Base62(v)[0] == '0' <==> v == 0
    ensures v == 0 ==> Base62(v) == "0"
  {
    Digits62Leading(v);
  }

  /** Reading a token back in base 62 gives the value it encodes. */
  lemma {:induction false} Base62RoundTrip(v: nat)
    ensures forall i :: 0 <= i < |Base62(v)| ==> IsBase62Char(Base62(v)[i])
    ensures FromBase62(Base62(v)) == v
    decreases v
  {
    if v >= 62 {
      Base62RoundTrip(v / 62);
      var s, t := Base62(v), Base62(v / 62);
      assert s[..|s| - 1] == t;
      assert Digit62Value(s[|s| - 1]) == v % 62;
    }
  }

  lemma Base62Injective(a: nat, b: nat)
    requires Base62(a) == Base62(b)
    ensures a == b
  {
    Base62RoundTrip(a);
    Base62RoundTrip(b);
  }

  /** `output[::-1]` */
  function Reverse<T>(s: seq<T>): (r: seq<T>)
    ensures |r| == |s|
  {
    if s == [] then [] else [s[|s| - 1]] + Reverse(s[..|s| - 1])
  }

  lemma ReverseSnoc<T>(s: seq<T>, x: T)
    ensures Reverse(s + [x]) == [x] + Reverse(s)
  {
    assert (s + [x])[..|s|] == s;
  }

  /** The characters of a digit sequence. */
  function DigitsToString(ds: seq<nat>): (s: string)
    requires forall i :: 0 <= i < |ds| ==> ds[i] < 62
  {
    seq(|ds|, i requires 0 <= i < |ds| => Digit62(ds[i]))
  }

  /** `base10_to_base62`: collect digits least significant first, then reverse them. */
  method Base10ToBase62(value: nat) returns (s: string)
    ensures s == Base62(value)
  {
    var output: seq<nat> := [];
    var v := value;
    while v >= 62
      invariant Digits62(v) + Reverse(output) == Digits62(value)
    {
      ReverseSnoc(output, v % 62);
      output := output + [v % 62];
      v := v / 62;
    }
    ReverseSnoc(output, v);
    output := output + [v];
    output := Reverse(output);
    s := DigitsToString(output);
  }

  /* ---------------- tokens ---------------- */

  /** `base10_to_base62(base16_to_base10(digest))` */
  function Token(d: Digest): string {
    Base62(Base16ToBase10(d))
  }

  /** Two digests give the same token exactly when they are the same digest. */
  lemma TokenInjective(d1: Digest, d2: Digest)
    ensures Token(d1) == Token(d2) <==> d1 == d2
  {
    if Token(d1) == Token(d2) {
      Base62Injective(Base16ToBase10(d1), Base16ToBase10(d2));
      HexValueInjective(d1, d2);
    }
  }

  /**
   * SHA-256 does not collide on these two inputs. Its digests are finitely
   * many, so this is a hypothesis about two given inputs, never about all.
   */
  predicate NoCollision(sha: HashFunction, a: seq<Byte>, b: seq<Byte>) {
    sha(a) == sha(b) ==> a == b
  }

  /** Without a collision, two texts share a token exactly when they are the same text. */
  lemma TextTokenInjective(sha: HashFunction, s: string, t: string)
    requires NoCollision(sha, Utf8(s), Utf8(t))
    ensures TextToken(sha, s) == TextToken(sha, t) <==> s == t
  {
    TokenInjective(sha(Utf8(s)), sha(Utf8(t)));
    Utf8Injective(s, t);
  }

  /** `get_text_hash`: the token of the SHA-256 of the UTF-8 encoding of `text`. */
  function TextToken(sha: HashFunction, text: string): string {
    Token(sha(Utf8(text)))
  }

  /** The token of the SHA-256 of a file's whole content. */
  function ContentToken(sha: HashFunction, content: seq<Byte>): string {
    Token(sha(content))
  }

  const ChunkSize: nat := 8192

  /** `f.read(n)` at `cursor`: up to `n` bytes, empty only at end of file. */
  function ReadChunk(content: seq<Byte>, cursor: nat, n: nat): (chunk: seq<Byte>)
    requires cursor <= |content| && n > 0
    ensures cursor + |chunk| <= |content| && chunk == content[cursor..cursor + |chunk|]
    ensures chunk == [] <==> cursor == |content|
  {
    if |content| - cursor <= n then content[cursor..] else content[cursor..cursor + n]
  }

  /**
   * `get_file_hash`: feeds the file to the hash 8 KiB at a time; the token
   * is the one of the whole content hashed at once.
   */
  method GetFileHash(content: seq<Byte>, sha: HashFunction) returns (token: string)
    ensures token == ContentToken(sha, content)
  {
    var fed: seq<Byte> := [];   // what `file_hash.update` has been given
    var cursor := 0;
    while true
      invariant cursor <= |content| && fed == content[..cursor]
      decreases |content| - cursor
    {
      var chunk := ReadChunk(content, cursor, ChunkSize);
      if chunk == [] {
        break;
      }
      assert content[..cursor + |chunk|] == content[..cursor] + chunk;
      fed := fed + chunk;
      cursor := cursor + |chunk|;
    }
    assert fed == content;
    token := Base10ToBase62(Base16ToBase10(sha(fed)));
  }

}
