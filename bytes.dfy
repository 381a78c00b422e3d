/** Byte-level helpers shared by both codec generations: big-endian integers
    (`to_be_bytes` / `from_be_bytes`), two's complement, and UTF-8 as fixed by
    RFC 3629 (section 3 for the encoding, section 4 for the well-formed syntax). */
module Bytes {
  import opened Wrappers

  type u8 = x: int | 0 <= x < 256

  function Pow256(n: nat): (r: nat)
    ensures r >= 1
  {
    if n == 0 then 1 else 256 * Pow256(n - 1)
  }

  /** The `n` low bytes of `x`, most significant first: `to_be_bytes` of
      `x as uN`. Dafny's division rounds down, so for a negative `x` these
      are the bytes of its two's complement. */
  function BeBytes(x: int, n: nat): (r: seq<u8>)
    ensures |r| == n
    decreases n
  {
    if n == 0 then [] else BeBytes(x / 256, n - 1) + [x % 256]
  }

  /** `from_be_bytes` read as an unsigned integer. */
  function FromBe(s: seq<u8>): (r: nat)
    ensures r < Pow256(|s|)
  {
    if s == [] then 0 else FromBe(s[..|s| - 1]) * 256 + s[|s| - 1]
  }

  lemma {:induction false} FromBeBytes(x: nat, n: nat)
    requires x < Pow256(n)
    ensures FromBe(BeBytes(x, n)) == x
  {
    if n > 0 {
      var s := BeBytes(x, n);
      assert s[..n - 1] == BeBytes(x / 256, n - 1);
      FromBeBytes(x / 256, n - 1);
    }
  }

  lemma {:induction false} BeBytesFromBe(s: seq<u8>)
    ensures BeBytes(FromBe(s), |s|) == s
  {
    if s != [] {
      var p := s[..|s| - 1];
      var x := FromBe(s);
      assert x / 256 == FromBe(p) && x % 256 == s[|s| - 1];
      BeBytesFromBe(p);
      assert s == p + [s[|s| - 1]];
    }
  }

  /** The two big-endian encodings of one width are equal only for equal values. */
  lemma BeBytesInjective(x: nat, y: nat, n: nat)
    requires x < Pow256(n) && y < Pow256(n)
    requires BeBytes(x, n) == BeBytes(y, n)
    ensures x == y
  {
    FromBeBytes(x, n);
    FromBeBytes(y, n);
  }

  /** Adding `256^n` does not change the `n` low bytes. */
  lemma {:induction false} BeBytesShift(x: int, n: nat)
    ensures BeBytes(x + Pow256(n), n) == BeBytes(x, n)
    decreases n
  {
    if n > 0 {
      var p := Pow256(n - 1);
      assert x + Pow256(n) == x + 256 * p;
      assert (x + 256 * p) / 256 == x / 256 + p;
      assert (x + 256 * p) % 256 == x % 256;
      BeBytesShift(x / 256, n - 1);
    }
  }

  /** Half of the range of an `n`-byte integer: the bound of a signed one. */
  function Half(n: nat): nat
  {
    if n == 0 then 0 else 128 * Pow256(n - 1)
  }

  lemma HalfDoubles(n: nat)
    requires n >= 1
    ensures Pow256(n) == 2 * Half(n)
  {
  }

  /** Whether `x` is a value of the `n`-byte integer type (`i8`..`i128` when `signed`). */
  predicate InRange(x: int, n: nat, signed: bool)
  {
    if signed then -(Half(n) as int) <= x < Half(n) else 0 <= x < Pow256(n)
  }

  /** `from_be_bytes` of an `n`-byte integer, in two's complement when signed. */
  function IntFromBytes(s: seq<u8>, signed: bool): (r: int)
    requires |s| >= 1
    ensures InRange(r, |s|, signed)
  {
    HalfDoubles(|s|);
    var u := FromBe(s);
    if signed && u >= Half(|s|) then u - Pow256(|s|) else u
  }

  /** Reading back the `n` bytes of an `n`-byte integer gives the integer. */
  lemma IntRoundTrip(x: int, n: nat, signed: bool)
    requires n >= 1 && InRange(x, n, signed)
    ensures IntFromBytes(BeBytes(x, n), signed) == x
  {
    HalfDoubles(n);
    var s := BeBytes(x, n);
    if x < 0 {
      BeBytesShift(x, n);
      FromBeBytes(x + Pow256(n), n);
      assert FromBe(s) == x + Pow256(n) >= Half(n);
    } else {
      FromBeBytes(x, n);
      assert FromBe(s) == x;
    }
  }

  /** The concatenation of a list of byte strings, in order. */
  function Flatten(parts: seq<seq<u8>>): (r: seq<u8>)
  {
    if parts == [] then [] else Flatten(parts[..|parts| - 1]) + parts[|parts| - 1]
  }

  lemma Flatten2(a: seq<u8>, b: seq<u8>)
    ensures Flatten([a, b]) == a + b
  {
    assert [a, b][..1] == [a];
    assert [a][..0] == [];
    assert Flatten([a]) == Flatten([]) + a;
    assert Flatten([a, b]) == Flatten([a]) + b;
  }

  lemma Flatten3(a: seq<u8>, b: seq<u8>, c: seq<u8>)
    ensures Flatten([a, b, c]) == a + b + c
  {
    assert [a, b, c][..2] == [a, b];
    Flatten2(a, b);
  }

  /** Regrouping a concatenation, stated once so that callers need not
      rediscover it by extensionality. */
  lemma AppendAssoc(a: seq<u8>, b: seq<u8>, c: seq<u8>)
    ensures a + b + c == a + (b + c)
  {
  }

  lemma {:induction false} FlattenAppend(parts: seq<seq<u8>>, more: seq<seq<u8>>)
    ensures Flatten(parts + more) == Flatten(parts) + Flatten(more)
    decreases |more|
  {
    if more == [] {
      assert parts + more == parts;
    } else {
      var last := |more| - 1;
      assert (parts + more)[..|parts + more| - 1] == parts + more[..last];
      FlattenAppend(parts, more[..last]);
    }
  }

  // ---------------------------------------------------------------------
  // UTF-8 (RFC 3629)
  // ---------------------------------------------------------------------

  /** The UTF-8 octets of one Unicode scalar value, per the table of RFC 3629 section 3. */
  function EncodeChar(c: char): (r: seq<u8>)
    ensures 1 <= |r| <= 4
  {
    var n := c as int;
    if n < 0x80 then [n]
    else if n < 0x800 then [0xC0 + n / 64, 0x80 + n % 64]
    else if n < 0x1_0000 then [0xE0 + n / 4096, 0x80 + (n / 64) % 64, 0x80 + n % 64]
    else [0xF0 + n / 262144, 0x80 + (n / 4096) % 64, 0x80 + (n / 64) % 64, 0x80 + n % 64]
  }

  predicate IsTail(b: u8) { 0x80 <= b <= 0xBF }

  /** Decodes the first character of `s` when `s` starts with a well-formed
      UTF8-char of RFC 3629 section 4; yields the character and its length. */
  function DecodeFirst(s: seq<u8>): (r: Option<(char, nat)>)
    ensures r.Some? ==> 1 <= r.value.1 <= |s| && r.value.1 <= 4
  {
    if s == [] then None
    else
      var b0: int := s[0];
      if b0 <= 0x7F then Some((b0 as char, 1))
      else if 0xC2 <= b0 <= 0xDF then
        if |s| >= 2 && IsTail(s[1]) then
          Some((((b0 - 0xC0) * 64 + (s[1] as int - 0x80)) as char, 2))
        else None
      else if 0xE0 <= b0 <= 0xEF then
        if |s| >= 3 && IsTail(s[1]) && IsTail(s[2])
           && (b0 == 0xE0 ==> s[1] >= 0xA0) && (b0 == 0xED ==> s[1] <= 0x9F) then
          Some((((b0 - 0xE0) * 4096 + (s[1] as int - 0x80) * 64 + (s[2] as int - 0x80)) as char, 3))
        else None
      else if 0xF0 <= b0 <= 0xF4 then
        if |s| >= 4 && IsTail(s[1]) && IsTail(s[2]) && IsTail(s[3])
           && (b0 == 0xF0 ==> s[1] >= 0x90) && (b0 == 0xF4 ==> s[1] <= 0x8F) then
          Some((((b0 - 0xF0) * 262144 + (s[1] as int - 0x80) * 4096
                 + (s[2] as int - 0x80) * 64 + (s[3] as int - 0x80)) as char, 4))
        else None
      else None
  }

  /** `core::str::from_utf8`: the characters of `s` when all of `s` is well-formed UTF-8. */
  function DecodeUtf8(s: seq<u8>): (r: Option<string>)
    decreases |s|
  {
    if s == [] then Some([])
    else
      match DecodeFirst(s)
      case None => None
      case Some((c, k)) =>
        match DecodeUtf8(s[k..])
        case None => None
        case Some(rest) => Some([c] + rest)
  }

  /** `str::as_bytes` of a string: the concatenated UTF-8 of its characters. */
  function EncodeUtf8(s: string): (r: seq<u8>)
  {
    if s == [] then [] else EncodeChar(s[0]) + EncodeUtf8(s[1..])
  }

  lemma {:induction false} EncodeUtf8Append(a: string, b: string)
    ensures EncodeUtf8(a + b) == EncodeUtf8(a) + EncodeUtf8(b)
  {
    if a != [] {
      assert (a + b)[1..] == a[1..] + b;
      EncodeUtf8Append(a[1..], b);
    } else {
      assert a + b == b;
    }
  }

  lemma DecodeEncodedChar(c: char, rest: seq<u8>)
    ensures DecodeFirst(EncodeChar(c) + rest) == Some((c, |EncodeChar(c)|))
  {
    var n := c as int;
    if n < 0x80 {
    } else if n < 0x800 {
      DecodeTwo(c, rest);
    } else if n < 0x1_0000 {
      DecodeThree(c, rest);
    } else {
      DecodeFour(c, rest);
    }
  }

  lemma DecodeTwo(c: char, rest: seq<u8>)
    requires 0x80 <= c as int < 0x800
    ensures DecodeFirst(EncodeChar(c) + rest) == Some((c, 2))
  {
    var n := c as int;
    var s := EncodeChar(c) + rest;
    assert n == (n / 64) * 64 + n % 64;
    assert s[0] == 0xC0 + n / 64 && s[1] == 0x80 + n % 64;
  }

  lemma DecodeThree(c: char, rest: seq<u8>)
    requires 0x800 <= c as int < 0x1_0000
    ensures DecodeFirst(EncodeChar(c) + rest) == Some((c, 3))
  {
    var n := c as int;
    var s := EncodeChar(c) + rest;
    var a, b, d := n / 4096, (n / 64) % 64, n % 64;
    assert n / 64 == a * 64 + b;
    assert n == (n / 64) * 64 + d;
    assert n == a * 4096 + b * 64 + d;
    assert s[0] == 0xE0 + a && s[1] == 0x80 + b && s[2] == 0x80 + d;
    assert a == 0 ==> b >= 32;
    assert a == 13 ==> b < 32;
  }

  lemma DecodeFour(c: char, rest: seq<u8>)
    requires 0x1_0000 <= c as int
    ensures DecodeFirst(EncodeChar(c) + rest) == Some((c, 4))
  {
    var n := c as int;
    var s := EncodeChar(c) + rest;
    var a, b, d, e := n / 262144, (n / 4096) % 64, (n / 64) % 64, n % 64;
    assert n / 4096 == a * 64 + b;
    assert n / 64 == (n / 4096) * 64 + d;
    assert n == (n / 64) * 64 + e;
    assert n == a * 262144 + b * 4096 + d * 64 + e;
    assert s[0] == 0xF0 + a && s[1] == 0x80 + b && s[2] == 0x80 + d && s[3] == 0x80 + e;
    assert a <= 4;
    assert a == 0 ==> b >= 16;
    assert a == 4 ==> b < 16;
  }

  /** `from_utf8(s.as_bytes())` gives back `s`, followed by anything. */
  lemma {:induction false} DecodeEncodedUtf8(s: string)
    ensures DecodeUtf8(EncodeUtf8(s)) == Some(s)
  {
    if s != [] {
      var e := EncodeChar(s[0]);
      var tail := EncodeUtf8(s[1..]);
      DecodeEncodedChar(s[0], tail);
      assert (e + tail)[|e|..] == tail;
      DecodeEncodedUtf8(s[1..]);
      assert [s[0]] + s[1..] == s;
    }
  }

  /** A byte that can never occur in well-formed UTF-8 (RFC 3629 section 1). */
  predicate NeverInUtf8(b: u8)
  {
    b == 0xC0 || b == 0xC1 || b >= 0xF5
  }

  /** No byte of a well-formed UTF-8 sequence is one of the never-occurring bytes. */
  lemma {:induction false} WellFormedAvoids(s: seq<u8>, i: nat)
    requires DecodeUtf8(s).Some? && i < |s|
    ensures !NeverInUtf8(s[i])
    decreases |s|
  {
    var k := DecodeFirst(s).value.1;
    if i >= k {
      assert s[k..][i - k] == s[i];
      WellFormedAvoids(s[k..], i - k);
    }
  }

}
