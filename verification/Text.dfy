/** Decimal and hexadecimal printing and UTF-8, as Python's `str(int)` and `str.encode()` produce them. */
module Text {
  import opened Bytes

  // ---------------------------------------------------------------- decimal

  predicate IsDigit(b: int) { 48 <= b <= 57 }

  predicate AllDigits(s: Bytes) { forall i :: 0 <= i < |s| ==> IsDigit(s[i]) }

  function Digits(n: nat): (r: Bytes)
    ensures r != [] && AllDigits(r)
    ensures r[0] == 48 ==> n == 0
    ensures n == 0 ==> |r| == 1
  {
    if n < 10 then [48 + n] else Digits(n / 10) + [48 + n % 10]
  }

  function FromDigits(s: Bytes): nat
    requires AllDigits(s)
  {
    if s == [] then 0 else FromDigits(s[..|s| - 1]) * 10 + (s[|s| - 1] - 48)
  }

  lemma {:induction false} DigitsRoundTrip(n: nat)
    ensures FromDigits(Digits(n)) == n
  {
    if n >= 10 {
      DigitsRoundTrip(n / 10);
      assert Digits(n)[..|Digits(n)| - 1] == Digits(n / 10);
    } else {
      assert Digits(n)[..0] == [];
    }
  }

  /** `str(n)` */
  function Decimal(n: int): (r: Bytes)
    ensures r != [] && (forall i :: 0 <= i < |r| ==> IsDigit(r[i]) || r[i] == 45)
  {
    if n < 0 then [45] + Digits(-n) else Digits(n)
  }

  lemma DecimalInjective(m: int, n: int)
    requires Decimal(m) == Decimal(n)
    ensures m == n
  {
    DigitsRoundTrip(if m < 0 then -m else m);
    DigitsRoundTrip(if n < 0 then -n else n);
    assert (m < 0) == (Decimal(m)[0] == 45) && (n < 0) == (Decimal(n)[0] == 45);
    if m < 0 {
      assert Decimal(m)[1..] == Digits(-m) && Decimal(n)[1..] == Digits(-n);
    }
  }

  function Pow10(k: nat): (p: nat)
    ensures p > 0
  {
    if k == 0 then 1 else 10 * Pow10(k - 1)
  }

  lemma {:induction false} DigitsLength(n: nat, k: nat)
    requires n < Pow10(k) && k > 0
    ensures |Digits(n)| <= k
  {
    if n >= 10 {
      assert k > 1 by { assert Pow10(1) == 10; }
      DigitsLength(n / 10, k - 1);
    }
  }

  function HexDigit(n: int): byte
    requires 0 <= n < 16
  {
    if n < 10 then 48 + n else 87 + n
  }

  // ---------------------------------------------------------------- UTF-8

  predicate IsSurrogate(c: int) { 0xD800 <= c <= 0xDFFF }

  /** Every code point is a Unicode scalar value. */
  predicate ScalarStr(s: Str) { forall i :: 0 <= i < |s| ==> !IsSurrogate(s[i]) }

  function Utf8Of(c: codepoint): (r: Bytes)
    ensures r != []
  {
    if c < 0x80 then [c]
    else if c < 0x800 then [0xC0 + c / 64, 0x80 + c % 64]
    else if c < 0x1_0000 then [0xE0 + c / 4096, 0x80 + c / 64 % 64, 0x80 + c % 64]
    else [0xF0 + c / 262144, 0x80 + c / 4096 % 64, 0x80 + c / 64 % 64, 0x80 + c % 64]
  }

  function Utf8Bytes(s: Str): Bytes
  {
    if s == [] then [] else Utf8Of(s[0]) + Utf8Bytes(s[1..])
  }

  /** `s.encode()`: a lone surrogate raises UnicodeEncodeError. */
  function Encode(s: Str): Option<Bytes>
  {
    if ScalarStr(s) then Some(Utf8Bytes(s)) else None
  }

  /** The code point a complete UTF-8 sequence stands for. */
  function FromUtf8(b: seq<int>): int
    requires 1 <= |b| <= 4
  {
    if |b| == 1 then b[0]
    else if |b| == 2 then (b[0] - 0xC0) * 64 + (b[1] - 0x80)
    else if |b| == 3 then (b[0] - 0xE0) * 4096 + (b[1] - 0x80) * 64 + (b[2] - 0x80)
    else (b[0] - 0xF0) * 262144 + (b[1] - 0x80) * 4096 + (b[2] - 0x80) * 64 + (b[3] - 0x80)
  }

  lemma Utf8OfRoundTrip(c: codepoint)
    ensures |Utf8Of(c)| <= 4 && FromUtf8(Utf8Of(c)) == c
  {
    assert c == c / 64 * 64 + c % 64;
    var q := c / 64;
    assert q == q / 64 * 64 + q % 64 && q / 64 == c / 4096;
    var p := c / 4096;
    assert p == p / 64 * 64 + p % 64 && p / 64 == c / 262144;
  }

  /** UTF-8 is a prefix code: the first byte tells how many bytes follow. */
  lemma Utf8OfPrefixFree(c: codepoint, d: codepoint, r: Bytes, s: Bytes)
    requires Utf8Of(c) + r == Utf8Of(d) + s
    ensures c == d && r == s
  {
    assert Utf8Of(c)[0] == (Utf8Of(c) + r)[0] == (Utf8Of(d) + s)[0] == Utf8Of(d)[0];
    assert |Utf8Of(c)| == |Utf8Of(d)| by { Utf8Lead(c); Utf8Lead(d); }
    SplitSame(Utf8Of(c), r, Utf8Of(d), s);
    Utf8OfRoundTrip(c);
    Utf8OfRoundTrip(d);
  }

  lemma Utf8Lead(c: codepoint)
    ensures var b := Utf8Of(c)[0];
            |Utf8Of(c)| == if b < 0x80 then 1 else if b < 0xE0 then 2 else if b < 0xF0 then 3 else 4
  {
  }

  lemma {:induction false} Utf8Injective(s: Str, t: Str)
    requires Utf8Bytes(s) == Utf8Bytes(t)
    ensures s == t
  {
    if s != [] && t != [] {
      Utf8OfPrefixFree(s[0], t[0], Utf8Bytes(s[1..]), Utf8Bytes(t[1..]));
      Utf8Injective(s[1..], t[1..]);
      assert s == [s[0]] + s[1..] && t == [t[0]] + t[1..];
    }
  }

  lemma EncodeInjective(s: Str, t: Str)
    requires Encode(s).Some? && Encode(s) == Encode(t)
    ensures s == t
  {
    Utf8Injective(s, t);
  }

  /** ASCII text encodes to itself. */
  lemma {:induction false} EncodeAscii(s: Str)
    requires forall i :: 0 <= i < |s| ==> s[i] < 0x80
    ensures Encode(s) == Some(s)
  {
    if s != [] {
      EncodeAscii(s[1..]);
      assert s == [s[0]] + s[1..];
    }
  }

  lemma {:induction false} Utf8Append(s: Str, t: Str)
    ensures Utf8Bytes(s + t) == Utf8Bytes(s) + Utf8Bytes(t)
  {
    if s == [] {
      assert s + t == t;
    } else {
      Utf8Append(s[1..], t);
      assert (s + t)[1..] == s[1..] + t;
      Assoc(Utf8Of(s[0]), Utf8Bytes(s[1..]), Utf8Bytes(t));
    }
  }

  lemma EncodeAppend(s: Str, t: Str)
    ensures ScalarStr(s + t) <==> ScalarStr(s) && ScalarStr(t)
    ensures Utf8Bytes(s + t) == Utf8Bytes(s) + Utf8Bytes(t)
  {
    Utf8Append(s, t);
    assert forall i :: 0 <= i < |s| ==> (s + t)[i] == s[i];
    assert forall i :: 0 <= i < |t| ==> (s + t)[|s| + i] == t[i];
  }

  /** One code point of each length: U+0041, U+00E9, U+20AC and U+1F600. */
  lemma Utf8Vectors()
    ensures Utf8Of(0x41) == [0x41] && Utf8Of(0xE9) == [0xC3, 0xA9] && Utf8Of(0x20AC) == [0xE2, 0x82, 0xAC]
    ensures Utf8Of(0x1F600) == [0xF0, 0x9F, 0x98, 0x80]
  {
  }

  /** Exactly the strings without a code point from D800 to DFFF can be encoded. */
  lemma EncodeIs(s: Str)
    ensures Encode(s).Some? <==> forall i :: 0 <= i < |s| ==> s[i] < 0xD800 || s[i] >= 0xE000
  {
    hide Utf8Bytes;
  }
}
