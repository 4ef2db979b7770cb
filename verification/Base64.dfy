/** `base64.b64encode` and Python's lenient `base64.b64decode` (section 4 of RFC 4648). */
module Base64 {
  import opened Bytes

  type sextet = x: int | 0 <= x < 64

  function Letter(v: sextet): (c: byte)
    ensures Sextet(c) == Some(v) && c != 61
  {
    if v < 26 then 65 + v
    else if v < 52 then 71 + v
    else if v < 62 then v - 4
    else if v == 62 then 43
    else 47
  }

  function Sextet(c: int): Option<sextet>
  {
    if 65 <= c <= 90 then Some(c - 65)
    else if 97 <= c <= 122 then Some(c - 71)
    else if 48 <= c <= 57 then Some(c + 4)
    else if c == 43 then Some(62)
    else if c == 47 then Some(63)
    else None
  }

  function B64e(d: Bytes): (s: Bytes)
    ensures |s| == (|d| + 2) / 3 * 4
    ensures forall i :: 0 <= i < |s| ==> s[i] == 61 || Sextet(s[i]).Some?
  {
    if |d| == 0 then []
    else if |d| == 1 then [Letter(d[0] / 4), Letter(d[0] % 4 * 16), 61, 61]
    else if |d| == 2 then [Letter(d[0] / 4), Letter(d[0] % 4 * 16 + d[1] / 16), Letter(d[1] % 16 * 4), 61]
    else
      [Letter(d[0] / 4), Letter(d[0] % 4 * 16 + d[1] / 16), Letter(d[1] % 16 * 4 + d[2] / 64), Letter(d[2] % 64)]
      + B64e(d[3..])
  }

  /** The decoder's loop: `quad` sextets of the current group seen, `left` its undelivered bits,
      `pads` padding characters in a row. Characters outside the alphabet are skipped, and a
      completed padding ends the input. */
  function Scan(s: Str, quad: nat, left: nat, pads: nat): Option<Bytes>
    requires quad < 4 && (quad == 1 ==> left < 64) && (quad == 2 ==> left < 16) && (quad == 3 ==> left < 4)
  {
    if s == [] then
      if quad == 0 then Some([]) else None
    else if s[0] == 61 then
      if quad >= 2 && quad + pads + 1 >= 4 then Some([])
      else Scan(s[1..], quad, left, if quad >= 2 then pads + 1 else pads)
    else
      match Sextet(s[0])
      case None => Scan(s[1..], quad, left, pads)
      case Some(v) =>
        if quad == 0 then Scan(s[1..], 1, v, 0)
        else if quad == 1 then
          var rest :- Scan(s[1..], 2, v % 16, 0);
          Some([left * 4 + v / 16] + rest)
        else if quad == 2 then
          var rest :- Scan(s[1..], 3, v % 4, 0);
          Some([left * 16 + v / 4] + rest)
        else
          var rest :- Scan(s[1..], 0, 0, 0);
          Some([left * 64 + v] + rest)
  }

  /** `b64d(s)`; None stands for the exception (non-ASCII text or a truncated group). */
  function B64d(s: Str): Option<Bytes>
  {
    if forall i :: 0 <= i < |s| ==> s[i] < 128 then Scan(s, 0, 0, 0) else None
  }

  lemma ScanGroup(a: sextet, b: sextet, c: sextet, d: sextet, s: Str)
    ensures Scan([Letter(a), Letter(b), Letter(c), Letter(d)] + s, 0, 0, 0) ==
            match Scan(s, 0, 0, 0) {
              case None => None
              case Some(r) => Some([a * 4 + b / 16, b % 16 * 16 + c / 4, c % 4 * 64 + d] + r)
            }
  {
    var s3 := [Letter(d)] + s;
    var s2 := [Letter(c)] + s3;
    var s1 := [Letter(b)] + s2;
    var s0 := [Letter(a)] + s1;
    assert s3[1..] == s && s2[1..] == s3 && s1[1..] == s2 && s0[1..] == s1;
    assert [Letter(a), Letter(b), Letter(c), Letter(d)] + s == s0;
    assert Scan(s0, 0, 0, 0) == Scan(s1, 1, a, 0);
    match Scan(s, 0, 0, 0)
    case None =>
      assert Scan(s3, 3, c % 4, 0) == None && Scan(s2, 2, b % 16, 0) == None;
    case Some(r) =>
      assert Scan(s3, 3, c % 4, 0) == Some([c % 4 * 64 + d] + r);
      assert Scan(s2, 2, b % 16, 0) == Some([b % 16 * 16 + c / 4] + ([c % 4 * 64 + d] + r));
      assert [a * 4 + b / 16] + ([b % 16 * 16 + c / 4] + ([c % 4 * 64 + d] + r))
          == [a * 4 + b / 16, b % 16 * 16 + c / 4, c % 4 * 64 + d] + r;
  }

  lemma ScanOne(a: sextet, b: sextet)
    ensures Scan([Letter(a), Letter(b), 61, 61], 0, 0, 0) == Some([a * 4 + b / 16])
  {
    var s: Str := [Letter(a), Letter(b), 61, 61];
    assert s[1..] == [Letter(b), 61, 61] && s[1..][1..] == [61, 61] && s[1..][1..][1..] == [61];
    assert Scan([61], 2, b % 16, 1) == Some([]);
    assert Scan([61, 61], 2, b % 16, 0) == Some([]);
    assert [a * 4 + b / 16] + [] == [a * 4 + b / 16];
    assert Scan([Letter(b), 61, 61], 1, a, 0) == Some([a * 4 + b / 16]);
    assert Scan(s, 0, 0, 0) == Scan(s[1..], 1, a, 0);
  }

  lemma ScanTwo(a: sextet, b: sextet, c: sextet)
    ensures Scan([Letter(a), Letter(b), Letter(c), 61], 0, 0, 0) == Some([a * 4 + b / 16, b % 16 * 16 + c / 4])
  {
    var s: Str := [Letter(a), Letter(b), Letter(c), 61];
    assert s[1..] == [Letter(b), Letter(c), 61] && s[1..][1..] == [Letter(c), 61] && s[1..][1..][1..] == [61];
    assert Scan([61], 3, c % 4, 0) == Some([]);
    assert [b % 16 * 16 + c / 4] + [] == [b % 16 * 16 + c / 4];
    assert Scan([Letter(c), 61], 2, b % 16, 0) == Some([b % 16 * 16 + c / 4]);
    assert [a * 4 + b / 16] + [b % 16 * 16 + c / 4] == [a * 4 + b / 16, b % 16 * 16 + c / 4];
    assert Scan([Letter(b), Letter(c), 61], 1, a, 0) == Some([a * 4 + b / 16, b % 16 * 16 + c / 4]);
    assert Scan(s, 0, 0, 0) == Scan(s[1..], 1, a, 0);
  }

  lemma Regroup(x: byte, y: byte, z: byte)
    ensures x / 4 * 4 + (x % 4 * 16 + y / 16) / 16 == x
    ensures (x % 4 * 16 + y / 16) % 16 * 16 + (y % 16 * 4 + z / 64) / 4 == y
    ensures (y % 16 * 4 + z / 64) % 4 * 64 + z % 64 == z
  {
  }

  lemma RoundTripOne(x: byte)
    ensures Scan(B64e([x]), 0, 0, 0) == Some([x])
  {
    ScanOne(x / 4, x % 4 * 16);
    Regroup(x, 0, 0);
  }

  lemma RoundTripTwo(x: byte, y: byte)
    ensures Scan(B64e([x, y]), 0, 0, 0) == Some([x, y])
  {
    ScanTwo(x / 4, x % 4 * 16 + y / 16, y % 16 * 4);
    Regroup(x, y, 0);
  }

  lemma RoundTripGroup(x: byte, y: byte, z: byte, rest: Bytes)
    requires Scan(B64e(rest), 0, 0, 0) == Some(rest)
    ensures Scan(B64e([x, y, z] + rest), 0, 0, 0) == Some([x, y, z] + rest)
  {
    hide Scan, Letter;
    assert ([x, y, z] + rest)[3..] == rest;
    ScanGroup(x / 4, x % 4 * 16 + y / 16, y % 16 * 4 + z / 64, z % 64, B64e(rest));
    Regroup(x, y, z);
  }

  lemma {:induction false} ScanB64e(d: Bytes)
    ensures Scan(B64e(d), 0, 0, 0) == Some(d)
  {
    if |d| == 1 {
      RoundTripOne(d[0]);
      assert d == [d[0]];
    } else if |d| == 2 {
      RoundTripTwo(d[0], d[1]);
      assert d == [d[0], d[1]];
    } else if |d| >= 3 {
      ScanB64e(d[3..]);
      RoundTripGroup(d[0], d[1], d[2], d[3..]);
      assert d == [d[0], d[1], d[2]] + d[3..];
    }
  }

  /** A character outside the alphabet and the padding is skipped wherever it stands. */
  lemma {:induction false} ScanSkips(a: Str, c: codepoint, b: Str, quad: nat, left: nat, pads: nat)
    requires quad < 4 && (quad == 1 ==> left < 64) && (quad == 2 ==> left < 16) && (quad == 3 ==> left < 4)
    requires c != 61 && Sextet(c) == None
    ensures Scan(a + [c] + b, quad, left, pads) == Scan(a + b, quad, left, pads)
    decreases |a|, 0
  {
    if a == [] {
      assert ([c] + b)[1..] == b && a + [c] + b == [c] + b && a + b == b;
    } else {
      assert a + [c] + b == [a[0]] + (a[1..] + [c] + b) && a + b == [a[0]] + (a[1..] + b);
      ScanTail(a[1..], c, b, quad, left, pads, a[0]);
    }
  }

  function LeftBits(quad: nat, v: sextet): nat
  {
    if quad == 0 then v else if quad == 1 then v % 16 else if quad == 2 then v % 4 else 0
  }

  lemma {:induction false} ScanTail(a: Str, c: codepoint, b: Str, quad: nat, left: nat, pads: nat, x: codepoint)
    requires quad < 4 && (quad == 1 ==> left < 64) && (quad == 2 ==> left < 16) && (quad == 3 ==> left < 4)
    requires c != 61 && Sextet(c) == None
    ensures Scan([x] + (a + [c] + b), quad, left, pads) == Scan([x] + (a + b), quad, left, pads)
    decreases |a|, 1
  {
    assert ([x] + (a + [c] + b))[1..] == a + [c] + b && ([x] + (a + b))[1..] == a + b;
    if x == 61 {
      ScanSkips(a, c, b, quad, left, if quad >= 2 then pads + 1 else pads);
    } else if Sextet(x) == None {
      ScanSkips(a, c, b, quad, left, pads);
    } else {
      var v := Sextet(x).value;
      ScanSkips(a, c, b, if quad == 3 then 0 else quad + 1, LeftBits(quad, v), 0);
    }
  }

  /** Decoding skips line ends, spaces and every other ASCII character that means nothing in base64. */
  lemma SkipsOthers(a: Str, c: codepoint, b: Str)
    requires c < 128 && c !in {43, 47, 61} && !(48 <= c <= 57 || 65 <= c <= 90 || 97 <= c <= 122)
    ensures B64d(a + [c] + b) == B64d(a + b)
  {
    hide Scan;
    ScanSkips(a, c, b, 0, 0, 0);
    AsciiParts(a, [c] + b);
    AsciiParts([c], b);
    AsciiParts(a, b);
    assert a + [c] + b == a + ([c] + b);
  }

  lemma AsciiParts(s: Str, t: Str)
    ensures (forall i :: 0 <= i < |s + t| ==> (s + t)[i] < 128)
            <==> (forall i :: 0 <= i < |s| ==> s[i] < 128) && forall i :: 0 <= i < |t| ==> t[i] < 128
  {
    assert forall i :: 0 <= i < |s| ==> s[i] == (s + t)[i];
    assert forall i :: 0 <= i < |t| ==> t[i] == (s + t)[|s| + i];
  }

  /** Three bytes make one group; the rest follows. */
  lemma OneGroup(a: byte, b: byte, c: byte, rest: Bytes)
    ensures B64e([a, b, c] + rest)
         == [Letter(a / 4), Letter(a % 4 * 16 + b / 16), Letter(b % 16 * 4 + c / 64), Letter(c % 64)] + B64e(rest)
  {
    hide Letter;
    assert ([a, b, c] + rest)[3..] == rest;
  }

  /** What is left over is padded. */
  lemma LastGroup(a: byte, b: byte)
    ensures B64e([]) == [] && B64e([a]) == [Letter(a / 4), Letter(a % 4 * 16), 61, 61]
    ensures B64e([a, b]) == [Letter(a / 4), Letter(a % 4 * 16 + b / 16), Letter(b % 16 * 4), 61]
  {
    hide Letter;
  }

  /** From section 10 of RFC 4648: "f" gives "Zg==", "fo" gives "Zm8=" and "foo" gives "Zm9v"; FB FF gives "+/8=". */
  lemma Vectors()
    ensures B64e([102]) == [90, 103, 61, 61] && B64e([102, 111]) == [90, 109, 56, 61]
    ensures B64e([0xFB, 0xFF]) == [43, 47, 56, 61] && B64e([102, 111, 111]) == [90, 109, 57, 118]
  {
    hide B64e;
    LastGroup(102, 111);
    LastGroup(0xFB, 0xFF);
    OneGroup(102, 111, 111, []);
    assert [102, 111, 111] + [] == [102, 111, 111];
  }

  /** A group broken off, "Zg", one padding character short of two, "Zg=", and text that is not ASCII raise. */
  lemma Undecodable()
    ensures B64d([90, 103]) == None && B64d([90, 103, 61]) == None && B64d([0x80]) == None
  {
    var s: Str, t: Str := [90, 103], [90, 103, 61];
    assert s[1..] == [103] && s[1..][1..] == [];
    assert t[1..] == [103, 61] && t[1..][1..] == [61] && t[1..][1..][1..] == [];
    assert Scan(s[1..], 1, 25, 0) == None;
    assert Scan(t[1..][1..], 2, 0, 0) == None && Scan(t[1..], 1, 25, 0) == None;
  }

  /** Decoding gives back exactly the encoded bytes. */
  lemma RoundTrip(d: Bytes)
    ensures B64d(B64e(d)) == Some(d)
  {
    ScanB64e(d);
  }
}
