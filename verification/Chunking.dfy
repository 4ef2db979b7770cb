/** How _send_file cuts a file: the float ceiling and the slices. */
module Chunking {
  import opened Bytes
  import opened CryptoUtils

  const TWO53: nat := 0x20_0000_0000_0000

  /** The spacing of IEEE doubles around `n`: the least power of two `u` with `n <= 2^53 * u`. */
  function Ulp(n: nat): (u: nat)
    ensures u > 0
  {
    if n <= TWO53 then 1 else 2 * Ulp((n + 1) / 2)
  }

  /** `n` rounded to the nearest double, ties to even. */
  function RoundToDouble(n: nat): nat
  {
    var u := Ulp(n);
    var q, r := n / u, n % u;
    if 2 * r < u || (2 * r == u && q % 2 == 0) then q * u else (q + 1) * u
  }

  /** `math.ceil(x)` */
  function Ceil(x: real): int { -((-x).Floor) }

  /** `max(1, math.ceil(n / CHUNK_SIZE))`. The divisor is a power of two, so Python's correctly
      rounded true division is the rounded dividend scaled exactly. */
  function TotalChunks(n: nat): (t: int)
    ensures t >= 1
  {
    var c := Ceil(RoundToDouble(n) as real / CHUNK_SIZE as real);
    if c > 1 then c else 1
  }

  lemma CeilIs(x: real, c: int)
    requires (c - 1) as real < x <= c as real
    ensures Ceil(x) == c
  {
  }

  lemma CeilOfQuotient(m: nat)
    ensures Ceil(m as real / CHUNK_SIZE as real) == (m + CHUNK_SIZE - 1) / CHUNK_SIZE
  {
    var c := (m + CHUNK_SIZE - 1) / CHUNK_SIZE;
    assert (c - 1) * CHUNK_SIZE < m <= c * CHUNK_SIZE;
    var x := m as real / CHUNK_SIZE as real;
    assert x * CHUNK_SIZE as real == m as real;
    assert (c - 1) as real < x <= c as real;
    CeilIs(x, c);
  }

  /** Up to 2^53 bytes the float ceiling is the integer ceiling, with one chunk for an empty file. */
  lemma TotalChunksExact(n: nat)
    requires n <= TWO53
    ensures TotalChunks(n) == if n == 0 then 1 else (n + CHUNK_SIZE - 1) / CHUNK_SIZE
    ensures 1 <= TotalChunks(n) <= 0x4_0000_0000
    ensures n <= TotalChunks(n) * CHUNK_SIZE
    ensures n > 0 ==> (TotalChunks(n) - 1) * CHUNK_SIZE < n
  {
    CeilOfQuotient(n);
  }

  // ---------------------------------------------------------------- when the chunks cover the file

  lemma {:induction false} UlpIsPower(n: nat) returns (k: nat)
    ensures Ulp(n) == Pow2(k)
  {
    k := 0;
    if n > TWO53 {
      k := UlpIsPower((n + 1) / 2);
      k := k + 1;
    }
  }

  lemma {:induction false} UlpLeast(n: nat, k: nat)
    requires n <= TWO53 * Pow2(k)
    ensures Ulp(n) <= Pow2(k)
  {
    if n > TWO53 {
      assert TWO53 * Pow2(k) == 2 * (TWO53 * Pow2(k - 1));
      UlpLeast((n + 1) / 2, k - 1);
    }
  }

  lemma {:induction false} PowerDivides(j: nat, k: nat) returns (m: nat)
    requires j <= k
    ensures Pow2(k) == m * Pow2(j) && m == Pow2(k - j)
  {
    m := Pow2(k - j);
    if j > 0 {
      var m' := PowerDivides(j - 1, k - 1);
      assert m * Pow2(j) == 2 * (m' * Pow2(j - 1));
    }
  }

  lemma {:induction false} PowerOrder(j: nat, k: nat)
    requires Pow2(j) < Pow2(k)
    ensures j < k
    decreases j
  {
    if j > 0 && k > 0 { PowerOrder(j - 1, k - 1); }
  }

  lemma ChunkIsPower()
    ensures CHUNK_SIZE == Pow2(19)
  {
    assert Pow2(5) == 32;
    assert Pow2(10) == 1024;
    assert Pow2(15) == 32_768;
  }

  /** Below 2^71 bytes a chunk is an even number of ulps. */
  lemma UlpDividesChunk(n: nat) returns (m: nat)
    requires n <= 0x80_0000_0000_0000_0000
    ensures CHUNK_SIZE == m * Ulp(n) && m >= 2 && m % 2 == 0
  {
    ChunkIsPower();
    assert TWO53 * Pow2(18) == 0x80_0000_0000_0000_0000;
    UlpLeast(n, 18);
    var j := UlpIsPower(n);
    PowerOrder(j, 19);
    m := PowerDivides(j, 19);
  }

  /** The remainder of `n` by a chunk, cut into whole ulps and the remainder of `n` by an ulp. */
  lemma RemainderInUlps(n: nat, u: nat, m: nat) returns (whole: nat)
    requires CHUNK_SIZE == m * u && u > 0 && m % 2 == 0 && m > 0
    ensures n % CHUNK_SIZE == whole + n % u
    ensures (whole == 0 || u <= whole) && whole + u <= CHUNK_SIZE && (n / u % 2 == 1 ==> whole > 0)
  {
    var i := n / u % m;
    whole := i * u;
    QuotientRemainder(n, u, m);
    HalfOfMultiple(n / u, m);
    Multiples(0, i, u);
    Multiples(i, m, u);
  }

  lemma QuotientRemainder(n: nat, u: nat, m: nat)
    requires u > 0 && m > 0 && m * u > 0
    ensures n % (m * u) == n / u % m * u + n % u
  {
    var q, r := n / u, n % u;
    var a, i := q / m, q % m;
    Regroup(n, q, r, a, i, u, m);
    Multiples(i, m, u);
    Multiples(-1, i, u);
    Remainder(n, m * u, a, i * u + r);
  }

  lemma Regroup(n: nat, q: nat, r: nat, a: nat, i: nat, u: nat, m: nat)
    requires n == q * u + r && q == a * m + i
    ensures n == a * (m * u) + (i * u + r)
  {
    assert q * u == a * m * u + i * u;
  }

  lemma Remainder(n: int, d: nat, k: int, s: int)
    requires n == k * d + s && 0 <= s < d
    ensures n % d == s
  {
    Multiples(k, n / d, d);
    Multiples(n / d, k, d);
  }

  lemma Multiples(a: int, b: int, d: nat)
    ensures a < b ==> a * d + d <= b * d
  {
    assert a < b ==> (a + 1) * d <= b * d;
  }

  lemma HalfOfMultiple(q: nat, m: nat)
    requires m > 0 && m % 2 == 0
    ensures q % m % 2 == q % 2
  {
    assert q == q / m * m + q % m;
    assert q / m * m == 2 * (q / m * (m / 2));
  }

  predicate RoundsUp(n: nat)
  {
    var u := Ulp(n);
    2 * (n % u) > u || (2 * (n % u) == u && n / u % 2 == 1)
  }

  lemma Rounded(n: nat)
    ensures RoundToDouble(n) == if RoundsUp(n) then n - n % Ulp(n) + Ulp(n) else n - n % Ulp(n)
    ensures Ulp(n) > 1 ==> n > TWO53
  {
    hide RoundToDouble;
    RoundedBy(n, Ulp(n));
  }

  lemma RoundedBy(n: nat, u: nat)
    requires u == Ulp(n)
    ensures RoundToDouble(n) == if RoundsUp(n) then n - n % u + u else n - n % u
  {
    hide Ulp;
    Quotient(n, u);
  }

  lemma Quotient(n: nat, u: nat)
    requires u > 0
    ensures n / u * u == n - n % u && (n / u + 1) * u == n - n % u + u
  {
  }

  /** Which lengths the rounding shortens: `whole` ulps and `r` bytes are left over after the full chunks. */
  lemma CoverCases(n: nat, u: nat, whole: nat, r: nat, m: nat, up: bool)
    requires n % CHUNK_SIZE == whole + r && r < u && (whole == 0 || u <= whole) && whole + u <= CHUNK_SIZE
    requires m == if up then n - r + u else n - r
    requires up ==> 2 * r > u || (2 * r == u && whole > 0)
    requires !up ==> 2 * r <= u
    requires u > 1 ==> n > TWO53
    ensures var t := (m + CHUNK_SIZE - 1) / CHUNK_SIZE;
            n <= (if t > 1 then t else 1) * CHUNK_SIZE <==> n % CHUNK_SIZE == 0 || 2 * (n % CHUNK_SIZE) > u
  {
  }

  /** The chunks counted cover the file exactly when rounding loses none of its last, partial chunk: a length that
      is not a multiple of the chunk size must exceed one by more than half an ulp. */
  lemma ChunksCover(n: nat)
    requires n <= 0x80_0000_0000_0000_0000
    ensures n <= TotalChunks(n) * CHUNK_SIZE <==> n % CHUNK_SIZE == 0 || 2 * (n % CHUNK_SIZE) > Ulp(n)
  {
    hide Ulp, Pow2;
    var u := Ulp(n);
    var m := UlpDividesChunk(n);
    var whole := RemainderInUlps(n, u, m);
    Rounded(n);
    CeilOfQuotient(RoundToDouble(n));
    CoverCases(n, u, whole, n % u, RoundToDouble(n), RoundsUp(n));
  }

  /** One byte past 2^53 the last byte is not sent. */
  lemma TotalChunksTooFew()
    ensures TotalChunks(TWO53 + 1) * CHUNK_SIZE < TWO53 + 1
  {
    assert Ulp(TWO53 + 1) == 2 * Ulp((TWO53 + 2) / 2) == 2;
    ChunksCover(TWO53 + 1);
  }

  function Min(a: int, b: int): int { if a < b then a else b }

  /** Where slice `i` begins. */
  function Cut(data: Bytes, i: nat): (c: nat)
    ensures c <= |data|
  {
    Min(i * CHUNK_SIZE, |data|)
  }

  lemma CutsGrow(data: Bytes, i: nat)
    ensures Cut(data, i) <= Cut(data, i + 1) <= Cut(data, i) + CHUNK_SIZE
    ensures (i + 1) * CHUNK_SIZE <= |data| ==> Cut(data, i + 1) == Cut(data, i) + CHUNK_SIZE
  {
    Multiples(i, i + 1, CHUNK_SIZE);
    assert (i + 1) * CHUNK_SIZE == i * CHUNK_SIZE + CHUNK_SIZE;
  }

  /** `data[i * CHUNK_SIZE:(i + 1) * CHUNK_SIZE]` */
  function Slice(data: Bytes, i: nat): (s: Bytes)
    ensures |s| <= CHUNK_SIZE
    ensures (i + 1) * CHUNK_SIZE <= |data| ==> |s| == CHUNK_SIZE
  {
    CutsGrow(data, i);
    data[Cut(data, i)..Cut(data, i + 1)]
  }

  /** Slice `i` begins at byte 524288 * i and is 524288 bytes long where the file reaches that far. */
  lemma SliceIs(data: Bytes, i: nat)
    requires 524_288 * i <= |data|
    ensures Slice(data, i) == data[524_288 * i..if 524_288 * i + 524_288 <= |data| then 524_288 * i + 524_288 else |data|]
  {
    assert (i + 1) * CHUNK_SIZE == i * CHUNK_SIZE + CHUNK_SIZE;
  }

  /** `b"".join` of slices i, i+1, .., n-1. */
  function JoinSlices(data: Bytes, i: nat, n: nat): Bytes
    requires i <= n
    decreases n - i
  {
    if i == n then [] else Slice(data, i) + JoinSlices(data, i + 1, n)
  }

  lemma CutAndJoin(data: Bytes, a: nat, b: nat)
    requires a <= b <= |data|
    ensures data[a..b] + data[b..] == data[a..]
  {
  }

  lemma {:induction false} JoinSlicesFrom(data: Bytes, i: nat, n: nat)
    requires i <= n && Cut(data, n) == |data|
    ensures JoinSlices(data, i, n) == data[Cut(data, i)..]
    decreases n - i
  {
    hide Cut;
    if i < n {
      CutsGrow(data, i);
      JoinSlicesFrom(data, i + 1, n);
      CutAndJoin(data, Cut(data, i), Cut(data, i + 1));
    }
  }

  /** The slices the sender cuts concatenate back to the file; only the last may be short. */
  lemma SlicesPartition(data: Bytes)
    requires |data| <= TWO53
    ensures JoinSlices(data, 0, TotalChunks(|data|)) == data
    ensures forall i :: 0 <= i < TotalChunks(|data|) - 1 ==> |Slice(data, i)| == CHUNK_SIZE
  {
    var n := TotalChunks(|data|);
    TotalChunksExact(|data|);
    JoinSlicesFrom(data, 0, n);
    assert data[0..] == data;
    forall i | 0 <= i < n - 1
      ensures |Slice(data, i)| == CHUNK_SIZE
    {
      assert (i + 1) * CHUNK_SIZE <= (n - 1) * CHUNK_SIZE;
    }
  }
}
