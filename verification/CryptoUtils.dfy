/** crypto_utils.py: what is fed into the primitives, byte for byte. The primitives themselves
    are the function-valued fields of a Prims. */
module CryptoUtils {
  import opened Bytes
  import opened Text

  const CHUNK_SIZE: nat := 524_288
  const MAX_FRAME: nat := 4_194_304

  /** Ed25519, SHA-256, X25519, HKDF-SHA256 and AES-256-GCM as functions on bytes, and `str.lower()`. */
  datatype Prims = Prims(
    sha256: Bytes -> Bytes,
    publicKey: Bytes -> Bytes,
    sign: (Bytes, Bytes) -> Bytes,
    verify: (Bytes, Bytes, Bytes) -> bool,
    ephemeralPublic: Bytes -> Bytes,
    exchange: (Bytes, Bytes) -> Bytes,
    hkdf: (Bytes, Bytes, Bytes, nat) -> Bytes,
    seal: (Bytes, Bytes, Bytes, Bytes) -> Bytes,
    open: (Bytes, Bytes, Bytes, Bytes) -> Option<Bytes>,
    lower: Str -> Str)

  ghost predicate SignaturesVerify(p: Prims)
  {
    forall k, m :: |p.sign(k, m)| == 64 && p.verify(p.publicKey(k), p.sign(k, m), m)
  }

  ghost predicate SealsOpen(p: Prims)
  {
    forall k, n, a, m :: p.open(k, n, a, p.seal(k, n, a, m)) == Some(m)
  }

  /** AES-GCM appends a 16-byte tag. */
  ghost predicate SealsAddTag(p: Prims)
  {
    forall k, n, a, m :: |p.seal(k, n, a, m)| == |m| + 16
  }

  /** X25519 keys are 32 bytes and both sides compute the same secret. */
  ghost predicate ExchangesCommute(p: Prims)
  {
    && (forall a :: |p.ephemeralPublic(a)| == 32)
    && forall a, b :: p.exchange(a, p.ephemeralPublic(b)) == p.exchange(b, p.ephemeralPublic(a))
  }

  // ---------------------------------------------------------------- fingerprints

  /** `bytes.hex()` */
  function HexString(b: Bytes): (s: Bytes)
    ensures |s| == 2 * |b|
    ensures forall i :: 0 <= i < |s| ==> s[i] == HexDigit(if i % 2 == 0 then b[i / 2] / 16 else b[i / 2] % 16)
  {
    seq(2 * |b|, i requires 0 <= i < 2 * |b| => HexDigit(if i % 2 == 0 then b[i / 2] / 16 else b[i / 2] % 16))
  }

  lemma HexVector()
    ensures HexString([0, 0x9F, 0xA0, 0xFF]) == Asc("009fa0ff")
  {
  }

  lemma HexInjective(a: Bytes, b: Bytes)
    requires HexString(a) == HexString(b)
    ensures a == b
  {
    assert |HexString(a)| == 2 * |a| && |HexString(b)| == 2 * |b|;
    forall i | 0 <= i < |a|
      ensures a[i] == b[i]
    {
      assert HexString(a)[2 * i] == HexString(b)[2 * i];
      assert HexString(a)[2 * i + 1] == HexString(b)[2 * i + 1];
      assert a[i] / 16 == b[i] / 16 && a[i] % 16 == b[i] % 16;
    }
  }

  predicate IsLowerHex(s: Str) { forall i :: 0 <= i < |s| ==> 48 <= s[i] <= 57 || 97 <= s[i] <= 102 }

  function Fingerprint(p: Prims, rawPub: Bytes): Bytes { HexString(p.sha256(rawPub)) }

  // ---------------------------------------------------------------- session keys

  datatype SessionKeys = SessionKeys(txKey: Bytes, rxKey: Bytes, txNonceBase: Bytes, rxNonceBase: Bytes)

  function InfoText(initiatorFp: Str, responderFp: Str, tag: Str): Str
  {
    Asc("CISC468-SESSION-V1") + initiatorFp + responderFp + tag
  }

  /** SessionKeys.derive; None is the UnicodeEncodeError of a fingerprint with lone surrogates. */
  function Derive(p: Prims, shared: Bytes, initiatorNonce: Bytes, responderNonce: Bytes,
                  initiatorFp: Str, responderFp: Str, isInitiator: bool): Option<SessionKeys>
  {
    var salt := ZipXor(initiatorNonce, responderNonce);
    var tx :- Encode(InfoText(initiatorFp, responderFp, Asc("TX")));
    var rx :- Encode(InfoText(initiatorFp, responderFp, Asc("RX")));
    var ntx :- Encode(InfoText(initiatorFp, responderFp, Asc("NTX")));
    var nrx :- Encode(InfoText(initiatorFp, responderFp, Asc("NRX")));
    var k := SessionKeys(p.hkdf(shared, salt, tx, 32), p.hkdf(shared, salt, rx, 32),
                         p.hkdf(shared, salt, ntx, 12), p.hkdf(shared, salt, nrx, 12));
    Some(if isInitiator then k else Swap(k))
  }

  function Swap(k: SessionKeys): SessionKeys
  {
    SessionKeys(k.rxKey, k.txKey, k.rxNonceBase, k.txNonceBase)
  }

  /** Equal secrets, salts and fingerprints give the two sides mirrored keys, and only the
      salt matters about the nonces. */
  lemma DeriveMirrors(p: Prims, shared: Bytes, ni: Bytes, nr: Bytes, mi: Bytes, mr: Bytes, fi: Str, fr: Str)
    requires ZipXor(ni, nr) == ZipXor(mi, mr)
    ensures var i, r := Derive(p, shared, ni, nr, fi, fr, true), Derive(p, shared, mi, mr, fi, fr, false);
            i.Some? == r.Some? && (i.Some? ==> r.value == Swap(i.value) && i.value == Swap(r.value))
  {
  }

  /** HKDF gives as many bytes as it is asked for. */
  ghost predicate KdfLengths(p: Prims) { forall s, t, i, l :: |p.hkdf(s, t, i, l)| == l }

  lemma InfoEncoded(fi: Str, fr: Str, tag: string)
    ensures Encode(InfoText(fi, fr, Asc(tag))).Some? <==> ScalarStr(fi) && ScalarStr(fr)
    ensures ScalarStr(fi) && ScalarStr(fr)
            ==> Encode(InfoText(fi, fr, Asc(tag)))
                == Some(Asc("CISC468-SESSION-V1") + Utf8Bytes(fi) + Utf8Bytes(fr) + Asc(tag))
  {
    hide Utf8Bytes, ScalarStr;
    var c: Str, t: Str := Asc("CISC468-SESSION-V1"), Asc(tag);
    EncodeAppend(c + fi + fr, t);
    EncodeAppend(c + fi, fr);
    EncodeAppend(c, fi);
    EncodeAscii(c);
    EncodeAscii(t);
  }

  /** The output for one label: HKDF over the XOR of the nonces and the prefix, both fingerprints and the label. */
  function Labelled(p: Prims, shared: Bytes, ni: Bytes, nr: Bytes, fi: Str, fr: Str, tag: string, length: nat): Bytes
  {
    p.hkdf(shared, ZipXor(ni, nr), Asc("CISC468-SESSION-V1") + Utf8Bytes(fi) + Utf8Bytes(fr) + Asc(tag), length)
  }

  /** Which label keys which direction, and how long each output is: the initiator sends under TX and NTX, the responder
      under RX and NRX. */
  lemma DeriveIs(p: Prims, shared: Bytes, ni: Bytes, nr: Bytes, fi: Str, fr: Str, isInitiator: bool)
    ensures Derive(p, shared, ni, nr, fi, fr, isInitiator).Some? <==> ScalarStr(fi) && ScalarStr(fr)
    ensures var k := Derive(p, shared, ni, nr, fi, fr, isInitiator);
            k.Some? ==>
              && k.value.txKey == Labelled(p, shared, ni, nr, fi, fr, if isInitiator then "TX" else "RX", 32)
              && k.value.rxKey == Labelled(p, shared, ni, nr, fi, fr, if isInitiator then "RX" else "TX", 32)
              && k.value.txNonceBase == Labelled(p, shared, ni, nr, fi, fr, if isInitiator then "NTX" else "NRX", 12)
              && k.value.rxNonceBase == Labelled(p, shared, ni, nr, fi, fr, if isInitiator then "NRX" else "NTX", 12)
  {
    hide Encode, InfoText, ScalarStr;
    InfoEncoded(fi, fr, "TX");
    InfoEncoded(fi, fr, "RX");
    InfoEncoded(fi, fr, "NTX");
    InfoEncoded(fi, fr, "NRX");
  }

  /** AES-256 keys of 32 bytes and GCM nonce bases of 12, on both sides. */
  predicate FullLength(k: SessionKeys)
  {
    |k.txKey| == |k.rxKey| == 32 && |k.txNonceBase| == |k.rxNonceBase| == 12
  }

  lemma DerivedLengths(p: Prims, shared: Bytes, ni: Bytes, nr: Bytes, fi: Str, fr: Str, isInitiator: bool)
    requires KdfLengths(p) && Derive(p, shared, ni, nr, fi, fr, isInitiator).Some?
    ensures FullLength(Derive(p, shared, ni, nr, fi, fr, isInitiator).value)
  {
    hide Derive;
    DeriveIs(p, shared, ni, nr, fi, fr, isInitiator);
  }

  /** The HKDF info strings of 64-character fingerprints tell the two parties and the label apart. */
  lemma InfoInjective(fi: Str, fr: Str, l: Str, gi: Str, gr: Str, m: Str)
    requires |fi| == |gi| == |fr| == |gr| == 64
    requires Encode(InfoText(fi, fr, l)).Some? && Encode(InfoText(fi, fr, l)) == Encode(InfoText(gi, gr, m))
    ensures fi == gi && fr == gr && l == m
  {
    EncodeInjective(InfoText(fi, fr, l), InfoText(gi, gr, m));
    var c: Str := Asc("CISC468-SESSION-V1");
    SplitSame(c + fi + fr, l, c + gi + gr, m);
    SplitSame(c + fi, fr, c + gi, gr);
    SplitSame(c, fi, c, gi);
  }

  // ---------------------------------------------------------------- chunk nonces

  /** chunk_nonce; None is the struct.error of an index outside uint64. */
  function ChunkNonce(base: Bytes, index: int): (r: Option<Bytes>)
    ensures r.Some? <==> 0 <= index < Pow256(8)
  {
    if 0 <= index < Pow256(8) then Some(ZipXor(base, [0, 0, 0, 0] + BigEndian(index, 8))) else None
  }

  /** XORing the padded index in again gives back the base, so the index decides the nonce. */
  lemma ChunkNonceUndo(base: Bytes, index: nat)
    requires |base| == 12 && index < Pow256(8)
    ensures ZipXor(ChunkNonce(base, index).value, [0, 0, 0, 0] + BigEndian(index, 8)) == base
    ensures ChunkNonce(base, index).value[..4] == base[..4]
  {
    var pad: Bytes := [0, 0, 0, 0] + BigEndian(index, 8);
    ZipXorUndo(base, pad);
    forall i | 0 <= i < 4
      ensures ChunkNonce(base, index).value[i] == base[i]
    {
      assert pad[i] == 0;
      XorNatZero(base[i]);
    }
  }

  lemma XorCancels(a: byte, b: byte, c: byte)
    requires Xor(a, b) == Xor(a, c)
    ensures b == c
  {
    XorNatSwap(a, b);
    XorNatSwap(a, c);
    XorNatUndo(b, a);
    XorNatUndo(c, a);
  }

  lemma {:induction false} XorNatSwap(a: nat, b: nat)
    ensures XorNat(a, b) == XorNat(b, a)
    decreases a + b
  {
    if a != 0 || b != 0 { XorNatSwap(a / 2, b / 2); }
  }

  /** Under one base no two indices share a nonce (section 2.1 of RFC 5116). */
  lemma ChunkNonceInjective(base: Bytes, i: nat, j: nat)
    requires |base| == 12 && i < Pow256(8) && j < Pow256(8)
    requires ChunkNonce(base, i) == ChunkNonce(base, j)
    ensures i == j
  {
    var a: Bytes, b: Bytes := [0, 0, 0, 0] + BigEndian(i, 8), [0, 0, 0, 0] + BigEndian(j, 8);
    forall k | 0 <= k < 12
      ensures a[k] == b[k]
    {
      assert ZipXor(base, a)[k] == ZipXor(base, b)[k];
      XorCancels(base[k], a[k], b[k]);
    }
    assert a == b;
    assert BigEndian(i, 8) == a[4..] && BigEndian(j, 8) == b[4..];
    BigEndianRoundTrip(i, 8);
    BigEndianRoundTrip(j, 8);
  }

  // ---------------------------------------------------------------- chunk AAD

  const COLON: byte := 58

  function AadText(fileId: Str, index: int, total: int, messageId: Str): Str
  {
    fileId + [COLON] + (Decimal(index) + [COLON] + (Decimal(total) + [COLON] + messageId))
  }

  function ChunkAad(fileId: Str, index: int, total: int, messageId: Str): Option<Bytes>
  {
    Encode(AadText(fileId, index, total, messageId))
  }

  predicate NoColon(s: Str) { COLON !in s }

  lemma ShorterTail(a: Str, b: Str, c: Str, d: Str)
    requires a + [COLON] + b == c + [COLON] + d && |b| < |d|
    ensures COLON in d
  {
    var s := a + [COLON] + b;
    assert s[|a|] == COLON && s[|a|] == d[|a| - |c| - 1];
  }

  /** Text with a colon splits in one way at its last colon. */
  lemma SplitLast(a: Str, b: Str, c: Str, d: Str)
    requires a + [COLON] + b == c + [COLON] + d && NoColon(b) && NoColon(d)
    ensures a == c && b == d
  {
    if |b| < |d| { ShorterTail(a, b, c, d); }
    if |d| < |b| { ShorterTail(c, d, a, b); }
    SplitSame(a + [COLON], b, c + [COLON], d);
    SplitSame(a, [COLON], c, [COLON]);
  }

  lemma DecimalNoColon(n: int)
    ensures NoColon(Decimal(n))
  {
  }

  /** Reading an AAD from the right recovers message id, total, index and then the whole file id,
      colons and all. */
  lemma AadTextInjective(f: Str, i: int, t: int, m: Str, f': Str, i': int, t': int, m': Str)
    requires NoColon(m) && NoColon(m')
    requires AadText(f, i, t, m) == AadText(f', i', t', m')
    ensures f == f' && i == i' && t == t' && m == m'
  {
    DecimalNoColon(i); DecimalNoColon(t); DecimalNoColon(i'); DecimalNoColon(t');
    AadFromRight(f, i, t, m);
    AadFromRight(f', i', t', m');
    SplitLast(f + [COLON] + Decimal(i) + [COLON] + Decimal(t), m, f' + [COLON] + Decimal(i') + [COLON] + Decimal(t'), m');
    SplitLast(f + [COLON] + Decimal(i), Decimal(t), f' + [COLON] + Decimal(i'), Decimal(t'));
    SplitLast(f, Decimal(i), f', Decimal(i'));
    DecimalInjective(i, i');
    DecimalInjective(t, t');
  }

  lemma AadFromRight(f: Str, i: int, t: int, m: Str)
    ensures AadText(f, i, t, m) == f + [COLON] + Decimal(i) + [COLON] + Decimal(t) + [COLON] + m
  {
  }

  lemma ChunkAadInjective(f: Str, i: int, t: int, m: Str, f': Str, i': int, t': int, m': Str)
    requires NoColon(m) && NoColon(m')
    requires ChunkAad(f, i, t, m).Some? && ChunkAad(f, i, t, m) == ChunkAad(f', i', t', m')
    ensures f == f' && i == i' && t == t' && m == m'
  {
    EncodeInjective(AadText(f, i, t, m), AadText(f', i', t', m'));
    AadTextInjective(f, i, t, m, f', i', t', m');
  }

  function Colons(s: Str): nat { if s == [] then 0 else Colons(s[1..]) + if s[0] == COLON then 1 else 0 }

  lemma {:induction false} ColonsAppend(s: Str, t: Str)
    ensures Colons(s + t) == Colons(s) + Colons(t)
  {
    if s == [] {
      assert s + t == t;
    } else {
      ColonsAppend(s[1..], t);
      assert (s + t)[1..] == s[1..] + t;
    }
  }

  lemma {:induction false} ColonsZero(s: Str)
    ensures Colons(s) == 0 <==> NoColon(s)
  {
    if s != [] {
      ColonsZero(s[1..]);
      assert s == [s[0]] + s[1..];
    }
  }

  lemma ColonsOfAad(f: Str, i: int, t: int, m: Str)
    ensures Colons(AadText(f, i, t, m)) == Colons(f) + Colons(m) + 3
  {
    var c: Str := [COLON];
    assert Colons(c) == 1 by { assert c[1..] == []; }
    DecimalNoColon(i); DecimalNoColon(t);
    ColonsZero(Decimal(i)); ColonsZero(Decimal(t));
    ColonsAppend(Decimal(t) + c, m);
    ColonsAppend(Decimal(t), c);
    ColonsAppend(Decimal(i) + c, Decimal(t) + c + m);
    ColonsAppend(Decimal(i), c);
    ColonsAppend(f + c, Decimal(i) + c + (Decimal(t) + c + m));
    ColonsAppend(f, c);
  }

  /** When the sealing side's ids are colon-free (uuids), no choice of the opening side's fields,
      colons included, produces the same AAD except the very same fields. */
  lemma ChunkAadBinds(f: Str, i: int, t: int, m: Str, f': Str, i': int, t': int, m': Str)
    requires NoColon(f) && NoColon(m)
    requires ChunkAad(f, i, t, m).Some? && ChunkAad(f, i, t, m) == ChunkAad(f', i', t', m')
    ensures f == f' && i == i' && t == t' && m == m'
  {
    EncodeInjective(AadText(f, i, t, m), AadText(f', i', t', m'));
    ColonsOfAad(f, i, t, m);
    ColonsOfAad(f', i', t', m');
    ColonsZero(f); ColonsZero(m); ColonsZero(m');
    AadTextInjective(f, i, t, m, f', i', t', m');
  }

  // ---------------------------------------------------------------- chunk encryption

  /** encrypt_chunk; None when building the nonce or the AAD raises. */
  function EncryptChunk(p: Prims, key: Bytes, base: Bytes, index: int, data: Bytes,
                        fileId: Str, total: int, messageId: Str): Option<Bytes>
  {
    var nonce :- ChunkNonce(base, index);
    var aad :- ChunkAad(fileId, index, total, messageId);
    Some(p.seal(key, nonce, aad, data))
  }

  /** decrypt_chunk; None when it raises, InvalidTag included. */
  function DecryptChunk(p: Prims, key: Bytes, base: Bytes, index: int, ct: Bytes,
                        fileId: Str, total: int, messageId: Str): Option<Bytes>
  {
    var nonce :- ChunkNonce(base, index);
    var aad :- ChunkAad(fileId, index, total, messageId);
    p.open(key, nonce, aad, ct)
  }
}
