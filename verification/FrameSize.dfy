/** CHUNK frames never exceed MAX_FRAME, so neither end of a transfer trips over the size check. */
module FrameSize {
  import opened Bytes
  import opened Text
  import opened Json
  import Rereading
  import opened CryptoUtils
  import opened Chunking
  import opened Base64
  import opened Protocol
  import opened Channel
  import opened Transfer

  lemma {:induction false} EscapeAllBound(u: seq<codeunit>)
    ensures |EscapeAll(u)| <= 6 * |u|
  {
    if u != [] { EscapeAllBound(u[1..]); }
  }

  lemma {:induction false} UnitsBound(s: Str)
    ensures |Units(s)| <= 2 * |s|
  {
    if s != [] { UnitsBound(s[1..]); }
  }

  lemma QuoteBound(s: Str)
    ensures |Quote(Units(s))| <= 12 * |s| + 2
  {
    UnitsBound(s);
    EscapeAllBound(Units(s));
  }

  /** Base64 text is printed as it is. */
  lemma {:induction false} EscapeBase64(s: Bytes)
    requires forall i :: 0 <= i < |s| ==> s[i] == 61 || Sextet(s[i]).Some?
    ensures Units(s) == s && EscapeAll(Units(s)) == s
  {
    if s != [] {
      EscapeBase64(s[1..]);
      assert s == [s[0]] + s[1..];
      assert Escape(s[0]) == [s[0]];
      assert Units(s)[1..] == Units(s[1..]);
    }
  }

  /** The text of one field: quoted name, colon, value and at most one comma. */
  function FieldSize(j: J, k: Str): nat
    requires j.JObj? && k in j.m
  {
    |Quote(Units(k))| + |Dumps(j.m[k])| + 2
  }

  function FieldsSize(j: J, ks: seq<Str>): nat
    requires j.JObj? && forall k :: k in ks ==> k in j.m
  {
    if ks == [] then 0 else FieldSize(j, ks[0]) + FieldsSize(j, ks[1..])
  }

  lemma {:induction false} PrintFieldsSize(j: J, ks: seq<Str>, first: bool)
    requires j.JObj? && forall k :: k in ks ==> k in j.m
    ensures |PrintFields(FieldsFor(j, ks), first)| <= 1 + FieldsSize(j, ks)
  {
    hide Dumps, Quote;
    if ks != [] {
      PrintFieldsSize(j, ks[1..], false);
      OneFieldSize(j, ks, first);
    }
  }

  lemma OneFieldSize(j: J, ks: seq<Str>, first: bool)
    requires j.JObj? && ks != [] && forall k :: k in ks ==> k in j.m
    ensures |PrintFields(FieldsFor(j, ks), first)| <= FieldSize(j, ks[0]) + |PrintFields(FieldsFor(j, ks[1..]), false)|
  {
    hide Quote;
  }

  lemma OneMore(n: nat, small: nat)
    ensures (n + 1) * small == small + n * small
  {
  }

  /** At most `small` for every field, plus `extra` for the one field `big`. */
  lemma {:induction false} FieldsSizeBound(j: J, ks: seq<Str>, small: nat, big: Str, extra: nat)
    requires j.JObj? && StrictlySorted(ks) && forall k :: k in ks ==> k in j.m
    requires forall k :: k in ks ==> FieldSize(j, k) <= small + if k == big then extra else 0
    ensures FieldsSize(j, ks) <= |ks| * small + if big in ks then extra else 0
  {
    hide FieldSize, StrictlySorted;
    if ks != [] {
      var t := ks[1..];
      assert ks == [ks[0]] + t;
      Rereading.TailSorted(ks, t);
      FieldsSizeBound(j, t, small, big, extra);
      OneMore(|t|, small);
    }
  }

  lemma ObjectSize(m: map<Str, J>, small: nat, big: Str, extra: nat)
    requires forall k :: k in m ==> FieldSize(JObj(m), k) <= small + if k == big then extra else 0
    ensures |Dumps(JObj(m))| <= 2 + |m| * small + extra
  {
    hide FieldSize, FieldsSize, PrintFields, FieldsFor, SortedKeys;
    var ks := SortedKeys(m.Keys);
    SortedKeysSorted(m.Keys);
    PrintFieldsSize(JObj(m), ks, true);
    FieldsSizeBound(JObj(m), ks, small, big, extra);
    assert |ks| == |m.Keys| == |m|;
  }

  predicate ShortKey(k: Str) { |k| <= 14 }

  lemma SmallText(j: J, k: Str, s: Str)
    requires j.JObj? && k in j.m && j.m[k] == JStr(s) && ShortKey(k)
    ensures FieldSize(j, k) <= 174 + 12 * |s|
  {
    hide Quote;
    QuoteBound(k);
    QuoteBound(s);
  }

  lemma SmallNumber(j: J, k: Str, n: nat)
    requires j.JObj? && k in j.m && j.m[k] == JInt(n) && ShortKey(k) && n < Pow10(20)
    ensures FieldSize(j, k) <= 192
  {
    hide Quote, Pow10;
    QuoteBound(k);
    DigitsLength(n, 20);
  }

  lemma BigText(j: J, k: Str, s: Bytes)
    requires j.JObj? && k in j.m && j.m[k] == JStr(s) && ShortKey(k)
    requires forall i :: 0 <= i < |s| ==> s[i] == 61 || Sextet(s[i]).Some?
    ensures FieldSize(j, k) <= 174 + |s|
  {
    hide EscapeAll;
    QuoteBound(k);
    EscapeBase64(s);
    assert |Quote(Units(s))| == |s| + 2;
  }

  lemma AtMostSix(a: Str, b: Str, c: Str, d: Str, e: Str, f: Str)
    ensures |{a, b, c, d, e}| <= 5 && |{a, b, c, d, e, f}| <= 6
  {
    assert {a, b, c, d, e} == {a, b, c, d} + {e} && {a, b, c, d, e, f} == {a, b, c, d, e} + {f};
  }

  lemma ChunkPayloadFields(fileId: Str, index: int, total: int, data: Str, transferId: Str)
    ensures var j := ChunkPayload(fileId, index, total, data, transferId);
            && j.JObj?
            && j.m.Keys == {Asc("file_id"), Asc("chunk_index"), Asc("total_chunks"), Asc("data"), Asc("transfer_id")}
            && j.m[Asc("file_id")] == JStr(fileId) && j.m[Asc("chunk_index")] == JInt(index)
            && j.m[Asc("total_chunks")] == JInt(total) && j.m[Asc("data")] == JStr(data)
            && j.m[Asc("transfer_id")] == JStr(transferId)
  {
    AscInjective();
  }

  lemma ChunkFieldSizes(fileId: Str, index: nat, total: nat, data: Bytes, transferId: Str, k: Str)
    requires index < Pow10(20) && total < Pow10(20)
    requires forall i :: 0 <= i < |data| ==> data[i] == 61 || Sextet(data[i]).Some?
    requires k in ChunkPayload(fileId, index, total, data, transferId).m
    ensures FieldSize(ChunkPayload(fileId, index, total, data, transferId), k)
         <= 192 + 12 * (|fileId| + |transferId|) + if k == Asc("data") then |data| else 0
  {
    hide FieldSize, Pow10, ChunkPayload;
    ChunkPayloadFields(fileId, index, total, data, transferId);
    var j := ChunkPayload(fileId, index, total, data, transferId);
    if k == Asc("data") { BigText(j, k, data); }
    else if k == Asc("chunk_index") { SmallNumber(j, k, index); }
    else if k == Asc("total_chunks") { SmallNumber(j, k, total); }
    else if k == Asc("file_id") { SmallText(j, k, fileId); }
    else { SmallText(j, k, transferId); }
  }

  lemma ChunkPayloadSize(fileId: Str, index: nat, total: nat, data: Bytes, transferId: Str)
    requires index < Pow10(20) && total < Pow10(20)
    requires forall i :: 0 <= i < |data| ==> data[i] == 61 || Sextet(data[i]).Some?
    ensures |Dumps(ChunkPayload(fileId, index, total, data, transferId))|
         <= 962 + 60 * (|fileId| + |transferId|) + |data|
  {
    hide FieldSize, Dumps, Pow10, ChunkPayload;
    ChunkPayloadFields(fileId, index, total, data, transferId);
    var j := ChunkPayload(fileId, index, total, data, transferId);
    var small := 192 + 12 * (|fileId| + |transferId|);
    forall k | k in j.m
      ensures FieldSize(j, k) <= small + if k == Asc("data") then |data| else 0
    {
      ChunkFieldSizes(fileId, index, total, data, transferId, k);
    }
    ObjectSize(j.m, small, Asc("data"), |data|);
    AtMostSix(Asc("file_id"), Asc("chunk_index"), Asc("total_chunks"), Asc("data"), Asc("transfer_id"), []);
    assert |j.m| == |j.m.Keys| <= 5;
    assert |j.m| * small <= 5 * small;
  }

  lemma EnvelopeKeys(from: Str, id: Str, payload: J, sig: Str, typ: Str)
    ensures var m := EnvelopeDict(from, id, payload, sig, typ);
            && m.Keys == {Asc("from"), Asc("id"), Asc("payload"), Asc("sig"), Asc("type"), Asc("v")}
            && m[Asc("from")] == JStr(from) && m[Asc("id")] == JStr(id) && m[Asc("payload")] == payload
            && m[Asc("sig")] == JStr(sig) && m[Asc("type")] == JStr(typ) && m[Asc("v")] == JInt(1)
  {
    AscInjective();
  }

  lemma EnvelopeFieldSizes(from: Str, id: Str, payload: J, sig: Str, typ: Str, k: Str)
    requires k in EnvelopeDict(from, id, payload, sig, typ)
    ensures FieldSize(JObj(EnvelopeDict(from, id, payload, sig, typ)), k)
         <= 192 + 12 * (|from| + |id| + |sig| + |typ|) + if k == Asc("payload") then |Dumps(payload)| else 0
  {
    hide FieldSize, Dumps, EnvelopeDict;
    EnvelopeKeys(from, id, payload, sig, typ);
    var j := JObj(EnvelopeDict(from, id, payload, sig, typ));
    if k == Asc("payload") { PayloadFieldSize(j, k); }
    else if k == Asc("from") { SmallText(j, k, from); }
    else if k == Asc("id") { SmallText(j, k, id); }
    else if k == Asc("type") { SmallText(j, k, typ); }
    else if k == Asc("sig") { SmallText(j, k, sig); }
    else { BigPowers(); SmallNumber(j, k, 1); }
  }

  lemma EnvelopeSize(from: Str, id: Str, payload: J, sig: Str, typ: Str)
    ensures |Dumps(JObj(EnvelopeDict(from, id, payload, sig, typ)))|
         <= 1154 + 72 * (|from| + |id| + |sig| + |typ|) + |Dumps(payload)|
  {
    hide FieldSize, Dumps, EnvelopeDict;
    EnvelopeKeys(from, id, payload, sig, typ);
    var m := EnvelopeDict(from, id, payload, sig, typ);
    var small := 192 + 12 * (|from| + |id| + |sig| + |typ|);
    forall k | k in m
      ensures FieldSize(JObj(m), k) <= small + if k == Asc("payload") then |Dumps(payload)| else 0
    {
      EnvelopeFieldSizes(from, id, payload, sig, typ, k);
    }
    ObjectSize(m, small, Asc("payload"), |Dumps(payload)|);
    AtMostSix(Asc("from"), Asc("id"), Asc("payload"), Asc("sig"), Asc("type"), Asc("v"));
    assert |m| == |m.Keys| <= 6;
    assert |m| * small <= 6 * small;
  }

  lemma PayloadFieldSize(j: J, k: Str)
    requires j.JObj? && k in j.m && |k| <= 7
    ensures FieldSize(j, k) <= 88 + |Dumps(j.m[k])|
  {
    hide Quote, Dumps;
    QuoteBound(k);
  }

  /** Every CHUNK frame fits: a 512 KiB slice, its tag, base64 and the JSON around it, for ids up to
      thousands of characters (a uuid has 36). */
  lemma ChunkFramesFit(x: SendJob, i: nat)
    requires SealsAddTag(x.p) && |x.p.sha256(x.p.publicKey(x.seed))| == 32
    requires |x.data| <= TWO53 && i < x.Total() && ChunkEnvelope(x, i).Some?
    requires |x.file.fileId| + |x.transferId| <= 20_000 && |x.ids(i)| <= 20_000
    ensures Fits(ChunkEnvelope(x, i).value)
  {
    hide Dumps, ChunkPayload, EnvelopeDict, Fingerprint, B64e, SealedChunk, IsSignedType, TotalChunks;
    TotalChunksExact(|x.data|);
    BigPowers();
    var ct := SealedChunk(x, i).value;
    SealedLength(x, i);
    var fp := Fingerprint(x.p, x.p.publicKey(x.seed));
    FingerprintLength(x.p, x.p.publicKey(x.seed));
    var payload := ChunkPayload(x.file.fileId, i, x.Total(), B64e(ct), x.transferId);
    ChunkPayloadSize(x.file.fileId, i, x.Total(), B64e(ct), x.transferId);
    EnvelopeSize(fp, x.ids(i), payload, [], Asc("CHUNK"));
    ChunkIsUnsigned();
  }

  lemma SealedLength(x: SendJob, i: nat)
    requires SealsAddTag(x.p) && SealedChunk(x, i).Some?
    ensures |B64e(SealedChunk(x, i).value)| <= 699_072
  {
    hide TotalChunks, ChunkAad, ChunkNonce;
    assert |SealedChunk(x, i).value| == |Slice(x.data, i)| + 16;
  }

  lemma ChunkIsUnsigned()
    ensures !IsSignedType(Asc("CHUNK"))
  {
    AscInjective();
  }

  lemma FingerprintLength(p: Prims, rawPub: Bytes)
    requires |p.sha256(rawPub)| == 32
    ensures |Fingerprint(p, rawPub)| == 64
  {
  }

  lemma BigPowers()
    ensures 0x4_0000_0000 < Pow10(20)
  {
    assert Pow10(4) == 10_000;
    assert Pow10(8) == 100_000_000;
    assert Pow10(11) == 100_000_000_000;
    PowGrows(11, 20);
  }

  lemma {:induction false} PowGrows(a: nat, b: nat)
    requires a <= b
    ensures Pow10(a) <= Pow10(b)
    decreases b
  {
    if a < b { PowGrows(a, b - 1); }
  }

  // ---------------------------------------------------------------- the frames around the chunks

  predicate SmallValue(j: J, length: nat)
  {
    match j
    case JStr(s) => |s| <= length
    case JInt(n) => 0 <= n < Pow10(20)
    case _ => false
  }

  lemma SmallFieldSize(j: J, k: Str, length: nat)
    requires j.JObj? && k in j.m && ShortKey(k) && SmallValue(j.m[k], length)
    ensures FieldSize(j, k) <= 192 + 12 * length
  {
    hide FieldSize, Pow10;
    match j.m[k]
    case JStr(s) => SmallText(j, k, s);
    case JInt(n) => SmallNumber(j, k, n);
  }

  /** An object of at most `count` short texts and small numbers. */
  lemma SmallObjectSize(m: map<Str, J>, count: nat, length: nat)
    requires |m| <= count && forall k :: k in m ==> ShortKey(k) && SmallValue(m[k], length)
    ensures |Dumps(JObj(m))| <= 2 + count * (192 + 12 * length)
  {
    hide FieldSize, SmallValue, ShortKey, Dumps;
    forall k | k in m ensures FieldSize(JObj(m), k) <= 192 + 12 * length { SmallFieldSize(JObj(m), k, length); }
    ObjectSize(m, 192 + 12 * length, [], 0);
    assert |m| * (192 + 12 * length) <= count * (192 + 12 * length);
  }

  /** Any built envelope, signed or not, whose ids are of ordinary length and whose payload is below 2 MB. */
  lemma BuiltEnvelopeFits(p: Prims, seed: Bytes, typ: Str, payload: J, id: Str)
    requires SignaturesVerify(p) && |p.sha256(p.publicKey(seed))| == 32
    requires |typ| <= 20 && |id| <= 10_000 && |Dumps(payload)| <= 2_000_000
    ensures Fits(BuildEnvelope(p, seed, typ, payload, id))
  {
    hide Dumps, EnvelopeDict, Fingerprint, IsSignedType, CanonicalEnvelope;
    var fp := Fingerprint(p, p.publicKey(seed));
    FingerprintLength(p, p.publicKey(seed));
    var sig := if IsSignedType(typ) then B64e(p.sign(seed, CanonicalEnvelope(typ, id, fp, payload))) else [];
    assert |sig| <= 88;
    EnvelopeSize(fp, id, payload, sig, typ);
  }

  lemma SmallSet<T>(a: T, b: T, c: T, d: T, e: T, f: T, g: T, h: T)
    ensures |{a}| <= 1 && |{a, b}| <= 2 && |{a, b, c}| <= 3 && |{a, b, c, d, e, f, g, h}| <= 8
  {
    assert {a, b} == {a} + {b} && {a, b, c} == {a, b} + {c};
    assert {a, b, c, d} == {a, b, c} + {d} && {a, b, c, d, e} == {a, b, c, d} + {e};
    assert {a, b, c, d, e, f} == {a, b, c, d, e} + {f} && {a, b, c, d, e, f, g} == {a, b, c, d, e, f} + {g};
    assert {a, b, c, d, e, f, g, h} == {a, b, c, d, e, f, g} + {h};
  }

  predicate ShortNames(f: SharedFile)
  {
    && |f.fileId| <= 10_000 && |f.filename| <= 10_000 && |f.sha256Hex| <= 10_000 && 0 <= f.size < Pow10(20)
    && |f.owner| <= 10_000 && |f.manifestSig| <= 10_000 && |f.timestamp| <= 10_000
  }

  lemma StartPayloadSize(f: SharedFile, total: nat)
    requires ShortNames(f) && total < Pow10(20)
    ensures |Dumps(StartPayload(f, total))| <= 2_000_000
  {
    hide Dumps, Pow10;
    var m := StartPayload(f, total).m;
    forall k | k in m
      ensures ShortKey(k) && SmallValue(m[k], 10_000)
    {
      assert m[k] in {JStr(f.fileId), JStr(f.filename), JStr(f.sha256Hex), JInt(f.size), JInt(total), JStr(f.owner),
                      JStr(f.manifestSig), JStr(f.timestamp)};
    }
    assert m.Keys == {Asc("file_id"), Asc("filename"), Asc("sha256_hex"), Asc("size"), Asc("total_chunks"),
                      Asc("original_owner"), Asc("manifest_sig"), Asc("timestamp")};
    SmallSet(Asc("file_id"), Asc("filename"), Asc("sha256_hex"), Asc("size"), Asc("total_chunks"),
             Asc("original_owner"), Asc("manifest_sig"), Asc("timestamp"));
    SmallObjectSize(m, 8, 10_000);
  }

  lemma DonePayloadSize(f: SharedFile, transferId: Str)
    requires ShortNames(f) && |transferId| <= 10_000
    ensures |Dumps(DonePayload(f, transferId))| <= 2_000_000
  {
    hide Dumps, Pow10;
    var m := DonePayload(f, transferId).m;
    forall k | k in m
      ensures ShortKey(k) && SmallValue(m[k], 10_000)
    {
      assert m[k] in {JStr(f.fileId), JStr(transferId), JStr(f.sha256Hex)};
    }
    assert m.Keys == {Asc("file_id"), Asc("transfer_id"), Asc("sha256_hex")};
    var a := Asc("file_id");
    SmallSet(a, Asc("transfer_id"), Asc("sha256_hex"), a, a, a, a, a);
    SmallObjectSize(m, 3, 10_000);
  }

  /** The frames around the chunks fit for names and ids of up to 10 000 characters. */
  lemma StartAndDoneFit(x: SendJob)
    requires SignaturesVerify(x.p) && |x.p.sha256(x.p.publicKey(x.seed))| == 32 && |x.data| <= TWO53
    requires ShortNames(x.file) && |x.transferId| <= 10_000 && |x.ids(x.Total())| <= 10_000
    ensures Fits(StartEnvelope(x)) && Fits(DoneEnvelope(x))
  {
    hide BuildEnvelope, StartPayload, DonePayload, Dumps, ShortNames, Pow10, Fits, TotalChunks;
    TotalChunksExact(|x.data|);
    BigPowers();
    StartPayloadSize(x.file, x.Total());
    DonePayloadSize(x.file, x.transferId);
    BuiltEnvelopeFits(x.p, x.seed, Asc("TRANSFER_START"), StartPayload(x.file, x.Total()), x.transferId);
    BuiltEnvelopeFits(x.p, x.seed, Asc("TRANSFER_DONE"), DonePayload(x.file, x.transferId), x.ids(x.Total()));
  }
}
