/** Transfers in the runs of Network: under a secret session key, from the handshake to the saved bytes. */
module SecureTransfer {
  import opened Bytes
  import opened Text
  import opened Json
  import opened CryptoUtils
  import opened Chunking
  import opened Base64
  import opened Protocol
  import opened Transfer
  import opened Handshake
  import opened Network
  import Client
  import Delivery
  import Reassembly
  import Server

  // ---------------------------------------------------------------- what a signed TRANSFER_START offers

  lemma {:induction false} KeysDecided(j: J, ks: seq<Str>, k: J, ls: seq<Str>)
    requires j.JObj? && k.JObj? && (forall x :: x in ks ==> x in j.m) && forall x :: x in ls ==> x in k.m && PlainStr(x)
    requires FieldsFor(j, ks) == FieldsFor(k, ls)
    ensures ks == ls
  {
    if ks != [] && ls != [] {
      assert ls[0] in ls;
      PlainUnits(ks[0], ls[0]);
      KeysDecided(j, ks[1..], k, ls[1..]);
      assert ks == [ks[0]] + ks[1..] && ls == [ls[0]] + ls[1..];
    }
  }

  /** A dict whose text is that of one with plain keys has the same keys, and its values the same texts. */
  lemma PlainKeysDecide(m: map<Str, J>, n: map<Str, J>)
    requires ToRaw(JObj(m)) == ToRaw(JObj(n)) && forall x :: x in n ==> PlainStr(x)
    ensures m.Keys == n.Keys && forall x :: x in m ==> ToRaw(m[x]) == ToRaw(n[x])
  {
    var ks, ls := SortedKeys(m.Keys), SortedKeys(n.Keys);
    KeysDecided(JObj(m), ks, JObj(n), ls);
    assert m.Keys == n.Keys by { assert forall x :: x in m <==> x in ks; }
    SameKeysDecide(m, n);
  }

  ghost predicate SameField(p: J, q: J, name: Str)
  {
    Field(p, name).Some? && Field(q, name).Some? && ToRaw(Field(p, name).value) == ToRaw(Field(q, name).value)
  }

  lemma SameTextSameFields(p: J, q: J, name: Str)
    requires q.JObj? && ToRaw(p) == ToRaw(q) && name in q.m && forall x :: x in q.m ==> PlainStr(x)
    ensures SameField(p, q, name)
  {
    hide FieldsFor, SortedKeys;
    PlainKeysDecide(p.m, q.m);
  }

  lemma StartKeys(f: SharedFile, total: int)
    ensures var p := StartPayload(f, total);
            && p.JObj? && (forall x :: x in p.m ==> PlainStr(x))
            && Asc("filename") in p.m && Asc("sha256_hex") in p.m && Asc("size") in p.m && Asc("manifest_sig") in p.m
            && Asc("original_owner") in p.m && Asc("file_id") in p.m && Asc("total_chunks") in p.m
  {
    forall x | x in StartPayload(f, total).m
      ensures PlainStr(x)
    {
      assert x in {Asc("file_id"), Asc("filename"), Asc("sha256_hex"), Asc("size"), Asc("total_chunks"),
                   Asc("original_owner"), Asc("manifest_sig"), Asc("timestamp")};
    }
  }

  /** The offer carries the sending's file name, hash, size, owner and manifest signature. */
  ghost predicate Offers(o: Offer, f: SharedFile)
  {
    && ToRaw(o.filename) == ToRaw(JStr(f.filename)) && ToRaw(o.sha256Hex) == ToRaw(JStr(f.sha256Hex))
    && ToRaw(o.size) == ToRaw(JInt(f.size)) && ToRaw(JStr(o.owner)) == ToRaw(JStr(f.owner))
    && ToRaw(o.manifestSig) == ToRaw(JStr(f.manifestSig))
  }

  lemma OfferedFields(start: J, o: Offer, f: SharedFile, total: int)
    requires ReadOffer(start) == Some(o) && Field(start, Asc("payload")).Some?
    requires ToRaw(Field(start, Asc("payload")).value) == ToRaw(StartPayload(f, total))
    ensures Offers(o, f)
  {
    hide StartPayload, ToRaw;
    var p, q := Field(start, Asc("payload")).value, StartPayload(f, total);
    StartKeys(f, total);
    Delivery.StartFields(f, total);
    SameTextSameFields(p, q, Asc("filename"));
    SameTextSameFields(p, q, Asc("sha256_hex"));
    SameTextSameFields(p, q, Asc("size"));
    SameTextSameFields(p, q, Asc("manifest_sig"));
    SameTextSameFields(p, q, Asc("original_owner"));
  }

  // ---------------------------------------------------------------- what opens under a secret key

  /** The sending as a _send_file call, with the primitives as they answer in state `w`. */
  ghost function JobAt(n: Net, w: World, s: Sending, keys: SessionKeys): SendJob
  {
    JobOf(n, s, keys).(p := At(n, w))
  }

  lemma OpenedMeansSealed(n: Net, w: World, key: Bytes, nonce: Bytes, aad: Bytes, ct: Bytes)
    requires IsSecret(n, w, key) && At(n, w).open(key, nonce, aad, ct).Some?
    ensures Sealed(n, w, key, nonce, aad, At(n, w).open(key, nonce, aad, ct).value)
  {
    hide Sealed;
  }

  lemma OneSendingPerKey(n: Net, w: World, s: Sending, t: Sending)
    requires SendingsSound(n, w) && s in w.sendings && t in w.sendings
    requires KeysOf(n, s.answer).Some? && KeysOf(n, t.answer).Some?
    requires KeysOf(n, s.answer).value.txKey == KeysOf(n, t.answer).value.txKey
    ensures s == t
  {
    hide KeysOf;
    assert s != t ==> Apart(n, s, t);
  }

  /** Under a secret key in use, whatever frames arrive, nothing opens but what its one sending sealed. */
  lemma NothingForgedInRuns(n: Net, w: World, s: Sending, keys: SessionKeys, frames: seq<J>)
    requires SendingsSound(n, w) && s in w.sendings && KeysOf(n, s.answer) == Some(keys) && IsSecret(n, w, keys.txKey)
    ensures Reassembly.NothingForged(JobAt(n, w, s, keys), frames)
  {
    hide KeysOf, SendingsSound, Reassembly.Ciphertext, ChunkNonce, ChunkAad, Slice, TotalChunks;
    var x := JobAt(n, w, s, keys);
    forall i | 0 <= i < |frames|
      ensures Reassembly.SealedHere(x, frames[i])
    {
      OneFrame(n, w, s, keys, frames[i]);
    }
  }

  lemma OneFrame(n: Net, w: World, s: Sending, keys: SessionKeys, env: J)
    requires SendingsSound(n, w) && s in w.sendings && KeysOf(n, s.answer) == Some(keys) && IsSecret(n, w, keys.txKey)
    ensures Reassembly.SealedHere(JobAt(n, w, s, keys), env)
  {
    hide KeysOf, SendingsSound, Reassembly.Ciphertext, ChunkNonce, ChunkAad, Slice, TotalChunks, Sealed;
    var x := JobAt(n, w, s, keys);
    forall nonce, aad, m | Reassembly.Ciphertext(env).Some?
                           && x.p.open(keys.txKey, nonce, aad, Reassembly.Ciphertext(env).value) == Some(m)
      ensures exists i :: Reassembly.SealedByJob(x, i, nonce, aad, m)
    {
      OpenedMeansSealed(n, w, keys.txKey, nonce, aad, Reassembly.Ciphertext(env).value);
      var i := SealedByThis(n, w, s, keys, nonce, aad, m);
      assert Reassembly.SealedByJob(x, i, nonce, aad, m);
    }
  }

  lemma SealedByThis(n: Net, w: World, s: Sending, keys: SessionKeys, nonce: Bytes, aad: Bytes, m: Bytes) returns (i: int)
    requires SendingsSound(n, w) && s in w.sendings && KeysOf(n, s.answer) == Some(keys)
    requires Sealed(n, w, keys.txKey, nonce, aad, m)
    ensures Reassembly.SealedByJob(JobAt(n, w, s, keys), i, nonce, aad, m)
  {
    hide KeysOf, SendingsSound, ChunkNonce, ChunkAad, Slice, TotalChunks;
    var t: Sending;
    t, i :| SealedBy(n, w, t, i, keys.txKey, nonce, aad, m);
    OneSendingPerKey(n, w, s, t);
  }

  /** An accepted chunk under a secret key was sealed by a sending under that key. */
  lemma ChunkMeansSending(n: Net, w: World, c: ChunkCheck, env: J) returns (s: Sending)
    requires c.p == At(n, w) && IsSecret(n, w, c.rxKey) && AcceptChunk(c, env).Chunk?
    ensures s in w.sendings && KeysOf(n, s.answer).Some? && KeysOf(n, s.answer).value.txKey == c.rxKey
  {
    hide KeysOf, AcceptChunk, ChunkNonce, ChunkAad, Reassembly.Ciphertext;
    Reassembly.AcceptedOpens(c, env);
    var r := AcceptChunk(c, env);
    var nonce, aad := ChunkNonce(c.rxNonceBase, r.index).value, ChunkAad(c.fileId, r.index, c.total, c.transferId).value;
    OpenedMeansSealed(n, w, c.rxKey, nonce, aad, Reassembly.Ciphertext(env).value);
    var i: int;
    s, i :| SealedBy(n, w, s, i, c.rxKey, nonce, aad, r.plain);
  }

  // ---------------------------------------------------------------- the theorems

  lemma StartVerified(p: Prims, pub: Bytes, start: J)
    requires Client.BadStart(p, pub, start) == None
    ensures HasType(start, Asc("TRANSFER_START")) && VerifyEnvelope(p, start, pub) == Some(true)
  {
    hide HasType, VerifyEnvelope;
  }

  /** A TRANSFER_START signed by an honest contact offers a file it sent, under the ids and the count of that sending. */
  lemma StartMeansSending(n: Net, states: seq<World>, steps: seq<Step>, k: nat, pub: Bytes, start: J, o: Offer)
      returns (s: Sending)
    requires Run(n, states, steps) && k <= |steps| && pub in n.honest
    requires Client.BadStart(At(n, states[k]), pub, start) == None && ReadOffer(start) == Some(o)
    ensures s in states[k].sendings && s.answer.pub == pub && Offers(o, s.file)
    ensures o.transferId == s.transferId && o.fileId == s.file.fileId && o.totalChunks == JInt(TotalChunks(|s.data|))
  {
    hide VerifyEnvelope, IsSignedType, Fingerprint, Invariant, StartPayload, TotalChunks, HasType, ReadOffer, Offers, TextField;
    var w := states[k];
    hide Run;
    StartVerified(At(n, w), pub, start);
    hide Client.BadStart;
    SignedTypes();
    var e := EnvelopeAuthentic(n, states, steps, k, start, Asc("TRANSFER_START"), pub);
    assert SendingsSound(n, w) by { RunKeeps(n, states, steps, k); SendingsPart(n, w); }
    s :| s in w.sendings && e == StartOf(s);
    OfferedFields(start, o, s.file, TotalChunks(|s.data|));
    OfferedIds(start, o, s.file, TotalChunks(|s.data|));
    PlainUnits(o.transferId, s.transferId);
    PlainUnits(o.fileId, s.file.fileId);
  }

  lemma SendingsPart(n: Net, w: World)
    requires Invariant(n, w)
    ensures SendingsSound(n, w)
  {
  }

  lemma OfferedIds(start: J, o: Offer, f: SharedFile, total: int)
    requires ReadOffer(start) == Some(o) && Field(start, Asc("payload")).Some?
    requires ToRaw(Field(start, Asc("payload")).value) == ToRaw(StartPayload(f, total))
    ensures Units(o.fileId) == Units(f.fileId) && o.totalChunks == JInt(total)
    ensures TextField(start, Asc("id")) == Some(o.transferId)
  {
    hide StartPayload, ToRaw;
    var p, q := Field(start, Asc("payload")).value, StartPayload(f, total);
    StartKeys(f, total);
    Delivery.StartFields(f, total);
    SameTextSameFields(p, q, Asc("file_id"));
    SameTextSameFields(p, q, Asc("total_chunks"));
    SizeDecided(o.totalChunks, total);
    SameUnits(o.fileId, f.fileId);
  }

  lemma SameUnits(a: Str, b: Str)
    requires ToRaw(JStr(a)) == ToRaw(JStr(b))
    ensures Units(a) == Units(b)
  {
  }

  /** What the loop joins under a secret key is the data of the one sending under that key, ids and count included. */
  lemma ChunksMeanSending(n: Net, w: World, c: ChunkCheck, frames: seq<J>, chunks: map<int, Bytes>, rest: seq<J>)
      returns (s: Sending)
    requires SendingsSound(n, w) && c.p == At(n, w) && IsSecret(n, w, c.rxKey)
    requires c.total >= 1 && Collect(c, c.total, frames, map[]) == Collected(chunks, rest)
    requires JoinChunks(chunks, 0, c.total).Some?
    ensures s in w.sendings && KeysOf(n, s.answer).Some? && KeysOf(n, s.answer).value.txKey == c.rxKey
    ensures JoinChunks(chunks, 0, c.total).value == s.data && c.transferId == s.transferId
  {
    hide KeysOf, AcceptChunk, Collect, JoinChunks, SendingsSound, Reassembly.NothingForged, NoColon, PlainStr;
    Reassembly.CollectedPairs(c, frames, chunks, rest);
    assert frames[..c.total][0] == frames[0];
    s := ChunkMeansSending(n, w, c, frames[0]);
    var keys := KeysOf(n, s.answer).value;
    var x := JobAt(n, w, s, keys);
    NothingForgedInRuns(n, w, s, keys, frames);
    SendingIds(n, w, s);
    Reassembly.ReassemblyExact(x, c, frames, chunks, rest);
  }

  lemma SendingIds(n: Net, w: World, s: Sending)
    requires SendingsSound(n, w) && s in w.sendings
    ensures NoColon(s.file.fileId) && NoColon(s.transferId) && |s.data| <= TWO53
  {
  }

  lemma OneSendingPerId(n: Net, w: World, s: Sending, t: Sending)
    requires SendingsSound(n, w) && s in w.sendings && t in w.sendings && s.transferId == t.transferId
    ensures s == t
  {
    hide KeysOf;
    assert s != t ==> Apart(n, s, t);
  }

  /** From the signed TRANSFER_START to the join, whatever else arrives: under a secret key the joined bytes are those
      of the sending offered, made in this very session. */
  lemma JoinedIsSent(n: Net, states: seq<World>, steps: seq<Step>, k: nat, pub: Bytes, keys: SessionKeys,
                     start: J, o: Offer, frames: seq<J>, chunks: map<int, Bytes>, rest: seq<J>) returns (s: Sending)
    requires Run(n, states, steps) && k <= |steps| && pub in n.honest && IsSecret(n, states[k], keys.rxKey)
    requires Client.BadStart(At(n, states[k]), pub, start) == None && ReadOffer(start) == Some(o) && o.totalChunks.JInt?
    requires var total := o.totalChunks.n;
             && Collect(CheckOf(At(n, states[k]), keys, o, total), if total > 0 then total else 0, frames, map[])
                == Collected(chunks, rest)
             && JoinChunks(chunks, 0, total).Some?
    ensures s in states[k].sendings && s.answer.pub == pub && Offers(o, s.file)
    ensures o.transferId == s.transferId && o.fileId == s.file.fileId && o.totalChunks.n == TotalChunks(|s.data|)
    ensures JoinChunks(chunks, 0, o.totalChunks.n).value == s.data
    ensures KeysOf(n, s.answer).Some? && KeysOf(n, s.answer).value.txKey == keys.rxKey
  {
    hide KeysOf, Client.BadStart, ReadOffer, Collect, SendingsSound, Invariant, Offers, TotalChunks;
    var w := states[k];
    s := StartMeansSending(n, states, steps, k, pub, start, o);
    RunKeeps(n, states, steps, k);
    hide Run;
    SendingsPart(n, w);
    var t := ChunksMeanSending(n, w, CheckOf(At(n, w), keys, o, o.totalChunks.n), frames, chunks, rest);
    OneSendingPerId(n, w, s, t);
  }

  /** The hash check after the join, in every run: success exactly when the bytes sent still have the hash in the
      sender's index, and refusal otherwise. */
  lemma RefusedMeansChanged(n: Net, states: seq<World>, steps: seq<Step>, k: nat, pub: Bytes, keys: SessionKeys,
                            start: J, o: Offer, frames: seq<J>, chunks: map<int, Bytes>, rest: seq<J>) returns (s: Sending)
    requires Run(n, states, steps) && k <= |steps| && pub in n.honest && IsSecret(n, states[k], keys.rxKey)
    requires Client.BadStart(At(n, states[k]), pub, start) == None && ReadOffer(start) == Some(o) && o.totalChunks.JInt?
    requires var total := o.totalChunks.n;
             && Collect(CheckOf(At(n, states[k]), keys, o, total), if total > 0 then total else 0, frames, map[])
                == Collected(chunks, rest)
             && JoinChunks(chunks, 0, total).Some?
    requires rest != [] && HasType(rest[0], Asc("TRANSFER_DONE"))
    ensures s in states[k].sendings && s.answer.pub == pub && o.transferId == s.transferId
    ensures Finish(At(n, states[k]), o, o.totalChunks.n, chunks, rest).status
            == if HexString(n.p.sha256(s.data)) == s.file.sha256Hex then Saved else Failed(Refused)
  {
    hide Run, KeysOf, Client.BadStart, ReadOffer, Collect, JoinChunks, TotalChunks, HexString;
    s := JoinedIsSent(n, states, steps, k, pub, keys, start, o, frames, chunks, rest);
    HashDecided(o.sha256Hex, s.file.sha256Hex, n.p.sha256(s.data));
  }

  lemma HashDecided(offered: J, known: Str, digest: Bytes)
    requires ToRaw(offered) == ToRaw(JStr(known))
    ensures offered == JStr(HexString(digest)) <==> HexString(digest) == known
  {
    if offered == JStr(HexString(digest)) { PlainUnits(known, HexString(digest)); }
    if known == HexString(digest) { PlainUnits(offered.s, HexString(digest)); }
  }

  // ---------------------------------------------------------------- which session a key belongs to

  datatype KdfInput = KdfInput(shared: Bytes, salt: Bytes, info: Option<Bytes>)

  predicate KdfCollision(p: Prims, x: KdfInput, y: KdfInput)
  {
    && x != y && x.info.Some? && y.info.Some?
    && p.hkdf(x.shared, x.salt, x.info.value, 32) == p.hkdf(y.shared, y.salt, y.info.value, 32)
  }

  /** Two pairs of ephemeral public keys with one X25519 secret, computed from one private key of each. */
  predicate ExchangeCollision(p: Prims, eph: Bytes, peer: Bytes, eph': Bytes, peer': Bytes)
  {
    p.exchange(eph, peer) == p.exchange(eph', peer') && {p.ephemeralPublic(eph), peer} != {p.ephemeralPublic(eph'), peer'}
  }

  predicate SignedTwice(p: Prims, pub: Bytes, sig: Bytes, text: Bytes, other: Bytes)
  {
    text != other && p.verify(pub, sig, text) && p.verify(pub, sig, other)
  }

  /** What the initiator's receiving key and the responder's sending key are derived from. */
  function RxInput(p: Prims, i: Initiator, e: InitiatorEnd): KdfInput
  {
    KdfInput(p.exchange(i.eph, e.respEph), ZipXor(i.nonce, e.respNonce), Encode(InfoText(i.fp, i.responderFp, Asc("RX"))))
  }

  function TxInput(p: Prims, r: Responder, o: Opening): KdfInput
  {
    KdfInput(p.exchange(r.eph, o.initEph), ZipXor(o.initNonce, r.nonce), Encode(InfoText(r.initiatorFp, r.fp, Asc("RX"))))
  }

  lemma KeysFromInputs(p: Prims, i: Initiator, e: InitiatorEnd, r: Responder, o: Opening)
    requires EndSound(p, i, e) && FinishResponder(p, r, o).Some? && FinishResponder(p, r, o).value.txKey == e.keys.rxKey
    ensures RxInput(p, i, e) == TxInput(p, r, o) || KdfCollision(p, RxInput(p, i, e), TxInput(p, r, o))
    ensures RxInput(p, i, e).info.Some? && |o.initEph| == 32
  {
    hide Encode, InfoText, ZipXor;
  }

  lemma SecretKey(n: Net, w: World, run: InitRun, e: InitiatorEnd, a: RespRun)
    requires run in w.started && a in w.answered && e.respEph == n.p.ephemeralPublic(a.r.eph) && EndSound(n.p, run.i, e)
    ensures IsSecret(n, w, e.keys.rxKey)
  {
    hide Encode, InfoText, ZipXor;
    var x := RxInput(n.p, run.i, e);
    assert DerivedFrom(n, run, a, x.salt, x.info.value, e.keys.rxKey);
  }

  lemma SameInfo(fi: Str, fi': Str, fr: Str)
    requires Encode(InfoText(fi, fr, Asc("RX"))).Some? && Encode(InfoText(fi, fr, Asc("RX"))) == Encode(InfoText(fi', fr, Asc("RX")))
    ensures fi == fi'
  {
    hide Encode;
    EncodeInjective(InfoText(fi, fr, Asc("RX")), InfoText(fi', fr, Asc("RX")));
    var c: Str, t: Str := Asc("CISC468-SESSION-V1"), Asc("RX");
    assert c + fi + fr + t == c + (fi + (fr + t)) && c + fi' + fr + t == c + (fi' + (fr + t));
    SplitSame(c, fi + (fr + t), c, fi' + (fr + t));
    assert |fi| == |fi'|;
    SplitSame(fi, fr + t, fi', fr + t);
  }

  /** The answer whose sending key is a completed initiator's receiving key is the one whose reply it read, and holds the
      same fields as the initiator, unless HKDF or X25519 collided or a signature verifies on two texts. */
  lemma SameSession(n: Net, w: World, run: InitRun, resp: J, s: RespRun) returns (sig: Bytes)
    requires ExchangesCommute(n.p) && (forall b :: |n.p.sha256(b)| == 32) && Invariant(n, w)
    requires run in w.started && run.i.responderPub in n.honest && FinishInitiator(At(n, w), run.i, resp).Some?
    requires s in w.answered && s.pub == run.i.responderPub && KeysOf(n, s).Some?
    requires KeysOf(n, s).value.txKey == FinishInitiator(At(n, w), run.i, resp).value.keys.rxKey
    ensures var e := FinishInitiator(At(n, w), run.i, resp).value;
            || Matching(n.p, run.i, e, s.r, s.o) || KdfCollision(n.p, RxInput(n.p, run.i, e), TxInput(n.p, s.r, s.o))
            || ExchangeCollision(n.p, run.i.eph, e.respEph, s.r.eph, s.o.initEph)
            || (InitiatorTranscript(n.p, run.i, e).Some?
                && SignedTwice(n.p, s.pub, sig, InitiatorTranscript(n.p, run.i, e).value, s.o.transcript))
  {
    var e := FinishInitiator(At(n, w), run.i, resp).value;
    hide Encode, InfoText, FinishInitiator, Transcript, Derive, AllAccounted, Fingerprint, ZipXor;
    var a: RespRun;
    a, sig := ReplyMeansAnswer(n, w, run.i, resp);
    var sig' := CompletionMeans(n.p, At(n, w), run.i, resp, e);
    KeysFromInputs(n.p, run.i, e, s.r, s.o);
    assert AnswerSound(n, w, s);
    if RxInput(n.p, run.i, e) == TxInput(n.p, s.r, s.o)
       && !ExchangeCollision(n.p, run.i.eph, e.respEph, s.r.eph, s.o.initEph) {
      OneAnswer(n, w, run, e, a, s);
      if InitiatorTranscript(n.p, run.i, e).value == s.o.transcript {
        SameInfo(run.i.fp, s.r.initiatorFp, run.i.responderFp);
        FingerprintShape(n.p, run.pub);
        FingerprintShape(n.p, s.pub);
        HonestReplyMatches(n.p, run.i, e, s.r, s.o);
      }
    }
  }

  lemma OneAnswer(n: Net, w: World, run: InitRun, e: InitiatorEnd, a: RespRun, s: RespRun)
    requires EphemeralsApart(n, w) && run in w.started && a in w.answered && s in w.answered
    requires e.respEph == n.p.ephemeralPublic(a.r.eph)
    requires {n.p.ephemeralPublic(run.i.eph), e.respEph} == {n.p.ephemeralPublic(s.r.eph), s.o.initEph}
    ensures a == s
  {
    assert n.p.ephemeralPublic(s.r.eph) in {n.p.ephemeralPublic(run.i.eph), e.respEph};
  }

  /** Over every run, whatever frames the adversary delivers: a request to an honest contact saves only the bytes of a
      sending that contact made, under its file id, still hashing to what its index said, and made in this very session:
      the handshake it answered has the initiator's fingerprint, ephemerals and nonces, unless HKDF or X25519 collided
      or a signature verifies on two texts. */
  lemma DownloadIsSent(n: Net, states: seq<World>, steps: seq<Step>, k: nat, run: InitRun, a: Client.Asker, frames: seq<J>)
      returns (s: Sending, sig: Bytes)
    requires ExchangesCommute(n.p) && (forall b :: |n.p.sha256(b)| == 32)
    requires Run(n, states, steps) && k <= |steps| && a.p == At(n, states[k]) && a.contactPub in n.honest
    requires run in states[k].started && run.i == a.Side()
    requires Client.Download(a, frames).saved.Some? && frames != [] && FinishInitiator(a.p, a.Side(), frames[0]).Some?
    ensures var file, e := Client.Download(a, frames).saved.value, FinishInitiator(a.p, a.Side(), frames[0]).value;
            && s in states[k].sendings && s.answer.pub == a.contactPub
            && file.data == s.data && file.fileId == s.file.fileId && HexString(n.p.sha256(s.data)) == s.file.sha256Hex
            && (|| Matching(n.p, a.Side(), e, s.answer.r, s.answer.o)
                || KdfCollision(n.p, RxInput(n.p, a.Side(), e), TxInput(n.p, s.answer.r, s.answer.o))
                || ExchangeCollision(n.p, a.eph, e.respEph, s.answer.r.eph, s.answer.o.initEph)
                || (InitiatorTranscript(n.p, a.Side(), e).Some?
                    && SignedTwice(n.p, a.contactPub, sig, InitiatorTranscript(n.p, a.Side(), e).value, s.answer.o.transcript)))
  {
    var w := states[k];
    hide KeysOf, ReadOffer, Collect, JoinChunks, TotalChunks, HexString, FinishInitiator, ReceiveTransfer, VerifyEnvelope;
    hide HasType, Client.Download, ManifestAccepted;
    RunKeeps(n, states, steps, k);
    hide Run, Invariant;
    KeyIsSecret(n, w, run, frames[0]);
    var e, _, start, _, rest := Client.SavedThroughTransfer(a, frames);
    s := SavedIsSent(n, states, steps, k, a, e.keys, start, rest);
    SendingsPart(n, w);
    AnsweredSending(n, w, s);
    sig := SameSession(n, w, run, frames[0], s.answer);
  }

  lemma AnsweredSending(n: Net, w: World, s: Sending)
    requires SendingsSound(n, w) && s in w.sendings
    ensures s.answer in w.answered
  {
  }

  lemma KeyIsSecret(n: Net, w: World, run: InitRun, resp: J)
    requires Invariant(n, w) && run in w.started && run.i.responderPub in n.honest
    requires FinishInitiator(At(n, w), run.i, resp).Some?
    ensures IsSecret(n, w, FinishInitiator(At(n, w), run.i, resp).value.keys.rxKey)
  {
    hide FinishInitiator, AllAccounted, InstancesSound, EndSound, IsSecret;
    var e := FinishInitiator(At(n, w), run.i, resp).value;
    var a, sig := ReplyMeansAnswer(n, w, run.i, resp);
    var sig' := CompletionMeans(n.p, At(n, w), run.i, resp, e);
    SecretKey(n, w, run, e, a);
  }

  lemma SavedIsSent(n: Net, states: seq<World>, steps: seq<Step>, k: nat, a: Client.Asker, keys: SessionKeys,
                    start: J, rest: seq<J>) returns (s: Sending)
    requires Run(n, states, steps) && k <= |steps| && a.p == At(n, states[k]) && a.contactPub in n.honest
    requires IsSecret(n, states[k], keys.rxKey)
    requires VerifyEnvelope(a.p, start, a.contactPub) == Some(true) && HasType(start, Asc("TRANSFER_START"))
    requires ReceiveTransfer(a.p, a.owners, keys, start, rest).saved.Some?
    ensures var file := ReceiveTransfer(a.p, a.owners, keys, start, rest).saved.value;
            && s in states[k].sendings && s.answer.pub == a.contactPub
            && file.data == s.data && file.fileId == s.file.fileId && HexString(n.p.sha256(s.data)) == s.file.sha256Hex
            && KeysOf(n, s.answer).Some? && KeysOf(n, s.answer).value.txKey == keys.rxKey
  {
    hide Run, KeysOf, ReadOffer, Collect, JoinChunks, TotalChunks, HexString, ReceiveTransfer, VerifyEnvelope;
    hide HasType, ManifestAccepted, IsSecret;
    StartAccepted(a.p, a.contactPub, start);
    var o := SavedOffer(a.p, a.owners, keys, start, rest);
    Reassembly.SavedMeans(a.p, a.owners, keys, start, rest, o);
    var total := o.totalChunks.n;
    var r := Collect(CheckOf(a.p, keys, o, total), if total > 0 then total else 0, rest, map[]);
    s := JoinedIsSent(n, states, steps, k, a.contactPub, keys, start, o, rest, r.chunks, r.rest);
    HashDecided(o.sha256Hex, s.file.sha256Hex, n.p.sha256(s.data));
  }

  lemma StartAccepted(p: Prims, pub: Bytes, start: J)
    requires VerifyEnvelope(p, start, pub) == Some(true) && HasType(start, Asc("TRANSFER_START"))
    ensures Client.BadStart(p, pub, start) == None
  {
    hide VerifyEnvelope;
  }

  lemma SavedOffer(p: Prims, owners: Str -> Option<Bytes>, keys: SessionKeys, start: J, frames: seq<J>) returns (o: Offer)
    requires ReceiveTransfer(p, owners, keys, start, frames).saved.Some?
    ensures ReadOffer(start) == Some(o) && ReceiveTransfer(p, owners, keys, start, frames).status == Saved
  {
    hide ReadOffer, ManifestAccepted, HasType, HexString, Collect, JoinChunks;
    o := ReadOffer(start).value;
  }

  // ---------------------------------------------------------------- nonces and notices in every run

  /** In every run no (key, nonce) pair seals two chunks, within one sending or across all of them. */
  lemma NoNonceReuse(n: Net, states: seq<World>, steps: seq<Step>, k: nat, s: Sending, t: Sending, i: nat, j: nat)
    requires KdfLengths(n.p) && Run(n, states, steps) && k <= |steps| && s in states[k].sendings && t in states[k].sendings
    requires KeysOf(n, s.answer).Some? && KeysOf(n, t.answer).Some?
    requires KeysOf(n, s.answer).value.txKey == KeysOf(n, t.answer).value.txKey
    requires i < TotalChunks(|s.data|) && j < TotalChunks(|t.data|)
    ensures ChunkNonce(KeysOf(n, s.answer).value.txNonceBase, i).Some?
    ensures ChunkNonce(KeysOf(n, s.answer).value.txNonceBase, i) == ChunkNonce(KeysOf(n, t.answer).value.txNonceBase, j)
            ==> s == t && i == j
  {
    hide TotalChunks, ChunkNonce, KdfLengths, Invariant;
    RunKeeps(n, states, steps, k);
    hide Run;
    SendingsPart(n, states[k]);
    OneSendingPerKey(n, states[k], s, t);
    SendingIds(n, states[k], s);
    ChunkCountFits(|s.data|);
    ResponderKeyLengths(n.p, s.answer.r, s.answer.o);
    NonceExists(KeysOf(n, s.answer).value.txNonceBase, i);
    if i < j { ResponderNoncesDistinct(n.p, s.answer.r, s.answer.o, i, j); }
    if j < i { ResponderNoncesDistinct(n.p, s.answer.r, s.answer.o, j, i); }
  }

  lemma ChunkCountFits(size: nat)
    requires size <= TWO53
    ensures TotalChunks(size) <= TWO53 + 1
  {
    hide TotalChunks;
    TotalChunksExact(size);
  }

  lemma NonceExists(base: Bytes, i: nat)
    requires i <= TWO53
    ensures ChunkNonce(base, i).Some?
  {
    WordSizes();
  }

  /** In every run a rotation notice accepted under an honest contact's key was built by that contact: as a
      KEY_ROTATE_NOTICE, with the very payload text the new fingerprint and key were read from. */
  lemma NoticeAuthentic(n: Net, states: seq<World>, steps: seq<Step>, k: nat, env: J, oldPub: Str, pub: Bytes,
                        r: Server.Notice) returns (e: Envelope)
    requires Run(n, states, steps) && k <= |steps| && pub in n.honest && B64d(oldPub) == Some(pub)
    requires HasType(env, Asc("KEY_ROTATE_NOTICE"))
    requires Server.CheckRotation(At(n, states[k]), env, oldPub) == Server.Accepts(r)
    ensures e in states[k].envelopes && e.pub == pub && e.typ == Asc("KEY_ROTATE_NOTICE")
    ensures Field(env, Asc("payload")).Some? && ToRaw(Field(env, Asc("payload")).value) == ToRaw(e.payload)
    ensures B64d(r.newPub).Some? && r.newFp == HexString(n.p.sha256(B64d(r.newPub).value))
    ensures TextField(env, Asc("from")) == Some(Fingerprint(n.p, pub))
  {
    var q := At(n, states[k]);
    hide Run, Server.CheckRotation, VerifyEnvelope, HasType, B64d, HexString, IsSignedType, At;
    Server.AcceptedRotation(q, env, oldPub);
    Server.RequestIsSigned();
    NoticeType();
    e := EnvelopeAuthentic(n, states, steps, k, env, Asc("KEY_ROTATE_NOTICE"), pub);
  }

  lemma NoticeType()
    ensures Asc("KEY_ROTATE_NOTICE") != Asc("HANDSHAKE_INIT")
  {
    assert |Asc("KEY_ROTATE_NOTICE")| == 17 && |Asc("HANDSHAKE_INIT")| == 14;
  }
}
