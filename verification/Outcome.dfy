/** The outcome of a whole session between an honest client and an honest server. */
module Outcome {
  import opened Bytes
  import opened Text
  import opened Json
  import opened CryptoUtils
  import opened Base64
  import opened Protocol
  import opened Channel
  import opened Transfer
  import opened Handshake
  import opened Contacts
  import opened Server
  import opened Client
  import opened Session
  import Chunking
  import FrameSize
  import Delivery
  import Sharing

  // ---------------------------------------------------------------- the honest handshake

  /** Two identities that hold each other's fingerprint and key. */
  ghost predicate Acquainted(p: Prims, seedI: Bytes, seedR: Bytes, i: Initiator, r: Responder)
  {
    && SignaturesVerify(p) && ExchangesCommute(p) && (forall b :: |p.sha256(b)| == 32)
    && i.fp == r.initiatorFp == Fingerprint(p, p.publicKey(seedI)) && r.initiatorPub == p.publicKey(seedI)
    && i.responderFp == r.fp == Fingerprint(p, p.publicKey(seedR)) && i.responderPub == p.publicKey(seedR)
  }

  lemma HonestOpening(p: Prims, seedI: Bytes, seedR: Bytes, i: Initiator, r: Responder, id: Str) returns (o: Opening)
    requires Acquainted(p, seedI, seedR, i, r)
    ensures OpenHandshake(p, r, InitEnvelope(p, seedI, i, id)) == Some(o)
    ensures o.initEph == p.ephemeralPublic(i.eph) && o.initNonce == i.nonce
    ensures ResponderTranscript(p, r, o) == Some(o.transcript)
  {
    hide BuildEnvelope, VerifyEnvelope, InitPayload, BytesField, TranscriptBytes, HasType;
    var typ, payload := Asc("HANDSHAKE_INIT"), InitPayload(p.ephemeralPublic(i.eph), i.nonce);
    BuiltEnvelopeFields(p, seedI, typ, payload, id);
    BuiltEnvelopeVerifies(p, seedI, typ, payload, id);
    InitFields(p.ephemeralPublic(i.eph), i.nonce);
    FingerprintShape(p, p.publicKey(seedI));
    FingerprintShape(p, p.publicKey(seedR));
    TranscriptEncoded(r.initiatorFp, r.fp, p.ephemeralPublic(i.eph), p.ephemeralPublic(r.eph), i.nonce, r.nonce);
    o := Opening(p.ephemeralPublic(i.eph), i.nonce,
                 Transcript(r.initiatorFp, r.fp, p.ephemeralPublic(i.eph), p.ephemeralPublic(r.eph), i.nonce, r.nonce).value);
  }

  lemma DeriveSucceeds(p: Prims, shared: Bytes, ni: Bytes, nr: Bytes, fi: Str, fr: Str)
    requires IsFingerprint(fi) && IsFingerprint(fr)
    ensures Derive(p, shared, ni, nr, fi, fr, true).Some?
  {
    hide Utf8Bytes;
  }

  /** Acquainted and honest, both sides complete, with mirrored keys. */
  lemma HonestHandshake(p: Prims, seedI: Bytes, seedR: Bytes, i: Initiator, r: Responder, o: Opening, id: Str)
      returns (e: InitiatorEnd)
    requires Acquainted(p, seedI, seedR, i, r)
    requires o.initEph == p.ephemeralPublic(i.eph) && o.initNonce == i.nonce
    requires ResponderTranscript(p, r, o) == Some(o.transcript)
    ensures FinishInitiator(p, i, ReplyEnvelope(p, seedR, r, o, id)) == Some(e)
    ensures FinishResponder(p, r, o) == Some(Swap(e.keys))
  {
    hide BuildEnvelope, VerifyEnvelope, ReplyPayload, BytesField, Transcript, HasType, Derive;
    var sig := p.sign(seedR, o.transcript);
    var eph := p.ephemeralPublic(r.eph);
    var typ, payload := Asc("HANDSHAKE_RESP"), ReplyPayload(eph, r.nonce, sig);
    BuiltEnvelopeFields(p, seedR, typ, payload, id);
    BuiltEnvelopeVerifies(p, seedR, typ, payload, id);
    ReplyFields(eph, r.nonce, sig);
    FingerprintShape(p, p.publicKey(seedI));
    FingerprintShape(p, p.publicKey(seedR));
    DeriveSucceeds(p, p.exchange(i.eph, eph), i.nonce, r.nonce, i.fp, i.responderFp);
    e := FinishInitiator(p, i, ReplyEnvelope(p, seedR, r, o, id)).value;
    MatchingKeysMirror(p, i, e, r, o);
  }

  // ---------------------------------------------------------------- honest sessions

  /** A client and a server that follow the protocol, on names and ids of ordinary length. The client holds the
      server's fingerprint and key; the server may or may not know the client. */
  ghost predicate HonestPair(x: Pair)
  {
    && x.h.p == x.a.p && SignaturesVerify(x.a.p) && ExchangesCommute(x.a.p) && SealsOpen(x.a.p) && SealsAddTag(x.a.p)
    && (forall b :: |x.a.p.sha256(b)| == 32)
    && x.a.contactFp == x.h.Fp() && x.a.contactPub == x.h.Pub()
    && LikeStrLower(x.h.p.lower) && (forall k :: k in x.book ==> x.book[k].fingerprint == k)
    && (x.a.Fp() in x.book ==> B64d(x.book[x.a.Fp()].rawPub) == Some(x.a.Pub()))
    && OrdinarySizes(x)
  }

  ghost predicate OrdinarySizes(x: Pair)
  {
    && |x.a.nonce| == |x.h.nonce| == 32 && |x.a.initId| <= 10_000 && |x.a.requestId| <= 10_000 && |x.a.fileId| <= 10_000
    && ScalarStr(x.h.transferId) && |x.h.transferId| <= 10_000
    && (forall i: nat :: |x.h.ids(i)| <= 10_000) && (forall i: nat :: |x.h.chunkIds(i)| <= 10_000)
    && (forall id :: id in x.h.index ==> FrameSize.ShortNames(x.h.index[id]) && ScalarStr(x.h.index[id].fileId))
    && (forall path :: x.h.disk(path).Contents? ==> |x.h.disk(path).data| <= Chunking.TWO53)
  }

  /** The manifest the index entry carries is signed by the key the client knows its owner under. */
  predicate OwnerVouches(a: Asker, f: SharedFile)
  {
    var key := a.owners(f.owner);
    && key.Some? && B64d(f.manifestSig).Some?
    && a.p.verify(key.value, B64d(f.manifestSig).value,
                  CanonicalManifest(Manifest(JStr(f.fileId), JStr(f.filename), JStr(f.owner), JStr(f.sha256Hex),
                                             JInt(f.size), JStr(f.timestamp))))
  }

  predicate Welcome(x: Pair) { x.a.Fp() in x.book && !x.book[x.a.Fp()].revoked }

  predicate Available(x: Pair, c: Record)
  {
    x.a.fileId in x.h.index && Consents(x.h, c, x.h.index[x.a.fileId]) && x.h.disk(x.h.index[x.a.fileId].path).Contents?
  }

  /** The bytes on the server's disk still have the hash they were shared with. */
  predicate Unchanged(h: Host, f: SharedFile)
    requires h.disk(f.path).Contents?
  {
    HexString(h.p.sha256(h.disk(f.path).data)) == f.sha256Hex
  }

  // ---------------------------------------------------------------- no session at all

  lemma NotHandshakeReply(p: Prims, seed: Bytes, message: Str, id: Str, i: Initiator)
    ensures FinishInitiator(p, i, ErrorEnvelope(p, seed, message, id)) == None
  {
    hide BuildEnvelope, VerifyEnvelope, Derive, Transcript, BytesField;
    BuiltEnvelopeType(p, seed, Asc("ERROR"), JObj(map[Asc("message") := JStr(message)]), id);
    assert Asc("ERROR")[0] != Asc("HANDSHAKE_RESP")[0];
  }

  /** A welcome client is routed to its own record; any other to an error, or to a record whose longer fingerprint
      its own happens to begin. */
  lemma RouteOfClient(x: Pair)
    requires HonestPair(x)
    ensures var r := RouteTo(x.h.p.lower, x.book, x.a.Init(), true);
            if Welcome(x) then r == For(x.a.Fp()) else r.Unknown? || (r.For? && r.fp != x.a.Fp())
  {
    hide Lookup, BuildEnvelope, OrdinarySizes, InitPayload, Fingerprint;
    hide SignaturesVerify, ExchangesCommute, SealsOpen, SealsAddTag, LikeStrLower, IsLowerHex;
    BuiltEnvelopeFields(x.a.p, x.a.seed, Asc("HANDSHAKE_INIT"),
                        InitPayload(x.a.p.ephemeralPublic(x.a.eph), x.a.nonce), x.a.initId);
    FingerprintShape(x.a.p, x.a.Pub());
    LowerHexUnchanged(x.h.p.lower, x.a.Fp());
    LookupIs(x.h.p.lower, x.book.Keys, x.a.Fp(), x.a.Fp());
  }

  /** Under another contact's record the handshake ends in the mismatch ERROR, or in silence. */
  lemma WrongRecord(h: Host, c: Record, p: Prims, seed: Bytes, i: Initiator, id: Str)
    requires c.fingerprint != Fingerprint(p, p.publicKey(seed))
    ensures var o := OpenSession(h, c, InitEnvelope(p, seed, i, id));
            o.keys == None && (o.out == [] || exists m :: o.out == Sent(h.Error(m, 0)))
  {
    hide BuildEnvelope, ErrorEnvelope, ReplyEnvelope, VerifyEnvelope, InitPayload, Fingerprint, B64d;
    BuiltEnvelopeFields(p, seed, Asc("HANDSHAKE_INIT"), InitPayload(p.ephemeralPublic(i.eph), i.nonce), id);
    if B64d(c.rawPub).Some? {
      var m := Asc("Fingerprint mismatch: expected ") + c.fingerprint;
      assert OpenSession(h, c, InitEnvelope(p, seed, i, id)).out == Sent(h.Error(m, 0));
    }
  }

  lemma NoHandshakeNoFile(x: Pair, m: Str)
    requires HonestPair(x) && Opens(x, x.a.Init()).next == HungUp
    requires Opens(x, x.a.Init()).out == [] || Opens(x, x.a.Init()).out == Sent(x.h.Error(m, 0))
    ensures Download(x.a, Delivered(x)).status != Saved
  {
    hide BuildEnvelope, FinishInitiator, ErrorEnvelope, InitEnvelope, Opens, HonestPair, AfterRequest;
    HonestSharePrims(x);
    NotHandshakeReply(x.h.p, x.h.seed, m, x.h.ids(0), x.a.Side());
  }

  lemma StrangerGetsNothing(x: Pair)
    requires HonestPair(x) && !Welcome(x)
    ensures Download(x.a, Delivered(x)).status != Saved
  {
    hide BuildEnvelope, ErrorEnvelope, InitEnvelope, RouteTo, HonestPair, Welcome, Download, Delivered, OpenSession;
    RouteOfClient(x);
    match RouteTo(x.h.p.lower, x.book, x.a.Init(), true)
    case Unknown(m) => NoHandshakeNoFile(x, m);
    case For(k) =>
      HonestSharePrims(x);
      RecordsKeyed(x, k);
      WrongRecord(x.h, x.book[k], x.a.p, x.a.seed, x.a.Side(), x.a.initId);
      if Opens(x, x.a.Init()).out == [] {
        NoHandshakeNoFile(x, []);
      } else {
        var m :| Opens(x, x.a.Init()).out == Sent(x.h.Error(m, 0));
        NoHandshakeNoFile(x, m);
      }
  }

  lemma RecordsKeyed(x: Pair, k: Str)
    requires HonestPair(x) && k in x.book
    ensures x.book[k].fingerprint == k
  {
  }

  lemma HonestSharePrims(x: Pair)
    requires HonestPair(x)
    ensures x.h.p == x.a.p
  {
  }

  // ---------------------------------------------------------------- the handshake of a welcome client

  lemma TwoTexts(a: Str, b: Str, c: Str)
    ensures |{a, b}| <= 2 && |{a, b, c}| <= 3 && |{a}| <= 1
  {
    FrameSize.SmallSet(a, b, c, a, a, a, a, a);
  }

  lemma InitFits(p: Prims, seed: Bytes, i: Initiator, id: Str)
    requires SignaturesVerify(p) && |p.sha256(p.publicKey(seed))| == 32
    requires |p.ephemeralPublic(i.eph)| == |i.nonce| == 32 && |id| <= 10_000
    ensures Fits(InitEnvelope(p, seed, i, id))
  {
    hide BuildEnvelope, Dumps;
    var payload := InitPayload(p.ephemeralPublic(i.eph), i.nonce);
    TwoTexts(Asc("ephemeral_pub"), Asc("nonce"), []);
    assert payload.m.Keys == {Asc("ephemeral_pub"), Asc("nonce")};
    FrameSize.SmallObjectSize(payload.m, 2, 100);
    FrameSize.BuiltEnvelopeFits(p, seed, Asc("HANDSHAKE_INIT"), payload, id);
  }

  lemma ReplyFits(p: Prims, seed: Bytes, r: Responder, o: Opening, id: Str)
    requires SignaturesVerify(p) && |p.sha256(p.publicKey(seed))| == 32
    requires |p.ephemeralPublic(r.eph)| == |r.nonce| == 32 && |id| <= 10_000
    ensures Fits(ReplyEnvelope(p, seed, r, o, id))
  {
    hide BuildEnvelope, Dumps;
    var payload := ReplyPayload(p.ephemeralPublic(r.eph), r.nonce, p.sign(seed, o.transcript));
    TwoTexts(Asc("ephemeral_pub"), Asc("nonce"), Asc("transcript_sig"));
    assert payload.m.Keys == {Asc("ephemeral_pub"), Asc("nonce"), Asc("transcript_sig")};
    FrameSize.SmallObjectSize(payload.m, 3, 100);
    FrameSize.BuiltEnvelopeFits(p, seed, Asc("HANDSHAKE_RESP"), payload, id);
  }

  lemma OneTextFits(p: Prims, seed: Bytes, typ: Str, text: Str, id: Str)
    requires SignaturesVerify(p) && |p.sha256(p.publicKey(seed))| == 32
    requires |typ| <= 20 && |text| <= 10_000 && |id| <= 10_000
    ensures Fits(BuildEnvelope(p, seed, typ, JObj(map[Asc("file_id") := JStr(text)]), id))
  {
    hide BuildEnvelope, Dumps;
    var m: map<Str, J> := map[Asc("file_id") := JStr(text)];
    TwoTexts(Asc("file_id"), [], []);
    assert m.Keys == {Asc("file_id")};
    FrameSize.SmallObjectSize(m, 1, 10_000);
    FrameSize.BuiltEnvelopeFits(p, seed, typ, JObj(m), id);
  }

  lemma ReplyIsSent(h: Host, c: Record, init: J, o: Opening)
    requires B64d(c.rawPub).Some? && OpenHandshake(h.p, ResponderFor(h, c, B64d(c.rawPub).value), init) == Some(o)
    requires Fits(ReplyEnvelope(h.p, h.seed, ResponderFor(h, c, B64d(c.rawPub).value), o, h.ids(0)))
    ensures var r := ResponderFor(h, c, B64d(c.rawPub).value);
            OpenSession(h, c, init) == Opened([ReplyEnvelope(h.p, h.seed, r, o, h.ids(0))], FinishResponder(h.p, r, o))
  {
    hide HasType, VerifyEnvelope, ReplyEnvelope, FinishResponder, Fits, Transcript, BytesField, ErrorEnvelope;
  }

  /** A welcome client and the server complete the handshake with mirrored keys. */
  lemma HandshakeCompletes(x: Pair) returns (e: InitiatorEnd)
    requires HonestPair(x) && Welcome(x)
    ensures var o := Opens(x, x.a.Init());
            |o.out| == 1 && FinishInitiator(x.a.p, x.a.Side(), o.out[0]) == Some(e)
            && o.next == Answering(Swap(e.keys), x.book[x.a.Fp()])
    ensures Fits(x.a.Init()) && Fits(x.a.Request())
  {
    hide InitEnvelope, ReplyEnvelope, FinishInitiator, FinishResponder, OpenHandshake, RouteTo, BuildEnvelope, Fits, OpenSession;
    var c := x.book[x.a.Fp()];
    var r := ResponderFor(x.h, c, x.a.Pub());
    RouteOfClient(x);
    var o := HonestOpening(x.a.p, x.a.seed, x.h.seed, x.a.Side(), r, x.a.initId);
    ReplyFits(x.h.p, x.h.seed, r, o, x.h.ids(0));
    ReplyIsSent(x.h, c, x.a.Init(), o);
    e := HonestHandshake(x.a.p, x.a.seed, x.h.seed, x.a.Side(), r, o, x.h.ids(0));
    InitFits(x.a.p, x.a.seed, x.a.Side(), x.a.initId);
    OneTextFits(x.a.p, x.a.seed, Asc("FILE_REQUEST"), x.a.fileId, x.a.requestId);
  }

  // ---------------------------------------------------------------- the answer to the request

  lemma RequestFields(a: Asker)
    ensures a.Request().JObj? && HasType(a.Request(), Asc("FILE_REQUEST")) && Field(a.Request(), Asc("payload")).Some?
    ensures Field(a.Request(), Asc("payload")).value.JObj?
    ensures AskedFile(Field(a.Request(), Asc("payload")).value) == JStr(a.fileId)
  {
    hide BuildEnvelope;
    BuiltEnvelopeFields(a.p, a.seed, Asc("FILE_REQUEST"), JObj(map[Asc("file_id") := JStr(a.fileId)]), a.requestId);
  }

  lemma AnswerIs(x: Pair, c: Record, keys: SessionKeys)
    ensures Answer(x.h, c, keys, x.a.Request())
         == if x.a.fileId !in x.h.index then Sent(DenyEnvelope(x.h, JStr(x.a.fileId), Asc("File not found in share index")))
            else if !Consents(x.h, c, x.h.index[x.a.fileId]) then Sent(DenyEnvelope(x.h, JStr(x.a.fileId), Asc("Denied by user")))
            else Approved(x.h, keys, x.h.index[x.a.fileId], x.a.fileId)
  {
    hide BuildEnvelope, Sent, DenyEnvelope, Approved, Consents, HasType;
    RequestFields(x.a);
  }

  lemma DenyDeclines(x: Pair, keys: SessionKeys, fileId: J, reason: Str)
    ensures AfterRequest(x.a, keys, Sent(DenyEnvelope(x.h, fileId, reason))).status != Saved
  {
    hide BuildEnvelope, Fits;
    BuiltEnvelopeFields(x.h.p, x.h.seed, Asc("FILE_DENY"),
                        JObj(map[Asc("file_id") := fileId, Asc("reason") := JStr(reason)]), x.h.ids(1));
  }

  lemma ApproveIsTaken(h: Host, fileId: Str)
    ensures Declined(ApproveEnvelope(h, fileId)) == None
  {
    hide BuildEnvelope;
    BuiltEnvelopeFields(h.p, h.seed, Asc("FILE_APPROVE"), JObj(map[Asc("file_id") := JStr(fileId)]), h.ids(1));
    assert Asc("FILE_APPROVE")[0] != Asc("ERROR")[0] && |Asc("FILE_APPROVE")| != |Asc("FILE_DENY")|;
  }

  lemma ErrorIsNoStart(p: Prims, contactPub: Bytes, h: Host, message: Str)
    ensures BadStart(p, contactPub, h.Error(message, 2)).Some?
  {
    hide BuildEnvelope, VerifyEnvelope;
    BuiltEnvelopeFields(h.p, h.seed, Asc("ERROR"), JObj(map[Asc("message") := JStr(message)]), h.ids(2));
    assert |Asc("ERROR")| != |Asc("TRANSFER_START")|;
  }

  lemma StartIsGood(x: SendJob)
    requires SignaturesVerify(x.p)
    ensures BadStart(x.p, x.p.publicKey(x.seed), StartEnvelope(x)) == None
  {
    hide BuildEnvelope, VerifyEnvelope, StartPayload;
    BuiltEnvelopeFields(x.p, x.seed, Asc("TRANSFER_START"), StartPayload(x.file, x.Total()), x.transferId);
    BuiltEnvelopeVerifies(x.p, x.seed, Asc("TRANSFER_START"), StartPayload(x.file, x.Total()), x.transferId);
  }

  /** Nothing on disk to send: an ERROR, or nothing, follows the approval. */
  lemma NothingToSend(x: Pair, keys: SessionKeys, approve: J, message: Str)
    requires Declined(approve) == None
    ensures AfterRequest(x.a, keys, [approve] + Sent(x.h.Error(message, 2))).status != Saved
  {
    hide ErrorEnvelope, Declined, BadStart, Fits, ReceiveTransfer;
    ErrorIsNoStart(x.a.p, x.a.contactPub, x.h, message);
  }

  lemma FileArrives(x: Pair, keys: SessionKeys, approve: J, j: SendJob)
    requires Declined(approve) == None && Delivery.Honest(j) && j.p == x.a.p && x.a.contactPub == j.p.publicKey(j.seed)
    requires keys.rxKey == j.keys.txKey && keys.rxNonceBase == j.keys.txNonceBase
    ensures var r := AfterRequest(x.a, keys, [approve] + SentFrames(j));
            && (r.status == Saved
                <==> ManifestAccepted(j.p, x.a.owners(j.file.owner), Delivery.OfferOf(j)) && Delivery.HashMatches(j))
            && (r.status == Saved ==> r.saved == Some(Delivery.WhatIsSaved(j)))
  {
    hide Declined, BadStart, ReceiveTransfer, SentFrames, StartEnvelope, ManifestAccepted;
    hide Delivery.HashMatches, Delivery.WhatIsSaved;
    hide Delivery.OfferOf;
    Delivery.HonestTransfer(j, x.a.owners, keys);
    StartIsGood(j);
    var l := [approve] + SentFrames(j);
    assert l[1] == StartEnvelope(j) && l[2..] == SentFrames(j)[1..];
  }

  lemma JobIsHonest(x: Pair, keys: SessionKeys, data: Bytes)
    requires HonestPair(x) && x.a.fileId in x.h.index && x.h.disk(x.h.index[x.a.fileId].path) == Contents(data)
    ensures Delivery.Honest(JobFor(x.h, keys, x.h.index[x.a.fileId], data))
  {
  }

  // ---------------------------------------------------------------- saved exactly when

  ghost predicate WillSave(x: Pair)
  {
    && Welcome(x) && Available(x, x.book[x.a.Fp()])
    && Unchanged(x.h, x.h.index[x.a.fileId]) && OwnerVouches(x.a, x.h.index[x.a.fileId])
  }

  /** What the approved answer comes to at the client. */
  lemma ApprovedOutcome(x: Pair, keys: SessionKeys)
    requires HonestPair(x) && x.a.fileId in x.h.index
    ensures var f := x.h.index[x.a.fileId];
            var r := AfterRequest(x.a, keys, Approved(x.h, Swap(keys), f, x.a.fileId));
            && (r.status == Saved <==> x.h.disk(f.path).Contents? && Unchanged(x.h, f) && OwnerVouches(x.a, f))
            && (r.status == Saved ==> r.saved == Some(Delivery.WhatIsSaved(JobFor(x.h, Swap(keys), f, x.h.disk(f.path).data))))
  {
    hide BuildEnvelope, AfterRequest, SentFrames, ApproveEnvelope, Fits, ErrorEnvelope, HonestPair, Declined, CanonicalManifest;
    hide Delivery.WhatIsSaved, Delivery.Honest;
    var f := x.h.index[x.a.fileId];
    ApproveFits(x);
    ApproveIsTaken(x.h, x.a.fileId);
    var approve := ApproveEnvelope(x.h, x.a.fileId);
    match x.h.disk(f.path) {
      case Missing => NothingToSend(x, keys, approve, Asc("File not found on disk: ") + f.filename);
      case Unreadable(e) => NothingToSend(x, keys, approve, Asc("Cannot read file: ") + e);
      case Contents(data) =>
        JobIsHonest(x, Swap(keys), data);
        PeerIsServer(x);
        FileArrives(x, keys, approve, JobFor(x.h, Swap(keys), f, data));
    }
  }

  lemma ApproveFits(x: Pair)
    requires HonestPair(x)
    ensures Fits(ApproveEnvelope(x.h, x.a.fileId))
  {
    hide Fits;
    OneTextFits(x.h.p, x.h.seed, Asc("FILE_APPROVE"), x.a.fileId, x.h.ids(1));
  }

  lemma PeerIsServer(x: Pair)
    requires HonestPair(x)
    ensures x.h.p == x.a.p && x.a.contactPub == x.h.p.publicKey(x.h.seed)
  {
  }

  /** Between an honest client and server over a faithful channel the file is saved exactly when the server knows
      the client and has not revoked it, the file is in the index, the user consents, the bytes can be read and
      still have their hash, and the client knows the owner whose signature the manifest carries. What is saved is
      the bytes on the server's disk under the names of the index. */
  lemma SavedExactlyWhen(x: Pair)
    requires HonestPair(x)
    ensures Download(x.a, Delivered(x)).status == Saved <==> WillSave(x)
    ensures WillSave(x) ==>
              var f := x.h.index[x.a.fileId];
              Download(x.a, Delivered(x)).saved
              == Some(SavedFile(f.fileId, x.h.disk(f.path).data, JStr(f.filename), JStr(f.sha256Hex), JInt(f.size), f.owner,
                                f.manifestSig, JStr(f.timestamp)))
  {
    hide HonestPair, Welcome, Opens, Answer, Approved, AfterRequest, FinishInitiator, Fits, InitEnvelope, BuildEnvelope;
    hide Consents, OwnerVouches, Unchanged, DenyEnvelope, Sent;
    if !Welcome(x) {
      StrangerGetsNothing(x);
    } else {
      var e := HandshakeCompletes(x);
      WelcomeIsKnown(x);
      var c, keys := x.book[x.a.Fp()], Swap(e.keys);
      var answer := Answer(x.h, c, keys, x.a.Request());
      AnswerIs(x, c, keys);
      assert (Opens(x, x.a.Init()).out + answer)[1..] == answer;
      assert Download(x.a, Delivered(x)) == AfterRequest(x.a, e.keys, answer);
      DenyDeclines(x, e.keys, JStr(x.a.fileId), Asc("File not found in share index"));
      DenyDeclines(x, e.keys, JStr(x.a.fileId), Asc("Denied by user"));
      if x.a.fileId in x.h.index { ApprovedOutcome(x, e.keys); }
    }
  }

  lemma WelcomeIsKnown(x: Pair)
    requires Welcome(x)
    ensures x.a.Fp() in x.book
  {
  }

  /** The same over every interleaving of the two machines: once both are done, the client has saved the file
      exactly when it should. */
  lemma EverySchedule(x: Pair, states: seq<World>, schedule: seq<bool>, k: nat)
    requires HonestPair(x) && Run(x, states, schedule) && k <= |schedule|
    requires !ClientCan(states[k]) && !ServerCan(states[k])
    ensures states[k].client.Ended?
    ensures states[k].client.status == Saved <==> WillSave(x)
  {
    hide HonestPair, WillSave, Run, Download, Delivered, Left;
    EveryRunEndsAlike(x, states, schedule, k);
    SavedExactlyWhen(x);
  }

  /** A file the server's own user shared, requested by a client that has the server among its contacts, is saved
      exactly when the client is welcome, the file is still in the index, the user consents, and the bytes on disk
      still have the hash they were shared with. */
  lemma OwnShareSaved(x: Pair, s: Sharing.Shareable)
    requires HonestPair(x) && x.a.owners(x.h.Fp()) == Some(x.h.Pub())
    requires x.a.fileId in x.h.index ==> x.h.index[x.a.fileId] == Sharing.EntryFor(x.h.p, x.h.seed, s)
    ensures Download(x.a, Delivered(x)).status == Saved
            <==> Welcome(x) && Available(x, x.book[x.a.Fp()])
                 && x.h.p.sha256(x.h.disk(s.path).data) == x.h.p.sha256(s.data)
  {
    hide HonestPair, Welcome, Consents, Download, Delivered, Fingerprint, HexString, B64e, CanonicalManifest, B64d;
    SavedExactlyWhen(x);
    if Welcome(x) {
      WelcomeIsKnown(x);
      PeerIsServer(x);
      PrimsSign(x);
      Sharing.SharedIsAccepted(x.h.p, x.h.seed, s, JInt(0), []);
      if Available(x, x.book[x.a.Fp()]) && Unchanged(x.h, x.h.index[x.a.fileId]) {
        HexInjective(x.h.p.sha256(x.h.disk(s.path).data), x.h.p.sha256(s.data));
      }
    }
  }

  lemma PrimsSign(x: Pair)
    requires HonestPair(x)
    ensures SignaturesVerify(x.h.p)
  {
  }
}
