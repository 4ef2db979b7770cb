/** Runs of any number of honest identities among adversaries who deliver whatever frames they like.

    Signatures are unforgeable: one verifies under an honest key only on a message that identity signed,
    which `issued` records; under any other key verification is arbitrary. AES-GCM is authentic under the keys derived
    from two honest ephemerals: what opens was sealed by the one file sending under that key. All messages, nonces and
    AADs are concrete bytes, so what a signature or a ciphertext means rests on the encodings alone. */
module Network {
  import opened Bytes
  import opened Text
  import opened Json
  import opened CryptoUtils
  import opened Base64
  import opened Protocol
  import opened Transfer
  import opened Handshake
  import opened Chunking
  import Reassembly

  /** The primitives and the raw public keys of the honest identities. */
  datatype Net = Net(p: Prims, honest: set<Bytes>)

  datatype Issued = Issued(pub: Bytes, msg: Bytes)

  /** One cmd_share: the bytes hashed, and the manifest fields signed over them. */
  datatype Share = Share(pub: Bytes, fileId: Str, filename: Str, size: int, timestamp: Str, snapshot: Bytes)

  datatype InitRun = InitRun(pub: Bytes, i: Initiator)
  datatype RespRun = RespRun(pub: Bytes, r: Responder, o: Opening)
  datatype Completion = Completion(run: InitRun, resp: J, end: InitiatorEnd)
  datatype Download = Download(ownerPub: Bytes, file: SavedFile)

  /** One build_envelope of a signed type, handshake openings apart. */
  datatype Envelope = Envelope(pub: Bytes, typ: Str, id: Str, payload: J)

  /** One _send_file, in the session of an answered handshake. */
  datatype Sending = Sending(answer: RespRun, file: SharedFile, data: Bytes, transferId: Str)

  datatype World = World(issued: set<Issued>, shares: set<Share>, envelopes: set<Envelope>, started: set<InitRun>,
                         answered: set<RespRun>, completed: set<Completion>, sendings: set<Sending>, saved: set<Download>)

  datatype Step =
    | ShareFile(share: Share)
    | SignEnvelope(envelope: Envelope)
    | SignForTls(pub: Bytes, msg: Bytes)
    | StartHandshake(run: InitRun, id: Str)
    | AnswerHandshake(answer: RespRun, init: J, sig: Bytes, id: Str)
    | CompleteHandshake(run: InitRun, resp: J)
    | SendFile(sending: Sending)
    | ReceiveFile(owners: Str -> Option<Bytes>, keys: SessionKeys, start: J, frames: seq<J>)

  const EMPTY := World({}, {}, {}, {}, {}, {}, {}, {})

  predicate Verifies(n: Net, w: World, pub: Bytes, sig: Bytes, msg: Bytes)
  {
    n.p.verify(pub, sig, msg) && (pub in n.honest ==> Issued(pub, msg) in w.issued)
  }

  function KeysOf(n: Net, a: RespRun): Option<SessionKeys> { FinishResponder(n.p, a.r, a.o) }

  /** The sending as a _send_file call; message ids do not matter to what it seals. */
  function JobOf(n: Net, s: Sending, keys: SessionKeys): SendJob
  {
    SendJob(n.p, [], keys, s.file, s.data, s.transferId, i => [])
  }

  function StartOf(s: Sending): Envelope
  {
    Envelope(s.answer.pub, Asc("TRANSFER_START"), s.transferId, StartPayload(s.file, TotalChunks(|s.data|)))
  }

  ghost predicate SealedBy(n: Net, w: World, s: Sending, i: int, key: Bytes, nonce: Bytes, aad: Bytes, plain: Bytes)
  {
    && s in w.sendings && KeysOf(n, s.answer).Some? && KeysOf(n, s.answer).value.txKey == key
    && Reassembly.SealedByJob(JobOf(n, s, KeysOf(n, s.answer).value), i, nonce, aad, plain)
  }

  ghost predicate Sealed(n: Net, w: World, key: Bytes, nonce: Bytes, aad: Bytes, plain: Bytes)
  {
    exists s, i :: SealedBy(n, w, s, i, key, nonce, aad, plain)
  }

  /** A key that only the two honest holders of its ephemerals can compute. */
  ghost predicate IsSecret(n: Net, w: World, key: Bytes)
  {
    exists run, a, salt, info :: run in w.started && a in w.answered && DerivedFrom(n, run, a, salt, info, key)
  }

  predicate DerivedFrom(n: Net, run: InitRun, a: RespRun, salt: Bytes, info: Bytes, key: Bytes)
  {
    key == n.p.hkdf(n.p.exchange(run.i.eph, n.p.ephemeralPublic(a.r.eph)), salt, info, 32)
  }

  ghost function Opens(n: Net, w: World, key: Bytes, nonce: Bytes, aad: Bytes, ct: Bytes): Option<Bytes>
  {
    var r := n.p.open(key, nonce, aad, ct);
    if IsSecret(n, w, key) && r.Some? && !Sealed(n, w, key, nonce, aad, r.value) then None else r
  }

  /** The primitives as they answer in state `w`. */
  ghost function At(n: Net, w: World): Prims
  {
    n.p.(verify := (pub, sig, msg) => Verifies(n, w, pub, sig, msg),
         open := (key, nonce, aad, ct) => Opens(n, w, key, nonce, aad, ct))
  }

  function ManifestOf(n: Net, s: Share): Manifest
  {
    Manifest(JStr(s.fileId), JStr(s.filename), JStr(Fingerprint(n.p, s.pub)), JStr(HexString(n.p.sha256(s.snapshot))),
             JInt(s.size), JStr(s.timestamp))
  }

  function InitText(n: Net, run: InitRun, id: Str): Bytes
  {
    CanonicalEnvelope(Asc("HANDSHAKE_INIT"), id, run.i.fp, InitPayload(n.p.ephemeralPublic(run.i.eph), run.i.nonce))
  }

  function EnvelopeText(n: Net, e: Envelope): Bytes
  {
    CanonicalEnvelope(e.typ, e.id, Fingerprint(n.p, e.pub), e.payload)
  }

  /** The reply envelope of an answered handshake, carrying `sig` as the signature on its transcript. */
  function ReplyOf(n: Net, a: RespRun, sig: Bytes, id: Str): Envelope
  {
    Envelope(a.pub, Asc("HANDSHAKE_RESP"), id, ReplyPayload(n.p.ephemeralPublic(a.r.eph), a.r.nonce, sig))
  }

  /** Every handshake generates its own ephemeral key. */
  ghost predicate IsFresh(n: Net, w: World, eph: Bytes)
  {
    && (forall run :: run in w.started ==> n.p.ephemeralPublic(run.i.eph) != n.p.ephemeralPublic(eph))
    && (forall a :: a in w.answered ==> n.p.ephemeralPublic(a.r.eph) != n.p.ephemeralPublic(eph))
  }

  /** TLS reuses the identity key: it signs a DER certificate (first byte 0x30, tls_utils.py) and, in
      section 4.4.3 of RFC 8446, texts that begin with 64 spaces. */
  predicate IsTlsText(msg: Bytes) { msg != [] && (msg[0] == 0x30 || msg[0] == 0x20) }

  /** A session sends at most one file, under ids that are uuids: plain text without colons, used once. Keys of
      different handshakes differ. */
  ghost predicate MaySend(n: Net, w: World, s: Sending)
  {
    && s.answer in w.answered && KeysOf(n, s.answer).Some? && |s.data| <= TWO53
    && NoColon(s.file.fileId) && PlainStr(s.file.fileId) && NoColon(s.transferId) && PlainStr(s.transferId)
    && forall t :: t in w.sendings ==> Apart(n, s, t)
  }

  ghost predicate Apart(n: Net, s: Sending, t: Sending)
  {
    && s.answer != t.answer && s.transferId != t.transferId
    && (KeysOf(n, s.answer).Some? && KeysOf(n, t.answer).Some?
        ==> KeysOf(n, s.answer).value.txKey != KeysOf(n, t.answer).value.txKey)
  }

  ghost predicate Enabled(n: Net, w: World, s: Step)
  {
    match s
    case ShareFile(share) => share.pub in n.honest
    case SignEnvelope(e) =>
      && e.pub in n.honest && IsSignedType(e.typ)
      && e.typ !in {Asc("HANDSHAKE_INIT"), Asc("HANDSHAKE_RESP"), Asc("TRANSFER_START")}
    case SignForTls(pub, msg) => pub in n.honest && IsTlsText(msg)
    case StartHandshake(run, _) =>
      run.pub in n.honest && run.i.fp == Fingerprint(n.p, run.pub) && |run.i.nonce| == 32 && IsFresh(n, w, run.i.eph)
    case AnswerHandshake(a, init, sig, _) =>
      && a.pub in n.honest && a.r.fp == Fingerprint(n.p, a.pub) && |a.r.nonce| == 32 && IsFresh(n, w, a.r.eph)
      && OpenHandshake(At(n, w), a.r, init) == Some(a.o) && n.p.verify(a.pub, sig, a.o.transcript)
    case CompleteHandshake(run, resp) => run in w.started && FinishInitiator(At(n, w), run.i, resp).Some?
    case SendFile(s) => MaySend(n, w, s)
    case ReceiveFile(owners, keys, start, frames) =>
      ReceiveTransfer(At(n, w), owners, keys, start, frames).saved.Some?
      && owners(ReceiveTransfer(At(n, w), owners, keys, start, frames).saved.value.owner).Some?
  }

  ghost function Apply(n: Net, w: World, s: Step): World
    requires Enabled(n, w, s)
  {
    hide ReceiveTransfer, FinishInitiator, OpenHandshake, CanonicalManifest, CanonicalEnvelope, IsSignedType;
    match s
    case ShareFile(share) =>
      w.(issued := w.issued + {Issued(share.pub, CanonicalManifest(ManifestOf(n, share)))},
         shares := w.shares + {share})
    case SignEnvelope(e) =>
      w.(issued := w.issued + {Issued(e.pub, EnvelopeText(n, e))}, envelopes := w.envelopes + {e})
    case SignForTls(pub, msg) => w.(issued := w.issued + {Issued(pub, msg)})
    case StartHandshake(run, id) =>
      w.(issued := w.issued + {Issued(run.pub, InitText(n, run, id))}, started := w.started + {run})
    case AnswerHandshake(a, _, sig, id) =>
      var e := ReplyOf(n, a, sig, id);
      w.(issued := w.issued + {Issued(a.pub, a.o.transcript), Issued(e.pub, EnvelopeText(n, e))},
         envelopes := w.envelopes + {e}, answered := w.answered + {a})
    case CompleteHandshake(run, resp) =>
      w.(completed := w.completed + {Completion(run, resp, FinishInitiator(At(n, w), run.i, resp).value)})
    case SendFile(s) =>
      var e := StartOf(s);
      w.(issued := w.issued + {Issued(e.pub, EnvelopeText(n, e))}, envelopes := w.envelopes + {e}, sendings := w.sendings + {s})
    case ReceiveFile(owners, keys, start, frames) =>
      var f := ReceiveTransfer(At(n, w), owners, keys, start, frames).saved.value;
      w.(saved := w.saved + {Download(owners(f.owner).value, f)})
  }

  ghost predicate Next(n: Net, w: World, s: Step, v: World) { Enabled(n, w, s) && v == Apply(n, w, s) }

  /** A run: the states it goes through and the steps between them. */
  ghost predicate Run(n: Net, states: seq<World>, steps: seq<Step>)
  {
    && |states| == |steps| + 1 && states[0] == EMPTY
    && forall k {:trigger steps[k]} :: 0 <= k < |steps| ==> Next(n, states[k], steps[k], states[k + 1])
  }

  // ---------------------------------------------------------------- why a signature exists

  ghost predicate FromShare(n: Net, w: World, x: Issued)
  {
    exists s :: s in w.shares && s.pub == x.pub && x.msg == CanonicalManifest(ManifestOf(n, s))
  }

  ghost predicate FromEnvelope(n: Net, w: World, x: Issued)
  {
    exists e :: e in w.envelopes && e.pub == x.pub && x.msg == EnvelopeText(n, e)
  }

  ghost predicate FromStart(n: Net, w: World, x: Issued)
  {
    exists run, id :: run in w.started && run.pub == x.pub && x.msg == InitText(n, run, id)
  }

  ghost predicate FromAnswer(w: World, x: Issued)
  {
    exists a :: a in w.answered && a.pub == x.pub && x.msg == a.o.transcript
  }

  ghost predicate Accounted(n: Net, w: World, x: Issued)
  {
    FromShare(n, w, x) || FromEnvelope(n, w, x) || FromStart(n, w, x) || FromAnswer(w, x) || IsTlsText(x.msg)
  }

  ghost predicate AllAccounted(n: Net, w: World)
  {
    forall x :: x in w.issued ==> Accounted(n, w, x)
  }

  /** What every envelope, started and answered instance keeps. */
  ghost predicate InstancesSound(n: Net, w: World)
  {
    && (forall e :: e in w.envelopes ==> IsSignedType(e.typ) && e.typ != Asc("HANDSHAKE_INIT"))
    && (forall run :: run in w.started ==>
          run.pub in n.honest && run.i.fp == Fingerprint(n.p, run.pub) && |run.i.nonce| == 32)
    && (forall a :: a in w.answered ==> AnswerSound(n, w, a))
  }

  /** An answer signs its own transcript, and if it was opened under an honest initiator's key then that
      initiator started a handshake with the ephemeral and nonce it received. */
  ghost predicate AnswerSound(n: Net, w: World, a: RespRun)
  {
    && a.pub in n.honest && a.r.fp == Fingerprint(n.p, a.pub) && |a.r.nonce| == 32
    && Transcript(a.r.initiatorFp, a.r.fp, a.o.initEph, n.p.ephemeralPublic(a.r.eph), a.o.initNonce, a.r.nonce)
       == Some(a.o.transcript)
    && (a.r.initiatorPub in n.honest ==>
          exists run :: run in w.started && run.pub == a.r.initiatorPub
                        && a.o.initEph == n.p.ephemeralPublic(run.i.eph) && a.o.initNonce == run.i.nonce)
  }

  ghost predicate Grows(w: World, v: World)
  {
    && w.shares <= v.shares && w.envelopes <= v.envelopes && w.sendings <= v.sendings
    && w.started <= v.started && w.answered <= v.answered
  }

  lemma AccountedGrows(n: Net, w: World, v: World, x: Issued)
    requires Accounted(n, w, x) && Grows(w, v)
    ensures Accounted(n, v, x)
  {
    hide CanonicalManifest, CanonicalEnvelope, InitText, EnvelopeText;
    if FromShare(n, w, x) {
      var s :| s in w.shares && s.pub == x.pub && x.msg == CanonicalManifest(ManifestOf(n, s));
      assert s in v.shares;
    } else if FromEnvelope(n, w, x) {
      var e :| e in w.envelopes && e.pub == x.pub && x.msg == EnvelopeText(n, e);
      assert e in v.envelopes;
    } else if FromStart(n, w, x) {
      var run, id :| run in w.started && run.pub == x.pub && x.msg == InitText(n, run, id);
      assert run in v.started;
    } else if FromAnswer(w, x) {
      var a :| a in w.answered && a.pub == x.pub && x.msg == a.o.transcript;
      assert a in v.answered;
    }
  }

  lemma NewSignatureAccounted(n: Net, w: World, s: Step)
    requires Enabled(n, w, s)
    ensures forall x :: x in Apply(n, w, s).issued && x !in w.issued ==> Accounted(n, Apply(n, w, s), x)
  {
    hide CanonicalManifest, CanonicalEnvelope, InitText, IsSignedType, OpenHandshake, FinishInitiator, ReceiveTransfer;
    var v := Apply(n, w, s);
    match s
    case ShareFile(share) => assert share in v.shares;
    case SignEnvelope(e) => assert e in v.envelopes;
    case SendFile(s) => assert StartOf(s) in v.envelopes;
    case StartHandshake(run, id) => assert run in v.started;
    case AnswerHandshake(a, _, sig, id) => assert a in v.answered && ReplyOf(n, a, sig, id) in v.envelopes;
    case _ =>
  }

  // ---------------------------------------------------------------- contexts do not collide

  /** Handshake transcripts, signed envelopes, manifests and TLS texts are pairwise different. */
  lemma ContextsDisjoint(t: Str, id: Str, from: Str, payload: J, f: Manifest, i: Str, r: Str,
                         ie: Bytes, re: Bytes, inn: Bytes, rn: Bytes, tls: Bytes)
    requires IsTlsText(tls)
    ensures CanonicalEnvelope(t, id, from, payload) != CanonicalManifest(f)
    ensures Transcript(i, r, ie, re, inn, rn) != Some(CanonicalEnvelope(t, id, from, payload))
    ensures Transcript(i, r, ie, re, inn, rn) != Some(CanonicalManifest(f))
    ensures Transcript(i, r, ie, re, inn, rn) != Some(tls)
    ensures tls != CanonicalEnvelope(t, id, from, payload) && tls != CanonicalManifest(f)
  {
    hide CanonicalEnvelope, CanonicalManifest, Transcript;
    EnvelopeIsNotManifest(t, id, from, payload, f);
    EnvelopeStart(t, id, from, payload);
    ManifestStart(f);
    if Transcript(i, r, ie, re, inn, rn).Some? { TranscriptStart(i, r, ie, re, inn, rn); }
  }

  /** A manifest signature of an honest identity comes from a cmd_share of that identity. */
  lemma ManifestSignatureMeansShare(n: Net, w: World, pub: Bytes, f: Manifest) returns (s: Share)
    requires AllAccounted(n, w) && InstancesSound(n, w)
    requires Issued(pub, CanonicalManifest(f)) in w.issued
    ensures s in w.shares && s.pub == pub && CanonicalManifest(f) == CanonicalManifest(ManifestOf(n, s))
  {
    hide CanonicalEnvelope, CanonicalManifest, Transcript, IsSignedType;
    var x := Issued(pub, CanonicalManifest(f));
    assert Accounted(n, w, x);
    forall t, id, from, payload
      ensures CanonicalEnvelope(t, id, from, payload) != x.msg
    {
      EnvelopeIsNotManifest(t, id, from, payload, f);
    }
    forall a | a in w.answered
      ensures a.o.transcript != x.msg
    {
      TranscriptStart(a.r.initiatorFp, a.r.fp, a.o.initEph, n.p.ephemeralPublic(a.r.eph), a.o.initNonce, a.r.nonce);
      ManifestStart(f);
    }
    ManifestStart(f);
    assert FromShare(n, w, x);
    s :| s in w.shares && s.pub == x.pub && x.msg == CanonicalManifest(ManifestOf(n, s));
  }

  /** A transcript signature of an honest identity comes from a handshake it answered. */
  lemma TranscriptSignatureMeansAnswer(n: Net, w: World, pub: Bytes, i: Str, r: Str, ie: Bytes, re: Bytes,
                                       inn: Bytes, rn: Bytes) returns (a: RespRun)
    requires AllAccounted(n, w) && Transcript(i, r, ie, re, inn, rn).Some?
    requires Issued(pub, Transcript(i, r, ie, re, inn, rn).value) in w.issued
    ensures a in w.answered && a.pub == pub && a.o.transcript == Transcript(i, r, ie, re, inn, rn).value
  {
    hide CanonicalEnvelope, CanonicalManifest, Transcript, IsSignedType;
    var x := Issued(pub, Transcript(i, r, ie, re, inn, rn).value);
    assert Accounted(n, w, x);
    TranscriptStart(i, r, ie, re, inn, rn);
    forall f: Manifest
      ensures CanonicalManifest(f) != x.msg
    {
      ManifestStart(f);
    }
    forall t, id, from, payload
      ensures CanonicalEnvelope(t, id, from, payload) != x.msg
    {
      EnvelopeStart(t, id, from, payload);
    }
    assert FromAnswer(w, x);
    a :| a in w.answered && a.pub == x.pub && x.msg == a.o.transcript;
  }

  lemma InitPayloadPlain(eph: Bytes, nonce: Bytes, payload: J)
    requires ToRaw(payload) == ToRaw(InitPayload(eph, nonce))
    ensures BytesField(payload, Asc("ephemeral_pub")) == Some(eph) && BytesField(payload, Asc("nonce")) == Some(nonce)
  {
    hide BytesField, InitPayload;
    InitPayloadText(eph, nonce);
    PlainIsUnique(payload, InitPayload(eph, nonce));
    InitFields(eph, nonce);
  }

  lemma InitPayloadText(eph: Bytes, nonce: Bytes)
    ensures PlainRaw(ToRaw(InitPayload(eph, nonce)))
  {
    hide B64e, PlainFields, FieldsFor, SortedKeys;
    var sent := InitPayload(eph, nonce);
    BytePlain(B64e(eph));
    BytePlain(B64e(nonce));
    BytePlain(Asc("ephemeral_pub"));
    BytePlain(Asc("nonce"));
    PlainStringFields(sent, SortedKeys(sent.m.Keys));
  }

  lemma BytePlain(b: Bytes)
    ensures PlainStr(b)
  {
  }

  /** A signed HANDSHAKE_INIT of an honest identity carries the ephemeral and nonce of a handshake it started. */
  lemma InitSignatureMeansStart(n: Net, w: World, pub: Bytes, id: Str, from: Str, payload: J) returns (run: InitRun)
    requires AllAccounted(n, w) && InstancesSound(n, w)
    requires Issued(pub, CanonicalEnvelope(Asc("HANDSHAKE_INIT"), id, from, payload)) in w.issued
    ensures run in w.started && run.pub == pub
    ensures BytesField(payload, Asc("ephemeral_pub")) == Some(n.p.ephemeralPublic(run.i.eph))
    ensures BytesField(payload, Asc("nonce")) == Some(run.i.nonce)
  {
    hide CanonicalEnvelope, CanonicalManifest, Transcript, IsSignedType, InitPayload, BytesField;
    var init := Asc("HANDSHAKE_INIT");
    var x := Issued(pub, CanonicalEnvelope(init, id, from, payload));
    assert Accounted(n, w, x);
    EnvelopeStart(init, id, from, payload);
    forall f: Manifest
      ensures CanonicalManifest(f) != x.msg
    {
      EnvelopeIsNotManifest(init, id, from, payload, f);
    }
    forall a | a in w.answered
      ensures a.o.transcript != x.msg
    {
      TranscriptStart(a.r.initiatorFp, a.r.fp, a.o.initEph, n.p.ephemeralPublic(a.r.eph), a.o.initNonce, a.r.nonce);
    }
    forall t, i, f, p | CanonicalEnvelope(t, i, f, p) == x.msg
      ensures t == init
    {
      CanonicalEnvelopeDecides(t, i, f, p, init, id, from, payload);
      PlainUnits(t, init);
    }
    assert FromStart(n, w, x);
    var id0: Str;
    run, id0 :| run in w.started && run.pub == x.pub && x.msg == InitText(n, run, id0);
    var sent := InitPayload(n.p.ephemeralPublic(run.i.eph), run.i.nonce);
    CanonicalEnvelopeDecides(init, id, from, payload, init, id0, run.i.fp, sent);
    InitPayloadPlain(n.p.ephemeralPublic(run.i.eph), run.i.nonce, payload);
  }

  /** A signature of an honest identity on an envelope text of any other type comes from building just
      that envelope. */
  lemma EnvelopeSignatureMeansBuilt(n: Net, w: World, pub: Bytes, typ: Str, id: Str, from: Str, payload: J)
      returns (e: Envelope)
    requires AllAccounted(n, w) && InstancesSound(n, w) && IsSignedType(typ) && typ != Asc("HANDSHAKE_INIT")
    requires Issued(pub, CanonicalEnvelope(typ, id, from, payload)) in w.issued
    ensures e in w.envelopes && e.pub == pub && EnvelopeText(n, e) == CanonicalEnvelope(typ, id, from, payload)
  {
    hide CanonicalEnvelope, CanonicalManifest, Transcript, IsSignedType, InitPayload;
    var x := Issued(pub, CanonicalEnvelope(typ, id, from, payload));
    assert Accounted(n, w, x);
    EnvelopeStart(typ, id, from, payload);
    forall f: Manifest
      ensures CanonicalManifest(f) != x.msg
    {
      EnvelopeIsNotManifest(typ, id, from, payload, f);
    }
    forall a | a in w.answered
      ensures a.o.transcript != x.msg
    {
      TranscriptStart(a.r.initiatorFp, a.r.fp, a.o.initEph, n.p.ephemeralPublic(a.r.eph), a.o.initNonce, a.r.nonce);
    }
    forall run, id0
      ensures InitText(n, run, id0) != x.msg
    {
      OtherTypeOtherText(n, run, id0, typ, id, from, payload);
    }
    assert FromEnvelope(n, w, x);
    e :| e in w.envelopes && e.pub == x.pub && x.msg == EnvelopeText(n, e);
  }

  lemma OtherTypeOtherText(n: Net, run: InitRun, id0: Str, typ: Str, id: Str, from: Str, payload: J)
    requires typ != Asc("HANDSHAKE_INIT")
    ensures InitText(n, run, id0) != CanonicalEnvelope(typ, id, from, payload)
  {
    hide CanonicalEnvelope, InitPayload;
    var sent := InitPayload(n.p.ephemeralPublic(run.i.eph), run.i.nonce);
    if InitText(n, run, id0) == CanonicalEnvelope(typ, id, from, payload) {
      CanonicalEnvelopeDecides(Asc("HANDSHAKE_INIT"), id0, run.i.fp, sent, typ, id, from, payload);
      PlainUnits(typ, Asc("HANDSHAKE_INIT"));
    }
  }

  // ---------------------------------------------------------------- what every run keeps

  ghost predicate FromAnswerOf(n: Net, w: World, c: Completion, a: RespRun)
  {
    && a in w.answered && a.pub == c.run.i.responderPub
    && InitiatorTranscript(n.p, c.run.i, c.end) == Some(a.o.transcript)
  }

  /** The reply accepted is that of an answered handshake: its ephemeral, its nonce, and a signature on its transcript. */
  ghost predicate ReplyFrom(n: Net, w: World, pub: Bytes, respEph: Bytes, respNonce: Bytes, sig: Bytes, a: RespRun)
  {
    && a in w.answered && a.pub == pub && respEph == n.p.ephemeralPublic(a.r.eph) && respNonce == a.r.nonce
    && n.p.verify(pub, sig, a.o.transcript)
  }

  /** A completed initiator talked to an honest responder key only under its fingerprint, only if its owner
      signed that transcript, and read a nonce of 32 bytes. */
  ghost predicate CompletionSound(n: Net, w: World, c: Completion)
  {
    && c.run in w.started && EndSound(n.p, c.run.i, c.end)
    && (c.run.i.responderPub in n.honest ==>
          && c.run.i.responderFp == Fingerprint(n.p, c.run.i.responderPub) && |c.end.respNonce| == 32
          && exists a :: FromAnswerOf(n, w, c, a))
  }

  /** Every HANDSHAKE_RESP was built by answering a handshake. */
  ghost predicate ReplySound(n: Net, w: World, e: Envelope)
  {
    exists a, sig :: a in w.answered && a.pub == e.pub && n.p.verify(a.pub, sig, a.o.transcript)
                     && e.payload == ReplyPayload(n.p.ephemeralPublic(a.r.eph), a.r.nonce, sig)
  }

  ghost predicate RepliesSound(n: Net, w: World)
  {
    forall e :: e in w.envelopes && e.typ == Asc("HANDSHAKE_RESP") ==> ReplySound(n, w, e)
  }

  /** No two answers share an ephemeral, nor do an answer and a started handshake. */
  ghost predicate EphemeralsApart(n: Net, w: World)
  {
    && (forall a, b :: a in w.answered && b in w.answered && n.p.ephemeralPublic(a.r.eph) == n.p.ephemeralPublic(b.r.eph)
                       ==> a == b)
    && (forall run, a :: run in w.started && a in w.answered
                         ==> n.p.ephemeralPublic(run.i.eph) != n.p.ephemeralPublic(a.r.eph))
  }

  /** The saved file is the one described by a cmd_share of its owner. */
  ghost predicate SavedFromShare(n: Net, w: World, d: Download, s: Share)
  {
    && s in w.shares && s.pub == d.ownerPub && SameText(d.file.ToManifest(), ManifestOf(n, s))
    && n.p.sha256(d.file.data) == n.p.sha256(s.snapshot)
  }

  ghost predicate DownloadSound(n: Net, w: World, d: Download)
  {
    d.ownerPub in n.honest ==> exists s :: SavedFromShare(n, w, d, s)
  }

  /** A key in use belongs to one sending, and a TRANSFER_START was built for the sending of its id. */
  ghost predicate SendingsSound(n: Net, w: World)
  {
    && (forall s :: s in w.sendings ==>
          && s.answer in w.answered && |s.data| <= TWO53
          && NoColon(s.file.fileId) && PlainStr(s.file.fileId) && NoColon(s.transferId) && PlainStr(s.transferId))
    && (forall s, t :: s in w.sendings && t in w.sendings && s != t ==> Apart(n, s, t))
    && (forall e :: e in w.envelopes && e.typ == Asc("TRANSFER_START") ==> exists s :: s in w.sendings && e == StartOf(s))
  }

  ghost predicate Invariant(n: Net, w: World)
  {
    && AllAccounted(n, w) && InstancesSound(n, w) && SendingsSound(n, w) && RepliesSound(n, w) && EphemeralsApart(n, w)
    && (forall c :: c in w.completed ==> CompletionSound(n, w, c))
    && (forall d :: d in w.saved ==> DownloadSound(n, w, d))
  }

  lemma SignaturesKept(n: Net, w: World, s: Step)
    requires AllAccounted(n, w) && Enabled(n, w, s)
    ensures AllAccounted(n, Apply(n, w, s)) && Grows(w, Apply(n, w, s))
  {
    hide Accounted, Enabled, OpenHandshake, FinishInitiator, ReceiveTransfer, CanonicalManifest, CanonicalEnvelope;
    var v := Apply(n, w, s);
    NewSignatureAccounted(n, w, s);
    forall x | x in v.issued
      ensures Accounted(n, v, x)
    {
      if x in w.issued { AccountedGrows(n, w, v, x); }
    }
  }

  /** What an accepted envelope of a signed type under an honest key says about the record of signatures. */
  lemma EnvelopeVerified(n: Net, w: World, pub: Bytes, typ: Str, env: J) returns (id: Str, from: Str, payload: J)
    requires pub in n.honest && HasType(env, typ) && IsSignedType(typ)
    requires VerifyEnvelope(At(n, w), env, pub) == Some(true)
    ensures TextField(env, Asc("id")) == Some(id) && TextField(env, Asc("from")) == Some(from)
    ensures Field(env, Asc("payload")) == Some(payload) && Issued(pub, CanonicalEnvelope(typ, id, from, payload)) in w.issued
  {
    hide CanonicalEnvelope, B64d, IsSignedType;
    id, from := TextField(env, Asc("id")).value, TextField(env, Asc("from")).value;
    payload := Field(env, Asc("payload")).value;
  }

  lemma OpeningSound(n: Net, w: World, a: RespRun, init: J)
    requires AllAccounted(n, w) && InstancesSound(n, w)
    requires a.pub in n.honest && a.r.fp == Fingerprint(n.p, a.pub) && |a.r.nonce| == 32
    requires OpenHandshake(At(n, w), a.r, init) == Some(a.o)
    ensures AnswerSound(n, w, a)
  {
    hide Transcript, BytesField, CanonicalEnvelope;
    if a.r.initiatorPub in n.honest {
      var id, from, payload := EnvelopeVerified(n, w, a.r.initiatorPub, Asc("HANDSHAKE_INIT"), init);
      var run := InitSignatureMeansStart(n, w, a.r.initiatorPub, id, from, payload);
      assert run in w.started;
    }
  }

  lemma AnswerGrows(n: Net, w: World, v: World, a: RespRun)
    requires AnswerSound(n, w, a) && Grows(w, v)
    ensures AnswerSound(n, v, a)
  {
    hide Transcript;
    if a.r.initiatorPub in n.honest {
      var run :| run in w.started && run.pub == a.r.initiatorPub
                 && a.o.initEph == n.p.ephemeralPublic(run.i.eph) && a.o.initNonce == run.i.nonce;
      assert run in v.started;
    }
  }

  lemma InstancesKept(n: Net, w: World, s: Step)
    requires AllAccounted(n, w) && InstancesSound(n, w) && Enabled(n, w, s)
    ensures InstancesSound(n, Apply(n, w, s))
  {
    hide AllAccounted, AnswerSound, OpenHandshake, FinishInitiator, ReceiveTransfer, CanonicalManifest, CanonicalEnvelope;
    hide IsSignedType, KeysOf, StartPayload, ReplyPayload, IsFresh, TotalChunks, Apart, InitText, EnvelopeText;
    var v := Apply(n, w, s);
    SignedTypes();
    if s.AnswerHandshake? { OpeningSound(n, w, s.answer, s.init); }
    forall a | a in v.answered
      ensures AnswerSound(n, v, a)
    {
      AnswerGrows(n, w, v, a);
    }
  }

  lemma ReplySoundGrows(n: Net, w: World, v: World, e: Envelope)
    requires ReplySound(n, w, e) && Grows(w, v)
    ensures ReplySound(n, v, e)
  {
    hide ReplyPayload;
    var a, sig :| a in w.answered && a.pub == e.pub && n.p.verify(a.pub, sig, a.o.transcript)
                  && e.payload == ReplyPayload(n.p.ephemeralPublic(a.r.eph), a.r.nonce, sig);
    assert a in v.answered;
  }

  lemma RepliesKept(n: Net, w: World, s: Step)
    requires RepliesSound(n, w) && Enabled(n, w, s) && Grows(w, Apply(n, w, s))
    ensures RepliesSound(n, Apply(n, w, s))
  {
    hide OpenHandshake, FinishInitiator, ReceiveTransfer, CanonicalManifest, CanonicalEnvelope, KeysOf, StartPayload, TotalChunks;
    hide ReplySound, ReplyPayload, MaySend, IsFresh, IsSignedType, InitText, EnvelopeText, Fingerprint, At;
    var v := Apply(n, w, s);
    SignedTypes();
    forall e | e in v.envelopes && e.typ == Asc("HANDSHAKE_RESP")
      ensures ReplySound(n, v, e)
    {
      if e in w.envelopes {
        ReplySoundGrows(n, w, v, e);
      } else {
        NewReply(n, v, s.answer, s.sig, s.id);
      }
    }
  }

  lemma NewReply(n: Net, v: World, a: RespRun, sig: Bytes, id: Str)
    requires a in v.answered && n.p.verify(a.pub, sig, a.o.transcript)
    ensures ReplySound(n, v, ReplyOf(n, a, sig, id))
  {
  }

  lemma EphemeralsKept(n: Net, w: World, s: Step)
    requires EphemeralsApart(n, w) && Enabled(n, w, s)
    ensures EphemeralsApart(n, Apply(n, w, s))
  {
    hide OpenHandshake, FinishInitiator, ReceiveTransfer, CanonicalManifest, CanonicalEnvelope, KeysOf, StartPayload, TotalChunks;
    hide MaySend, IsSignedType, InitText, EnvelopeText, Fingerprint, At, ReplyPayload;
  }

  /** A HANDSHAKE_RESP that verifies under an honest key was built by its owner, with that payload. */
  lemma ReplyBuilt(n: Net, w: World, pub: Bytes, resp: J) returns (e: Envelope)
    requires AllAccounted(n, w) && InstancesSound(n, w) && pub in n.honest
    requires HasType(resp, Asc("HANDSHAKE_RESP")) && VerifyEnvelope(At(n, w), resp, pub) == Some(true)
    ensures e in w.envelopes && e.pub == pub && e.typ == Asc("HANDSHAKE_RESP")
    ensures Field(resp, Asc("payload")).Some? && ToRaw(Field(resp, Asc("payload")).value) == ToRaw(e.payload)
    ensures TextField(resp, Asc("from")) == Some(Fingerprint(n.p, pub))
  {
    hide AllAccounted, InstancesSound, CanonicalEnvelope, Fingerprint, VerifyEnvelope, HasType, IsSignedType;
    var typ, fp := Asc("HANDSHAKE_RESP"), Fingerprint(n.p, pub);
    SignedTypes();
    var id, from, payload := EnvelopeVerified(n, w, pub, typ, resp);
    e := EnvelopeSignatureMeansBuilt(n, w, pub, typ, id, from, payload);
    CanonicalEnvelopeDecides(typ, id, from, payload, e.typ, e.id, fp, e.payload);
    PlainUnits(from, fp);
    PlainUnits(e.typ, typ);
  }

  /** The reply an initiator accepts under an honest key was built by that identity in answering a handshake: the
      initiator expects its fingerprint, and reads the ephemeral, the nonce and the signature of that answer. */
  lemma ReplyMeansAnswer(n: Net, w: World, i: Initiator, resp: J) returns (a: RespRun, sig: Bytes)
    requires AllAccounted(n, w) && InstancesSound(n, w) && RepliesSound(n, w) && i.responderPub in n.honest
    requires FinishInitiator(At(n, w), i, resp).Some?
    ensures i.responderFp == Fingerprint(n.p, i.responderPub)
    ensures var e := FinishInitiator(At(n, w), i, resp).value;
            && ReplyFrom(n, w, i.responderPub, e.respEph, e.respNonce, sig, a) && |e.respNonce| == 32
            && InitiatorTranscript(n.p, i, e).Some? && n.p.verify(i.responderPub, sig, InitiatorTranscript(n.p, i, e).value)
  {
    hide AllAccounted, InstancesSound, RepliesSound, Fingerprint, ReplyPayload, Transcript, BytesField;
    ReplyChecked(At(n, w), i, resp);
    hide FinishInitiator, VerifyEnvelope, HasType;
    var b := ReplyBuilt(n, w, i.responderPub, resp);
    a, sig := BuiltReply(n, w, b, Field(resp, Asc("payload")).value);
    ReplyFields(n.p.ephemeralPublic(a.r.eph), a.r.nonce, sig);
    AnswerNonce(n, w, a);
  }

  lemma AnswerNonce(n: Net, w: World, a: RespRun)
    requires InstancesSound(n, w) && a in w.answered
    ensures |a.r.nonce| == 32
  {
    assert AnswerSound(n, w, a);
  }

  lemma BuiltReply(n: Net, w: World, e: Envelope, payload: J) returns (a: RespRun, sig: Bytes)
    requires RepliesSound(n, w) && e in w.envelopes && e.typ == Asc("HANDSHAKE_RESP") && ToRaw(payload) == ToRaw(e.payload)
    ensures a in w.answered && a.pub == e.pub && n.p.verify(a.pub, sig, a.o.transcript)
    ensures payload == ReplyPayload(n.p.ephemeralPublic(a.r.eph), a.r.nonce, sig)
  {
    hide ReplyPayload, ToRaw;
    assert ReplySound(n, w, e);
    a, sig :| a in w.answered && a.pub == e.pub && n.p.verify(a.pub, sig, a.o.transcript)
              && e.payload == ReplyPayload(n.p.ephemeralPublic(a.r.eph), a.r.nonce, sig);
    ReplyPayloadText(n.p.ephemeralPublic(a.r.eph), a.r.nonce, sig);
    PlainIsUnique(payload, e.payload);
  }

  lemma ReplyPayloadText(eph: Bytes, nonce: Bytes, sig: Bytes)
    ensures PlainRaw(ToRaw(ReplyPayload(eph, nonce, sig)))
  {
    hide B64e, PlainFields, FieldsFor, SortedKeys;
    var sent := ReplyPayload(eph, nonce, sig);
    BytePlain(B64e(eph));
    BytePlain(B64e(nonce));
    BytePlain(B64e(sig));
    BytePlain(Asc("ephemeral_pub"));
    BytePlain(Asc("nonce"));
    BytePlain(Asc("transcript_sig"));
    PlainStringFields(sent, SortedKeys(sent.m.Keys));
  }

  /** What a completed initiator has read and checked. */
  lemma ReplyChecked(p: Prims, i: Initiator, resp: J)
    requires FinishInitiator(p, i, resp).Some?
    ensures HasType(resp, Asc("HANDSHAKE_RESP")) && TextField(resp, Asc("from")) == Some(i.responderFp)
    ensures VerifyEnvelope(p, resp, i.responderPub) == Some(true) && Field(resp, Asc("payload")).Some?
    ensures var e, payload := FinishInitiator(p, i, resp).value, Field(resp, Asc("payload")).value;
            && BytesField(payload, Asc("ephemeral_pub")) == Some(e.respEph)
            && BytesField(payload, Asc("nonce")) == Some(e.respNonce)
            && BytesField(payload, Asc("transcript_sig")).Some? && InitiatorTranscript(p, i, e).Some?
            && p.verify(i.responderPub, BytesField(payload, Asc("transcript_sig")).value, InitiatorTranscript(p, i, e).value)
  {
    hide HasType, VerifyEnvelope, Transcript, Derive, BytesField;
  }

  lemma SignedTypes()
    ensures IsSignedType(Asc("HANDSHAKE_RESP")) && Asc("HANDSHAKE_RESP") != Asc("HANDSHAKE_INIT")
    ensures IsSignedType(Asc("TRANSFER_START")) && Asc("TRANSFER_START") !in {Asc("HANDSHAKE_INIT"), Asc("HANDSHAKE_RESP")}
  {
    assert Asc("TRANSFER_START")[0] != Asc("HANDSHAKE_RESP")[0];
    assert Asc("HANDSHAKE_RESP")[10] != Asc("HANDSHAKE_INIT")[10];
    assert Asc("TRANSFER_START")[0] != Asc("HANDSHAKE_INIT")[0];
  }

  lemma SendingsKept(n: Net, w: World, s: Step)
    requires SendingsSound(n, w) && Enabled(n, w, s)
    ensures SendingsSound(n, Apply(n, w, s))
  {
    hide OpenHandshake, FinishInitiator, ReceiveTransfer, CanonicalManifest, CanonicalEnvelope, KeysOf, StartPayload, TotalChunks;
    hide NoColon, PlainStr, IsSignedType, InitText, EnvelopeText, ReplyPayload, IsFresh;
    var v := Apply(n, w, s);
    SignedTypes();
    forall e | e in v.envelopes && e.typ == Asc("TRANSFER_START")
      ensures exists t :: t in v.sendings && e == StartOf(t)
    {
      if e in w.envelopes {
        var t :| t in w.sendings && e == StartOf(t);
        assert t in v.sendings;
      } else {
        assert s.SendFile? && s.sending in v.sendings;
      }
    }
  }

  lemma NewCompletion(n: Net, w: World, run: InitRun, resp: J)
    requires AllAccounted(n, w) && InstancesSound(n, w) && RepliesSound(n, w)
    requires run in w.started && FinishInitiator(At(n, w), run.i, resp).Some?
    ensures CompletionSound(n, w, Completion(run, resp, FinishInitiator(At(n, w), run.i, resp).value))
  {
    hide AllAccounted, InstancesSound, RepliesSound, FinishInitiator, EndSound, Transcript, Fingerprint, ReplyFrom;
    var c := Completion(run, resp, FinishInitiator(At(n, w), run.i, resp).value);
    var i, e := run.i, c.end;
    var sig := CompletionMeans(n.p, At(n, w), i, resp, e);
    if i.responderPub in n.honest {
      var a := TranscriptSignatureMeansAnswer(n, w, i.responderPub, i.fp, i.responderFp, n.p.ephemeralPublic(i.eph),
                                              e.respEph, i.nonce, e.respNonce);
      assert FromAnswerOf(n, w, c, a);
      var b, s := ReplyMeansAnswer(n, w, i, resp);
    }
  }

  lemma HashAgrees(p: Prims, a: Bytes, b: Bytes)
    requires ToRaw(JStr(HexString(p.sha256(a)))) == ToRaw(JStr(HexString(p.sha256(b))))
    ensures p.sha256(a) == p.sha256(b)
  {
    PlainUnits(HexString(p.sha256(a)), HexString(p.sha256(b)));
    HexInjective(p.sha256(a), p.sha256(b));
  }

  lemma SavedHasManifest(p: Prims, owners: Str -> Option<Bytes>, keys: SessionKeys, start: J, frames: seq<J>)
      returns (pub: Bytes, sig: Bytes)
    requires ReceiveTransfer(p, owners, keys, start, frames).saved.Some?
    ensures var f := ReceiveTransfer(p, owners, keys, start, frames).saved.value;
            && owners(f.owner) == Some(pub) && p.verify(pub, sig, CanonicalManifest(f.ToManifest()))
            && f.sha256Hex == JStr(HexString(p.sha256(f.data)))
  {
    hide HexString, CanonicalManifest, Collect, JoinChunks, B64d;
    var o := ReadOffer(start).value;
    Reassembly.SavedMeans(p, owners, keys, start, frames, o);
    pub, sig := owners(o.owner).value, B64d(o.manifestSig.s).value;
  }

  lemma NewDownload(n: Net, w: World, owners: Str -> Option<Bytes>, keys: SessionKeys, start: J, frames: seq<J>)
    requires AllAccounted(n, w) && InstancesSound(n, w)
    requires ReceiveTransfer(At(n, w), owners, keys, start, frames).saved.Some?
    ensures var f := ReceiveTransfer(At(n, w), owners, keys, start, frames).saved.value;
            owners(f.owner).Some? && DownloadSound(n, w, Download(owners(f.owner).value, f))
  {
    hide AllAccounted, InstancesSound, ReceiveTransfer, CanonicalManifest, HexString;
    var f := ReceiveTransfer(At(n, w), owners, keys, start, frames).saved.value;
    var pub, sig := SavedHasManifest(At(n, w), owners, keys, start, frames);
    if pub in n.honest {
      var s := ManifestSignatureMeansShare(n, w, pub, f.ToManifest());
      ManifestDecides(f.ToManifest(), ManifestOf(n, s));
      HashAgrees(n.p, f.data, s.snapshot);
      assert SavedFromShare(n, w, Download(pub, f), s);
    }
  }

  lemma CompletionGrows(n: Net, w: World, v: World, c: Completion)
    requires CompletionSound(n, w, c) && Grows(w, v)
    ensures CompletionSound(n, v, c)
  {
    hide EndSound, InitiatorTranscript, Fingerprint;
    if c.run.i.responderPub in n.honest {
      var a :| FromAnswerOf(n, w, c, a);
      assert FromAnswerOf(n, v, c, a);
    }
  }

  lemma DownloadGrows(n: Net, w: World, v: World, d: Download)
    requires DownloadSound(n, w, d) && Grows(w, v)
    ensures DownloadSound(n, v, d)
  {
    hide SameText, ManifestOf;
    if d.ownerPub in n.honest {
      var s :| SavedFromShare(n, w, d, s);
      assert SavedFromShare(n, v, d, s);
    }
  }

  lemma StepKeeps(n: Net, w: World, s: Step)
    requires Invariant(n, w) && Enabled(n, w, s)
    ensures Invariant(n, Apply(n, w, s))
  {
    hide AllAccounted, InstancesSound, SendingsSound, RepliesSound, EphemeralsApart, CompletionSound, DownloadSound;
    hide OpenHandshake, FinishInitiator;
    hide ReceiveTransfer, CanonicalManifest, CanonicalEnvelope, InitText;
    var v := Apply(n, w, s);
    SignaturesKept(n, w, s);
    InstancesKept(n, w, s);
    SendingsKept(n, w, s);
    RepliesKept(n, w, s);
    EphemeralsKept(n, w, s);
    match s {
      case CompleteHandshake(run, resp) => NewCompletion(n, w, run, resp);
      case ReceiveFile(owners, keys, start, frames) => NewDownload(n, w, owners, keys, start, frames);
      case _ =>
    }
    forall c | c in v.completed
      ensures CompletionSound(n, v, c)
    {
      CompletionGrows(n, w, v, c);
    }
    forall d | d in v.saved
      ensures DownloadSound(n, v, d)
    {
      DownloadGrows(n, w, v, d);
    }
  }

  lemma {:induction false} RunKeeps(n: Net, states: seq<World>, steps: seq<Step>, k: nat)
    requires Run(n, states, steps) && k <= |steps|
    ensures Invariant(n, states[k])
    decreases k
  {
    hide Invariant, Enabled, Apply;
    if k == 0 {
      EmptySound(n);
    } else {
      RunKeeps(n, states, steps, k - 1);
      var s := steps[k - 1];
      assert Next(n, states[k - 1], s, states[k]);
      StepKeeps(n, states[k - 1], s);
    }
  }

  lemma EmptySound(n: Net)
    ensures Invariant(n, EMPTY)
  {
  }

  // ---------------------------------------------------------------- the theorems

  predicate Collision(p: Prims, a: Bytes, b: Bytes) { a != b && p.sha256(a) == p.sha256(b) }

  /** End to end: in every run, whatever frames the adversary delivered and whoever sent them, a file
      saved under an honest owner's key is one that owner shared: same manifest text, same size, same
      owner, and the owner's snapshot byte for byte unless SHA-256 collided. */
  lemma EndToEnd(n: Net, states: seq<World>, steps: seq<Step>, k: nat, d: Download) returns (s: Share)
    requires Run(n, states, steps) && k <= |steps| && d in states[k].saved && d.ownerPub in n.honest
    ensures s in states[k].shares && s.pub == d.ownerPub
    ensures d.file.data == s.snapshot || Collision(n.p, d.file.data, s.snapshot)
    ensures d.file.owner == Fingerprint(n.p, s.pub) && d.file.size == JInt(s.size)
    ensures SameText(d.file.ToManifest(), ManifestOf(n, s))
    ensures PlainStr(s.fileId) || (NoPair(d.file.fileId) && NoPair(s.fileId)) ==> d.file.fileId == s.fileId
    ensures PlainStr(s.filename) || (Unpaired(d.file.filename) && NoPair(s.filename)) ==> d.file.filename == JStr(s.filename)
    ensures PlainStr(s.timestamp) || (Unpaired(d.file.timestamp) && NoPair(s.timestamp)) ==> d.file.timestamp == JStr(s.timestamp)
  {
    hide Fingerprint;
    assert DownloadSound(n, states[k], d) by { hide DownloadSound; RunKeeps(n, states, steps, k); }
    s :| SavedFromShare(n, states[k], d, s);
    PlainUnits(d.file.owner, Fingerprint(n.p, s.pub));
    SizeDecided(d.file.size, s.size);
    TextDecided(JStr(d.file.fileId), s.fileId);
    TextDecided(d.file.filename, s.filename);
    TextDecided(d.file.timestamp, s.timestamp);
  }

  lemma SizeDecided(j: J, n: int)
    requires ToRaw(j) == ToRaw(JInt(n))
    ensures j == JInt(n)
  {
  }

  lemma TextDecided(j: J, t: Str)
    requires ToRaw(j) == ToRaw(JStr(t))
    ensures PlainStr(t) || (Unpaired(j) && NoPair(t)) ==> j == JStr(t)
  {
    if PlainStr(t) {
      PlainUnits(j.s, t);
    } else if Unpaired(j) && NoPair(t) {
      JoinUnits(j.s);
      JoinUnits(t);
    }
  }

  /** Handshake agreement: in every run, an initiator that completed against an honest responder key
      agrees on the whole transcript with an answer its owner signed. A responder that completed this answer holds the
      same fields, and with them the initiator's keys, mirrored, exactly when it takes the initiator for its own
      fingerprint, whatever key its record pairs that with. */
  lemma HandshakeAgreement(n: Net, states: seq<World>, steps: seq<Step>, k: nat, c: Completion) returns (a: RespRun)
    requires ExchangesCommute(n.p) && (forall b :: |n.p.sha256(b)| == 32)
    requires Run(n, states, steps) && k <= |steps| && c in states[k].completed && c.run.i.responderPub in n.honest
    ensures a in states[k].answered && a.pub == c.run.i.responderPub && c.run.i.responderFp == Fingerprint(n.p, a.pub)
    ensures InitiatorTranscript(n.p, c.run.i, c.end) == Some(a.o.transcript) == ResponderTranscript(n.p, a.r, a.o)
    ensures Encode(a.r.initiatorFp).Some?
    ensures Matching(n.p, c.run.i, c.end, a.r, a.o) <==> |Encode(a.r.initiatorFp).value| == 64 && |a.o.initEph| == 32
    ensures Matching(n.p, c.run.i, c.end, a.r, a.o) ==> FinishResponder(n.p, a.r, a.o) == Some(Swap(c.end.keys))
    ensures FinishResponder(n.p, a.r, a.o).Some?
            ==> (Matching(n.p, c.run.i, c.end, a.r, a.o) <==> a.r.initiatorFp == c.run.i.fp)
  {
    var w := states[k];
    hide Transcript, EndSound, Fingerprint, Matching, Derive, Run, Invariant;
    RunKeeps(n, states, steps, k);
    InvariantParts(n, w);
    assert CompletionSound(n, w, c) by { CompletionOf(n, w, c); }
    a :| FromAnswerOf(n, w, c, a);
    assert AnswerSound(n, w, a) && c.run.pub in n.honest;
    FingerprintShape(n.p, c.run.pub);
    FingerprintShape(n.p, a.pub);
    HonestReplyMatches(n.p, c.run.i, c.end, a.r, a.o);
    if Matching(n.p, c.run.i, c.end, a.r, a.o) { MatchingKeysMirror(n.p, c.run.i, c.end, a.r, a.o); }
  }

  lemma CompletionOf(n: Net, w: World, c: Completion)
    requires Invariant(n, w) && c in w.completed
    ensures CompletionSound(n, w, c)
  {
  }

  /** Envelope authenticity: in every run, an envelope of a signed type that verifies under an honest key was
      built by its owner, with that type, that sender, and the same id and payload text; no transcript, manifest
      or TLS signature stands in for it. */
  lemma EnvelopeAuthentic(n: Net, states: seq<World>, steps: seq<Step>, k: nat, env: J, typ: Str, pub: Bytes)
      returns (e: Envelope)
    requires Run(n, states, steps) && k <= |steps| && pub in n.honest
    requires HasType(env, typ) && IsSignedType(typ) && typ != Asc("HANDSHAKE_INIT")
    requires VerifyEnvelope(At(n, states[k]), env, pub) == Some(true)
    ensures e in states[k].envelopes && e.pub == pub && e.typ == typ
    ensures TextField(env, Asc("from")) == Some(Fingerprint(n.p, pub))
    ensures TextField(env, Asc("id")).Some? && Units(TextField(env, Asc("id")).value) == Units(e.id)
    ensures Field(env, Asc("payload")).Some? && ToRaw(Field(env, Asc("payload")).value) == ToRaw(e.payload)
  {
    hide CanonicalEnvelope, IsSignedType, Fingerprint, Invariant;
    var w := states[k];
    RunKeeps(n, states, steps, k);
    var id, from, payload := EnvelopeVerified(n, w, pub, typ, env);
    assert AllAccounted(n, w) && InstancesSound(n, w) by { InvariantParts(n, w); }
    e := EnvelopeSignatureMeansBuilt(n, w, pub, typ, id, from, payload);
    CanonicalEnvelopeDecides(typ, id, from, payload, e.typ, e.id, Fingerprint(n.p, pub), e.payload);
    TypeIsPlain(typ);
    PlainUnits(e.typ, typ);
    PlainUnits(from, Fingerprint(n.p, pub));
  }

  lemma InvariantParts(n: Net, w: World)
    requires Invariant(n, w)
    ensures AllAccounted(n, w) && InstancesSound(n, w)
  {
  }

  lemma TypeIsPlain(typ: Str)
    requires IsSignedType(typ)
    ensures PlainStr(typ)
  {
  }
}
