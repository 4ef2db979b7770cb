/** handshake.py: the transcript, the two sides, and what equal transcripts make them agree on. */
module Handshake {
  import opened Bytes
  import opened Text
  import opened Json
  import opened CryptoUtils
  import opened Base64
  import opened Protocol
  import opened Channel

  // ---------------------------------------------------------------- transcript

  const PREFIX: Bytes := Asc("CISC468-HANDSHAKE-V1")

  /** _build_transcript on encoded fingerprints. */
  function TranscriptBytes(initFp: Bytes, respFp: Bytes, initEph: Bytes, respEph: Bytes, initNonce: Bytes,
                           respNonce: Bytes): Bytes
  {
    PREFIX + (initFp + (respFp + (initEph + (respEph + (initNonce + (respNonce + BigEndian(1, 4)))))))
  }

  /** None is the UnicodeEncodeError of a fingerprint with lone surrogates. */
  function Transcript(initFp: Str, respFp: Str, initEph: Bytes, respEph: Bytes, initNonce: Bytes, respNonce: Bytes): Option<Bytes>
  {
    var i :- Encode(initFp);
    var r :- Encode(respFp);
    Some(TranscriptBytes(i, r, initEph, respEph, initNonce, respNonce))
  }

  lemma TranscriptStart(i: Str, r: Str, ie: Bytes, re: Bytes, inn: Bytes, rn: Bytes)
    requires Transcript(i, r, ie, re, inn, rn).Some?
    ensures var t := Transcript(i, r, ie, re, inn, rn).value; t != [] && t[0] == 67
  {
    assert PREFIX[0] == 67;
  }

  /** Where each field of a transcript of ordinary lengths lies. */
  lemma TranscriptLayout(i: Bytes, r: Bytes, ie: Bytes, re: Bytes, inn: Bytes, rn: Bytes)
    requires |i| == |r| == 64 && |ie| == |re| == |inn| == |rn| == 32
    ensures var t := TranscriptBytes(i, r, ie, re, inn, rn);
            && |t| == 280 && t[..20] == Asc("CISC468-HANDSHAKE-V1") && t[20..84] == i && t[84..148] == r
            && t[148..180] == ie && t[180..212] == re && t[212..244] == inn && t[244..276] == rn && t[276..] == [0, 0, 0, 1]
  {
    var v := BigEndian(1, 4);
    assert v == [0, 0, 0, 1] by { assert BigEndian(0, 2) == [0, 0]; assert BigEndian(0, 3) == [0, 0, 0]; }
    hide BigEndian;
    var t := TranscriptBytes(i, r, ie, re, inn, rn);
    NextField(t, 0, PREFIX, i + (r + (ie + (re + (inn + (rn + v))))));
    NextField(t, 20, i, r + (ie + (re + (inn + (rn + v)))));
    NextField(t, 84, r, ie + (re + (inn + (rn + v))));
    NextField(t, 148, ie, re + (inn + (rn + v)));
    NextField(t, 180, re, inn + (rn + v));
    NextField(t, 212, inn, rn + v);
    NextField(t, 244, rn, v);
  }

  lemma NextField(t: Bytes, at: nat, field: Bytes, rest: Bytes)
    requires at <= |t| && t[at..] == field + rest
    ensures |t| == at + |field| + |rest| && t[at..at + |field|] == field && t[at + |field|..] == rest
  {
    assert t[at..][..|field|] == t[at..at + |field|] && t[at..][|field|..] == t[at + |field|..];
  }

  /** With 64-byte fingerprints a transcript is cut in one way into the fingerprints and the rest. */
  lemma TranscriptFingerprints(i: Bytes, r: Bytes, ie: Bytes, re: Bytes, inn: Bytes, rn: Bytes,
                               i': Bytes, r': Bytes, ie': Bytes, re': Bytes, in': Bytes, rn': Bytes)
    requires |i| == |i'| == |r| == |r'| == 64
    requires TranscriptBytes(i, r, ie, re, inn, rn) == TranscriptBytes(i', r', ie', re', in', rn')
    ensures i == i' && r == r' && ie + (re + (inn + rn)) == ie' + (re' + (in' + rn'))
  {
    var v := BigEndian(1, 4);
    var a3, b3 := ie + (re + (inn + (rn + v))), ie' + (re' + (in' + (rn' + v)));
    SplitSame(PREFIX, i + (r + a3), PREFIX, i' + (r' + b3));
    SplitSame(i, r + a3, i', r' + b3);
    SplitSame(r, a3, r', b3);
    assert a3 == (ie + (re + (inn + rn))) + v && b3 == (ie' + (re' + (in' + rn'))) + v;
    SplitSame(ie + (re + (inn + rn)), v, ie' + (re' + (in' + rn')), v);
  }

  /** One side checks the length of its own ephemeral and nonce and of the peer's ephemeral, never of
      the peer's nonce. The other side's view of the same transcript has the same fields exactly
      when the ephemeral and the nonce it received have their proper length. */
  lemma TranscriptFieldsAgree(i: Bytes, r: Bytes, ie: Bytes, re: Bytes, inn: Bytes, rn: Bytes,
                              i': Bytes, r': Bytes, ie': Bytes, re': Bytes, in': Bytes, rn': Bytes)
    requires |i| == |i'| == |r| == |r'| == 64 && |ie| == |re| == |inn| == 32 && |re'| == |rn'| == 32
    requires TranscriptBytes(i, r, ie, re, inn, rn) == TranscriptBytes(i', r', ie', re', in', rn')
    ensures i == i' && r == r'
    ensures ie == ie' && re == re' && inn == in' && rn == rn' <==> |ie'| == 32 && |in'| == 32
  {
    TranscriptFingerprints(i, r, ie, re, inn, rn, i', r', ie', re', in', rn');
    if |ie'| == 32 && |in'| == 32 {
      SplitSame(ie, re + (inn + rn), ie', re' + (in' + rn'));
      SplitSame(re, inn + rn, re', in' + rn');
      SplitSame(inn, rn, in', rn');
    }
  }

  function Fill(k: nat): (s: Bytes)
    ensures |s| == k && forall i :: 0 <= i < k ==> s[i] == 97
  {
    seq(k, i => 97)
  }

  /** Where a length is not checked the fields can differ: one transcript with an ephemeral one byte short and a nonce
      one byte long, and one with a fingerprint one byte long and a nonce one byte short. */
  lemma TranscriptsCollide()
    ensures TranscriptBytes(Fill(64), Fill(64), Fill(32), Fill(32), Fill(32), Fill(32))
         == TranscriptBytes(Fill(64), Fill(64), Fill(31), Fill(32), Fill(33), Fill(32))
    ensures TranscriptBytes(Fill(64), Fill(64), Fill(32), Fill(32), Fill(32), Fill(32))
         == TranscriptBytes(Fill(65), Fill(64), Fill(32), Fill(32), Fill(31), Fill(32))
  {
    hide BigEndian;
  }

  // ---------------------------------------------------------------- the two sides

  datatype Initiator = Initiator(fp: Str, responderFp: Str, responderPub: Bytes, eph: Bytes, nonce: Bytes)
  datatype Responder = Responder(fp: Str, initiatorFp: Str, initiatorPub: Bytes, eph: Bytes, nonce: Bytes)

  function BytesField(payload: J, name: Str): Option<Bytes>
  {
    var s :- TextField(payload, name);
    B64d(s)
  }

  function InitPayload(eph: Bytes, nonce: Bytes): J
  {
    JObj(map[Asc("ephemeral_pub") := JStr(B64e(eph)), Asc("nonce") := JStr(B64e(nonce))])
  }

  function ReplyPayload(eph: Bytes, nonce: Bytes, sig: Bytes): J
  {
    JObj(map[Asc("ephemeral_pub") := JStr(B64e(eph)), Asc("nonce") := JStr(B64e(nonce)),
             Asc("transcript_sig") := JStr(B64e(sig))])
  }

  lemma InitFields(eph: Bytes, nonce: Bytes)
    ensures BytesField(InitPayload(eph, nonce), Asc("ephemeral_pub")) == Some(eph)
    ensures BytesField(InitPayload(eph, nonce), Asc("nonce")) == Some(nonce)
  {
    hide B64e, B64d;
    RoundTrip(eph);
    RoundTrip(nonce);
  }

  lemma ReplyFields(eph: Bytes, nonce: Bytes, sig: Bytes)
    ensures BytesField(ReplyPayload(eph, nonce, sig), Asc("ephemeral_pub")) == Some(eph)
    ensures BytesField(ReplyPayload(eph, nonce, sig), Asc("nonce")) == Some(nonce)
    ensures BytesField(ReplyPayload(eph, nonce, sig), Asc("transcript_sig")) == Some(sig)
  {
    hide B64e, B64d;
    RoundTrip(eph);
    RoundTrip(nonce);
    RoundTrip(sig);
  }

  /** EphemeralKeypair.exchange; None is the ValueError of a peer key that is not 32 bytes. */
  function Exchange(p: Prims, eph: Bytes, peerPub: Bytes): Option<Bytes>
  {
    if |peerPub| == 32 then Some(p.exchange(eph, peerPub)) else None
  }

  datatype InitiatorEnd = InitiatorEnd(keys: SessionKeys, respEph: Bytes, respNonce: Bytes)

  /** The initiator from the reply on; None for every raise. */
  function FinishInitiator(p: Prims, i: Initiator, resp: J): Option<InitiatorEnd>
  {
    if !HasType(resp, Asc("HANDSHAKE_RESP")) || TextField(resp, Asc("from")) != Some(i.responderFp)
       || VerifyEnvelope(p, resp, i.responderPub) != Some(true) then None
    else
      var payload :- Field(resp, Asc("payload"));
      var respEph :- BytesField(payload, Asc("ephemeral_pub"));
      var respNonce :- BytesField(payload, Asc("nonce"));
      var transcript :- Transcript(i.fp, i.responderFp, p.ephemeralPublic(i.eph), respEph, i.nonce, respNonce);
      var sig :- BytesField(payload, Asc("transcript_sig"));
      if !p.verify(i.responderPub, sig, transcript) then None
      else
        var shared :- Exchange(p, i.eph, respEph);
        var keys :- Derive(p, shared, i.nonce, respNonce, i.fp, i.responderFp, true);
        Some(InitiatorEnd(keys, respEph, respNonce))
  }

  datatype Opening = Opening(initEph: Bytes, initNonce: Bytes, transcript: Bytes)

  /** The responder up to the transcript it signs; None for every raise. */
  function OpenHandshake(p: Prims, r: Responder, init: J): Option<Opening>
  {
    if !HasType(init, Asc("HANDSHAKE_INIT")) || TextField(init, Asc("from")) != Some(r.initiatorFp)
       || VerifyEnvelope(p, init, r.initiatorPub) != Some(true) then None
    else
      var payload :- Field(init, Asc("payload"));
      var initEph :- BytesField(payload, Asc("ephemeral_pub"));
      var initNonce :- BytesField(payload, Asc("nonce"));
      var t :- Transcript(r.initiatorFp, r.fp, initEph, p.ephemeralPublic(r.eph), initNonce, r.nonce);
      Some(Opening(initEph, initNonce, t))
  }

  function FinishResponder(p: Prims, r: Responder, o: Opening): Option<SessionKeys>
  {
    var shared :- Exchange(p, r.eph, o.initEph);
    Derive(p, shared, o.initNonce, r.nonce, r.initiatorFp, r.fp, false)
  }

  function InitEnvelope(p: Prims, seed: Bytes, i: Initiator, id: Str): J
  {
    BuildEnvelope(p, seed, Asc("HANDSHAKE_INIT"), InitPayload(p.ephemeralPublic(i.eph), i.nonce), id)
  }

  function ReplyEnvelope(p: Prims, seed: Bytes, r: Responder, o: Opening, id: Str): J
  {
    BuildEnvelope(p, seed, Asc("HANDSHAKE_RESP"),
                  ReplyPayload(p.ephemeralPublic(r.eph), r.nonce, p.sign(seed, o.transcript)), id)
  }

  /** perform_handshake_initiator; None for every exception, `lost` for that of recv_frame. */
  method PerformInitiator(ch: Channel, p: Prims, seed: Bytes, i: Initiator, id: Str)
    returns (r: Option<InitiatorEnd>, lost: bool)
    modifies ch
    ensures ch.sent == old(ch.sent) + if Fits(InitEnvelope(p, seed, i, id)) then [InitEnvelope(p, seed, i, id)] else []
    ensures if !Fits(InitEnvelope(p, seed, i, id)) then r == None && ch.incoming == old(ch.incoming)
            else if old(ch.incoming) == [] then r == None && ch.incoming == []
            else r == FinishInitiator(p, i, old(ch.incoming)[0]) && ch.incoming == old(ch.incoming)[1..]
    ensures lost <==> Fits(InitEnvelope(p, seed, i, id)) && old(ch.incoming) == []
  {
    hide InitEnvelope, FinishInitiator, Fits;
    var ok := ch.Send(InitEnvelope(p, seed, i, id));
    if !ok {
      return None, false;
    }
    var resp := ch.Receive();
    if resp == None {
      return None, true;
    }
    r, lost := FinishInitiator(p, i, resp.value), false;
  }

  /** The ERROR the responder sends when the sender or the signature of the INIT is wrong. */
  function ErrorEnvelope(p: Prims, seed: Bytes, message: Str, id: Str): J
  {
    BuildEnvelope(p, seed, Asc("ERROR"), JObj(map[Asc("message") := JStr(message)]), id)
  }

  /** What perform_handshake_responder sends on receiving `init`, in order. */
  function ResponderReply(p: Prims, seed: Bytes, r: Responder, init: J, id: Str): seq<J>
  {
    var reply :=
      if !HasType(init, Asc("HANDSHAKE_INIT")) then None
      else if TextField(init, Asc("from")) != Some(r.initiatorFp) then
        Some(ErrorEnvelope(p, seed, Asc("Fingerprint mismatch: expected ") + r.initiatorFp, id))
      else if VerifyEnvelope(p, init, r.initiatorPub) == Some(false) then
        Some(ErrorEnvelope(p, seed, Asc("HANDSHAKE_INIT signature invalid"), id))
      else
        var o :- OpenHandshake(p, r, init);
        Some(ReplyEnvelope(p, seed, r, o, id));
    if reply.Some? && Fits(reply.value) then [reply.value] else []
  }

  /** perform_handshake_responder with the INIT already read; None for every exception. */
  method PerformResponder(ch: Channel, p: Prims, seed: Bytes, r: Responder, init: J, id: Str) returns (k: Option<SessionKeys>)
    modifies ch`sent
    ensures ch.sent == old(ch.sent) + ResponderReply(p, seed, r, init, id)
    ensures k == match OpenHandshake(p, r, init) {
                   case None => None
                   case Some(o) => if Fits(ReplyEnvelope(p, seed, r, o, id)) then FinishResponder(p, r, o) else None }
  {
    hide ErrorEnvelope, ReplyEnvelope, VerifyEnvelope, FinishResponder, Fits, HasType;
    if !HasType(init, Asc("HANDSHAKE_INIT")) {
      return None;
    }
    var ok: bool;
    if TextField(init, Asc("from")) != Some(r.initiatorFp) {
      ok := ch.Send(ErrorEnvelope(p, seed, Asc("Fingerprint mismatch: expected ") + r.initiatorFp, id));
      return None;
    }
    if VerifyEnvelope(p, init, r.initiatorPub) == Some(false) {
      ok := ch.Send(ErrorEnvelope(p, seed, Asc("HANDSHAKE_INIT signature invalid"), id));
      return None;
    }
    var o := OpenHandshake(p, r, init);
    if o == None {
      return None;
    }
    ok := ch.Send(ReplyEnvelope(p, seed, r, o.value, id));
    if !ok {
      return None;
    }
    k := FinishResponder(p, r, o.value);
  }

  /** The responder takes exactly a HANDSHAKE_INIT from the fingerprint of its record, signed with the key of its record. */
  lemma OpeningIs(p: Prims, r: Responder, init: J, o: Opening)
    ensures OpenHandshake(p, r, init) == Some(o)
            <==> && HasType(init, Asc("HANDSHAKE_INIT")) && TextField(init, Asc("from")) == Some(r.initiatorFp)
                 && SignatureHolds(p, init, Asc("HANDSHAKE_INIT"), r.initiatorPub)
                 && BytesField(Field(init, Asc("payload")).value, Asc("ephemeral_pub")) == Some(o.initEph)
                 && BytesField(Field(init, Asc("payload")).value, Asc("nonce")) == Some(o.initNonce)
                 && ResponderTranscript(p, r, o) == Some(o.transcript)
  {
    hide VerifyEnvelope, CanonicalEnvelope, Transcript, BytesField, HasType, B64d;
    if HasType(init, Asc("HANDSHAKE_INIT")) { SignatureNeeded(p, init, Asc("HANDSHAKE_INIT"), r.initiatorPub); }
  }

  /** The payload of a reply carries the responder's ephemeral of 32 bytes, its nonce, and a signature under the responder's
      key on the initiator's transcript; the keys are derived from these. */
  predicate Completes(p: Prims, i: Initiator, payload: J, e: InitiatorEnd)
  {
    && BytesField(payload, Asc("ephemeral_pub")) == Some(e.respEph) && |e.respEph| == 32
    && BytesField(payload, Asc("nonce")) == Some(e.respNonce)
    && BytesField(payload, Asc("transcript_sig")).Some? && InitiatorTranscript(p, i, e).Some?
    && p.verify(i.responderPub, BytesField(payload, Asc("transcript_sig")).value, InitiatorTranscript(p, i, e).value)
    && Derive(p, p.exchange(i.eph, e.respEph), i.nonce, e.respNonce, i.fp, i.responderFp, true) == Some(e.keys)
  }

  /** The initiator completes exactly on a HANDSHAKE_RESP from the fingerprint it asked, signed with that contact's key, whose
      transcript signature verifies under the same key and whose ephemeral has 32 bytes. */
  lemma CompletionIs(p: Prims, i: Initiator, resp: J, e: InitiatorEnd)
    ensures FinishInitiator(p, i, resp) == Some(e)
            <==> && HasType(resp, Asc("HANDSHAKE_RESP")) && TextField(resp, Asc("from")) == Some(i.responderFp)
                 && SignatureHolds(p, resp, Asc("HANDSHAKE_RESP"), i.responderPub)
                 && Completes(p, i, Field(resp, Asc("payload")).value, e)
  {
    hide VerifyEnvelope, CanonicalEnvelope, Transcript, BytesField, HasType, B64d, Derive;
    if HasType(resp, Asc("HANDSHAKE_RESP")) { SignatureNeeded(p, resp, Asc("HANDSHAKE_RESP"), i.responderPub); }
  }

  function IfFits(env: J): seq<J> { if Fits(env) then [env] else [] }

  /** The responder's answer: one reply to an opening it takes, and else at most an ERROR. */
  lemma ResponderReplyIs(p: Prims, seed: Bytes, r: Responder, init: J, id: Str)
    ensures var l, o := ResponderReply(p, seed, r, init, id), OpenHandshake(p, r, init);
            if o.Some? then l == IfFits(ReplyEnvelope(p, seed, r, o.value, id))
            else |l| <= 1 && forall e :: e in l ==> HasType(e, Asc("ERROR"))
    ensures !HasType(init, Asc("HANDSHAKE_INIT")) ==> ResponderReply(p, seed, r, init, id) == []
  {
    hide VerifyEnvelope, BuildEnvelope, ReplyEnvelope, Transcript, BytesField, HasType, Fits, ErrorEnvelope;
    ErrorType(p, seed, Asc("Fingerprint mismatch: expected ") + r.initiatorFp, id);
    ErrorType(p, seed, Asc("HANDSHAKE_INIT signature invalid"), id);
  }

  /** The ERROR for the wrong sender, and the one for a signature that does not hold. */
  lemma ResponderRefuses(p: Prims, seed: Bytes, r: Responder, init: J, id: Str)
    requires HasType(init, Asc("HANDSHAKE_INIT"))
    ensures TextField(init, Asc("from")) != Some(r.initiatorFp)
            ==> ResponderReply(p, seed, r, init, id)
                == IfFits(ErrorEnvelope(p, seed, Asc("Fingerprint mismatch: expected ") + r.initiatorFp, id))
    ensures TextField(init, Asc("from")) == Some(r.initiatorFp) && TextField(init, Asc("id")).Some?
            && Field(init, Asc("payload")).Some? && !SignatureHolds(p, init, Asc("HANDSHAKE_INIT"), r.initiatorPub)
            ==> ResponderReply(p, seed, r, init, id)
                == IfFits(ErrorEnvelope(p, seed, Asc("HANDSHAKE_INIT signature invalid"), id))
  {
    hide VerifyEnvelope, SignatureHolds, ReplyEnvelope, Transcript, BytesField, HasType, Fits, ErrorEnvelope, OpenHandshake;
    InitIsSigned();
    if !SignatureHolds(p, init, Asc("HANDSHAKE_INIT"), r.initiatorPub) {
      RefusedFields(p, init, Asc("HANDSHAKE_INIT"), r.initiatorPub);
    }
  }

  lemma InitIsSigned()
    ensures IsSignedType(Asc("HANDSHAKE_INIT"))
  {
  }

  lemma RefusedFields(p: Prims, env: J, typ: Str, rawPub: Bytes)
    requires HasType(env, typ) && IsSignedType(typ) && !SignatureHolds(p, env, typ, rawPub)
    ensures TextField(env, Asc("id")).Some? && TextField(env, Asc("from")).Some? && Field(env, Asc("payload")).Some?
            ==> VerifyEnvelope(p, env, rawPub) == Some(false)
  {
    hide VerifyEnvelope, SignatureHolds, IsSignedType;
    SignatureRefused(p, env, typ, rawPub);
  }

  lemma ErrorType(p: Prims, seed: Bytes, message: Str, id: Str)
    ensures HasType(ErrorEnvelope(p, seed, message, id), Asc("ERROR"))
    ensures Field(ErrorEnvelope(p, seed, message, id), Asc("payload")) == Some(JObj(map[Asc("message") := JStr(message)]))
  {
    hide BuildEnvelope;
    BuiltEnvelopeFields(p, seed, Asc("ERROR"), JObj(map[Asc("message") := JStr(message)]), id);
  }

  /** Every completed handshake, on either side, has 32-byte keys and 12-byte nonce bases. */
  lemma InitiatorKeyLengths(p: Prims, i: Initiator, resp: J)
    requires KdfLengths(p) && FinishInitiator(p, i, resp).Some?
    ensures FullLength(FinishInitiator(p, i, resp).value.keys)
  {
    hide HasType, VerifyEnvelope, Transcript, Derive, BytesField, KdfLengths, FullLength;
    var e := FinishInitiator(p, i, resp).value;
    DerivedLengths(p, p.exchange(i.eph, e.respEph), i.nonce, e.respNonce, i.fp, i.responderFp, true);
  }

  lemma ResponderKeyLengths(p: Prims, r: Responder, o: Opening)
    requires KdfLengths(p) && FinishResponder(p, r, o).Some?
    ensures FullLength(FinishResponder(p, r, o).value)
  {
    hide Derive, KdfLengths, FullLength;
    DerivedLengths(p, p.exchange(r.eph, o.initEph), o.initNonce, r.nonce, r.initiatorFp, r.fp, false);
  }

  /** So under the keys of any completed handshake no two chunk indices share a nonce. */
  lemma ResponderNoncesDistinct(p: Prims, r: Responder, o: Opening, i: nat, j: nat)
    requires KdfLengths(p) && FinishResponder(p, r, o).Some? && i < j < 0x1_0000_0000_0000_0000
    ensures var base := FinishResponder(p, r, o).value.txNonceBase;
            ChunkNonce(base, i).Some? && ChunkNonce(base, j).Some? && ChunkNonce(base, i) != ChunkNonce(base, j)
  {
    hide FinishResponder, KdfLengths;
    WordSizes();
    ResponderKeyLengths(p, r, o);
    var base := FinishResponder(p, r, o).value.txNonceBase;
    if ChunkNonce(base, i) == ChunkNonce(base, j) { ChunkNonceInjective(base, i, j); }
  }

  // ---------------------------------------------------------------- agreement on one transcript

  lemma TranscriptEncoded(i: Str, r: Str, ie: Bytes, re: Bytes, inn: Bytes, rn: Bytes)
    requires IsLowerHex(i) && IsLowerHex(r)
    ensures Transcript(i, r, ie, re, inn, rn) == Some(TranscriptBytes(i, r, ie, re, inn, rn))
  {
    EncodeAscii(i);
    EncodeAscii(r);
  }

  predicate IsFingerprint(s: Str) { |s| == 64 && IsLowerHex(s) }

  lemma FingerprintShape(p: Prims, pub: Bytes)
    requires |p.sha256(pub)| == 32
    ensures IsFingerprint(Fingerprint(p, pub))
  {
  }

  /** Both sides hold the same fingerprints, ephemerals and nonces. */
  predicate Matching(p: Prims, i: Initiator, e: InitiatorEnd, r: Responder, o: Opening)
  {
    && i.fp == r.initiatorFp && i.responderFp == r.fp
    && o.initEph == p.ephemeralPublic(i.eph) && e.respEph == p.ephemeralPublic(r.eph)
    && o.initNonce == i.nonce && e.respNonce == r.nonce
  }

  /** What the initiator has computed when it completes. */
  predicate EndSound(p: Prims, i: Initiator, e: InitiatorEnd)
  {
    && |e.respEph| == 32
    && Derive(p, p.exchange(i.eph, e.respEph), i.nonce, e.respNonce, i.fp, i.responderFp, true) == Some(e.keys)
  }

  function InitiatorTranscript(p: Prims, i: Initiator, e: InitiatorEnd): Option<Bytes>
  {
    Transcript(i.fp, i.responderFp, p.ephemeralPublic(i.eph), e.respEph, i.nonce, e.respNonce)
  }

  function ResponderTranscript(p: Prims, r: Responder, o: Opening): Option<Bytes>
  {
    Transcript(r.initiatorFp, r.fp, o.initEph, p.ephemeralPublic(r.eph), o.initNonce, r.nonce)
  }

  /** Completing needs a signature that verifies on exactly the initiator's transcript. */
  lemma CompletionMeans(p: Prims, q: Prims, i: Initiator, resp: J, e: InitiatorEnd) returns (sig: Bytes)
    requires q == p.(verify := q.verify, open := q.open) && FinishInitiator(q, i, resp) == Some(e)
    ensures EndSound(p, i, e) && InitiatorTranscript(p, i, e).Some?
    ensures q.verify(i.responderPub, sig, InitiatorTranscript(p, i, e).value)
  {
    hide HasType, VerifyEnvelope, Transcript, Derive, BytesField;
    var payload := Field(resp, Asc("payload")).value;
    sig := BytesField(payload, Asc("transcript_sig")).value;
    DeriveIgnoresVerify(p, q, p.exchange(i.eph, e.respEph), i.nonce, e.respNonce, i.fp, i.responderFp);
  }

  lemma DeriveIgnoresVerify(p: Prims, q: Prims, shared: Bytes, ni: Bytes, nr: Bytes, fi: Str, fr: Str)
    requires q == p.(verify := q.verify, open := q.open)
    ensures Derive(q, shared, ni, nr, fi, fr, true) == Derive(p, shared, ni, nr, fi, fr, true)
  {
  }

  /** Equal transcripts make a completed initiator and the responder hold the same fields exactly when
      the responder took the initiator for a 64-byte fingerprint and received a 32-byte ephemeral and a
      32-byte nonce. The length of the responder's own nonce, which the initiator does not check, follows. */
  lemma SameTranscriptMatches(p: Prims, i: Initiator, e: InitiatorEnd, r: Responder, o: Opening)
    requires |p.ephemeralPublic(i.eph)| == |p.ephemeralPublic(r.eph)| == 32 && |i.nonce| == |r.nonce| == 32
    requires IsFingerprint(i.fp) && IsFingerprint(i.responderFp) && IsFingerprint(r.fp) && EndSound(p, i, e)
    requires InitiatorTranscript(p, i, e) == ResponderTranscript(p, r, o) == Some(o.transcript)
    ensures Encode(r.initiatorFp).Some?
    ensures Matching(p, i, e, r, o) <==> |Encode(r.initiatorFp).value| == 64 && |o.initEph| == 32 && |o.initNonce| == 32
  {
    hide Derive, TranscriptBytes;
    EncodeAscii(i.fp);
    EncodeAscii(i.responderFp);
    EncodeAscii(r.fp);
    var ifp := Encode(r.initiatorFp).value;
    if |ifp| == 64 {
      TranscriptFieldsAgree(i.fp, i.responderFp, p.ephemeralPublic(i.eph), e.respEph, i.nonce, e.respNonce,
                            ifp, r.fp, o.initEph, p.ephemeralPublic(r.eph), o.initNonce, r.nonce);
      EncodeInjective(i.fp, r.initiatorFp);
    }
  }

  lemma TranscriptLength(i: Str, r: Str, ie: Bytes, re: Bytes, inn: Bytes, rn: Bytes)
    requires Transcript(i, r, ie, re, inn, rn).Some?
    ensures |Transcript(i, r, ie, re, inn, rn).value|
         == 20 + |Encode(i).value| + |Encode(r).value| + |ie| + |re| + |inn| + |rn| + |BigEndian(1, 4)|
  {
    hide Encode;
    assert |PREFIX| == 20;
  }

  /** If moreover the responder's nonce has its 32 bytes, as an honest responder's has, a responder that read a
      32-byte ephemeral holds the same fields exactly when it takes the initiator for its own fingerprint. */
  lemma HonestReplyMatches(p: Prims, i: Initiator, e: InitiatorEnd, r: Responder, o: Opening)
    requires |p.ephemeralPublic(i.eph)| == |p.ephemeralPublic(r.eph)| == 32 && |i.nonce| == |r.nonce| == |e.respNonce| == 32
    requires IsFingerprint(i.fp) && IsFingerprint(i.responderFp) && IsFingerprint(r.fp) && EndSound(p, i, e)
    requires InitiatorTranscript(p, i, e) == ResponderTranscript(p, r, o) == Some(o.transcript)
    ensures Encode(r.initiatorFp).Some?
    ensures Matching(p, i, e, r, o) <==> |Encode(r.initiatorFp).value| == 64 && |o.initEph| == 32
    ensures |o.initEph| == 32 ==> (Matching(p, i, e, r, o) <==> r.initiatorFp == i.fp)
  {
    SameTranscriptMatches(p, i, e, r, o);
    assert |e.respEph| == 32;
    hide Derive, TranscriptBytes, EndSound, Matching, BigEndian;
    EncodeAscii(i.fp);
    EncodeAscii(i.responderFp);
    EncodeAscii(r.fp);
    TranscriptLength(i.fp, i.responderFp, p.ephemeralPublic(i.eph), e.respEph, i.nonce, e.respNonce);
    TranscriptLength(r.initiatorFp, r.fp, o.initEph, p.ephemeralPublic(r.eph), o.initNonce, r.nonce);
    MatchingFp(p, i, e, r, o);
  }

  lemma MatchingFp(p: Prims, i: Initiator, e: InitiatorEnd, r: Responder, o: Opening)
    ensures Matching(p, i, e, r, o) ==> i.fp == r.initiatorFp
  {
  }

  /** Matching sides derive mirrored keys: what one sends with, the other receives with. */
  lemma MatchingKeysMirror(p: Prims, i: Initiator, e: InitiatorEnd, r: Responder, o: Opening)
    requires ExchangesCommute(p) && EndSound(p, i, e) && Matching(p, i, e, r, o)
    ensures FinishResponder(p, r, o) == Some(Swap(e.keys))
  {
    hide Derive;
    var shared := p.exchange(i.eph, p.ephemeralPublic(r.eph));
    DeriveMirrors(p, shared, i.nonce, r.nonce, i.nonce, r.nonce, i.fp, i.responderFp);
  }
}
