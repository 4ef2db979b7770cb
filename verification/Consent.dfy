/** What a session never sends without the user's consent, and never sends twice. */
module Consent {
  import opened Bytes
  import opened Json
  import opened CryptoUtils
  import opened Base64
  import opened Chunking
  import opened Protocol
  import opened Channel
  import opened Transfer
  import opened Handshake
  import opened Contacts
  import opened Server
  import opened Client
  import opened Session

  /** The frames that carry a file. */
  predicate IsFileFrame(env: J) { HasType(env, Asc("TRANSFER_START")) || HasType(env, Asc("CHUNK")) }

  predicate IsControlType(t: Str)
  {
    || t == Asc("ERROR") || t == Asc("FILE_DENY") || t == Asc("FILE_APPROVE") || t == Asc("HANDSHAKE_RESP")
    || t == Asc("HELLO") || t == Asc("CONTACT_ACCEPT") || t == Asc("LIST_FILES_RESPONSE")
  }

  lemma TypesDiffer()
    ensures Asc("TRANSFER_START") != Asc("CHUNK") && Asc("TRANSFER_DONE") != Asc("CHUNK")
    ensures Asc("TRANSFER_DONE") != Asc("TRANSFER_START")
    ensures forall t :: IsControlType(t) ==> t != Asc("CHUNK") && t != Asc("TRANSFER_START")
  {
    assert Asc("ERROR")[0] != Asc("CHUNK")[0] && Asc("HANDSHAKE_RESP")[0] != Asc("TRANSFER_START")[0];
    assert Asc("HELLO")[0] != Asc("CHUNK")[0] && Asc("CONTACT_ACCEPT")[0] != Asc("TRANSFER_START")[0];
  }

  lemma {:induction false} RestTypes(x: SendJob, i: nat)
    requires i <= x.Total()
    ensures forall e :: e in SentFrom(x, i) ==> HasType(e, Asc("CHUNK")) || HasType(e, Asc("TRANSFER_DONE"))
    decreases x.Total() - i
  {
    hide BuildEnvelope, Fits, SealedChunk, HasType, TotalChunks, ChunkPayload, DonePayload;
    if i == x.Total() {
      BuiltEnvelopeType(x.p, x.seed, Asc("TRANSFER_DONE"), DonePayload(x.file, x.transferId), x.ids(x.Total()));
    } else if SealedChunk(x, i).Some? {
      BuiltEnvelopeType(x.p, x.seed, Asc("CHUNK"),
                ChunkPayload(x.file.fileId, i, x.Total(), B64e(SealedChunk(x, i).value), x.transferId), x.ids(i));
      RestTypes(x, i + 1);
    }
  }

  /** The only TRANSFER_START of a transfer is its first frame. */
  lemma StartIsFirst(x: SendJob, i: nat)
    requires i < |SentFrames(x)| && HasType(SentFrames(x)[i], Asc("TRANSFER_START"))
    ensures i == 0
  {
    hide StartEnvelope, Fits, SentFrom;
    RestTypes(x, 0);
    TypesDiffer();
    assert forall j :: 0 < j < |SentFrames(x)| ==> SentFrames(x)[j] in SentFrom(x, 0);
  }

  predicate NoFileFrame(l: seq<J>) { forall i :: 0 <= i < |l| ==> !IsFileFrame(l[i]) }

  lemma SentTypes(env: J, typ: Str)
    requires HasType(env, typ) && IsControlType(typ)
    ensures NoFileFrame(Sent(env)) && NoFileFrame([env])
  {
    hide Fits;
    TypesDiffer();
  }

  lemma ErrorTypes(h: Host, message: Str, k: nat)
    ensures NoFileFrame(Sent(h.Error(message, k)))
  {
    hide BuildEnvelope, Fits;
    BuiltEnvelopeType(h.p, h.seed, Asc("ERROR"), JObj(map[Asc("message") := JStr(message)]), h.ids(k));
    SentTypes(h.Error(message, k), Asc("ERROR"));
  }

  lemma DenyTypes(h: Host, fileId: J, reason: Str)
    ensures NoFileFrame(Sent(DenyEnvelope(h, fileId, reason)))
  {
    hide BuildEnvelope, Fits;
    BuiltEnvelopeType(h.p, h.seed, Asc("FILE_DENY"),
                      JObj(map[Asc("file_id") := fileId, Asc("reason") := JStr(reason)]), h.ids(1));
    SentTypes(DenyEnvelope(h, fileId, reason), Asc("FILE_DENY"));
  }

  lemma ApproveType(h: Host, fileId: Str)
    ensures HasType(ApproveEnvelope(h, fileId), Asc("FILE_APPROVE")) && !IsFileFrame(ApproveEnvelope(h, fileId))
  {
    hide BuildEnvelope;
    BuiltEnvelopeType(h.p, h.seed, Asc("FILE_APPROVE"), JObj(map[Asc("file_id") := JStr(fileId)]), h.ids(1));
    SentTypes(ApproveEnvelope(h, fileId), Asc("FILE_APPROVE"));
  }

  /** A frame list in which file frames come only after a first FILE_APPROVE, and a TRANSFER_START
      only right after it. */
  predicate FileAfterApproval(l: seq<J>)
  {
    forall i :: 0 <= i < |l| && IsFileFrame(l[i]) ==>
      i >= 1 && HasType(l[0], Asc("FILE_APPROVE")) && (HasType(l[i], Asc("TRANSFER_START")) ==> i == 1)
  }

  lemma ApprovedTypes(h: Host, keys: SessionKeys, f: SharedFile, fileId: Str)
    ensures FileAfterApproval(Approved(h, keys, f, fileId))
  {
    hide ApproveEnvelope, SentFrames, Fits, IsFileFrame, ErrorEnvelope;
    var l := Approved(h, keys, f, fileId);
    ApproveType(h, fileId);
    var tail := FileFrames(h, keys, f);
    match h.disk(f.path) {
      case Missing => ErrorTypes(h, Asc("File not found on disk: ") + f.filename, 2);
      case Unreadable(e) => ErrorTypes(h, Asc("Cannot read file: ") + e, 2);
      case Contents(data) =>
        forall i | 0 <= i < |tail| && HasType(tail[i], Asc("TRANSFER_START")) ensures i == 0 {
          StartIsFirst(JobFor(h, keys, f, data), i);
        }
    }
    forall i | 0 <= i < |l| && IsFileFrame(l[i])
      ensures i >= 1 && (HasType(l[i], Asc("TRANSFER_START")) ==> i == 1)
    {
      assert i >= 1 ==> l[i] == tail[i - 1];
    }
  }

  /** The file a request names, when it is in the index and the user agrees to send it. */
  predicate Allowed(h: Host, c: Record, req: J, fileId: Str)
  {
    && Field(req, Asc("payload")).Some? && AskedFile(Field(req, Asc("payload")).value) == JStr(fileId)
    && fileId in h.index && Consents(h, c, h.index[fileId])
  }

  lemma AnswerTypes(h: Host, c: Record, keys: SessionKeys, req: J)
    ensures FileAfterApproval(Answer(h, c, keys, req))
    ensures !NoFileFrame(Answer(h, c, keys, req)) ==> exists fileId :: Allowed(h, c, req, fileId)
  {
    hide ErrorEnvelope, DenyEnvelope, Approved, Sent, HasType, IsFileFrame, Consents;
    if !req.JObj? {
    } else if !HasType(req, Asc("FILE_REQUEST")) {
      ErrorTypes(h, Asc("Expected FILE_REQUEST, got ") + h.shown(Field(req, Asc("type"))), 1);
    } else if Field(req, Asc("payload")).Some? && Field(req, Asc("payload")).value.JObj? {
      var payload := Field(req, Asc("payload")).value;
      var fileId := AskedFile(payload);
      DenyTypes(h, fileId, Asc("File not found in share index"));
      DenyTypes(h, fileId, Asc("Denied by user"));
      if fileId.JStr? && fileId.s in h.index && Consents(h, c, h.index[fileId.s]) {
        ApprovedTypes(h, keys, h.index[fileId.s], fileId.s);
        assert Allowed(h, c, req, fileId.s);
      }
    }
  }

  lemma HandshakeTypes(h: Host, r: Responder, init: J)
    ensures NoFileFrame(ResponderReply(h.p, h.seed, r, init, h.ids(0)))
  {
    hide HasType, VerifyEnvelope, BuildEnvelope, Fits, OpenHandshake, IsFileFrame;
    var id := h.ids(0);
    ErrorTypes(h, Asc("Fingerprint mismatch: expected ") + r.initiatorFp, 0);
    ErrorTypes(h, Asc("HANDSHAKE_INIT signature invalid"), 0);
    if OpenHandshake(h.p, r, init).Some? {
      var o := OpenHandshake(h.p, r, init).value;
      var payload := ReplyPayload(h.p.ephemeralPublic(r.eph), r.nonce, h.p.sign(h.seed, o.transcript));
      BuiltEnvelopeType(h.p, h.seed, Asc("HANDSHAKE_RESP"), payload, id);
      SentTypes(ReplyEnvelope(h.p, h.seed, r, o, id), Asc("HANDSHAKE_RESP"));
    }
  }

  lemma OpeningTypes(h: Host, c: Record, init: J)
    ensures NoFileFrame(OpenSession(h, c, init).out)
  {
    hide ResponderReply, OpenHandshake, FinishResponder, ReplyEnvelope, Fits, IsFileFrame, B64d;
    if B64d(c.rawPub).Some? { HandshakeTypes(h, ResponderFor(h, c, B64d(c.rawPub).value), init); }
  }

  // ---------------------------------------------------------------- whatever a client sends

  lemma ControlTypes(h: Host, typ: Str, payload: J, k: nat)
    requires IsControlType(typ)
    ensures NoFileFrame(Sent(h.Envelope(typ, payload, k)))
  {
    hide BuildEnvelope, Fits, IsControlType;
    BuiltEnvelopeType(h.p, h.seed, typ, payload, h.ids(k));
    SentTypes(h.Envelope(typ, payload, k), typ);
  }

  lemma ReplyTypes<T>(h: Host, v: Verdict<T>)
    ensures NoFileFrame(Reply(h, v))
  {
    hide ErrorEnvelope, BuildEnvelope, Fits, IsFileFrame, PeerPayload;
    match v
    case Raises =>
    case Rejects(m) => ErrorTypes(h, m, 0);
    case Accepts(_) => ControlTypes(h, Asc("CONTACT_ACCEPT"), PeerPayload(h.Pub(), h.port), 0);
  }

  lemma ListedTypes(h: Host, c: Record, env: J)
    ensures NoFileFrame(Listed(h, c, env))
  {
    hide ErrorEnvelope, BuildEnvelope, Fits, IsFileFrame, VerifyEnvelope, B64d;
    ErrorTypes(h, Asc("[SECURITY] LIST_FILES_REQUEST signature invalid"), 0);
    ControlTypes(h, Asc("LIST_FILES_RESPONSE"), JObj(map[Asc("files") := h.listing]), 0);
  }

  lemma KnownTypes(b: Book, h: Host, env: J, kind: Kind, incoming: seq<J>)
    requires kind == Notifying || kind == Listing
    ensures NoFileFrame(SentToKnown(b, h, env, kind, incoming))
  {
    hide ErrorEnvelope, IsFileFrame, Reply, Listed, CheckRotation, RouteTo, Sent;
    match RouteTo(h.p.lower, b, env, kind != Notifying)
    case NoRoute =>
    case Unknown(m) => ErrorTypes(h, m, 0);
    case For(k) =>
      ReplyTypes(h, CheckRotation(h.p, env, b[k].rawPub));
      ListedTypes(h, b[k], env);
  }

  /** Only the handler of HANDSHAKE_INIT sends file frames. */
  lemma OtherKinds(b: Book, h: Host, env: J, incoming: seq<J>)
    requires KindOf(env) != Handshaking
    ensures NoFileFrame(SentAfter(b, h, env, incoming))
  {
    hide ErrorEnvelope, BuildEnvelope, IsFileFrame, PeerPayload, Reply, Listed, CheckIntroduction, CheckRotation, RouteTo, KindOf;
    hide Sent, SentToKnown;
    match KindOf(env)
    case Hello => ControlTypes(h, Asc("HELLO"), PeerPayload(h.Pub(), h.port), 0);
    case Contacting => ReplyTypes(h, CheckIntroduction(h.p, env));
    case Other => ErrorTypes(h, Asc("Unexpected message type: ") + h.shown(Field(env, Asc("type"))), 0);
    case Notifying => KnownTypes(b, h, env, Notifying, incoming);
    case Listing => KnownTypes(b, h, env, Listing, incoming);
  }

  /** The frames of the handshake come first. */
  ghost function HandshakeFrames(b: Book, h: Host, env: J): nat
  {
    match RouteTo(h.p.lower, b, env, true)
    case For(k) => |OpenSession(h, b[k], env).out|
    case _ => 0
  }

  /** File frame `i` of `l` comes after a FILE_APPROVE at `n`; a TRANSFER_START right after it. */
  predicate ApprovedAt(l: seq<J>, n: nat, i: nat)
  {
    n < i < |l| && HasType(l[n], Asc("FILE_APPROVE")) && (HasType(l[i], Asc("TRANSFER_START")) ==> i == n + 1)
  }

  lemma Shifted(out: seq<J>, l: seq<J>, i: nat)
    requires NoFileFrame(out) && FileAfterApproval(l) && i < |out + l| && IsFileFrame((out + l)[i])
    ensures ApprovedAt(out + l, |out|, i) && !NoFileFrame(l)
  {
    hide HasType, IsFileFrame;
    assert i >= |out| by { assert forall j :: 0 <= j < |out| ==> (out + l)[j] == out[j]; }
    assert (out + l)[i] == l[i - |out|] && (out + l)[|out|] == l[0];
  }

  /** The user, shown the contact's fingerprint, its name or else the first 16 characters of the fingerprint, and the name of
      the file in the index, said yes. */
  predicate SaidYes(h: Host, c: Record, fileId: Str)
  {
    && fileId in h.index
    && h.consent(c.fingerprint,
                 if c.name != [] then c.name else c.fingerprint[..if |c.fingerprint| < 16 then |c.fingerprint| else 16],
                 h.index[fileId].filename)
  }

  lemma AllowedSaidYes(h: Host, c: Record, req: J, fileId: Str)
    requires Allowed(h, c, req, fileId)
    ensures SaidYes(h, c, fileId)
  {
  }

  /** Consent, against any client: whatever the first frame, the contact book and what else arrives, a handler sends
      file frames only for a HANDSHAKE_INIT routed to an unrevoked contact, only behind a FILE_APPROVE, and only
      if the frame after the handshake names an indexed file that the user agreed to send to that contact. */
  lemma HandlerConsent(b: Book, h: Host, env: J, incoming: seq<J>, l: seq<J>, i: nat) returns (k: Str, fileId: Str)
    requires l == SentAfter(b, h, env, incoming) && i < |l| && IsFileFrame(l[i])
    ensures KindOf(env) == Handshaking && RouteTo(h.p.lower, b, env, true) == For(k) && !b[k].revoked
    ensures incoming != [] && Allowed(h, b[k], incoming[0], fileId)
    ensures HasType(env, Asc("HANDSHAKE_INIT")) && SaidYes(h, b[k], fileId)
    ensures ApprovedAt(l, HandshakeFrames(b, h, env), i)
  {
    hide ErrorEnvelope, IsFileFrame, OpenSession, Answer, Lookup, KindOf, Allowed, Consents, FileAfterApproval;
    if KindOf(env) != Handshaking { OtherKinds(b, h, env, incoming); }
    var route := RouteTo(h.p.lower, b, env, true);
    if route.Unknown? { ErrorTypes(h, route.message, 0); }
    k := route.fp;
    var o := OpenSession(h, b[k], env);
    OpeningTypes(h, b[k], env);
    var l' := if o.keys.Some? && incoming != [] then Answer(h, b[k], o.keys.value, incoming[0]) else [];
    assert l == o.out + l';
    if l' == [] {
      NothingToShift(l');
      Shifted(o.out, l', i);
    }
    AnswerTypes(h, b[k], o.keys.value, incoming[0]);
    Shifted(o.out, l', i);
    fileId :| Allowed(h, b[k], incoming[0], fileId);
    AllowedSaidYes(h, b[k], incoming[0], fileId);
    HandshakeType(env);
  }

  lemma HandshakeType(env: J)
    requires KindOf(env) == Handshaking
    ensures HasType(env, Asc("HANDSHAKE_INIT"))
  {
    hide HasType;
  }

  lemma NothingToShift(l: seq<J>)
    requires l == []
    ensures FileAfterApproval(l)
  {
  }

  /** A connection carries at most one transfer. */
  lemma HandlerOneTransfer(b: Book, h: Host, env: J, incoming: seq<J>, l: seq<J>, i: nat, j: nat)
    requires l == SentAfter(b, h, env, incoming)
    requires i < |l| && HasType(l[i], Asc("TRANSFER_START")) && j < |l| && HasType(l[j], Asc("TRANSFER_START"))
    ensures i == j
  {
    hide SentAfter, HasType, HandshakeFrames;
    var k, f := HandlerConsent(b, h, env, incoming, l, i);
    k, f := HandlerConsent(b, h, env, incoming, l, j);
  }

  // ---------------------------------------------------------------- in every state of a session

  lemma RequestAsks(a: Asker, h: Host, c: Record, fileId: Str)
    requires Allowed(h, c, a.Request(), fileId)
    ensures fileId == a.fileId
  {
    hide BuildEnvelope, Consents;
    var payload := JObj(map[Asc("file_id") := JStr(a.fileId)]);
    BuiltEnvelopeFields(a.p, a.seed, Asc("FILE_REQUEST"), payload, a.requestId);
    assert Field(a.Request(), Asc("payload")) == Some(payload);
  }

  /** The user of an unrevoked contact's request agreed to send the requested, shared file. */
  ghost predicate Agreed(x: Pair)
  {
    exists k :: k in x.book && !x.book[k].revoked && x.a.fileId in x.h.index && Consents(x.h, x.book[k], x.h.index[x.a.fileId])
  }

  lemma LogIsDelivered(x: Pair, states: seq<World>, schedule: seq<bool>, k: nat)
    requires Run(x, states, schedule) && k <= |schedule|
    ensures states[k].log <= Delivered(x)
  {
    hide Shape, Final, Left, Opens, Answer, Result, InitEnvelope, BuildEnvelope;
    RunKeeps(x, states, schedule, k);
    var w := states[k];
    assert LogShape(x, w);
    assert w.log <= w.log + w.out;
  }

  /** In every reachable state of a session, whatever the interleaving, a TRANSFER_START or CHUNK on the wire comes
      after a FILE_APPROVE on the wire, for a file in the index whose sending the user agreed to, and it goes to a
      contact that is not revoked. */
  lemma ConsentFirst(x: Pair, states: seq<World>, schedule: seq<bool>, k: nat, i: nat) returns (j: nat)
    requires Run(x, states, schedule) && k <= |schedule|
    requires i < |states[k].log| && IsFileFrame(states[k].log[i])
    ensures Agreed(x)
    ensures j < i && HasType(states[k].log[j], Asc("FILE_APPROVE"))
  {
    var log := states[k].log;
    hide Run, Delivered, IsFileFrame, HasType, InitEnvelope, BuildEnvelope, SentAfter, HandshakeFrames, Consents, RouteTo;
    LogIsDelivered(x, states, schedule, k);
    DeliveredIsDispatch(x);
    var l := Delivered(x);
    assert log[i] == l[i];
    var c, fileId := HandlerConsent(x.book, x.h, x.a.Init(), [x.a.Request()], l, i);
    RequestAsks(x.a, x.h, x.book[c], fileId);
    j := HandshakeFrames(x.book, x.h, x.a.Init());
    assert log[j] == l[j];
  }

  /** A session starts at most one transfer. */
  lemma OneTransfer(x: Pair, states: seq<World>, schedule: seq<bool>, k: nat, i: nat, j: nat)
    requires Run(x, states, schedule) && k <= |schedule|
    requires i < |states[k].log| && HasType(states[k].log[i], Asc("TRANSFER_START"))
    requires j < |states[k].log| && HasType(states[k].log[j], Asc("TRANSFER_START"))
    ensures i == j
  {
    var log := states[k].log;
    hide Run, Delivered, HasType, InitEnvelope, BuildEnvelope, SentAfter;
    LogIsDelivered(x, states, schedule, k);
    DeliveredIsDispatch(x);
    var l := Delivered(x);
    assert log[i] == l[i] && log[j] == l[j];
    HandlerOneTransfer(x.book, x.h, x.a.Init(), [x.a.Request()], l, i, j);
  }
}
