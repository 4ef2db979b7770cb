/** The file session of Session carried as bytes: what each side's send_frame calls put on its stream, and what the
    other side's recv_frame calls take from it. */
module Wire {
  import opened Bytes
  import opened Json
  import opened CryptoUtils
  import opened Base64
  import opened Protocol
  import opened Channel
  import opened Chunking
  import opened Transfer
  import opened Handshake
  import opened Contacts
  import opened Server
  import opened Client
  import opened Session
  import opened Outcome

  /** Every text either side puts in a frame is free of surrogate pairs: stored names, ids, fingerprints and errors. What
      was read from a frame always is, and so is a file name that is not valid UTF-8. */
  ghost predicate Legible(x: Pair)
  {
    && NoPair(x.a.initId) && NoPair(x.a.requestId) && NoPair(x.a.fileId) && NoPair(x.h.transferId)
    && (forall i: nat :: NoPair(x.h.ids(i))) && (forall i: nat :: NoPair(x.h.chunkIds(i)))
    && (forall id :: id in x.h.index ==> LegibleFile(x.h.index[id]))
    && (forall path :: x.h.disk(path).Unreadable? ==> NoPair(x.h.disk(path).reason))
    && (forall k :: k in x.book ==> NoPair(x.book[k].fingerprint))
  }

  predicate LegibleFile(f: SharedFile)
  {
    && NoPair(f.fileId) && NoPair(f.filename) && NoPair(f.sha256Hex) && NoPair(f.owner) && NoPair(f.manifestSig)
    && NoPair(f.timestamp)
  }

  /** The frame fits and, if `legible`, reads back as it was sent. */
  predicate Carried(e: J, legible: bool) { Fits(e) && (legible ==> Unpaired(e)) }

  predicate AllCarried(l: seq<J>, legible: bool) { forall i :: 0 <= i < |l| ==> Carried(l[i], legible) }

  lemma {:induction false} FittingStream(l: seq<J>)
    requires AllCarried(l, false)
    ensures Stream(l).Some?
  {
    hide FrameBytes;
    if l != [] {
      assert Carried(l[0], false);
      FitsFrame(l[0]);
      assert forall i :: 0 <= i < |l| - 1 ==> l[1..][i] == l[i + 1];
      FittingStream(l[1..]);
    }
  }

  /** The frame-by-frame view refuses just the frames that send_frame has no bytes for. */
  lemma FitsFrame(e: J)
    ensures Fits(e) <==> FrameBytes(e).Some?
  {
  }

  /** Frames that are all carried come out of the stream as they went in. */
  lemma CarriedFrames(l: seq<J>, legible: bool)
    requires AllCarried(l, legible)
    ensures Stream(l).Some? && TakeFrames(Stream(l).value) == (AllAsRead(l), Closed)
    ensures legible ==> AllAsRead(l) == l
  {
    hide Fits, Unpaired, TakeFrames, Stream, AllAsRead;
    FittingStream(l);
    FramesRoundTrip(l);
  }

  // ---------------------------------------------------------------- texts

  lemma AfterAscii(t: string, s: Str)
    requires NoPair(s)
    ensures NoPair(Asc(t) + s)
  {
    var a := Asc(t);
    forall i | 0 <= i < |a + s| - 1
      ensures !(IsHigh((a + s)[i]) && IsLow((a + s)[i + 1]))
    {
      if i >= |a| { assert (a + s)[i] == s[i - |a|] && (a + s)[i + 1] == s[i - |a| + 1]; }
    }
  }

  lemma BytesUnpaired(b: Bytes)
    ensures NoPair(b)
  {
  }

  lemma BuiltUnpaired(p: Prims, seed: Bytes, typ: string, payload: J, id: Str)
    requires NoPair(id) && Unpaired(payload)
    ensures Unpaired(BuildEnvelope(p, seed, Asc(typ), payload, id))
  {
    hide BuildEnvelope, Unpaired;
    AscUnpaired();
    BuiltEnvelopeUnpaired(p, seed, Asc(typ), payload, id);
  }

  lemma ErrorUnpaired(p: Prims, seed: Bytes, message: Str, id: Str)
    requires NoPair(message) && NoPair(id)
    ensures Unpaired(ErrorEnvelope(p, seed, message, id))
  {
    hide BuildEnvelope;
    AscUnpaired();
    BuiltUnpaired(p, seed, "ERROR", JObj(map[Asc("message") := JStr(message)]), id);
  }

  lemma InitUnpaired(a: Asker)
    requires NoPair(a.initId)
    ensures Unpaired(a.Init())
  {
    hide BuildEnvelope, B64e;
    AscUnpaired();
    var eph := a.p.ephemeralPublic(a.eph);
    BytesUnpaired(B64e(eph));
    BytesUnpaired(B64e(a.nonce));
    BuiltUnpaired(a.p, a.seed, "HANDSHAKE_INIT", InitPayload(eph, a.nonce), a.initId);
  }

  lemma RequestUnpaired(a: Asker)
    requires NoPair(a.requestId) && NoPair(a.fileId)
    ensures Unpaired(a.Request())
  {
    hide BuildEnvelope;
    AscUnpaired();
    BuiltUnpaired(a.p, a.seed, "FILE_REQUEST", JObj(map[Asc("file_id") := JStr(a.fileId)]), a.requestId);
  }

  lemma ReplyUnpaired(p: Prims, seed: Bytes, r: Responder, o: Opening, id: Str)
    requires NoPair(id)
    ensures Unpaired(ReplyEnvelope(p, seed, r, o, id))
  {
    hide BuildEnvelope, B64e;
    AscUnpaired();
    var eph, sig := p.ephemeralPublic(r.eph), p.sign(seed, o.transcript);
    BytesUnpaired(B64e(eph));
    BytesUnpaired(B64e(r.nonce));
    BytesUnpaired(B64e(sig));
    BuiltUnpaired(p, seed, "HANDSHAKE_RESP", ReplyPayload(eph, r.nonce, sig), id);
  }

  // ---------------------------------------------------------------- the transfer

  lemma StartUnpaired(x: SendJob)
    requires LegibleFile(x.file) && NoPair(x.transferId)
    ensures Unpaired(StartEnvelope(x))
  {
    hide BuildEnvelope, TotalChunks;
    var payload := StartPayload(x.file, x.Total());
    forall k | k in payload.m
      ensures NoPair(k) && Unpaired(payload.m[k])
    {
      AscUnpaired();
      assert payload.m[k] in {JStr(x.file.fileId), JStr(x.file.filename), JStr(x.file.sha256Hex), JInt(x.file.size),
                              JInt(x.Total()), JStr(x.file.owner), JStr(x.file.manifestSig), JStr(x.file.timestamp)};
    }
    BuiltUnpaired(x.p, x.seed, "TRANSFER_START", payload, x.transferId);
  }

  lemma ChunkUnpaired(x: SendJob, i: nat)
    requires LegibleFile(x.file) && NoPair(x.transferId) && NoPair(x.ids(i)) && ChunkEnvelope(x, i).Some?
    ensures Unpaired(ChunkEnvelope(x, i).value)
  {
    hide BuildEnvelope, TotalChunks, SealedChunk, B64e;
    var data := B64e(SealedChunk(x, i).value);
    var payload := ChunkPayload(x.file.fileId, i, x.Total(), data, x.transferId);
    BytesUnpaired(data);
    forall k | k in payload.m
      ensures NoPair(k) && Unpaired(payload.m[k])
    {
      AscUnpaired();
      assert payload.m[k] in {JStr(x.file.fileId), JInt(i), JInt(x.Total()), JStr(data), JStr(x.transferId)};
    }
    BuiltUnpaired(x.p, x.seed, "CHUNK", payload, x.ids(i));
  }

  lemma DoneUnpaired(x: SendJob)
    requires LegibleFile(x.file) && NoPair(x.transferId) && NoPair(x.ids(x.Total()))
    ensures Unpaired(DoneEnvelope(x))
  {
    hide BuildEnvelope, TotalChunks;
    var payload := DonePayload(x.file, x.transferId);
    forall k | k in payload.m
      ensures NoPair(k) && Unpaired(payload.m[k])
    {
      AscUnpaired();
      assert payload.m[k] in {JStr(x.file.fileId), JStr(x.transferId), JStr(x.file.sha256Hex)};
    }
    BuiltUnpaired(x.p, x.seed, "TRANSFER_DONE", payload, x.ids(x.Total()));
  }

  ghost predicate LegibleJob(x: SendJob)
  {
    LegibleFile(x.file) && NoPair(x.transferId) && forall i: nat :: NoPair(x.ids(i))
  }

  lemma {:induction false} ChunksCarried(x: SendJob, i: nat, legible: bool)
    requires i <= x.Total() && (legible ==> LegibleJob(x))
    ensures AllCarried(SentFrom(x, i), legible)
    decreases x.Total() - i
  {
    hide Fits, Unpaired, ChunkEnvelope, DoneEnvelope, TotalChunks, LegibleFile, NoPair;
    if i == x.Total() {
      if legible { DoneUnpaired(x); }
    } else if ChunkEnvelope(x, i).Some? {
      if legible { ChunkUnpaired(x, i); }
      ChunksCarried(x, i + 1, legible);
    }
  }

  lemma TransferCarried(x: SendJob, legible: bool)
    requires legible ==> LegibleJob(x)
    ensures AllCarried(SentFrames(x), legible)
  {
    hide Fits, Unpaired, StartEnvelope, TotalChunks, LegibleFile, NoPair, SentFrom;
    if legible { StartUnpaired(x); }
    ChunksCarried(x, 0, legible);
  }

  // ---------------------------------------------------------------- the session

  lemma SentCarried(env: J, legible: bool)
    requires legible ==> Unpaired(env)
    ensures AllCarried(Sent(env), legible)
  {
  }

  lemma FileCarried(h: Host, keys: SessionKeys, f: SharedFile, legible: bool)
    requires legible ==> LegibleJob(JobFor(h, keys, f, [])) && NoPair(h.ids(2))
                         && (h.disk(f.path).Unreadable? ==> NoPair(h.disk(f.path).reason))
    ensures AllCarried(FileFrames(h, keys, f), legible)
  {
    hide Sent, ErrorEnvelope, SentFrames, Unpaired, AllCarried;
    match h.disk(f.path)
    case Missing =>
      var m := Asc("File not found on disk: ") + f.filename;
      if legible {
        AfterAscii("File not found on disk: ", f.filename);
        ErrorUnpaired(h.p, h.seed, m, h.ids(2));
      }
      SentCarried(h.Error(m, 2), legible);
    case Unreadable(e) =>
      var m := Asc("Cannot read file: ") + e;
      if legible {
        AfterAscii("Cannot read file: ", e);
        ErrorUnpaired(h.p, h.seed, m, h.ids(2));
      }
      SentCarried(h.Error(m, 2), legible);
    case Contents(data) => TransferCarried(JobFor(h, keys, f, data), legible);
  }

  lemma DenyCarried(h: Host, fileId: Str, reason: string, legible: bool)
    requires legible ==> NoPair(fileId) && NoPair(h.ids(1))
    ensures AllCarried(Sent(DenyEnvelope(h, JStr(fileId), Asc(reason))), legible)
  {
    hide Sent, BuildEnvelope;
    if legible {
      AscUnpaired();
      BuiltUnpaired(h.p, h.seed, "FILE_DENY",
                    JObj(map[Asc("file_id") := JStr(fileId), Asc("reason") := JStr(Asc(reason))]), h.ids(1));
    }
    SentCarried(DenyEnvelope(h, JStr(fileId), Asc(reason)), legible);
  }

  lemma ApproveUnpaired(h: Host, fileId: Str)
    requires NoPair(fileId) && NoPair(h.ids(1))
    ensures Unpaired(ApproveEnvelope(h, fileId))
  {
    hide BuildEnvelope;
    AscUnpaired();
    BuiltUnpaired(h.p, h.seed, "FILE_APPROVE", JObj(map[Asc("file_id") := JStr(fileId)]), h.ids(1));
  }

  lemma AnswerCarried(x: Pair, c: Record, keys: SessionKeys, legible: bool)
    requires legible ==> Legible(x)
    ensures AllCarried(Answer(x.h, c, keys, x.a.Request()), legible)
  {
    hide DenyEnvelope, ApproveEnvelope, BuildEnvelope, Sent, FileFrames, Fits, Unpaired, Consents, NoPair, LegibleFile;
    AnswerIs(x, c, keys);
    DenyCarried(x.h, x.a.fileId, "File not found in share index", legible);
    DenyCarried(x.h, x.a.fileId, "Denied by user", legible);
    if x.a.fileId in x.h.index {
      if legible { ApproveUnpaired(x.h, x.a.fileId); }
      FileCarried(x.h, keys, x.h.index[x.a.fileId], legible);
    }
  }

  lemma ReplyCarried(p: Prims, seed: Bytes, r: Responder, init: J, id: Str, legible: bool)
    requires legible ==> NoPair(r.initiatorFp) && NoPair(id)
    ensures AllCarried(ResponderReply(p, seed, r, init, id), legible)
  {
    hide ErrorEnvelope, ReplyEnvelope, OpenHandshake, VerifyEnvelope, Unpaired, NoPair, Fits, HasType, TextField;
    if legible {
      AfterAscii("Fingerprint mismatch: expected ", r.initiatorFp);
      AscUnpaired();
      ErrorUnpaired(p, seed, Asc("Fingerprint mismatch: expected ") + r.initiatorFp, id);
      ErrorUnpaired(p, seed, Asc("HANDSHAKE_INIT signature invalid"), id);
      var o := OpenHandshake(p, r, init);
      if o.Some? { ReplyUnpaired(p, seed, r, o.value, id); }
    }
  }

  lemma SessionCarried(x: Pair, c: Record, legible: bool)
    requires legible ==> Legible(x) && NoPair(c.fingerprint)
    ensures AllCarried(OpenSession(x.h, c, x.a.Init()).out, legible)
  {
    hide ResponderReply, ReplyEnvelope, OpenHandshake, InitEnvelope, B64d, NoPair, FinishResponder, Fits, LegibleFile, AllCarried;
    match B64d(c.rawPub)
    case None => NothingCarried(legible);
    case Some(pub) => ReplyCarried(x.h.p, x.h.seed, ResponderFor(x.h, c, pub), x.a.Init(), x.h.ids(0), legible);
  }

  lemma PrefixUnpaired(s: Str, n: nat)
    requires NoPair(s) && n <= |s|
    ensures NoPair(s[..n])
  {
  }

  lemma RefusalUnpaired(x: Pair)
    requires Legible(x)
    ensures match RouteTo(x.h.p.lower, x.book, x.a.Init(), true)
            case Unknown(m) => Unpaired(x.h.Error(m, 0))
            case _ => true
  {
    hide ErrorEnvelope, InitEnvelope, Unpaired, Lookup, LegibleFile, Fingerprint;
    AscUnpaired();
    InitSender(x.a);
    var fp := x.a.Fp();
    BytesUnpaired(fp);
    PrefixUnpaired(fp, |FirstSixteen(fp)|);
    AfterAscii("Unknown peer: ", FirstSixteen(fp));
    ErrorUnpaired(x.h.p, x.h.seed, Asc("Unknown peer: ") + FirstSixteen(fp), x.h.ids(0));
    ErrorUnpaired(x.h.p, x.h.seed, REVOKED, x.h.ids(0));
  }

  lemma InitSender(a: Asker)
    ensures Field(a.Init(), Asc("from")) == Some(JStr(a.Fp()))
  {
    hide BuildEnvelope, InitPayload;
    BuiltEnvelopeFields(a.p, a.seed, Asc("HANDSHAKE_INIT"), InitPayload(a.p.ephemeralPublic(a.eph), a.nonce), a.initId);
  }

  lemma OpeningCarried(x: Pair, legible: bool)
    requires legible ==> Legible(x)
    ensures AllCarried(Opens(x, x.a.Init()).out, legible)
  {
    hide OpenSession, ErrorEnvelope, Sent, InitEnvelope, RouteTo, Unpaired, LegibleFile, NoPair, AllCarried;
    match RouteTo(x.h.p.lower, x.book, x.a.Init(), true)
    case NoRoute => NothingCarried(legible);
    case Unknown(m) =>
      if legible { RefusalUnpaired(x); }
      SentCarried(x.h.Error(m, 0), legible);
    case For(k) => SessionCarried(x, x.book[k], legible);
  }

  lemma NothingCarried(legible: bool)
    ensures AllCarried([], legible)
  {
  }

  lemma DeliveredCarried(x: Pair, legible: bool)
    requires legible ==> Legible(x)
    ensures AllCarried(Delivered(x), legible)
  {
    hide Opens, Answer, Carried, Legible;
    OpeningCarried(x, legible);
    match Opens(x, x.a.Init()).next
    case Answering(keys, peer) => AnswerCarried(x, peer, keys, legible);
    case Listening =>
    case HungUp =>
  }

  /** Down to the bytes: what the server's frames put on the stream is taken off it as these frames read back, and then
      the stream is closed; where all texts are free of surrogate pairs they are the very frames sent. */
  lemma ServerFramesArrive(x: Pair)
    ensures Stream(Delivered(x)).Some? && TakeFrames(Stream(Delivered(x)).value) == (AllAsRead(Delivered(x)), Closed)
    ensures Legible(x) ==> AllAsRead(Delivered(x)) == Delivered(x)
  {
    hide Stream, TakeFrames, AllAsRead, Delivered, AllCarried, Legible;
    DeliveredCarried(x, false);
    CarriedFrames(Delivered(x), false);
    if Legible(x) {
      DeliveredCarried(x, true);
      CarriedFrames(Delivered(x), true);
    }
  }

  /** The same for what the client sends, whatever it receives. */
  lemma ClientFramesArrive(a: Asker, frames: seq<J>)
    ensures Stream(Asked(a, frames)).Some? && TakeFrames(Stream(Asked(a, frames)).value) == (AllAsRead(Asked(a, frames)), Closed)
    ensures NoPair(a.initId) && NoPair(a.requestId) && NoPair(a.fileId) ==> AllAsRead(Asked(a, frames)) == Asked(a, frames)
  {
    hide Stream, TakeFrames, AllAsRead, InitEnvelope, BuildEnvelope, Fits, Unpaired, FinishInitiator;
    CarriedFrames(Asked(a, frames), false);
    if NoPair(a.initId) && NoPair(a.requestId) && NoPair(a.fileId) {
      InitUnpaired(a);
      RequestUnpaired(a);
      CarriedFrames(Asked(a, frames), true);
    }
  }

  /** An honest session over byte streams saves the file exactly when the session over frames does. */
  lemma SavedOverBytes(x: Pair)
    requires HonestPair(x) && Legible(x)
    ensures Stream(Delivered(x)).Some?
    ensures Download(x.a, TakeFrames(Stream(Delivered(x)).value).0).status == Saved <==> WillSave(x)
  {
    hide Stream, TakeFrames, AllAsRead, Delivered, Legible, HonestPair, Download, WillSave;
    ServerFramesArrive(x);
    SavedExactlyWhen(x);
  }
}
