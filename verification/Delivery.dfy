/** The honest transfer over a faithful channel: what arrives, and exactly when it is saved. */
module Delivery {
  import opened Bytes
  import opened Text
  import opened Json
  import opened CryptoUtils
  import opened Chunking
  import opened Base64
  import opened Protocol
  import opened Channel
  import opened Transfer
  import Reassembly
  import FrameSize
  import Consent

  // ---------------------------------------------------------------- what the receiver reads in each frame

  lemma StartFields(f: SharedFile, total: int)
    ensures var p := StartPayload(f, total);
            && TextField(p, Asc("file_id")) == Some(f.fileId) && Field(p, Asc("filename")) == Some(JStr(f.filename))
            && Field(p, Asc("sha256_hex")) == Some(JStr(f.sha256Hex)) && Field(p, Asc("total_chunks")) == Some(JInt(total))
            && Field(p, Asc("size")) == Some(JInt(f.size)) && TextField(p, Asc("original_owner")) == Some(f.owner)
            && Field(p, Asc("manifest_sig")) == Some(JStr(f.manifestSig)) && Field(p, Asc("timestamp")) == Some(JStr(f.timestamp))
  {
    assert Asc("total_chunks")[0] != Asc("manifest_sig")[0];
  }

  /** The offer the receiver reads in the sender's TRANSFER_START. */
  function OfferOf(x: SendJob): Offer
  {
    Offer(x.file.fileId, JStr(x.file.filename), JStr(x.file.sha256Hex), JInt(x.Total()), JInt(x.file.size), x.file.owner,
          JStr(x.file.manifestSig), JStr(x.file.timestamp), x.transferId)
  }

  lemma StartIsRead(x: SendJob)
    ensures ReadOffer(StartEnvelope(x)) == Some(OfferOf(x))
  {
    hide StartPayload, BuildEnvelope, TotalChunks, HasType;
    StartFields(x.file, x.Total());
    BuiltEnvelopeFields(x.p, x.seed, Asc("TRANSFER_START"), StartPayload(x.file, x.Total()), x.transferId);
  }

  lemma AadEncodes(x: SendJob, i: nat)
    requires ScalarStr(x.file.fileId) && ScalarStr(x.transferId)
    ensures ChunkAad(x.file.fileId, i, x.Total(), x.transferId).Some?
  {
    hide TotalChunks, Utf8Bytes;
    var t := AadText(x.file.fileId, i, x.Total(), x.transferId);
    AadFromRight(x.file.fileId, i, x.Total(), x.transferId);
  }

  /** What a receiver with the sender's key checks the chunks against. */
  function HonestCheck(x: SendJob): ChunkCheck
  {
    ChunkCheck(x.p, x.keys.txKey, x.keys.txNonceBase, x.file.fileId, x.Total(), x.transferId)
  }

  lemma SealedExists(x: SendJob, i: nat)
    requires ScalarStr(x.file.fileId) && ScalarStr(x.transferId) && |x.data| <= TWO53 && i < x.Total()
    ensures SealedChunk(x, i).Some?
  {
    hide TotalChunks, ChunkAad;
    AadEncodes(x, i);
    TotalChunksExact(|x.data|);
    WordSizes();
  }

  lemma SealedOpens(x: SendJob, i: nat)
    requires SealsOpen(x.p) && SealedChunk(x, i).Some? && i < x.Total()
    ensures DecryptChunk(x.p, x.keys.txKey, x.keys.txNonceBase, i, SealedChunk(x, i).value,
                         x.file.fileId, x.Total(), x.transferId)
         == Some(Slice(x.data, i))
  {
    hide TotalChunks, ChunkAad, ChunkNonce;
  }

  lemma ChunkAccepted(x: SendJob, i: nat)
    requires SealsOpen(x.p) && ScalarStr(x.file.fileId) && ScalarStr(x.transferId) && |x.data| <= TWO53 && i < x.Total()
    ensures ChunkEnvelope(x, i).Some?
    ensures AcceptChunk(HonestCheck(x), ChunkEnvelope(x, i).value) == Chunk(i, Slice(x.data, i))
  {
    hide TotalChunks, BuildEnvelope, ChunkPayload, DecryptChunk, SealedChunk, Slice, B64e, B64d, HasType;
    SealedExists(x, i);
    SealedOpens(x, i);
    var ct := SealedChunk(x, i).value;
    var payload := ChunkPayload(x.file.fileId, i, x.Total(), B64e(ct), x.transferId);
    BuiltEnvelopeFields(x.p, x.seed, Asc("CHUNK"), payload, x.ids(i));
    FrameSize.ChunkPayloadFields(x.file.fileId, i, x.Total(), B64e(ct), x.transferId);
    RoundTrip(ct);
    NotError(x.p, x.seed, payload, x.ids(i));
  }

  lemma NotError(p: Prims, seed: Bytes, payload: J, id: Str)
    ensures !HasType(BuildEnvelope(p, seed, Asc("CHUNK"), payload, id), Asc("ERROR"))
  {
    hide BuildEnvelope;
    BuiltEnvelopeType(p, seed, Asc("CHUNK"), payload, id);
    Consent.TypesDiffer();
    assert Consent.IsControlType(Asc("ERROR"));
  }

  // ---------------------------------------------------------------- the loop over an honest sender's frames

  function SlicesUpTo(data: Bytes, n: nat): map<int, Bytes> { map i: int | 0 <= i < n :: Slice(data, i) }

  ghost predicate FramesFit(x: SendJob)
  {
    && Fits(StartEnvelope(x)) && Fits(DoneEnvelope(x))
    && forall i: nat :: i < x.Total() && ChunkEnvelope(x, i).Some? ==> Fits(ChunkEnvelope(x, i).value)
  }

  /** A sender whose names and ids are text of ordinary length, on a file of at most 2^53 bytes. */
  ghost predicate Honest(x: SendJob)
  {
    && SignaturesVerify(x.p) && SealsOpen(x.p) && SealsAddTag(x.p) && |x.p.sha256(x.p.publicKey(x.seed))| == 32
    && |x.data| <= TWO53 && ScalarStr(x.file.fileId) && ScalarStr(x.transferId)
    && FrameSize.ShortNames(x.file) && |x.transferId| <= 10_000 && forall i: nat :: |x.ids(i)| <= 10_000
  }

  lemma AllFramesFit(x: SendJob)
    requires Honest(x)
    ensures FramesFit(x)
  {
    hide Fits, StartEnvelope, DoneEnvelope, ChunkEnvelope, TotalChunks;
    forall i: nat | i < x.Total() && ChunkEnvelope(x, i).Some?
      ensures Fits(ChunkEnvelope(x, i).value)
    {
      FrameSize.ChunkFramesFit(x, i);
    }
    FrameSize.StartAndDoneFit(x);
  }

  lemma SentStep(x: SendJob, i: nat)
    requires FramesFit(x) && i < x.Total() && ChunkEnvelope(x, i).Some?
    ensures SentFrom(x, i) == [ChunkEnvelope(x, i).value] + SentFrom(x, i + 1)
  {
    hide ChunkEnvelope, DoneEnvelope, StartEnvelope, Fits, TotalChunks;
  }

  lemma CollectStep(c: ChunkCheck, n: nat, env: J, rest: seq<J>, chunks: map<int, Bytes>, i: int, plain: Bytes)
    requires n > 0 && AcceptChunk(c, env) == Chunk(i, plain)
    ensures Collect(c, n, [env] + rest, chunks) == Collect(c, n - 1, rest, chunks[i := plain])
  {
    hide AcceptChunk;
    assert ([env] + rest)[1..] == rest;
  }

  lemma {:induction false} LoopCollectsAll(x: SendJob, i: nat)
    requires Honest(x) && i <= x.Total()
    ensures Collect(HonestCheck(x), x.Total() - i, SentFrom(x, i), SlicesUpTo(x.data, i))
         == Collected(SlicesUpTo(x.data, x.Total()), [DoneEnvelope(x)])
    decreases x.Total() - i
  {
    hide AcceptChunk, ChunkEnvelope, DoneEnvelope, StartEnvelope, Fits, Slice, TotalChunks, HonestCheck, SlicesUpTo;
    AllFramesFit(x);
    if i < x.Total() {
      hide Collect, SentFrom;
      ChunkAccepted(x, i);
      SentStep(x, i);
      CollectStep(HonestCheck(x), x.Total() - i, ChunkEnvelope(x, i).value, SentFrom(x, i + 1),
                  SlicesUpTo(x.data, i), i, Slice(x.data, i));
      NextSlice(x.data, i);
      LoopCollectsAll(x, i + 1);
    }
  }

  lemma NextSlice(data: Bytes, i: nat)
    ensures SlicesUpTo(data, i)[i := Slice(data, i)] == SlicesUpTo(data, i + 1)
  {
    hide Slice;
  }

  lemma SlicesJoin(x: SendJob)
    requires |x.data| <= TWO53
    ensures JoinChunks(SlicesUpTo(x.data, x.Total()), 0, x.Total()) == Some(x.data)
  {
    hide TotalChunks, Slice;
    var d := SlicesUpTo(x.data, x.Total());
    Reassembly.JoinSomeIff(d, 0, x.Total());
    Reassembly.JoinOfSlices(x, d, 0);
    SlicesPartition(x.data);
  }

  // ---------------------------------------------------------------- the whole transfer

  function WhatIsSaved(x: SendJob): SavedFile
  {
    SavedFile(x.file.fileId, x.data, JStr(x.file.filename), JStr(x.file.sha256Hex), JInt(x.file.size), x.file.owner,
              x.file.manifestSig, JStr(x.file.timestamp))
  }

  predicate HashMatches(x: SendJob) { HexString(x.p.sha256(x.data)) == x.file.sha256Hex }

  lemma FinishHonest(x: SendJob)
    requires |x.data| <= TWO53
    ensures var r := Finish(x.p, OfferOf(x), x.Total(), SlicesUpTo(x.data, x.Total()), [DoneEnvelope(x)]);
            && r.status == (if HashMatches(x) then Saved else Failed(Refused))
            && (r.status == Saved ==> r.saved == Some(WhatIsSaved(x)))
  {
    hide TotalChunks, HexString, BuildEnvelope, DonePayload, JoinChunks, SlicesUpTo, HasType;
    SlicesJoin(x);
    BuiltEnvelopeFields(x.p, x.seed, Asc("TRANSFER_DONE"), DonePayload(x.file, x.transferId), x.ids(x.Total()));
  }

  /** Everything an honest sender sends to a receiver with the mirrored keys: all chunks arrive, and the file is
      saved exactly when the receiver knows the owner's key, the manifest verifies under it, and the bytes read
      from disk still have the hash they were shared with. */
  lemma HonestTransfer(x: SendJob, owners: Str -> Option<Bytes>, keys: SessionKeys)
    requires Honest(x) && keys.rxKey == x.keys.txKey && keys.rxNonceBase == x.keys.txNonceBase
    ensures SentFrames(x) != [] && SentFrames(x)[0] == StartEnvelope(x)
    ensures var r := ReceiveTransfer(x.p, owners, keys, StartEnvelope(x), SentFrames(x)[1..]);
            && (r.status == Saved <==> ManifestAccepted(x.p, owners(x.file.owner), OfferOf(x)) && HashMatches(x))
            && (r.status == Saved ==> r.saved == Some(WhatIsSaved(x)))
            && (r.status != Saved ==> r.status == Failed(Refused) && r.saved == None)
  {
    hide StartEnvelope, DoneEnvelope, ManifestAccepted, Fits, TotalChunks, Collect, Finish, SlicesUpTo, SentFrom, HashMatches;
    hide WhatIsSaved;
    StartIsRead(x);
    AllFramesFit(x);
    LoopCollectsAll(x, 0);
    assert SentFrames(x)[1..] == SentFrom(x, 0);
    assert SlicesUpTo(x.data, 0) == map[] by { NoSlices(x.data); }
    assert CheckOf(x.p, keys, OfferOf(x), x.Total()) == HonestCheck(x);
    FinishHonest(x);
    FailedSavesNothing(x.p, OfferOf(x), x.Total(), SlicesUpTo(x.data, x.Total()), [DoneEnvelope(x)]);
  }

  lemma NoSlices(data: Bytes)
    ensures SlicesUpTo(data, 0) == map[]
  {
  }

  lemma FailedSavesNothing(p: Prims, o: Offer, total: int, chunks: map<int, Bytes>, frames: seq<J>)
    ensures var r := Finish(p, o, total, chunks, frames); r.status != Saved ==> r.saved == None
  {
    hide JoinChunks, HasType, HexString;
  }
}
