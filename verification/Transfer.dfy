/** The chunked transfer: server.py's _send_file and client.py's _recv_transfer. */
module Transfer {
  import opened Bytes
  import opened Json
  import opened CryptoUtils
  import opened Chunking
  import opened Base64
  import opened Protocol
  import opened Channel

  datatype SharedFile = SharedFile(fileId: Str, filename: Str, path: Str, sha256Hex: Str, size: int,
                                   owner: Str, manifestSig: Str, timestamp: Str)

  // ---------------------------------------------------------------- the sender

  /** One _send_file call: who sends what, under which keys. `ids(k)` is the k-th fresh message id. */
  datatype SendJob = SendJob(p: Prims, seed: Bytes, keys: SessionKeys, file: SharedFile, data: Bytes,
                             transferId: Str, ids: nat -> Str)
  {
    function Total(): int { TotalChunks(|data|) }
  }

  function StartPayload(f: SharedFile, total: int): J
  {
    JObj(map[Asc("file_id") := JStr(f.fileId), Asc("filename") := JStr(f.filename),
             Asc("sha256_hex") := JStr(f.sha256Hex), Asc("size") := JInt(f.size),
             Asc("total_chunks") := JInt(total), Asc("original_owner") := JStr(f.owner),
             Asc("manifest_sig") := JStr(f.manifestSig), Asc("timestamp") := JStr(f.timestamp)])
  }

  function ChunkPayload(fileId: Str, index: int, total: int, data: Str, transferId: Str): J
  {
    JObj(map[Asc("file_id") := JStr(fileId), Asc("chunk_index") := JInt(index), Asc("total_chunks") := JInt(total),
             Asc("data") := JStr(data), Asc("transfer_id") := JStr(transferId)])
  }

  function DonePayload(f: SharedFile, transferId: Str): J
  {
    JObj(map[Asc("file_id") := JStr(f.fileId), Asc("transfer_id") := JStr(transferId),
             Asc("sha256_hex") := JStr(f.sha256Hex)])
  }

  function StartEnvelope(x: SendJob): J
  {
    BuildEnvelope(x.p, x.seed, Asc("TRANSFER_START"), StartPayload(x.file, x.Total()), x.transferId)
  }

  function SealedChunk(x: SendJob, i: nat): Option<Bytes>
  {
    EncryptChunk(x.p, x.keys.txKey, x.keys.txNonceBase, i, Slice(x.data, i), x.file.fileId, x.Total(), x.transferId)
  }

  /** The CHUNK frame of slice `i`; None when encrypt_chunk raises. */
  function ChunkEnvelope(x: SendJob, i: nat): Option<J>
  {
    var ct :- SealedChunk(x, i);
    Some(BuildEnvelope(x.p, x.seed, Asc("CHUNK"),
                       ChunkPayload(x.file.fileId, i, x.Total(), B64e(ct), x.transferId), x.ids(i)))
  }

  function DoneEnvelope(x: SendJob): J
  {
    BuildEnvelope(x.p, x.seed, Asc("TRANSFER_DONE"), DonePayload(x.file, x.transferId), x.ids(x.Total()))
  }

  /** The three kinds of frame of a transfer, field by field. */
  lemma StartIs(x: SendJob)
    ensures var e := StartEnvelope(x);
            && HasType(e, Asc("TRANSFER_START")) && TextField(e, Asc("id")) == Some(x.transferId)
            && Field(e, Asc("payload"))
               == Some(JObj(map[Asc("file_id") := JStr(x.file.fileId), Asc("filename") := JStr(x.file.filename),
                                Asc("sha256_hex") := JStr(x.file.sha256Hex), Asc("size") := JInt(x.file.size),
                                Asc("total_chunks") := JInt(TotalChunks(|x.data|)), Asc("original_owner") := JStr(x.file.owner),
                                Asc("manifest_sig") := JStr(x.file.manifestSig), Asc("timestamp") := JStr(x.file.timestamp)]))
  {
    hide BuildEnvelope, TotalChunks;
    BuiltEnvelopeFields(x.p, x.seed, Asc("TRANSFER_START"), StartPayload(x.file, x.Total()), x.transferId);
  }

  lemma ChunkIs(x: SendJob, i: nat)
    requires ChunkEnvelope(x, i).Some?
    ensures SealedChunk(x, i).Some?
    ensures var e := ChunkEnvelope(x, i).value;
            && HasType(e, Asc("CHUNK")) && TextField(e, Asc("id")) == Some(x.ids(i))
            && Field(e, Asc("payload"))
               == Some(JObj(map[Asc("file_id") := JStr(x.file.fileId), Asc("chunk_index") := JInt(i),
                                Asc("total_chunks") := JInt(TotalChunks(|x.data|)),
                                Asc("data") := JStr(B64e(SealedChunk(x, i).value)), Asc("transfer_id") := JStr(x.transferId)]))
  {
    hide BuildEnvelope, TotalChunks, SealedChunk, B64e;
    BuiltEnvelopeFields(x.p, x.seed, Asc("CHUNK"),
                        ChunkPayload(x.file.fileId, i, x.Total(), B64e(SealedChunk(x, i).value), x.transferId), x.ids(i));
  }

  lemma DoneIs(x: SendJob)
    ensures var e := DoneEnvelope(x);
            && HasType(e, Asc("TRANSFER_DONE")) && TextField(e, Asc("id")) == Some(x.ids(TotalChunks(|x.data|)))
            && Field(e, Asc("payload")) == Some(JObj(map[Asc("file_id") := JStr(x.file.fileId),
                                                         Asc("transfer_id") := JStr(x.transferId),
                                                         Asc("sha256_hex") := JStr(x.file.sha256Hex)]))
  {
    hide BuildEnvelope, TotalChunks;
    BuiltEnvelopeFields(x.p, x.seed, Asc("TRANSFER_DONE"), DonePayload(x.file, x.transferId), x.ids(x.Total()));
  }

  /** The frames sent from chunk `i` on; sending stops at the first exception. */
  function SentFrom(x: SendJob, i: nat): seq<J>
    requires i <= x.Total()
    decreases x.Total() - i
  {
    if i == x.Total() then
      if Fits(DoneEnvelope(x)) then [DoneEnvelope(x)] else []
    else
      match ChunkEnvelope(x, i)
      case None => []
      case Some(env) => if Fits(env) then [env] + SentFrom(x, i + 1) else []
  }

  function SentFrames(x: SendJob): seq<J>
  {
    if Fits(StartEnvelope(x)) then [StartEnvelope(x)] + SentFrom(x, 0) else []
  }

  /** _send_file once the file has been read. */
  method SendFile(ch: Channel, x: SendJob)
    modifies ch`sent
    ensures ch.sent == old(ch.sent) + SentFrames(x)
  {
    hide Fits, StartEnvelope, ChunkEnvelope, DoneEnvelope, TotalChunks;
    var total := x.Total();
    var ok := ch.Send(StartEnvelope(x));
    if !ok {
      return;
    }
    ghost var done := [StartEnvelope(x)];
    var i := 0;
    while i < total
      invariant 0 <= i <= total
      invariant ch.sent == old(ch.sent) + done && SentFrames(x) == done + SentFrom(x, i)
    {
      var env := ChunkEnvelope(x, i);
      if env == None {
        return;
      }
      ok := ch.Send(env.value);
      if !ok {
        return;
      }
      Assoc(done, [env.value], SentFrom(x, i + 1));
      Assoc(old(ch.sent), done, [env.value]);
      done := done + [env.value];
      i := i + 1;
    }
    ok := ch.Send(DoneEnvelope(x));
    Assoc(old(ch.sent), done, SentFrom(x, i));
  }

  // ---------------------------------------------------------------- the receiver

  /** Refused: reported and False returned. Lost: recv_frame raised where a frame was awaited. Raised: any other
      exception leaves the function. */
  datatype Failure = Refused | Lost | Raised
  datatype Status = Saved | Failed(why: Failure)

  /** What the receive loop checks every chunk against. */
  datatype ChunkCheck = ChunkCheck(p: Prims, rxKey: Bytes, rxNonceBase: Bytes, fileId: Str, total: int, transferId: Str)

  datatype Chunk = Chunk(index: int, plain: Bytes) | Bad(why: Failure)

  /** One turn of the receive loop. */
  function AcceptChunk(c: ChunkCheck, env: J): Chunk
  {
    if !env.JObj? then Bad(Raised)
    else if HasType(env, Asc("ERROR")) then
      match Field(env, Asc("payload"))
      case Some(JObj(_)) => Bad(Refused)
      case _ => Bad(Raised)
    else if !HasType(env, Asc("CHUNK")) then Bad(Refused)
    else
      match Field(env, Asc("payload"))
      case None => Bad(Raised)
      case Some(cp) =>
        var index := Field(cp, Asc("chunk_index"));
        var text := TextField(cp, Asc("data"));
        if index == None || text == None || B64d(text.value) == None then Bad(Raised)
        else if !index.value.JInt? then Bad(Refused)
        else
          match DecryptChunk(c.p, c.rxKey, c.rxNonceBase, index.value.n, B64d(text.value).value,
                             c.fileId, c.total, c.transferId)
          case None => Bad(Refused)
          case Some(plain) => Chunk(index.value.n, plain)
  }

  datatype Collection = Collected(chunks: map<int, Bytes>, rest: seq<J>) | Stopped(why: Failure, rest: seq<J>)

  /** `n` turns of the receive loop, filling the dict. */
  function Collect(c: ChunkCheck, n: nat, frames: seq<J>, chunks: map<int, Bytes>): Collection
  {
    if n == 0 then Collected(chunks, frames)
    else if frames == [] then Stopped(Lost, [])
    else
      match AcceptChunk(c, frames[0])
      case Bad(s) => Stopped(s, frames[1..])
      case Chunk(i, plain) => Collect(c, n - 1, frames[1..], chunks[i := plain])
  }

  /** `b"".join(chunks[i] for i in range(k, total))`; None is the KeyError. */
  function JoinChunks(chunks: map<int, Bytes>, k: int, total: int): Option<Bytes>
    decreases total - k
  {
    if k >= total then Some([])
    else if k !in chunks then None
    else
      var rest :- JoinChunks(chunks, k + 1, total);
      Some(chunks[k] + rest)
  }

  /** What received_store.save writes: the plaintext and its metadata. */
  datatype SavedFile = SavedFile(fileId: Str, data: Bytes, filename: J, sha256Hex: J, size: J, owner: Str,
                                 manifestSig: Str, timestamp: J)
  {
    function ToManifest(): Manifest { Manifest(JStr(fileId), filename, JStr(owner), sha256Hex, size, timestamp) }
  }

  datatype Receipt = Receipt(status: Status, saved: Option<SavedFile>, rest: seq<J>)

  /** The TRANSFER_START fields _recv_transfer reads, before any check. */
  datatype Offer = Offer(fileId: Str, filename: J, sha256Hex: J, totalChunks: J, size: J, owner: Str,
                         manifestSig: J, timestamp: J, transferId: Str)
  {
    function ToManifest(): Manifest { Manifest(JStr(fileId), filename, JStr(owner), sha256Hex, size, timestamp) }
  }

  /** None is a KeyError, or a file id, owner or message id that is not a string. */
  function ReadOffer(start: J): Option<Offer>
  {
    var p :- Field(start, Asc("payload"));
    var fileId :- TextField(p, Asc("file_id"));
    var filename :- Field(p, Asc("filename"));
    var sha :- Field(p, Asc("sha256_hex"));
    var total :- Field(p, Asc("total_chunks"));
    var size :- Field(p, Asc("size"));
    var owner :- TextField(p, Asc("original_owner"));
    var sig :- Field(p, Asc("manifest_sig"));
    var id :- TextField(start, Asc("id"));
    var ts := Field(p, Asc("timestamp"));
    Some(Offer(fileId, filename, sha, total, size, owner, sig, if ts.Some? then ts.value else JStr([]), id))
  }

  /** The manifest check of lines 182-200: the owner's key found, the signature decoded and valid. */
  predicate ManifestAccepted(p: Prims, ownerKey: Option<Bytes>, o: Offer)
  {
    && ownerKey.Some? && o.manifestSig.JStr? && B64d(o.manifestSig.s).Some?
    && p.verify(ownerKey.value, B64d(o.manifestSig.s).value, CanonicalManifest(o.ToManifest()))
  }

  function CheckOf(p: Prims, keys: SessionKeys, o: Offer, total: int): ChunkCheck
  {
    ChunkCheck(p, keys.rxKey, keys.rxNonceBase, o.fileId, total, o.transferId)
  }

  /** After the loop: TRANSFER_DONE, the join, the hash. */
  function Finish(p: Prims, o: Offer, total: int, chunks: map<int, Bytes>, frames: seq<J>): Receipt
  {
    if frames == [] then Receipt(Failed(Lost), None, [])
    else if !frames[0].JObj? then Receipt(Failed(Raised), None, frames[1..])
    else if !HasType(frames[0], Asc("TRANSFER_DONE")) then Receipt(Failed(Refused), None, frames[1..])
    else
      match JoinChunks(chunks, 0, total)
      case None => Receipt(Failed(Raised), None, frames[1..])
      case Some(data) =>
        if o.sha256Hex != JStr(HexString(p.sha256(data))) || !o.manifestSig.JStr? then
          Receipt(Failed(Refused), None, frames[1..])
        else Receipt(Saved, Some(SavedFile(o.fileId, data, o.filename, o.sha256Hex, o.size, o.owner,
                                           o.manifestSig.s, o.timestamp)), frames[1..])
  }

  /** _recv_transfer, with `owners` the contact lookup giving the raw public key. */
  function ReceiveTransfer(p: Prims, owners: Str -> Option<Bytes>, keys: SessionKeys, start: J, frames: seq<J>): Receipt
  {
    match ReadOffer(start)
    case None => Receipt(Failed(Raised), None, frames)
    case Some(o) =>
      if !ManifestAccepted(p, owners(o.owner), o) then Receipt(Failed(Refused), None, frames)
      else if !o.totalChunks.JInt? then Receipt(Failed(Raised), None, frames)
      else
        var total := o.totalChunks.n;
        match Collect(CheckOf(p, keys, o, total), if total > 0 then total else 0, frames, map[])
        case Stopped(s, rest) => Receipt(Failed(s), None, rest)
        case Collected(chunks, rest) => Finish(p, o, total, chunks, rest)
  }

  /** received_store: the files on disk, by file id. */
  class ReceivedFileStore {
    var files: map<Str, SavedFile>

    method Save(f: SavedFile)
      modifies this
      ensures files == old(files)[f.fileId := f]
    {
      files := files[f.fileId := f];
    }
  }

  /** _recv_transfer: the loop, and the store it writes only on success. */
  method RecvTransfer(ch: Channel, store: ReceivedFileStore, p: Prims, owners: Str -> Option<Bytes>,
                      keys: SessionKeys, start: J)
    returns (status: Status)
    modifies ch`incoming, store
    ensures var r := ReceiveTransfer(p, owners, keys, start, old(ch.incoming));
            && status == r.status && ch.incoming == r.rest
            && store.files == match r.saved { case None => old(store.files) case Some(f) => old(store.files)[f.fileId := f] }
  {
    hide ReadOffer, ManifestAccepted, AcceptChunk, JoinChunks, HasType, HexString;
    var offer := ReadOffer(start);
    if offer == None {
      return Failed(Raised);
    }
    var o := offer.value;
    if !ManifestAccepted(p, owners(o.owner), o) {
      return Failed(Refused);
    }
    if !o.totalChunks.JInt? {
      return Failed(Raised);
    }
    var total := o.totalChunks.n;
    var check := CheckOf(p, keys, o, total);
    var chunks: map<int, Bytes> := map[];
    var left: nat := if total > 0 then total else 0;
    while left > 0
      invariant store.files == old(store.files)
      invariant Collect(check, left, ch.incoming, chunks)
             == Collect(check, if total > 0 then total else 0, old(ch.incoming), map[])
    {
      var env := ch.Receive();
      if env == None {
        return Failed(Lost);
      }
      match AcceptChunk(check, env.value) {
        case Bad(s) =>
          return Failed(s);
        case Chunk(i, plain) =>
          chunks := chunks[i := plain];
      }
      left := left - 1;
    }
    var done := ch.Receive();
    if done == None {
      return Failed(Lost);
    }
    if !done.value.JObj? {
      return Failed(Raised);
    }
    if !HasType(done.value, Asc("TRANSFER_DONE")) {
      return Failed(Refused);
    }
    var data := JoinChunks(chunks, 0, total);
    if data == None {
      return Failed(Raised);
    }
    if o.sha256Hex != JStr(HexString(p.sha256(data.value))) || !o.manifestSig.JStr? {
      return Failed(Refused);
    }
    store.Save(SavedFile(o.fileId, data.value, o.filename, o.sha256Hex, o.size, o.owner, o.manifestSig.s, o.timestamp));
    status := Saved;
  }
}
