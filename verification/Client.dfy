/** client.py: requesting a file, falling back to proxies, and adding a contact. */
module Client {
  import opened Bytes
  import opened Json
  import opened CryptoUtils
  import opened Base64
  import opened Protocol
  import opened Channel
  import opened Transfer
  import opened Handshake
  import opened Contacts
  import Reassembly
  import Server

  /** One request: who asks whom for what, with which ephemeral key, nonce and message ids. `owners` is the
      contact lookup giving the raw key of a manifest's owner. */
  datatype Asker = Asker(p: Prims, seed: Bytes, contactFp: Str, contactPub: Bytes, eph: Bytes, nonce: Bytes,
                         initId: Str, requestId: Str, fileId: Str, owners: Str -> Option<Bytes>)
  {
    function Pub(): Bytes { p.publicKey(seed) }
    function Fp(): Str { Fingerprint(p, Pub()) }
    function Side(): Initiator { Initiator(Fp(), contactFp, contactPub, eph, nonce) }
    function Init(): J { InitEnvelope(p, seed, Side(), initId) }
    function Request(): J { BuildEnvelope(p, seed, Asc("FILE_REQUEST"), JObj(map[Asc("file_id") := JStr(fileId)]), requestId) }
  }

  function Fails(why: Failure, rest: seq<J>): Receipt { Receipt(Failed(why), None, rest) }

  /** The answer to FILE_REQUEST: None lets the transfer begin. */
  function Declined(reply: J): Option<Failure>
  {
    if !reply.JObj? then Some(Raised)
    else if HasType(reply, Asc("FILE_DENY")) || HasType(reply, Asc("ERROR")) then
      match Field(reply, Asc("payload"))
      case Some(JObj(_)) => Some(Refused)
      case _ => Some(Raised)
    else if !HasType(reply, Asc("FILE_APPROVE")) then Some(Refused)
    else None
  }

  /** The frame after FILE_APPROVE: a TRANSFER_START signed by the contact. */
  function BadStart(p: Prims, contactPub: Bytes, start: J): Option<Failure>
  {
    if !start.JObj? then Some(Raised)
    else if !HasType(start, Asc("TRANSFER_START")) then Some(Refused)
    else
      match VerifyEnvelope(p, start, contactPub)
      case None => Some(Raised)
      case Some(false) => Some(Refused)
      case Some(true) => None
  }

  /** Only FILE_APPROVE lets the transfer begin. Any other object is reported, except that a FILE_DENY or ERROR whose payload
      is not an object raises. */
  lemma DeclinedIs(reply: J)
    ensures Declined(reply) == None <==> HasType(reply, Asc("FILE_APPROVE"))
    ensures Declined(reply) == Some(Refused)
            <==> && reply.JObj? && !HasType(reply, Asc("FILE_APPROVE"))
                 && (HasType(reply, Asc("FILE_DENY")) || HasType(reply, Asc("ERROR"))
                     ==> Field(reply, Asc("payload")).Some? && Field(reply, Asc("payload")).value.JObj?)
  {
    assert |Asc("FILE_APPROVE")| == 12 && |Asc("FILE_DENY")| == 9 && |Asc("ERROR")| == 5;
  }

  /** Only a TRANSFER_START signed with the contact's key is taken. */
  lemma BadStartIs(p: Prims, contactPub: Bytes, start: J)
    ensures BadStart(p, contactPub, start) == None
            <==> HasType(start, Asc("TRANSFER_START")) && SignatureHolds(p, start, Asc("TRANSFER_START"), contactPub)
    ensures start.JObj? && !HasType(start, Asc("TRANSFER_START")) ==> BadStart(p, contactPub, start) == Some(Refused)
    ensures HasType(start, Asc("TRANSFER_START")) && VerifyEnvelope(p, start, contactPub) == Some(false)
            ==> BadStart(p, contactPub, start) == Some(Refused)
    ensures !start.JObj? || (HasType(start, Asc("TRANSFER_START")) && VerifyEnvelope(p, start, contactPub) == None)
            ==> BadStart(p, contactPub, start) == Some(Raised)
  {
    hide VerifyEnvelope, SignatureHolds, HasType;
    if HasType(start, Asc("TRANSFER_START")) {
      SignatureNeeded(p, start, Asc("TRANSFER_START"), contactPub);
      TypedIsObject(start, Asc("TRANSFER_START"));
    }
  }

  lemma TypedIsObject(env: J, typ: Str)
    requires HasType(env, typ)
    ensures env.JObj?
  {
  }

  /** _do_request from the request on. */
  function AfterRequest(a: Asker, keys: SessionKeys, frames: seq<J>): Receipt
  {
    if frames == [] then Fails(Lost, [])
    else if Declined(frames[0]).Some? then Fails(Declined(frames[0]).value, frames[1..])
    else if |frames| == 1 then Fails(Lost, [])
    else if BadStart(a.p, a.contactPub, frames[1]).Some? then
      Fails(BadStart(a.p, a.contactPub, frames[1]).value, frames[2..])
    else ReceiveTransfer(a.p, a.owners, keys, frames[1], frames[2..])
  }

  /** _do_request once connected, against the frames the peer delivers. */
  function Download(a: Asker, frames: seq<J>): Receipt
  {
    if !Fits(a.Init()) then Fails(Raised, frames)
    else if frames == [] then Fails(Lost, [])
    else
      match FinishInitiator(a.p, a.Side(), frames[0])
      case None => Fails(Raised, frames[1..])
      case Some(e) =>
        if !Fits(a.Request()) then Fails(Raised, frames[1..]) else AfterRequest(a, e.keys, frames[1..])
  }

  method FinishRequest(ch: Channel, store: ReceivedFileStore, a: Asker, keys: SessionKeys) returns (status: Status)
    modifies ch`incoming, store
    ensures var r := AfterRequest(a, keys, old(ch.incoming));
            && status == r.status && ch.incoming == r.rest
            && store.files == match r.saved { case None => old(store.files) case Some(f) => old(store.files)[f.fileId := f] }
  {
    hide Declined, BadStart, ReceiveTransfer;
    var reply := ch.Receive();
    if reply == None {
      return Failed(Lost);
    }
    var declined := Declined(reply.value);
    if declined.Some? {
      return Failed(declined.value);
    }
    var start := ch.Receive();
    if start == None {
      return Failed(Lost);
    }
    var bad := BadStart(a.p, a.contactPub, start.value);
    if bad.Some? {
      return Failed(bad.value);
    }
    assert old(ch.incoming)[1..][1..] == old(ch.incoming)[2..];
    status := RecvTransfer(ch, store, a.p, a.owners, keys, start.value);
  }

  /** What the client sends: the INIT and, once the handshake has completed, the request. */
  function Asked(a: Asker, frames: seq<J>): seq<J>
  {
    if !Fits(a.Init()) then []
    else
      [a.Init()] + if frames != [] && FinishInitiator(a.p, a.Side(), frames[0]).Some? && Fits(a.Request())
                   then [a.Request()] else []
  }

  /** _do_request */
  method DoRequest(ch: Channel, store: ReceivedFileStore, a: Asker) returns (status: Status)
    modifies ch, store
    ensures ch.sent == old(ch.sent) + Asked(a, old(ch.incoming))
    ensures var r := Download(a, old(ch.incoming));
            && status == r.status && ch.incoming == r.rest
            && store.files == match r.saved { case None => old(store.files) case Some(f) => old(store.files)[f.fileId := f] }
  {
    hide FinishInitiator, AfterRequest, InitEnvelope, BuildEnvelope, Fits;
    var e, lost := PerformInitiator(ch, a.p, a.seed, a.Side(), a.initId);
    if e == None {
      return Failed(if lost then Lost else Raised);
    }
    var ok := ch.Send(a.Request());
    Assoc(old(ch.sent), [a.Init()], if ok then [a.Request()] else []);
    if !ok {
      return Failed(Raised);
    }
    status := FinishRequest(ch, store, a, e.value.keys);
  }

  /** A whole download, frame by frame: the reply that completed the handshake, a FILE_APPROVE, a TRANSFER_START signed with
      the key of the contact asked, the chunks it announces, each opening under the handshake's keys, and right after them a
      TRANSFER_DONE. */
  ghost predicate CameWhole(a: Asker, frames: seq<J>, e: InitiatorEnd, approve: J, start: J, o: Offer, rest: seq<J>)
  {
    && |frames| >= 3 && frames[1] == approve && frames[2] == start && frames[3..] == rest
    && FinishInitiator(a.p, a.Side(), frames[0]) == Some(e) && HasType(approve, Asc("FILE_APPROVE"))
    && HasType(start, Asc("TRANSFER_START")) && SignatureHolds(a.p, start, Asc("TRANSFER_START"), a.contactPub)
    && ReadOffer(start) == Some(o) && Reassembly.ArrivedWhole(a.p, e.keys, o, rest)
  }

  /** Whatever a request saves came as a whole download. */
  lemma SavedThroughTransfer(a: Asker, frames: seq<J>)
    returns (e: InitiatorEnd, approve: J, start: J, o: Offer, rest: seq<J>)
    requires Download(a, frames).saved.Some?
    ensures CameWhole(a, frames, e, approve, start, o, rest) && VerifyEnvelope(a.p, start, a.contactPub) == Some(true)
    ensures ReceiveTransfer(a.p, a.owners, e.keys, start, rest).saved == Download(a, frames).saved
  {
    hide VerifyEnvelope, ReceiveTransfer, FinishInitiator, InitEnvelope, BuildEnvelope, Fits, HasType, ReadOffer, SignatureHolds;
    hide Reassembly.AllAccepted;
    e, approve, start, rest := FinishInitiator(a.p, a.Side(), frames[0]).value, frames[1], frames[2], frames[1..][2..];
    DeclinedIs(approve);
    BadStartIs(a.p, a.contactPub, start);
    SavedHasOffer(a.p, a.owners, e.keys, start, rest);
    o := ReadOffer(start).value;
    Reassembly.SavedMeans(a.p, a.owners, e.keys, start, rest, o);
  }

  lemma SavedHasOffer(p: Prims, owners: Str -> Option<Bytes>, keys: SessionKeys, start: J, rest: seq<J>)
    requires ReceiveTransfer(p, owners, keys, start, rest).saved.Some?
    ensures ReadOffer(start).Some? && ReceiveTransfer(p, owners, keys, start, rest).status == Saved
  {
    hide ReadOffer, ManifestAccepted, HasType, HexString, Collect, JoinChunks;
  }

  /** A request reports that frames ran out only when it has taken all of them; so whatever more the peer sends after any
      other end does not matter. */
  lemma LostMeansAllTaken(a: Asker, frames: seq<J>)
    ensures Download(a, frames).status == Failed(Lost) ==> Download(a, frames).rest == []
  {
    hide VerifyEnvelope, FinishInitiator, InitEnvelope, BuildEnvelope, Fits, HasType, ReadOffer, ManifestAccepted, HexString;
    hide JoinChunks, AcceptChunk, Collect, Declined, BadStart;
    if frames != [] && FinishInitiator(a.p, a.Side(), frames[0]).Some? && |frames| >= 3 {
      DeclinedNeverLost(frames[1]);
      BadStartNeverLost(a.p, a.contactPub, frames[2]);
      LostInTransfer(a.p, a.owners, FinishInitiator(a.p, a.Side(), frames[0]).value.keys, frames[2], frames[1..][2..]);
    } else if |frames| == 2 {
      DeclinedNeverLost(frames[1]);
    }
  }

  lemma DeclinedNeverLost(reply: J)
    ensures Declined(reply) != Some(Lost)
  {
    hide HasType;
  }

  lemma BadStartNeverLost(p: Prims, contactPub: Bytes, start: J)
    ensures BadStart(p, contactPub, start) != Some(Lost)
  {
    hide HasType, VerifyEnvelope;
  }

  lemma LostInTransfer(p: Prims, owners: Str -> Option<Bytes>, keys: SessionKeys, start: J, rest: seq<J>)
    ensures ReceiveTransfer(p, owners, keys, start, rest).status == Failed(Lost)
            ==> ReceiveTransfer(p, owners, keys, start, rest).rest == []
  {
    hide ReadOffer, ManifestAccepted, HasType, HexString, JoinChunks, Collect;
    if ReadOffer(start).Some? && ReadOffer(start).value.totalChunks.JInt? {
      var o := ReadOffer(start).value;
      LostInLoop(CheckOf(p, keys, o, o.totalChunks.n), Reassembly.Turns(o), rest, map[]);
    }
  }

  lemma {:induction false} LostInLoop(c: ChunkCheck, n: nat, frames: seq<J>, chunks: map<int, Bytes>)
    ensures var r := Collect(c, n, frames, chunks); r.Stopped? && r.why == Lost ==> r.rest == []
  {
    hide HasType, DecryptChunk, B64d;
    if n > 0 && frames != [] && AcceptChunk(c, frames[0]).Chunk? {
      LostInLoop(c, n - 1, frames[1..], chunks[AcceptChunk(c, frames[0]).index := AcceptChunk(c, frames[0]).plain]);
    }
  }

  lemma {:induction false} LoopIgnoresLater(c: ChunkCheck, n: nat, l: seq<J>, m: seq<J>, chunks: map<int, Bytes>)
    ensures match Collect(c, n, l, chunks)
            case Collected(d, rest) => Collect(c, n, l + m, chunks) == Collected(d, rest + m)
            case Stopped(why, rest) => why != Lost ==> Collect(c, n, l + m, chunks) == Stopped(why, rest + m)
  {
    hide AcceptChunk;
    if n > 0 && l != [] {
      assert (l + m)[0] == l[0] && (l + m)[1..] == l[1..] + m;
      var r := AcceptChunk(c, l[0]);
      if r.Chunk? { LoopIgnoresLater(c, n - 1, l[1..], m, chunks[r.index := r.plain]); }
    }
  }

  lemma FinishIgnoresLater(p: Prims, o: Offer, total: int, chunks: map<int, Bytes>, l: seq<J>, m: seq<J>)
    requires l != []
    ensures Finish(p, o, total, chunks, l + m).status == Finish(p, o, total, chunks, l).status
    ensures Finish(p, o, total, chunks, l + m).saved == Finish(p, o, total, chunks, l).saved
  {
    hide JoinChunks, HasType, HexString;
    assert (l + m)[0] == l[0];
  }

  lemma TransferIgnoresLater(p: Prims, owners: Str -> Option<Bytes>, keys: SessionKeys, start: J, l: seq<J>, m: seq<J>)
    requires ReceiveTransfer(p, owners, keys, start, l).status != Failed(Lost)
    ensures ReceiveTransfer(p, owners, keys, start, l + m).status == ReceiveTransfer(p, owners, keys, start, l).status
    ensures ReceiveTransfer(p, owners, keys, start, l + m).saved == ReceiveTransfer(p, owners, keys, start, l).saved
  {
    hide ReadOffer, ManifestAccepted, Collect, Finish;
    if ReadOffer(start).Some? && ReadOffer(start).value.totalChunks.JInt? {
      var o := ReadOffer(start).value;
      var total := o.totalChunks.n;
      var c, n := CheckOf(p, keys, o, total), if total > 0 then total else 0;
      LoopIgnoresLater(c, n, l, m, map[]);
      var r := Collect(c, n, l, map[]);
      if r.Collected? {
        if r.rest == [] {
          FinishNeedsFrame(p, o, total, r.chunks);
        } else {
          FinishIgnoresLater(p, o, total, r.chunks, r.rest, m);
        }
      }
    }
  }

  lemma FinishNeedsFrame(p: Prims, o: Offer, total: int, chunks: map<int, Bytes>)
    ensures Finish(p, o, total, chunks, []).status == Failed(Lost)
  {
  }

  /** Lost means that a frame was still awaited: a request that ended in any other way ends just so whatever follows. */
  lemma LaterFramesIgnored(a: Asker, l: seq<J>, m: seq<J>)
    requires Download(a, l).status != Failed(Lost)
    ensures Download(a, l + m).status == Download(a, l).status && Download(a, l + m).saved == Download(a, l).saved
  {
    hide FinishInitiator, InitEnvelope, BuildEnvelope, Fits, Declined, BadStart, ReceiveTransfer;
    if Fits(a.Init()) && l != [] {
      assert (l + m)[0] == l[0] && (l + m)[1..] == l[1..] + m;
      var e := FinishInitiator(a.p, a.Side(), l[0]);
      if e.Some? && Fits(a.Request()) { AnswerIgnoresLater(a, e.value.keys, l[1..], m); }
    }
  }

  lemma AnswerIgnoresLater(a: Asker, keys: SessionKeys, l: seq<J>, m: seq<J>)
    requires AfterRequest(a, keys, l).status != Failed(Lost)
    ensures AfterRequest(a, keys, l + m).status == AfterRequest(a, keys, l).status
    ensures AfterRequest(a, keys, l + m).saved == AfterRequest(a, keys, l).saved
  {
    hide Declined, BadStart, ReceiveTransfer;
    if l != [] {
      assert (l + m)[0] == l[0];
      if |l| > 1 {
        assert (l + m)[1] == l[1] && (l + m)[2..] == l[2..] + m;
        if Declined(l[0]) == None && BadStart(a.p, a.contactPub, l[1]) == None {
          TransferIgnoresLater(a.p, a.owners, keys, l[1], l[2..], m);
        }
      }
    }
  }

  // ---------------------------------------------------------------- proxies

  /** `any(f.get("file_id") == file_id for f in l)`; None when an element before the match has no get. */
  function AnyLists(l: seq<J>, fileId: Str): Option<bool>
  {
    if l == [] then Some(false)
    else if !l[0].JObj? then None
    else if Field(l[0], Asc("file_id")) == Some(JStr(fileId)) then Some(true)
    else AnyLists(l[1..], fileId)
  }

  /** Whether a cached file list names the file; an absent or falsy cache does not, and one that is not a list
      raises. */
  function CacheLists(cached: Option<J>, fileId: Str): Option<bool>
  {
    match cached
    case None => Some(false)
    case Some(JArr(l)) => AnyLists(l, fileId)
    case Some(v) =>
      if v in {JNull, JBool(false), JInt(0), JFloat(ZeroText()), JFloat(MinusZeroText()), JStr([]), JObj(map[])} then Some(false)
      else None
  }

  /** A proxy search: the contacts in dict order, the file lists cached under the first 16 characters of a
      fingerprint, and for each contact the request made of it and the frames it delivers (None: no connection). */
  datatype Search = Search(contacts: seq<Record>, offlineFp: Str, fileId: Str, cache: map<Str, J>,
                           asker: nat -> Asker, dial: nat -> Option<seq<J>>)

  function Eligible(s: Search, i: nat): Option<bool>
    requires i < |s.contacts|
  {
    var c := s.contacts[i];
    if c.fingerprint == s.offlineFp || c.revoked then Some(false)
    else
      var key := Server.FirstSixteen(c.fingerprint);
      CacheLists(if key in s.cache then Some(s.cache[key]) else None, s.fileId)
  }

  /** The list cached for a contact, under the first 16 characters of its fingerprint, names the file, and what comes
      before its entry are objects. */
  ghost predicate Lists(s: Search, c: Record)
  {
    var key := c.fingerprint[..if |c.fingerprint| < 16 then |c.fingerprint| else 16];
    && key in s.cache && s.cache[key].JArr?
    && NamesFile(s.cache[key].a, s.fileId)
  }

  ghost predicate NamesFile(l: seq<J>, fileId: Str) { exists j :: ListedAt(l, fileId, j) }

  predicate ListedAt(l: seq<J>, fileId: Str, j: int)
  {
    0 <= j < |l| && Field(l[j], Asc("file_id")) == Some(JStr(fileId)) && forall m :: 0 <= m < j ==> l[m].JObj?
  }

  lemma {:induction false} AnyListsIs(l: seq<J>, fileId: Str)
    ensures AnyLists(l, fileId) == Some(true) <==> NamesFile(l, fileId)
    ensures AnyLists(l, fileId) == None <==> !NamesFile(l, fileId) && NotAllObjects(l)
  {
    if l != [] && l[0].JObj? {
      AnyListsIs(l[1..], fileId);
      if Field(l[0], Asc("file_id")) == Some(JStr(fileId)) {
        assert ListedAt(l, fileId, 0);
      } else {
        if j :| ListedAt(l[1..], fileId, j) { assert ListedAt(l, fileId, j + 1); }
        if j :| ListedAt(l, fileId, j) {
          assert l[1..][j - 1] == l[j];
          assert ListedAt(l[1..], fileId, j - 1);
        }
        if NotAllObjects(l) {
          var j :| 0 <= j < |l| && !l[j].JObj?;
          assert !l[1..][j - 1].JObj?;
        }
        if NotAllObjects(l[1..]) {
          var j :| 0 <= j < |l| - 1 && !l[1..][j].JObj?;
          assert !l[j + 1].JObj?;
        }
      }
    }
  }

  /** What stands in the cache for a contact is neither empty nor a list whose entries, up to one with the file id, are
      objects. */
  ghost predicate CannotBeSearched(s: Search, c: Record)
  {
    var key := c.fingerprint[..if |c.fingerprint| < 16 then |c.fingerprint| else 16];
    && key in s.cache && !IsFalsy(s.cache[key])
    && (s.cache[key].JArr? ==> !NamesFile(s.cache[key].a, s.fileId) && NotAllObjects(s.cache[key].a))
  }

  ghost predicate NotAllObjects(l: seq<J>) { exists j :: 0 <= j < |l| && !l[j].JObj? }

  /** None, false, zero of any kind, and the empty string, list and object. */
  predicate IsFalsy(v: J)
  {
    match v
    case JNull => true
    case JBool(b) => !b
    case JInt(n) => n == 0
    case JFloat(t) => t == ZeroText() || t == MinusZeroText()
    case JStr(t) => t == []
    case JArr(a) => a == []
    case JObj(m) => m == map[]
  }

  /** A contact may be asked: it is not revoked, is not the one just found offline, and its cached list names the file. */
  ghost predicate MayAsk(s: Search, i: nat)
  {
    i < |s.contacts| && !s.contacts[i].revoked && s.contacts[i].fingerprint != s.offlineFp && Lists(s, s.contacts[i])
  }

  lemma NoCache(fileId: Str)
    ensures CacheLists(None, fileId) == Some(false)
  {
  }

  lemma FalsyCache(v: J, fileId: Str)
    ensures !v.JArr? ==> CacheLists(Some(v), fileId) == if IsFalsy(v) then Some(false) else None
    ensures v.JArr? ==> CacheLists(Some(v), fileId) == AnyLists(v.a, fileId)
    ensures v == JArr([]) ==> AnyLists(v.a, fileId) == Some(false)
  {
  }

  lemma EligibleIs(s: Search, i: nat)
    requires i < |s.contacts|
    ensures Eligible(s, i) == Some(true) <==> MayAsk(s, i)
    ensures Eligible(s, i) == None
            <==> !s.contacts[i].revoked && s.contacts[i].fingerprint != s.offlineFp && CannotBeSearched(s, s.contacts[i])
  {
    hide AnyLists, NamesFile, NotAllObjects;
    var fp := s.contacts[i].fingerprint;
    var key := Server.FirstSixteen(fp);
    assert key == fp[..if |fp| < 16 then |fp| else 16];
    hide CacheLists;
    if key in s.cache {
      FalsyCache(s.cache[key], s.fileId);
      if s.cache[key].JArr? { AnyListsIs(s.cache[key].a, s.fileId); }
    } else {
      NoCache(s.fileId);
    }
  }

  function Attempt(s: Search, i: nat): Receipt
  {
    match s.dial(i)
    case None => Fails(Lost, [])
    case Some(frames) => Download(s.asker(i), frames)
  }

  function Stored(files: map<Str, SavedFile>, r: Receipt): map<Str, SavedFile>
  {
    match r.saved
    case None => files
    case Some(f) => files[f.fileId := f]
  }

  lemma FailedStoresNothing(a: Asker, frames: seq<J>)
    ensures Download(a, frames).saved.Some? <==> Download(a, frames).status == Saved
  {
    hide VerifyEnvelope, FinishInitiator, InitEnvelope, BuildEnvelope, Fits, HasType, Collect, JoinChunks, ReadOffer;
    hide ManifestAccepted, HexString, Declined, BadStart;
  }

  lemma FailedAttemptStoresNothing(s: Search, i: nat)
    ensures Attempt(s, i).saved.Some? <==> Attempt(s, i).status == Saved
  {
    hide Download;
    if s.dial(i).Some? { FailedStoresNothing(s.asker(i), s.dial(i).value); }
  }

  /** The contacts among the first `n` that may be asked, in dict order. */
  ghost function Askable(s: Search, n: nat): seq<nat>
    requires n <= |s.contacts|
  {
    if n == 0 then [] else Askable(s, n - 1) + if MayAsk(s, n - 1) then [n - 1] else []
  }

  lemma {:induction false} AskableIs(s: Search, n: nat)
    requires n <= |s.contacts|
    ensures forall i: nat :: i in Askable(s, n) <==> i < n && MayAsk(s, i)
  {
    hide MayAsk;
    if n > 0 { AskableIs(s, n - 1); }
  }

  /** One request made of contact `i`. */
  method Dial(store: ReceivedFileStore, s: Search, i: nat) returns (status: Status)
    requires s.dial(i).Some?
    modifies store
    ensures status == Attempt(s, i).status && store.files == Stored(old(store.files), Attempt(s, i))
    ensures status != Saved ==> store.files == old(store.files)
  {
    hide Download;
    FailedAttemptStoresNothing(s, i);
    var ch := new Channel(s.dial(i).value);
    status := DoRequest(ch, store, s.asker(i));
  }

  lemma NotDialled(s: Search, i: nat)
    requires s.dial(i) == None
    ensures Attempt(s, i).status != Saved
  {
  }

  /** Contact `i` is the first that may be asked and delivers, and no cached list before it raises. */
  ghost predicate ServedBy(s: Search, i: nat)
  {
    && i < |s.contacts| && MayAsk(s, i) && Attempt(s, i).status == Saved
    && forall j :: 0 <= j < i ==> Eligible(s, j).Some? && !(MayAsk(s, j) && Attempt(s, j).status == Saved)
  }

  /** _proxy_download: contacts are asked in dict order until one delivers, and `asked` lists those dialled. Only contacts
      that may be asked are: none that is revoked, none that is known to be offline, none whose cached list does not name the
      file. On success the last one asked delivered, and its file is the only one stored. The search fails only after
      asking every contact that may be asked, or at a cached list that is not one of objects. */
  method ProxyDownload(store: ReceivedFileStore, s: Search) returns (status: Status, ghost asked: seq<nat>)
    modifies store
    ensures forall i :: i in asked ==> MayAsk(s, i)
    ensures status == Saved <==> exists i :: ServedBy(s, i)
    ensures status == Saved ==> && asked != [] && ServedBy(s, asked[|asked| - 1]) && asked == Askable(s, asked[|asked| - 1] + 1)
                                && store.files == Stored(old(store.files), Attempt(s, asked[|asked| - 1]))
    ensures status == Failed(Refused) ==> asked == Askable(s, |s.contacts|)
    ensures status == Failed(Raised) ==> exists i :: 0 <= i < |s.contacts| && Eligible(s, i) == None && asked == Askable(s, i)
    ensures status in {Saved, Failed(Refused), Failed(Raised)}
    ensures status != Saved ==> store.files == old(store.files)
  {
    hide Download, Eligible, MayAsk, Attempt;
    var i := 0;
    asked := [];
    while i < |s.contacts|
      invariant 0 <= i <= |s.contacts| && store.files == old(store.files) && asked == Askable(s, i)
      invariant forall k :: k in asked ==> MayAsk(s, k)
      invariant forall k :: 0 <= k < i ==> Eligible(s, k).Some? && !(MayAsk(s, k) && Attempt(s, k).status == Saved)
    {
      EligibleIs(s, i);
      var eligible := Eligible(s, i);
      if eligible == None {
        assert forall k :: ServedBy(s, k) ==> k == i;
        return Failed(Raised), asked;
      }
      if eligible.value {
        asked := asked + [i];
        if s.dial(i).Some? {
          var ok := Dial(store, s, i);
          if ok == Saved {
            assert ServedBy(s, i);
            return Saved, asked;
          }
        } else {
          NotDialled(s, i);
        }
      }
      i := i + 1;
    }
    status := Failed(Refused);
  }

  // ---------------------------------------------------------------- request-file

  /** _require_contact: the first contact at the address. */
  function FirstAt(contacts: seq<Record>, host: Str, port: J): Option<Record>
  {
    if contacts == [] then None
    else if contacts[0].host == host && contacts[0].port == port then Some(contacts[0])
    else FirstAt(contacts[1..], host, port)
  }

  /** Whether the direct attempt ends in a ConnectionError: no connection, or a stream that closes where a frame is
      awaited. A frame that is too large or not JSON ends it in another exception. */
  function Offline(a: Asker, direct: Option<Bytes>): bool
  {
    match direct
    case None => true
    case Some(stream) =>
      var (frames, end) := TakeFrames(stream); Download(a, frames).status == Failed(Lost) && end == Closed
  }

  /** The contact request-file asks is the first, in dict order, at the address. */
  lemma {:induction false} FirstAtIs(contacts: seq<Record>, host: Str, port: J)
    ensures match FirstAt(contacts, host, port)
            case None => forall j :: 0 <= j < |contacts| ==> !(contacts[j].host == host && contacts[j].port == port)
            case Some(c) => exists i :: 0 <= i < |contacts| && contacts[i] == c && c.host == host && c.port == port
                                        && forall j :: 0 <= j < i ==> !(contacts[j].host == host && contacts[j].port == port)
  {
    if contacts != [] && !(contacts[0].host == host && contacts[0].port == port) {
      FirstAtIs(contacts[1..], host, port);
      var found := FirstAt(contacts[1..], host, port);
      if found.Some? {
        var i :| 0 <= i < |contacts| - 1 && contacts[1..][i] == found.value
                 && forall j :: 0 <= j < i ==> !(contacts[1..][j].host == host && contacts[1..][j].port == port);
        forall j | 0 <= j < i + 1
          ensures !(contacts[j].host == host && contacts[j].port == port)
        {
          if j > 0 { assert contacts[1..][j - 1] == contacts[j]; }
        }
        assert contacts[i + 1] == found.value;
      } else {
        forall j | 0 <= j < |contacts|
          ensures !(contacts[j].host == host && contacts[j].port == port)
        {
          if j > 0 { assert contacts[1..][j - 1] == contacts[j]; }
        }
      }
    }
  }

  /** The contact is found offline exactly when there is no connection, or a stream that closes, rather than ends in a frame
      too large or not JSON, while a frame is awaited. */
  lemma OfflineIs(a: Asker, stream: Bytes)
    ensures Offline(a, None)
    ensures Offline(a, Some(stream))
            <==> TakeFrames(stream).1 == Closed && Download(a, TakeFrames(stream).0).status == Failed(Lost)
  {
    hide Download, TakeFrames;
  }

  /** request_file. `ask` is the request made of the contact found, `direct` the bytes it sends (None: no connection), and
      `asked` the contacts then dialled as proxies. */
  method RequestFile(store: ReceivedFileStore, s: Search, host: Str, port: J, ask: Record -> Asker, direct: Option<Bytes>)
    returns (status: Status, ghost asked: seq<nat>)
    modifies store
    ensures match FirstAt(s.contacts, host, port)
            case None => status == Failed(Raised) && asked == [] && store.files == old(store.files)
            case Some(c) =>
              var search := s.(offlineFp := c.fingerprint);
              if c.revoked then status == Failed(Refused) && asked == [] && store.files == old(store.files)
              else if Offline(ask(c), direct) then
                && (forall i :: i in asked ==> MayAsk(search, i)) && (status == Saved <==> exists i :: ServedBy(search, i))
                && (status == Saved ==> && asked != [] && ServedBy(search, asked[|asked| - 1])
                                        && store.files == Stored(old(store.files), Attempt(search, asked[|asked| - 1])))
                && (status != Saved ==> store.files == old(store.files))
              else
                var r := Download(ask(c), TakeFrames(direct.value).0);
                status == r.status && asked == [] && store.files == Stored(old(store.files), r)
  {
    hide Download, ServedBy, Attempt, TakeFrames, MayAsk;
    asked := [];
    var found := FirstAt(s.contacts, host, port);
    if found == None {
      return Failed(Raised), asked;
    }
    var c := found.value;
    if c.revoked {
      return Failed(Refused), asked;
    }
    if direct.Some? {
      var (frames, end) := TakeFrames(direct.value);
      FailedStoresNothing(ask(c), frames);
      var ch := new Channel(frames);
      status := DoRequest(ch, store, ask(c));
      if status != Failed(Lost) || end != Closed {
        return;
      }
    }
    status, asked := ProxyDownload(store, s.(offlineFp := c.fingerprint));
  }

  // ---------------------------------------------------------------- add-contact

  /** The checks on the reply to a CONTACT_REQUEST; None for every raise. */
  function CheckAcceptance(p: Prims, reply: J, port: J): Option<Server.Introduction>
  {
    if !reply.JObj? || !HasType(reply, Asc("CONTACT_ACCEPT")) then None
    else
      var payload :- Field(reply, Asc("payload"));
      var rawPub := match Field(payload, Asc("raw_pub")) { case None => JStr([]) case Some(v) => v };
      if !payload.JObj? || !rawPub.JStr? || B64d(rawPub.s) == None then None
      else
        var raw := B64d(rawPub.s).value;
        var fp := match Field(reply, Asc("from")) { case None => JStr([]) case Some(v) => v };
        if fp != JStr(Fingerprint(p, raw)) || VerifyEnvelope(p, reply, raw) != Some(true) then None
        else Some(Server.Introduction(fp.s, rawPub.s, match Field(payload, Asc("port")) { case None => port case Some(v) => v }))
  }

  /** A contact is accepted only under the fingerprint of its key, and only if that key signed the reply. */
  lemma AcceptanceBinds(p: Prims, reply: J, port: J)
    requires CheckAcceptance(p, reply, port).Some?
    ensures var i := CheckAcceptance(p, reply, port).value;
            && B64d(i.rawPub).Some? && i.fp == Fingerprint(p, B64d(i.rawPub).value)
            && VerifyEnvelope(p, reply, B64d(i.rawPub).value) == Some(true)
  {
  }

  /** What a CONTACT_ACCEPT must be for its sender to be added as `i`: signed with the key it announces, over its own type,
      id, sender and payload, by a sender named by the hexadecimal SHA-256 of that key. */
  predicate AcceptsAs(p: Prims, reply: J, port: J, i: Server.Introduction)
  {
    && Field(reply, Asc("payload")).Some? && Field(reply, Asc("payload")).value.JObj?
    && var payload := Field(reply, Asc("payload")).value;
       && Server.GivenAs(payload.m, Asc("raw_pub"), i.rawPub)
       && i.port == (if Asc("port") in payload.m then payload.m[Asc("port")] else port)
       && B64d(i.rawPub).Some? && i.fp == HexString(p.sha256(B64d(i.rawPub).value))
       && TextField(reply, Asc("from")) == Some(i.fp) && SignatureHolds(p, reply, Asc("CONTACT_ACCEPT"), B64d(i.rawPub).value)
  }

  lemma AcceptanceIs(p: Prims, reply: J, port: J, i: Server.Introduction)
    ensures CheckAcceptance(p, reply, port) == Some(i) <==> HasType(reply, Asc("CONTACT_ACCEPT")) && AcceptsAs(p, reply, port, i)
  {
    hide VerifyEnvelope, B64d, CanonicalEnvelope, HexString, HasType;
    Server.NothingDecoded();
    if HasType(reply, Asc("CONTACT_ACCEPT")) {
      TypedIsObject(reply, Asc("CONTACT_ACCEPT"));
      SignatureNeeded(p, reply, Asc("CONTACT_ACCEPT"), if B64d(i.rawPub).Some? then B64d(i.rawPub).value else []);
    }
  }

  function ContactRequest(p: Prims, seed: Bytes, listenPort: int, id: Str): J
  {
    BuildEnvelope(p, seed, Asc("CONTACT_REQUEST"), Server.PeerPayload(p.publicKey(seed), listenPort), id)
  }

  /** add_contact once connected; false for every exception. */
  method AddContact(ch: Channel, store: ContactStore, p: Prims, seed: Bytes, listenPort: int, id: Str, host: Str, port: J)
    returns (ok: bool)
    requires store.Valid() && store.low == p.lower
    modifies ch, store, store.contacts.Values
    ensures store.Valid() && ch.sent == old(ch.sent) + Server.Sent(ContactRequest(p, seed, listenPort, id))
    ensures var r := if !Fits(ContactRequest(p, seed, listenPort, id)) || old(ch.incoming) == [] then None
                     else CheckAcceptance(p, old(ch.incoming)[0], port);
            && ok == r.Some?
            && store.Book() == if ok then Server.Introduced(p.lower, old(store.Book()), r.value, host) else old(store.Book())
  {
    hide CheckAcceptance, Server.Introduced, Fits, ContactRequest;
    ok := ch.Send(ContactRequest(p, seed, listenPort, id));
    if !ok {
      return;
    }
    var reply := ch.Receive();
    if reply == None {
      return false;
    }
    var r := CheckAcceptance(p, reply.value, port);
    ok := r.Some?;
    if ok {
      Server.Introduce(store, r.value, host);
    }
  }

  /** Two honest peers introduce themselves: the server accepts the request as coming from the fingerprint of the
      client's key, and the client accepts the server's reply as coming from that of the server's key. */
  lemma MutualIntroduction(p: Prims, seed: Bytes, listenPort: int, id: Str, h: Server.Host, port: J)
    requires SignaturesVerify(p) && h.p == p
    ensures Server.CheckIntroduction(p, ContactRequest(p, seed, listenPort, id))
         == Server.Accepts(Server.Introduction(Fingerprint(p, p.publicKey(seed)), B64e(p.publicKey(seed)), JInt(listenPort)))
    ensures CheckAcceptance(p, Server.AcceptEnvelope(h), port)
         == Some(Server.Introduction(h.Fp(), B64e(h.Pub()), JInt(h.port)))
  {
    hide BuildEnvelope, VerifyEnvelope, B64d, B64e, Fingerprint;
    var mine, theirs := Server.PeerPayload(p.publicKey(seed), listenPort), Server.PeerPayload(h.Pub(), h.port);
    Server.PeerPayloadFields(p.publicKey(seed), listenPort);
    Server.PeerPayloadFields(h.Pub(), h.port);
    RoundTrip(p.publicKey(seed));
    RoundTrip(h.Pub());
    BuiltEnvelopeFields(p, seed, Asc("CONTACT_REQUEST"), mine, id);
    BuiltEnvelopeVerifies(p, seed, Asc("CONTACT_REQUEST"), mine, id);
    BuiltEnvelopeFields(p, h.seed, Asc("CONTACT_ACCEPT"), theirs, h.ids(0));
    BuiltEnvelopeVerifies(p, h.seed, Asc("CONTACT_ACCEPT"), theirs, h.ids(0));
  }

  // ---------------------------------------------------------------- key rotation

  /** The notice notify_key_rotation sends to every contact, signed with the old key. */
  function RotationNotice(p: Prims, oldSeed: Bytes, newSeed: Bytes, id: Str): J
  {
    BuildEnvelope(p, oldSeed, Asc("KEY_ROTATE_NOTICE"),
                  JObj(map[Asc("new_fingerprint") := JStr(Fingerprint(p, p.publicKey(newSeed))),
                           Asc("new_raw_pub") := JStr(B64e(p.publicKey(newSeed)))]), id)
  }

  /** A contact that holds the sender's old key accepts the notice, with the new key and its fingerprint. */
  lemma NoticeAccepted(p: Prims, oldSeed: Bytes, newSeed: Bytes, id: Str)
    requires SignaturesVerify(p)
    ensures Server.CheckRotation(p, RotationNotice(p, oldSeed, newSeed, id), B64e(p.publicKey(oldSeed)))
         == Server.Accepts(Server.Notice(Fingerprint(p, p.publicKey(newSeed)), B64e(p.publicKey(newSeed))))
  {
    hide BuildEnvelope, VerifyEnvelope, B64d, B64e, Fingerprint;
    var payload := JObj(map[Asc("new_fingerprint") := JStr(Fingerprint(p, p.publicKey(newSeed))),
                            Asc("new_raw_pub") := JStr(B64e(p.publicKey(newSeed)))]);
    RoundTrip(p.publicKey(oldSeed));
    RoundTrip(p.publicKey(newSeed));
    BuiltEnvelopeFields(p, oldSeed, Asc("KEY_ROTATE_NOTICE"), payload, id);
    BuiltEnvelopeVerifies(p, oldSeed, Asc("KEY_ROTATE_NOTICE"), payload, id);
  }
}
