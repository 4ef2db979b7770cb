/** server.py: what one connection's handler sends, and what it does to the contact store. */
module Server {
  import opened Bytes
  import opened Json
  import opened CryptoUtils
  import opened Base64
  import opened Protocol
  import opened Channel
  import opened Transfer
  import opened Handshake
  import opened Contacts

  datatype Disk = Missing | Unreadable(reason: Str) | Contents(data: Bytes)

  /** Everything a handler reads besides its socket and the contact store: its identity, the share index
      and its public list, the disk, the user's consent, its ephemeral key, nonce and message ids, and how
      an f-string shows a JSON value. */
  datatype Host = Host(p: Prims, seed: Bytes, port: int, index: map<Str, SharedFile>, disk: Str -> Disk,
                       consent: (Str, Str, Str) -> bool, shown: Option<J> -> Str, eph: Bytes, nonce: Bytes,
                       transferId: Str, ids: nat -> Str, chunkIds: nat -> Str, listing: J)
  {
    function Pub(): Bytes { p.publicKey(seed) }
    function Fp(): Str { Fingerprint(p, Pub()) }
    function Envelope(typ: Str, payload: J, k: nat): J { BuildEnvelope(p, seed, typ, payload, ids(k)) }
    function Error(message: Str, k: nat): J { ErrorEnvelope(p, seed, message, ids(k)) }
  }

  function FirstSixteen(s: Str): Str { s[..if |s| < 16 then |s| else 16] }

  function Sent(env: J): seq<J> { if Fits(env) then [env] else [] }

  // ---------------------------------------------------------------- the file session

  function ResponderFor(h: Host, c: Record, pub: Bytes): Responder
  {
    Responder(h.Fp(), c.fingerprint, pub, h.eph, h.nonce)
  }

  /** What the handshake sends, and the keys it ends with. */
  datatype Opened = Opened(out: seq<J>, keys: Option<SessionKeys>)

  function OpenSession(h: Host, c: Record, env: J): Opened
  {
    match B64d(c.rawPub)
    case None => Opened([], None)
    case Some(pub) =>
      var r := ResponderFor(h, c, pub);
      Opened(ResponderReply(h.p, h.seed, r, env, h.ids(0)),
             match OpenHandshake(h.p, r, env)
             case None => None
             case Some(o) => if Fits(ReplyEnvelope(h.p, h.seed, r, o, h.ids(0))) then FinishResponder(h.p, r, o) else None)
  }

  function DenyEnvelope(h: Host, fileId: J, reason: Str): J
  {
    h.Envelope(Asc("FILE_DENY"), JObj(map[Asc("file_id") := fileId, Asc("reason") := JStr(reason)]), 1)
  }

  function ApproveEnvelope(h: Host, fileId: Str): J
  {
    h.Envelope(Asc("FILE_APPROVE"), JObj(map[Asc("file_id") := JStr(fileId)]), 1)
  }

  function JobFor(h: Host, keys: SessionKeys, f: SharedFile, data: Bytes): SendJob
  {
    SendJob(h.p, h.seed, keys, f, data, h.transferId, h.chunkIds)
  }

  /** _send_file */
  function FileFrames(h: Host, keys: SessionKeys, f: SharedFile): seq<J>
  {
    match h.disk(f.path)
    case Missing => Sent(h.Error(Asc("File not found on disk: ") + f.filename, 2))
    case Unreadable(e) => Sent(h.Error(Asc("Cannot read file: ") + e, 2))
    case Contents(data) => SentFrames(JobFor(h, keys, f, data))
  }

  predicate Consents(h: Host, c: Record, f: SharedFile)
  {
    h.consent(c.fingerprint, if c.name != [] then c.name else FirstSixteen(c.fingerprint), f.filename)
  }

  function Approved(h: Host, keys: SessionKeys, f: SharedFile, fileId: Str): seq<J>
  {
    if Fits(ApproveEnvelope(h, fileId)) then [ApproveEnvelope(h, fileId)] + FileFrames(h, keys, f) else []
  }

  /** `payload.get("file_id", "")` */
  function AskedFile(payload: J): J
  {
    match Field(payload, Asc("file_id"))
    case None => JStr([])
    case Some(v) => v
  }

  /** What is sent in answer to the first frame after the handshake. */
  function Answer(h: Host, c: Record, keys: SessionKeys, req: J): seq<J>
  {
    if !req.JObj? then []
    else if !HasType(req, Asc("FILE_REQUEST")) then
      Sent(h.Error(Asc("Expected FILE_REQUEST, got ") + h.shown(Field(req, Asc("type"))), 1))
    else
      match Field(req, Asc("payload"))
      case None => []
      case Some(payload) =>
        if !payload.JObj? then []
        else
          var fileId := AskedFile(payload);
          if fileId.JArr? || fileId.JObj? then []
          else if !fileId.JStr? || fileId.s !in h.index then
            Sent(DenyEnvelope(h, fileId, Asc("File not found in share index")))
          else if !Consents(h, c, h.index[fileId.s]) then Sent(DenyEnvelope(h, fileId, Asc("Denied by user")))
          else Approved(h, keys, h.index[fileId.s], fileId.s)
  }

  /** The answer to a FILE_REQUEST for the text `fileId`, frame by frame: FILE_DENY for a file not in the index, and for one
      the user does not let this contact have; FILE_APPROVE and what _send_file sends for any other. */
  lemma AnswerMeans(h: Host, c: Record, keys: SessionKeys, req: J, payload: J, fileId: Str) returns (deny: J, approve: J)
    requires HasType(req, Asc("FILE_REQUEST")) && Field(req, Asc("payload")) == Some(payload)
    requires Field(payload, Asc("file_id")) == Some(JStr(fileId))
    ensures HasType(deny, Asc("FILE_DENY")) && HasType(approve, Asc("FILE_APPROVE"))
    ensures Field(approve, Asc("payload")) == Some(JObj(map[Asc("file_id") := JStr(fileId)]))
    ensures var shown := if c.name != [] then c.name else c.fingerprint[..if |c.fingerprint| < 16 then |c.fingerprint| else 16];
            var refused := fileId !in h.index || !h.consent(c.fingerprint, shown, h.index[fileId].filename);
            var reason := if fileId !in h.index then "File not found in share index" else "Denied by user";
            && Field(deny, Asc("payload")) == Some(JObj(map[Asc("file_id") := JStr(fileId), Asc("reason") := JStr(Asc(reason))]))
            && Answer(h, c, keys, req) == if refused then Sent(deny)
                                          else if !Fits(approve) then []
                                          else [approve] + FileFrames(h, keys, h.index[fileId])
  {
    hide BuildEnvelope, Fits, HasType, FileFrames;
    var reason := if fileId !in h.index then "File not found in share index" else "Denied by user";
    deny, approve := DenyEnvelope(h, JStr(fileId), Asc(reason)), ApproveEnvelope(h, fileId);
    BuiltEnvelopeFields(h.p, h.seed, Asc("FILE_DENY"),
                        JObj(map[Asc("file_id") := JStr(fileId), Asc("reason") := JStr(Asc(reason))]), h.ids(1));
    BuiltEnvelopeFields(h.p, h.seed, Asc("FILE_APPROVE"), JObj(map[Asc("file_id") := JStr(fileId)]), h.ids(1));
    RequestIsObject(req);
  }

  /** A request without a file_id asks for the empty name. */
  lemma AnswerToNoName(h: Host, c: Record, keys: SessionKeys, req: J, fields: map<Str, J>) returns (deny: J)
    requires HasType(req, Asc("FILE_REQUEST")) && Field(req, Asc("payload")) == Some(JObj(fields))
    requires Asc("file_id") !in fields && [] !in h.index
    ensures Field(deny, Asc("payload"))
         == Some(JObj(map[Asc("file_id") := JStr([]), Asc("reason") := JStr(Asc("File not found in share index"))]))
    ensures HasType(deny, Asc("FILE_DENY")) && Answer(h, c, keys, req) == Sent(deny)
  {
    hide BuildEnvelope, HasType, Fits, FileFrames, Consents;
    deny := DenyEnvelope(h, JStr([]), Asc("File not found in share index"));
    BuiltEnvelopeFields(h.p, h.seed, Asc("FILE_DENY"),
                        JObj(map[Asc("file_id") := JStr([]), Asc("reason") := JStr(Asc("File not found in share index"))]),
                        h.ids(1));
    RequestIsObject(req);
  }

  /** A file_id that is a list or an object raises; one that is not text is not in the index, and is named in the refusal. */
  lemma AnswerToNoText(h: Host, c: Record, keys: SessionKeys, req: J, payload: J, name: J) returns (deny: J)
    requires HasType(req, Asc("FILE_REQUEST")) && Field(req, Asc("payload")) == Some(payload)
    requires Field(payload, Asc("file_id")) == Some(name) && !name.JStr?
    ensures Field(deny, Asc("payload"))
         == Some(JObj(map[Asc("file_id") := name, Asc("reason") := JStr(Asc("File not found in share index"))]))
    ensures HasType(deny, Asc("FILE_DENY"))
    ensures Answer(h, c, keys, req) == if name.JArr? || name.JObj? then [] else Sent(deny)
  {
    hide BuildEnvelope, HasType, Fits, FileFrames, Consents;
    deny := DenyEnvelope(h, name, Asc("File not found in share index"));
    BuiltEnvelopeFields(h.p, h.seed, Asc("FILE_DENY"),
                        JObj(map[Asc("file_id") := name, Asc("reason") := JStr(Asc("File not found in share index"))]), h.ids(1));
    RequestIsObject(req);
  }

  lemma RequestIsObject(req: J)
    requires HasType(req, Asc("FILE_REQUEST"))
    ensures req.JObj?
  {
  }

  /** Any other frame after the handshake gets one ERROR naming its type, and no file. */
  lemma AnswerToOthers(h: Host, c: Record, keys: SessionKeys, req: J)
    requires req.JObj? && !HasType(req, Asc("FILE_REQUEST"))
    ensures Answer(h, c, keys, req)
         == Sent(h.Error(Asc("Expected FILE_REQUEST, got ") + h.shown(Field(req, Asc("type"))), 1))
  {
    hide BuildEnvelope, HasType;
  }

  /** _send_file on a file that is missing or cannot be read sends one ERROR. */
  lemma UnreadableFile(h: Host, keys: SessionKeys, f: SharedFile)
    ensures h.disk(f.path).Missing? ==> FileFrames(h, keys, f) == Sent(h.Error(Asc("File not found on disk: ") + f.filename, 2))
    ensures h.disk(f.path).Unreadable?
            ==> FileFrames(h, keys, f) == Sent(h.Error(Asc("Cannot read file: ") + h.disk(f.path).reason, 2))
  {
  }

  method SendIfFits(ch: Channel, env: J)
    modifies ch`sent
    ensures ch.sent == old(ch.sent) + Sent(env)
  {
    var ok := ch.Send(env);
  }

  /** _handle_file_session after the handshake, from the request on. */
  method AnswerRequest(ch: Channel, h: Host, c: Record, keys: SessionKeys, req: J)
    modifies ch`sent
    ensures ch.sent == old(ch.sent) + Answer(h, c, keys, req)
  {
    hide ErrorEnvelope, DenyEnvelope, ApproveEnvelope, BuildEnvelope, Fits, HasType, SentFrames, Consents;
    if !req.JObj? {
      return;
    }
    if !HasType(req, Asc("FILE_REQUEST")) {
      SendIfFits(ch, h.Error(Asc("Expected FILE_REQUEST, got ") + h.shown(Field(req, Asc("type"))), 1));
      return;
    }
    var payload := Field(req, Asc("payload"));
    if payload == None || !payload.value.JObj? {
      return;
    }
    var fileId := AskedFile(payload.value);
    if fileId.JArr? || fileId.JObj? {
      return;
    }
    if !fileId.JStr? || fileId.s !in h.index {
      SendIfFits(ch, DenyEnvelope(h, fileId, Asc("File not found in share index")));
      return;
    }
    var f := h.index[fileId.s];
    if !Consents(h, c, f) {
      SendIfFits(ch, DenyEnvelope(h, fileId, Asc("Denied by user")));
      return;
    }
    var ok := ch.Send(ApproveEnvelope(h, fileId.s));
    if !ok {
      return;
    }
    match h.disk(f.path) {
      case Missing => SendIfFits(ch, h.Error(Asc("File not found on disk: ") + f.filename, 2));
      case Unreadable(e) => SendIfFits(ch, h.Error(Asc("Cannot read file: ") + e, 2));
      case Contents(data) => SendFile(ch, JobFor(h, keys, f, data));
    }
    Assoc(old(ch.sent), [ApproveEnvelope(h, fileId.s)], FileFrames(h, keys, f));
  }

  /** _handle_file_session, every exception included. */
  method HandleFileSession(ch: Channel, h: Host, contact: Contact, env: J)
    modifies ch
    ensures var o := OpenSession(h, contact.Value(), env);
            && ch.sent == old(ch.sent) + o.out
                          + (if o.keys.Some? && old(ch.incoming) != []
                             then Answer(h, contact.Value(), o.keys.value, old(ch.incoming)[0]) else [])
            && ch.incoming == if o.keys.Some? && old(ch.incoming) != [] then old(ch.incoming)[1..] else old(ch.incoming)
  {
    hide ResponderReply, OpenHandshake, FinishResponder, Fits, ReplyEnvelope, Answer;
    var c := contact.Value();
    var pub := B64d(contact.rawPub);
    if pub == None {
      return;
    }
    var keys := PerformResponder(ch, h.p, h.seed, ResponderFor(h, c, pub.value), env, h.ids(0));
    if keys == None {
      return;
    }
    var req := ch.Receive();
    if req == None {
      return;
    }
    AnswerRequest(ch, h, c, keys.value, req.value);
  }

  // ---------------------------------------------------------------- contact requests

  datatype Verdict<+T> = Raises | Rejects(message: Str) | Accepts(value: T)

  datatype Introduction = Introduction(fp: Str, rawPub: Str, port: J)

  /** The checks of _handle_contact_request. */
  function CheckIntroduction(p: Prims, env: J): Verdict<Introduction>
  {
    var payload := match Field(env, Asc("payload")) { case None => JObj(map[]) case Some(v) => v };
    if !payload.JObj? then Raises
    else
      var rawPub := match Field(payload, Asc("raw_pub")) { case None => JStr([]) case Some(v) => v };
      if !rawPub.JStr? || B64d(rawPub.s) == None then Rejects(Asc("Invalid raw_pub"))
      else
        match VerifyEnvelope(p, env, B64d(rawPub.s).value)
        case None => Raises
        case Some(false) => Rejects(Asc("[SECURITY] CONTACT_REQUEST signature invalid"))
        case Some(true) =>
          match TextField(env, Asc("from"))
          case None => Raises
          case Some(fp) =>
            Accepts(Introduction(fp, rawPub.s, match Field(payload, Asc("port")) { case None => JInt(0) case Some(v) => v }))
  }

  /** The field is the text `s`; a missing one counts as empty. */
  predicate GivenAs(fields: map<Str, J>, name: Str, s: Str) { if name in fields then fields[name] == JStr(s) else s == [] }

  /** What a CONTACT_REQUEST must be to introduce its sender as `i`: it announces a key, and its signature, over its own
      type, id, sender and payload, verifies under that key. */
  predicate Introduces(p: Prims, env: J, i: Introduction)
  {
    && TextField(env, Asc("from")) == Some(i.fp) && Field(env, Asc("payload")).Some? && Field(env, Asc("payload")).value.JObj?
    && var payload := Field(env, Asc("payload")).value;
       && GivenAs(payload.m, Asc("raw_pub"), i.rawPub)
       && i.port == (if Asc("port") in payload.m then payload.m[Asc("port")] else JInt(0))
       && B64d(i.rawPub).Some? && SignatureHolds(p, env, Asc("CONTACT_REQUEST"), B64d(i.rawPub).value)
  }

  /** A contact request is accepted exactly when it introduces its sender, and then as just that. */
  lemma IntroductionIs(p: Prims, env: J, i: Introduction)
    requires HasType(env, Asc("CONTACT_REQUEST"))
    ensures CheckIntroduction(p, env) == Accepts(i) <==> Introduces(p, env, i)
  {
    hide VerifyEnvelope, B64d, CanonicalEnvelope;
    SignatureNeeded(p, env, Asc("CONTACT_REQUEST"), if B64d(i.rawPub).Some? then B64d(i.rawPub).value else []);
    NothingDecoded();
  }

  lemma NothingDecoded()
    ensures B64d([]) == Some([])
  {
  }

  function PeerPayload(key: Bytes, port: int): J
  {
    JObj(map[Asc("raw_pub") := JStr(B64e(key)), Asc("port") := JInt(port)])
  }

  lemma PeerPayloadFields(key: Bytes, port: int)
    ensures var payload := PeerPayload(key, port);
            Field(payload, Asc("raw_pub")) == Some(JStr(B64e(key))) && Field(payload, Asc("port")) == Some(JInt(port))
  {
    hide B64e;
  }

  /** A contact request under any fingerprint, signed by whoever holds `seed`. */
  function IntroductionAs(p: Prims, seed: Bytes, fp: Str, id: Str, port: int): J
  {
    var payload := PeerPayload(p.publicKey(seed), port);
    var typ := Asc("CONTACT_REQUEST");
    JObj(EnvelopeDict(fp, id, payload, B64e(p.sign(seed, CanonicalEnvelope(typ, id, fp, payload))), typ))
  }

  /** It is accepted, whatever the fingerprint. */
  lemma AnyFingerprintAccepted(p: Prims, seed: Bytes, fp: Str, id: Str, port: int)
    requires SignaturesVerify(p)
    ensures HasType(IntroductionAs(p, seed, fp, id, port), Asc("CONTACT_REQUEST"))
    ensures CheckIntroduction(p, IntroductionAs(p, seed, fp, id, port))
         == Accepts(Introduction(fp, B64e(p.publicKey(seed)), JInt(port)))
  {
    hide VerifyEnvelope, CanonicalEnvelope, B64d, B64e, EnvelopeDict, PeerPayload;
    var payload := PeerPayload(p.publicKey(seed), port);
    var typ := Asc("CONTACT_REQUEST");
    var sig := p.sign(seed, CanonicalEnvelope(typ, id, fp, payload));
    PeerPayloadFields(p.publicKey(seed), port);
    EnvelopeFields(fp, id, payload, B64e(sig), typ);
    RoundTrip(sig);
    RoundTrip(p.publicKey(seed));
    VerifyByFields(p, IntroductionAs(p, seed, fp, id, port), typ, id, fp, payload, B64e(sig), sig, p.publicKey(seed));
    assert PeerPayload(p.publicKey(seed), port).JObj? by { ObjectPayload(p.publicKey(seed), port); }
  }

  lemma ObjectPayload(key: Bytes, port: int)
    ensures PeerPayload(key, port).JObj?
  {
  }

  /** A stranger is added as given; for a known contact only the address changes. */
  ghost function Introduced(low: Str -> Str, b: Book, i: Introduction, host: Str): Book
  {
    if Lookup(low, b.Keys, i.fp) == None
    then Added(b, Record(i.fp, i.rawPub, host, i.port, [], false, false, None))
    else AddressUpdated(low, b, i.fp, host, i.port)
  }

  /** What an accepted introduction does. A stranger gets a fresh record; a known contact keeps its key and marks and
      gets the address. A stranger is one the lookup does not find: a contact stored under the same fingerprint, which
      must then not be in lower case, is replaced. */
  lemma IntroductionEffect(low: Str -> Str, b: Book, i: Introduction, host: Str, k: Str)
    requires LikeStrLower(low)
    ensures var a := Introduced(low, b, i, host);
            && (Lookup(low, b.Keys, i.fp) == None ==>
                  && a.Keys == b.Keys + {i.fp} && a[i.fp] == Record(i.fp, i.rawPub, host, i.port, [], false, false, None)
                  && (k in b && k != i.fp ==> a[k] == b[k]) && (i.fp in b ==> low(i.fp) != i.fp))
            && (Lookup(low, b.Keys, i.fp).Some? ==>
                  && a.Keys == b.Keys
                  && (k in b ==>
                        a[k] == if Lookup(low, b.Keys, i.fp) == Some(k) then b[k].(host := host, port := i.port) else b[k]))
  {
    hide Lookup;
    if i.fp in b { OwnKeyResolves(low, b.Keys, i.fp); }
  }

  function AcceptEnvelope(h: Host): J
  {
    h.Envelope(Asc("CONTACT_ACCEPT"), PeerPayload(h.Pub(), h.port), 0)
  }

  function Reply<T>(h: Host, v: Verdict<T>): seq<J>
  {
    match v
    case Raises => []
    case Rejects(m) => Sent(h.Error(m, 0))
    case Accepts(_) => Sent(AcceptEnvelope(h))
  }

  method SendReply<T>(ch: Channel, h: Host, v: Verdict<T>)
    modifies ch`sent
    ensures ch.sent == old(ch.sent) + Reply(h, v)
  {
    hide AcceptEnvelope, ErrorEnvelope;
    match v {
      case Raises =>
      case Rejects(m) => SendIfFits(ch, h.Error(m, 0));
      case Accepts(_) => SendIfFits(ch, AcceptEnvelope(h));
    }
  }

  method Introduce(store: ContactStore, i: Introduction, host: Str)
    requires store.Valid()
    modifies store, store.contacts.Values
    ensures store.Valid() && store.Book() == Introduced(store.low, old(store.Book()), i, host)
  {
    hide Lookup;
    assert store.Book().Keys == store.contacts.Keys;
    var existing := store.Get(i.fp);
    if existing == null {
      var contact := new Contact(i.fp, i.rawPub, host, i.port, []);
      store.Add(contact);
    } else {
      store.UpdateAddress(i.fp, host, i.port);
    }
  }

  /** _handle_contact_request */
  method HandleContactRequest(ch: Channel, store: ContactStore, h: Host, env: J, host: Str)
    requires store.Valid()
    modifies ch`sent, store, store.contacts.Values
    ensures store.Valid()
    ensures ch.sent == old(ch.sent) + Reply(h, CheckIntroduction(h.p, env))
    ensures store.Book() == match CheckIntroduction(h.p, env) {
                              case Accepts(i) => Introduced(store.low, old(store.Book()), i, host)
                              case _ => old(store.Book()) }
    ensures HasType(env, Asc("CONTACT_REQUEST")) && store.Book() != old(store.Book())
            ==> exists i :: Introduces(h.p, env, i) && store.Book() == Introduced(store.low, old(store.Book()), i, host)
  {
    hide CheckIntroduction, Reply, Introduced, Introduces, HasType;
    if HasType(env, Asc("CONTACT_REQUEST")) {
      forall i ensures CheckIntroduction(h.p, env) == Accepts(i) <==> Introduces(h.p, env, i) { IntroductionIs(h.p, env, i); }
    }
    var v := CheckIntroduction(h.p, env);
    if v.Accepts? {
      Introduce(store, v.value, host);
    }
    SendReply(ch, h, v);
  }

  // ---------------------------------------------------------------- key rotation

  datatype Notice = Notice(newFp: Str, newPub: Str)

  /** The checks of _handle_key_rotate: signed with the old key, and the new fingerprint is that of the new key. */
  function CheckRotation(p: Prims, env: J, oldPub: Str): Verdict<Notice>
  {
    match B64d(oldPub)
    case None => Raises
    case Some(pub) =>
      match VerifyEnvelope(p, env, pub)
      case None => Raises
      case Some(false) => Rejects(Asc("[SECURITY] KEY_ROTATE_NOTICE signature invalid"))
      case Some(true) =>
        match Field(env, Asc("payload"))
        case Some(JObj(_)) =>
          var payload := Field(env, Asc("payload")).value;
          var newFp := match Field(payload, Asc("new_fingerprint")) { case None => JStr([]) case Some(v) => v };
          var newPub := match Field(payload, Asc("new_raw_pub")) { case None => JStr([]) case Some(v) => v };
          if !newPub.JStr? || B64d(newPub.s) == None then Rejects(Asc("Invalid new_raw_pub"))
          else if newFp != JStr(Fingerprint(p, B64d(newPub.s).value)) then
            Rejects(Asc("[SECURITY] New fingerprint doesn't match new public key"))
          else Accepts(Notice(newFp.s, newPub.s))
        case _ => Raises
  }

  /** What a KEY_ROTATE_NOTICE must be to put `r` in the place of the contact with key `oldPub`: signed with that key over
      its own type, id, sender and payload, and naming a new key and the hexadecimal SHA-256 of that key. */
  predicate Notifies(p: Prims, env: J, oldPub: Str, r: Notice)
  {
    && B64d(oldPub).Some? && SignatureHolds(p, env, Asc("KEY_ROTATE_NOTICE"), B64d(oldPub).value)
    && Field(env, Asc("payload")).value.JObj?
    && var payload := Field(env, Asc("payload")).value;
       && GivenAs(payload.m, Asc("new_raw_pub"), r.newPub) && GivenAs(payload.m, Asc("new_fingerprint"), r.newFp)
       && B64d(r.newPub).Some? && r.newFp == HexString(p.sha256(B64d(r.newPub).value))
  }

  lemma RotationIs(p: Prims, env: J, oldPub: Str, r: Notice)
    requires HasType(env, Asc("KEY_ROTATE_NOTICE"))
    ensures CheckRotation(p, env, oldPub) == Accepts(r) <==> Notifies(p, env, oldPub, r)
  {
    hide VerifyEnvelope, B64d, CanonicalEnvelope, HexString;
    SignatureNeeded(p, env, Asc("KEY_ROTATE_NOTICE"), if B64d(oldPub).Some? then B64d(oldPub).value else []);
    NothingDecoded();
  }

  /** A rotation notice under any sender name, signed by whoever holds `seed`. */
  function NoticeAs(p: Prims, seed: Bytes, next: Bytes, from: Str, id: Str): J
  {
    var payload := JObj(map[Asc("new_fingerprint") := JStr(Fingerprint(p, p.publicKey(next))),
                            Asc("new_raw_pub") := JStr(B64e(p.publicKey(next)))]);
    var typ := Asc("KEY_ROTATE_NOTICE");
    JObj(EnvelopeDict(from, id, payload, B64e(p.sign(seed, CanonicalEnvelope(typ, id, from, payload))), typ))
  }

  /** The contact whose key signed it is rotated, whatever name it uses for itself. */
  lemma AnyNoticeAccepted(p: Prims, seed: Bytes, next: Bytes, from: Str, id: Str)
    requires SignaturesVerify(p)
    ensures var env := NoticeAs(p, seed, next, from, id);
            && HasType(env, Asc("KEY_ROTATE_NOTICE")) && TextField(env, Asc("from")) == Some(from)
            && CheckRotation(p, env, B64e(p.publicKey(seed)))
               == Accepts(Notice(Fingerprint(p, p.publicKey(next)), B64e(p.publicKey(next))))
  {
    hide VerifyEnvelope, CanonicalEnvelope, B64d, B64e, EnvelopeDict, Fingerprint, CheckRotation, SignatureHolds;
    var payload := JObj(map[Asc("new_fingerprint") := JStr(Fingerprint(p, p.publicKey(next))),
                            Asc("new_raw_pub") := JStr(B64e(p.publicKey(next)))]);
    var typ, env := Asc("KEY_ROTATE_NOTICE"), NoticeAs(p, seed, next, from, id);
    var sig := p.sign(seed, CanonicalEnvelope(typ, id, from, payload));
    EnvelopeFields(from, id, payload, B64e(sig), typ);
    RoundTrip(sig);
    RoundTrip(p.publicKey(seed));
    RoundTrip(p.publicKey(next));
    NoticeHolds(p, env, B64e(p.publicKey(seed)), sig, payload, id, from);
    RotationIs(p, env, B64e(p.publicKey(seed)), Notice(Fingerprint(p, p.publicKey(next)), B64e(p.publicKey(next))));
    NoticeFields(p, next);
  }

  lemma NoticeHolds(p: Prims, env: J, oldPub: Str, sig: Bytes, payload: J, id: Str, from: Str)
    requires TextField(env, Asc("sig")) == Some(B64e(sig)) && B64d(B64e(sig)) == Some(sig) && |sig| == 64
    requires TextField(env, Asc("id")) == Some(id) && TextField(env, Asc("from")) == Some(from)
    requires Field(env, Asc("payload")) == Some(payload) && B64d(oldPub).Some?
    requires p.verify(B64d(oldPub).value, sig, CanonicalEnvelope(Asc("KEY_ROTATE_NOTICE"), id, from, payload))
    ensures SignatureHolds(p, env, Asc("KEY_ROTATE_NOTICE"), B64d(oldPub).value)
  {
    hide CanonicalEnvelope, B64d;
  }

  lemma NoticeFields(p: Prims, next: Bytes)
    ensures var payload := JObj(map[Asc("new_fingerprint") := JStr(Fingerprint(p, p.publicKey(next))),
                                    Asc("new_raw_pub") := JStr(B64e(p.publicKey(next)))]);
            && Field(payload, Asc("new_fingerprint")) == Some(JStr(HexString(p.sha256(p.publicKey(next)))))
            && Field(payload, Asc("new_raw_pub")) == Some(JStr(B64e(p.publicKey(next))))
  {
    hide B64e, HexString;
  }

  /** The old contact is revoked in favour of the new one, which inherits its address and alias. */
  ghost function Rotated(low: Str -> Str, b: Book, k: Str, r: Notice): Book
    requires k in b
  {
    Added(MarkedRevoked(low, b, k, Some(r.newFp)),
          Record(r.newFp, r.newPub, b[k].host, b[k].port, b[k].name, false, false, None))
  }

  method ReplaceContact(store: ContactStore, contact: Contact, r: Notice)
    requires store.Valid() && contact.fingerprint in store.contacts && store.contacts[contact.fingerprint] == contact
    modifies store, store.contacts.Values
    ensures store.Valid() && store.Book() == Rotated(store.low, old(store.Book()), contact.fingerprint, r)
  {
    hide Lookup;
    ghost var was := store.Book();
    assert was[contact.fingerprint] == contact.Value();
    store.MarkRevoked(contact.fingerprint, Some(r.newFp));
    SameAddress(store.low, was, contact.fingerprint, r.newFp);
    assert store.Book()[contact.fingerprint] == contact.Value();
    var next := new Contact(r.newFp, r.newPub, contact.host, contact.port, contact.name);
    store.Add(next);
  }

  lemma SameAddress(low: Str -> Str, b: Book, k: Str, newFp: Str)
    requires k in b
    ensures var a := MarkedRevoked(low, b, k, Some(newFp));
            k in a && a[k].host == b[k].host && a[k].port == b[k].port && a[k].name == b[k].name
  {
  }

  /** _handle_key_rotate */
  method HandleKeyRotate(ch: Channel, store: ContactStore, h: Host, env: J, contact: Contact)
    requires store.Valid() && contact.fingerprint in store.contacts && store.contacts[contact.fingerprint] == contact
    modifies ch`sent, store, store.contacts.Values
    ensures store.Valid()
    ensures ch.sent == old(ch.sent) + Reply(h, CheckRotation(h.p, env, contact.rawPub))
    ensures store.Book() == match CheckRotation(h.p, env, contact.rawPub) {
                              case Accepts(r) => Rotated(store.low, old(store.Book()), contact.fingerprint, r)
                              case _ => old(store.Book()) }
    ensures HasType(env, Asc("KEY_ROTATE_NOTICE")) && store.Book() != old(store.Book())
            ==> exists r :: Notifies(h.p, env, contact.rawPub, r)
  {
    hide CheckRotation, Reply, Lookup, Rotated, Notifies, HasType;
    if HasType(env, Asc("KEY_ROTATE_NOTICE")) {
      forall r
        ensures CheckRotation(h.p, env, contact.rawPub) == Accepts(r) <==> Notifies(h.p, env, contact.rawPub, r)
      {
        RotationIs(h.p, env, contact.rawPub, r);
      }
    }
    var v := CheckRotation(h.p, env, contact.rawPub);
    if v.Accepts? {
      ReplaceContact(store, contact, v.value);
    }
    SendReply(ch, h, v);
  }

  lemma AcceptedRotation(p: Prims, env: J, oldPub: Str)
    requires CheckRotation(p, env, oldPub).Accepts?
    ensures var r := CheckRotation(p, env, oldPub).value;
            && B64d(r.newPub).Some? && r.newFp == Fingerprint(p, B64d(r.newPub).value)
            && B64d(oldPub).Some? && VerifyEnvelope(p, env, B64d(oldPub).value) == Some(true)
  {
  }

  /** What an accepted notice leaves behind. A contact stored under its lower-case fingerprint ends revoked
      with the new one as its successor, unless it named itself; stored otherwise it is not marked at all, but
      another contact its fingerprint resolves to may be.
      The new record starts unverified. */
  lemma RotationEffect(low: Str -> Str, b: Book, k: Str, r: Notice)
    requires LikeStrLower(low) && k in b && b[k].fingerprint == k
    ensures var a := Rotated(low, b, k, r);
            && r.newFp in a && !a[r.newFp].verified && !a[r.newFp].revoked && a[r.newFp].successor == None
            && a[r.newFp].rawPub == r.newPub && a[r.newFp].host == b[k].host && a[r.newFp].port == b[k].port
            && (low(k) == k && k != r.newFp ==> a[k] == b[k].(revoked := true, successor := Some(r.newFp)))
            && (low(k) != k && k != r.newFp ==> a[k] == b[k])
            && (forall j :: j in b && j != r.newFp && a[j] != b[j] ==> Lookup(low, b.Keys, k) == Some(j))
            && (low(k) == k ==> forall j :: j in b && j != k && j != r.newFp ==> a[j] == b[j])
  {
    hide Lookup;
    OwnKeyResolves(low, b.Keys, k);
  }

  // ---------------------------------------------------------------- dispatch

  const REVOKED: Str := Asc("[SECURITY] Your key has been marked revoked")

  /** The contact whose handler runs for this first frame, or the error sent instead. */
  datatype Route = NoRoute | Unknown(message: Str) | For(fp: Str)

  ghost function RouteTo(low: Str -> Str, b: Book, env: J, refuseRevoked: bool): (r: Route)
    ensures r.For? ==> r.fp in b
  {
    match (match Field(env, Asc("from")) { case None => JStr([]) case Some(v) => v })
    case JStr(fp) =>
      (match Lookup(low, b.Keys, fp)
       case None => Unknown(Asc("Unknown peer: ") + FirstSixteen(fp))
       case Some(k) => if refuseRevoked && b[k].revoked then Unknown(REVOKED) else For(k))
    case _ => NoRoute
  }

  method FindContact(store: ContactStore, env: J, refuseRevoked: bool) returns (contact: Contact?, error: Option<Str>)
    requires store.Valid()
    ensures match RouteTo(store.low, store.Book(), env, refuseRevoked)
            case NoRoute => contact == null && error == None
            case Unknown(m) => contact == null && error == Some(m)
            case For(k) => k in store.contacts && contact == store.contacts[k] && error == None
  {
    hide Lookup;
    assert store.Book().Keys == store.contacts.Keys;
    contact, error := null, None;
    var from := Field(env, Asc("from"));
    if from.Some? && !from.value.JStr? {
      return;
    }
    var fp := if from == None then [] else from.value.s;
    var c := store.Get(fp);
    if c == null {
      error := Some(Asc("Unknown peer: ") + FirstSixteen(fp));
    } else if refuseRevoked && c.revoked {
      error := Some(REVOKED);
    } else {
      contact := c;
    }
  }

  function HelloEnvelope(h: Host): J
  {
    h.Envelope(Asc("HELLO"), PeerPayload(h.Pub(), h.port), 0)
  }

  function Listed(h: Host, c: Record, env: J): seq<J>
  {
    match (match B64d(c.rawPub) { case None => None case Some(pub) => VerifyEnvelope(h.p, env, pub) })
    case None => []
    case Some(false) => Sent(h.Error(Asc("[SECURITY] LIST_FILES_REQUEST signature invalid"), 0))
    case Some(true) => Sent(h.Envelope(Asc("LIST_FILES_RESPONSE"), JObj(map[Asc("files") := h.listing]), 0))
  }

  datatype Kind = Hello | Contacting | Notifying | Listing | Handshaking | Other

  function KindOf(env: J): Kind
  {
    if HasType(env, Asc("HELLO")) then Hello
    else if HasType(env, Asc("CONTACT_REQUEST")) then Contacting
    else if HasType(env, Asc("KEY_ROTATE_NOTICE")) then Notifying
    else if HasType(env, Asc("LIST_FILES_REQUEST")) then Listing
    else if HasType(env, Asc("HANDSHAKE_INIT")) then Handshaking
    else Other
  }

  /** The handlers that need a contact; all but the rotation handler refuse a revoked one. */
  ghost function BookAfterKnown(b: Book, p: Prims, env: J, kind: Kind): Book
  {
    match RouteTo(p.lower, b, env, kind != Notifying)
    case For(k) => BookAfterContact(b, p, env, kind, k)
    case _ => b
  }

  ghost function BookAfterContact(b: Book, p: Prims, env: J, kind: Kind, k: Str): Book
    requires k in b
  {
    if kind != Notifying then b
    else match CheckRotation(p, env, b[k].rawPub) { case Accepts(r) => Rotated(p.lower, b, k, r) case _ => b }
  }

  ghost function SentToKnown(b: Book, h: Host, env: J, kind: Kind, incoming: seq<J>): seq<J>
  {
    match RouteTo(h.p.lower, b, env, kind != Notifying)
    case NoRoute => []
    case Unknown(m) => Sent(h.Error(m, 0))
    case For(k) => SentToContact(h, b[k], env, kind, incoming)
  }

  ghost function SentToContact(h: Host, c: Record, env: J, kind: Kind, incoming: seq<J>): seq<J>
  {
    if kind == Notifying then Reply(h, CheckRotation(h.p, env, c.rawPub))
    else if kind == Listing then Listed(h, c, env)
    else
      var o := OpenSession(h, c, env);
      o.out + if o.keys.Some? && incoming != [] then Answer(h, c, o.keys.value, incoming[0]) else []
  }

  method DispatchKnown(ch: Channel, store: ContactStore, h: Host, env: J, kind: Kind)
    requires store.Valid() && store.low == h.p.lower
    modifies ch, store, store.contacts.Values
    ensures store.Valid()
    ensures store.Book() == BookAfterKnown(old(store.Book()), h.p, env, kind)
    ensures ch.sent == old(ch.sent) + SentToKnown(old(store.Book()), h, env, kind, old(ch.incoming))
  {
    hide BookAfterContact, SentToContact, RouteTo, ErrorEnvelope, Sent;
    var contact, error := FindContact(store, env, kind != Notifying);
    if error.Some? {
      SendIfFits(ch, h.Error(error.value, 0));
    } else if contact != null {
      HandleKnown(ch, store, h, contact, env, kind);
    }
  }

  method HandleKnown(ch: Channel, store: ContactStore, h: Host, contact: Contact, env: J, kind: Kind)
    requires store.Valid() && store.low == h.p.lower
    requires contact.fingerprint in store.contacts && store.contacts[contact.fingerprint] == contact
    modifies ch, store, store.contacts.Values
    ensures store.Valid()
    ensures store.Book() == BookAfterContact(old(store.Book()), h.p, env, kind, contact.fingerprint)
    ensures ch.sent == old(ch.sent) + SentToContact(h, old(store.Book())[contact.fingerprint], env, kind, old(ch.incoming))
  {
    hide CheckRotation, Rotated, Reply, OpenSession, Answer, Listed, Notifies, HasType;
    ghost var c := store.Book()[contact.fingerprint];
    assert contact.Value() == c && contact.rawPub == c.rawPub;
    hide ContactStore.Valid, ContactStore.Book;
    if kind == Notifying {
      HandleKeyRotate(ch, store, h, env, contact);
    } else if kind == Listing {
      HandleListFiles(ch, h, contact, env);
    } else {
      HandleFileSession(ch, h, contact, env);
    }
  }

  /** _handle_list_files */
  method HandleListFiles(ch: Channel, h: Host, contact: Contact, env: J)
    modifies ch`sent
    ensures ch.sent == old(ch.sent) + Listed(h, contact.Value(), env)
  {
    hide VerifyEnvelope, B64d, ErrorEnvelope, BuildEnvelope;
    var pub := B64d(contact.rawPub);
    if pub == None {
      return;
    }
    match VerifyEnvelope(h.p, env, pub.value) {
      case None =>
      case Some(false) => SendIfFits(ch, h.Error(Asc("[SECURITY] LIST_FILES_REQUEST signature invalid"), 0));
      case Some(true) =>
        SendIfFits(ch, h.Envelope(Asc("LIST_FILES_RESPONSE"), JObj(map[Asc("files") := h.listing]), 0));
    }
  }

  /** The contact book after a connection whose first frame is `env`. */
  ghost function BookAfter(b: Book, p: Prims, env: J, host: Str): Book
  {
    match KindOf(env)
    case Contacting => (match CheckIntroduction(p, env) case Accepts(i) => Introduced(p.lower, b, i, host) case _ => b)
    case Hello => b
    case Other => b
    case kind => BookAfterKnown(b, p, env, kind)
  }

  ghost function SentAfter(b: Book, h: Host, env: J, incoming: seq<J>): seq<J>
  {
    match KindOf(env)
    case Contacting => Reply(h, CheckIntroduction(h.p, env))
    case Hello => Sent(HelloEnvelope(h))
    case Other => Sent(h.Error(Asc("Unexpected message type: ") + h.shown(Field(env, Asc("type"))), 0))
    case kind => SentToKnown(b, h, env, kind, incoming)
  }

  // ---------------------------------------------------------------- dispatch by the type on the wire

  lemma TypesApart(env: J)
    ensures HasType(env, Asc("HELLO")) ==> KindOf(env) == Hello
    ensures HasType(env, Asc("CONTACT_REQUEST")) ==> KindOf(env) == Contacting
    ensures HasType(env, Asc("KEY_ROTATE_NOTICE")) ==> KindOf(env) == Notifying
    ensures HasType(env, Asc("LIST_FILES_REQUEST")) ==> KindOf(env) == Listing
    ensures HasType(env, Asc("HANDSHAKE_INIT")) ==> KindOf(env) == Handshaking
  {
    assert |Asc("HELLO")| == 5 && |Asc("CONTACT_REQUEST")| == 15 && |Asc("KEY_ROTATE_NOTICE")| == 17;
    assert |Asc("LIST_FILES_REQUEST")| == 18 && |Asc("HANDSHAKE_INIT")| == 14;
  }

  /** The sender a first frame claims, as the lookup takes it: the empty name when there is none. */
  function Claimed(env: J): Str
  {
    match TextField(env, Asc("from")) case None => [] case Some(fp) => fp
  }

  predicate NamesSender(env: J) { Field(env, Asc("from")) == None || TextField(env, Asc("from")).Some? }

  /** A CONTACT_REQUEST changes the book only if it introduces its sender, and then only by that introduction. */
  lemma OnContactRequest(b: Book, h: Host, env: J, host: Str, incoming: seq<J>)
    requires HasType(env, Asc("CONTACT_REQUEST"))
    ensures forall i :: Introduces(h.p, env, i) ==>
              && BookAfter(b, h.p, env, host) == Introduced(h.p.lower, b, i, host)
              && SentAfter(b, h, env, incoming)
                 == Sent(h.Envelope(Asc("CONTACT_ACCEPT"), PeerPayload(h.Pub(), h.port), 0))
    ensures (forall i :: !Introduces(h.p, env, i)) ==> BookAfter(b, h.p, env, host) == b
    ensures forall m :: CheckIntroduction(h.p, env) == Rejects(m) ==> SentAfter(b, h, env, incoming) == Sent(h.Error(m, 0))
  {
    TypesApart(env);
    hide KindOf, CheckIntroduction, Introduces, Introduced, BuildEnvelope, ErrorEnvelope, Sent, PeerPayload;
    var v := CheckIntroduction(h.p, env);
    forall i
      ensures v == Accepts(i) <==> Introduces(h.p, env, i)
    {
      IntroductionIs(h.p, env, i);
    }
  }

  lemma RouteIs(low: Str -> Str, b: Book, env: J, refuseRevoked: bool)
    requires RouteTo(low, b, env, refuseRevoked).For?
    ensures Lookup(low, b.Keys, Claimed(env)) == Some(RouteTo(low, b, env, refuseRevoked).fp)
  {
    hide Lookup;
  }

  lemma NoticeHasSender(p: Prims, env: J, oldPub: Str, r: Notice)
    ensures Notifies(p, env, oldPub, r) ==> NamesSender(env)
  {
  }

  /** A KEY_ROTATE_NOTICE changes the book only if its sender resolves to a contact, revoked or not, and it is signed with
      that contact's key; then that contact is rotated. */
  lemma OnKeyRotateNotice(b: Book, h: Host, env: J, host: Str, incoming: seq<J>)
    requires HasType(env, Asc("KEY_ROTATE_NOTICE"))
    ensures forall k, r :: k in b && Lookup(h.p.lower, b.Keys, Claimed(env)) == Some(k) && Notifies(h.p, env, b[k].rawPub, r) ==>
              && BookAfter(b, h.p, env, host) == Rotated(h.p.lower, b, k, r)
              && SentAfter(b, h, env, incoming)
                 == Sent(h.Envelope(Asc("CONTACT_ACCEPT"), PeerPayload(h.Pub(), h.port), 0))
    ensures (forall k, r :: k in b && Lookup(h.p.lower, b.Keys, Claimed(env)) == Some(k) ==> !Notifies(h.p, env, b[k].rawPub, r))
            ==> BookAfter(b, h.p, env, host) == b
    ensures forall k, m :: k in b && NamesSender(env) && Lookup(h.p.lower, b.Keys, Claimed(env)) == Some(k)
                           && CheckRotation(h.p, env, b[k].rawPub) == Rejects(m)
              ==> SentAfter(b, h, env, incoming) == Sent(h.Error(m, 0))
    ensures NamesSender(env) && Lookup(h.p.lower, b.Keys, Claimed(env)) == None
            ==> SentAfter(b, h, env, incoming) == Sent(h.Error(Asc("Unknown peer: ") + FirstSixteen(Claimed(env)), 0))
    ensures !NamesSender(env) ==> SentAfter(b, h, env, incoming) == []
  {
    TypesApart(env);
    hide KindOf, Notifies, Rotated, BuildEnvelope, ErrorEnvelope, Sent, PeerPayload, CheckRotation, Lookup, Claimed, NamesSender;
    SenderField(env);
    assert KindOf(env) == Notifying;
    forall k, r | k in b && Lookup(h.p.lower, b.Keys, Claimed(env)) == Some(k)
      ensures CheckRotation(h.p, env, b[k].rawPub) == Accepts(r) <==> Notifies(h.p, env, b[k].rawPub, r)
      ensures Notifies(h.p, env, b[k].rawPub, r)
              ==> && BookAfter(b, h.p, env, host) == Rotated(h.p.lower, b, k, r)
                  && SentAfter(b, h, env, incoming) == Sent(h.Envelope(Asc("CONTACT_ACCEPT"), PeerPayload(h.Pub(), h.port), 0))
    {
      RotationIs(h.p, env, b[k].rawPub, r);
      NoticeHasSender(h.p, env, b[k].rawPub, r);
      if Notifies(h.p, env, b[k].rawPub, r) {
        assert RouteTo(h.p.lower, b, env, false) == For(k);
        assert CheckRotation(h.p, env, b[k].rawPub) == Accepts(r);
        assert BookAfter(b, h.p, env, host) == BookAfterKnown(b, h.p, env, Notifying);
      }
    }
    var route := RouteTo(h.p.lower, b, env, false);
    if route.For? {
      RouteIs(h.p.lower, b, env, false);
      var v := CheckRotation(h.p, env, b[route.fp].rawPub);
      if v.Accepts? {
        RotationIs(h.p, env, b[route.fp].rawPub, v.value);
        assert Notifies(h.p, env, b[route.fp].rawPub, v.value);
      }
    }
  }

  /** The other first frames change no contact. HELLO is answered to anyone, LIST_FILES_REQUEST and HANDSHAKE_INIT only
      to an unrevoked contact; an unknown or revoked sender gets the error that says so. */
  lemma OnHello(b: Book, h: Host, env: J, host: Str, incoming: seq<J>)
    requires HasType(env, Asc("HELLO"))
    ensures BookAfter(b, h.p, env, host) == b
    ensures SentAfter(b, h, env, incoming) == Sent(h.Envelope(Asc("HELLO"), PeerPayload(h.Pub(), h.port), 0))
  {
    TypesApart(env);
    hide KindOf, BuildEnvelope, Sent, PeerPayload;
  }

  lemma OnListFiles(b: Book, h: Host, env: J, host: Str, incoming: seq<J>)
    requires HasType(env, Asc("LIST_FILES_REQUEST"))
    ensures BookAfter(b, h.p, env, host) == b
    ensures RefusedAtTheDoor(b, h, env, SentAfter(b, h, env, incoming))
    ensures forall k :: k in b && NamesSender(env) && Lookup(h.p.lower, b.Keys, Claimed(env)) == Some(k)
                        && !b[k].revoked && B64d(b[k].rawPub).Some?
              ==> SentAfter(b, h, env, incoming)
                  == Sent(h.Envelope(Asc("LIST_FILES_RESPONSE"), JObj(map[Asc("files") := h.listing]), 0))
  {
    TypesApart(env);
    hide KindOf, BuildEnvelope, ErrorEnvelope, Sent, B64d, VerifyEnvelope, Lookup, Claimed, NamesSender;
    SenderField(env);
    forall k | k in b && B64d(b[k].rawPub).Some?
      ensures VerifyEnvelope(h.p, env, B64d(b[k].rawPub).value) == Some(true)
    {
      ListingUnsigned(h.p, env, B64d(b[k].rawPub).value);
    }
  }

  /** The errors for a sender that is unknown or revoked; nothing is sent to one that is not text. */
  ghost predicate RefusedAtTheDoor(b: Book, h: Host, env: J, sent: seq<J>)
  {
    if !NamesSender(env) then sent == []
    else
      match Lookup(h.p.lower, b.Keys, Claimed(env))
      case None => sent == Sent(h.Error(Asc("Unknown peer: ") + FirstSixteen(Claimed(env)), 0))
      case Some(k) => k in b && (b[k].revoked ==> sent == Sent(h.Error(Asc("[SECURITY] Your key has been marked revoked"), 0)))
  }

  lemma SenderField(env: J)
    ensures NamesSender(env)
            <==> (match Field(env, Asc("from")) { case None => JStr([]) case Some(v) => v }) == JStr(Claimed(env))
    ensures !NamesSender(env) <==> Field(env, Asc("from")).Some? && !Field(env, Asc("from")).value.JStr?
  {
  }

  lemma ListingUnsigned(p: Prims, env: J, rawPub: Bytes)
    requires HasType(env, Asc("LIST_FILES_REQUEST"))
    ensures VerifyEnvelope(p, env, rawPub) == Some(true)
  {
    hide VerifyEnvelope, HasType;
    SignatureNeeded(p, env, Asc("LIST_FILES_REQUEST"), rawPub);
    ListingIsNone();
  }

  lemma ListingIsNone()
    ensures Asc("LIST_FILES_REQUEST") !in {Asc("HELLO"), Asc("CONTACT_REQUEST"), Asc("CONTACT_ACCEPT"), Asc("HANDSHAKE_INIT"),
                                           Asc("HANDSHAKE_RESP"), Asc("KEY_ROTATE_NOTICE"), Asc("TRANSFER_START")}
  {
    assert |Asc("LIST_FILES_REQUEST")| == 18 && |Asc("HELLO")| == 5 && |Asc("CONTACT_REQUEST")| == 15;
    assert |Asc("CONTACT_ACCEPT")| == |Asc("HANDSHAKE_INIT")| == |Asc("HANDSHAKE_RESP")| == |Asc("TRANSFER_START")| == 14;
    assert |Asc("KEY_ROTATE_NOTICE")| == 17;
  }

  lemma OnHandshakeInit(b: Book, h: Host, env: J, host: Str, incoming: seq<J>)
    requires HasType(env, Asc("HANDSHAKE_INIT"))
    ensures BookAfter(b, h.p, env, host) == b
    ensures RefusedAtTheDoor(b, h, env, SentAfter(b, h, env, incoming))
    ensures forall k :: k in b && NamesSender(env) && Lookup(h.p.lower, b.Keys, Claimed(env)) == Some(k)
                        && !b[k].revoked
              ==> var o := OpenSession(h, b[k], env);
                  SentAfter(b, h, env, incoming)
                  == o.out + if o.keys.Some? && incoming != [] then Answer(h, b[k], o.keys.value, incoming[0]) else []
  {
    TypesApart(env);
    hide KindOf, BuildEnvelope, ErrorEnvelope, Sent, OpenSession, Answer, Lookup, Claimed, NamesSender;
    SenderField(env);
  }

  lemma OnOtherType(b: Book, h: Host, env: J, host: Str, incoming: seq<J>)
    requires !HasType(env, Asc("HELLO")) && !HasType(env, Asc("CONTACT_REQUEST")) && !HasType(env, Asc("KEY_ROTATE_NOTICE"))
    requires !HasType(env, Asc("LIST_FILES_REQUEST")) && !HasType(env, Asc("HANDSHAKE_INIT"))
    ensures BookAfter(b, h.p, env, host) == b
    ensures SentAfter(b, h, env, incoming)
         == Sent(h.Error(Asc("Unexpected message type: ") + h.shown(Field(env, Asc("type"))), 0))
  {
    hide ErrorEnvelope, Sent, HasType;
  }

  // ---------------------------------------------------------------- why a request is rejected

  lemma IntroductionRefused(p: Prims, env: J)
    requires HasType(env, Asc("CONTACT_REQUEST")) && Field(env, Asc("payload")).Some? && Field(env, Asc("payload")).value.JObj?
    ensures var payload := Field(env, Asc("payload")).value;
            var key := TextField(payload, Asc("raw_pub"));
            && (Asc("raw_pub") in payload.m && (key == None || B64d(key.value) == None)
                ==> CheckIntroduction(p, env) == Rejects(Asc("Invalid raw_pub")))
            && (key.Some? && B64d(key.value).Some? && TextField(env, Asc("id")).Some? && TextField(env, Asc("from")).Some?
                && !SignatureHolds(p, env, Asc("CONTACT_REQUEST"), B64d(key.value).value)
                ==> CheckIntroduction(p, env) == Rejects(Asc("[SECURITY] CONTACT_REQUEST signature invalid")))
  {
    hide VerifyEnvelope, SignatureHolds, B64d, CanonicalEnvelope, IsSignedType;
    var key := TextField(Field(env, Asc("payload")).value, Asc("raw_pub"));
    RequestIsSigned();
    if key.Some? && B64d(key.value).Some? && !SignatureHolds(p, env, Asc("CONTACT_REQUEST"), B64d(key.value).value) {
      SignatureRefused(p, env, Asc("CONTACT_REQUEST"), B64d(key.value).value);
    }
  }

  /** Nothing is sent in answer to a CONTACT_REQUEST whose payload is not an object. One without payload is taken for one
      without fields, and so fails at the signature: rejected if that cannot be decoded, and else without an answer. */
  lemma IntroductionMalformed(p: Prims, env: J)
    requires HasType(env, Asc("CONTACT_REQUEST"))
    ensures Field(env, Asc("payload")).Some? && !Field(env, Asc("payload")).value.JObj? ==> CheckIntroduction(p, env) == Raises
    ensures Field(env, Asc("payload")) == None ==>
              var sig := TextField(env, Asc("sig"));
              CheckIntroduction(p, env)
              == if sig.Some? && sig.value != [] && B64d(sig.value).Some? then Raises
                 else Rejects(Asc("[SECURITY] CONTACT_REQUEST signature invalid"))
  {
    hide VerifyEnvelope, B64d, IsSignedType;
    RequestIsSigned();
    NothingDecoded();
    if Field(env, Asc("payload")) == None { SignatureRefused(p, env, Asc("CONTACT_REQUEST"), []); }
  }

  /** Nothing is sent in answer to a signed KEY_ROTATE_NOTICE whose payload is not an object, or if the stored key does not
      decode. */
  lemma RotationMalformed(p: Prims, env: J, oldPub: Str)
    requires HasType(env, Asc("KEY_ROTATE_NOTICE"))
    ensures B64d(oldPub) == None ==> CheckRotation(p, env, oldPub) == Raises
    ensures && B64d(oldPub).Some? && SignatureHolds(p, env, Asc("KEY_ROTATE_NOTICE"), B64d(oldPub).value)
            && !Field(env, Asc("payload")).value.JObj?
            ==> CheckRotation(p, env, oldPub) == Raises
  {
    hide VerifyEnvelope, B64d, IsSignedType, CanonicalEnvelope;
    if B64d(oldPub).Some? { SignatureNeeded(p, env, Asc("KEY_ROTATE_NOTICE"), B64d(oldPub).value); }
  }

  lemma RequestIsSigned()
    ensures IsSignedType(Asc("CONTACT_REQUEST")) && IsSignedType(Asc("KEY_ROTATE_NOTICE"))
  {
  }

  lemma RotationRefused(p: Prims, env: J, oldPub: Str, oldKey: Bytes)
    requires HasType(env, Asc("KEY_ROTATE_NOTICE")) && Field(env, Asc("payload")).Some? && B64d(oldPub) == Some(oldKey)
    requires TextField(env, Asc("id")).Some? && TextField(env, Asc("from")).Some?
    requires !SignatureHolds(p, env, Asc("KEY_ROTATE_NOTICE"), oldKey)
    ensures CheckRotation(p, env, oldPub) == Rejects(Asc("[SECURITY] KEY_ROTATE_NOTICE signature invalid"))
  {
    hide VerifyEnvelope, SignatureHolds, B64d, CanonicalEnvelope, HexString, IsSignedType;
    RequestIsSigned();
    SignatureRefused(p, env, Asc("KEY_ROTATE_NOTICE"), oldKey);
  }

  lemma NewKeyRefused(p: Prims, env: J, oldPub: Str, oldKey: Bytes, fields: map<Str, J>)
    requires HasType(env, Asc("KEY_ROTATE_NOTICE")) && Field(env, Asc("payload")) == Some(JObj(fields))
    requires B64d(oldPub) == Some(oldKey) && SignatureHolds(p, env, Asc("KEY_ROTATE_NOTICE"), oldKey)
    requires Asc("new_raw_pub") in fields && (!fields[Asc("new_raw_pub")].JStr? || B64d(fields[Asc("new_raw_pub")].s) == None)
    ensures CheckRotation(p, env, oldPub) == Rejects(Asc("Invalid new_raw_pub"))
  {
    hide VerifyEnvelope, SignatureHolds, B64d, CanonicalEnvelope, HexString, IsSignedType;
    SignatureNeeded(p, env, Asc("KEY_ROTATE_NOTICE"), oldKey);
  }

  lemma NewFingerprintRefused(p: Prims, env: J, oldPub: Str, oldKey: Bytes, fields: map<Str, J>, newPub: Str, newKey: Bytes)
    requires HasType(env, Asc("KEY_ROTATE_NOTICE")) && Field(env, Asc("payload")) == Some(JObj(fields))
    requires B64d(oldPub) == Some(oldKey) && SignatureHolds(p, env, Asc("KEY_ROTATE_NOTICE"), oldKey)
    requires Field(JObj(fields), Asc("new_raw_pub")) == Some(JStr(newPub)) && B64d(newPub) == Some(newKey)
    requires Asc("new_fingerprint") in fields && fields[Asc("new_fingerprint")] != JStr(HexString(p.sha256(newKey)))
    ensures CheckRotation(p, env, oldPub) == Rejects(Asc("[SECURITY] New fingerprint doesn't match new public key"))
  {
    hide VerifyEnvelope, SignatureHolds, B64d, CanonicalEnvelope, HexString, IsSignedType;
    SignatureNeeded(p, env, Asc("KEY_ROTATE_NOTICE"), oldKey);
  }
  /** _dispatch */
  method Dispatch(ch: Channel, store: ContactStore, h: Host, host: Str)
    requires store.Valid() && store.low == h.p.lower
    modifies ch, store, store.contacts.Values
    ensures store.Valid()
    ensures var got := old(ch.incoming);
            if got == [] || !got[0].JObj? then store.Book() == old(store.Book()) && ch.sent == old(ch.sent)
            else store.Book() == BookAfter(old(store.Book()), h.p, got[0], host)
                 && ch.sent == old(ch.sent) + SentAfter(old(store.Book()), h, got[0], got[1..])
  {
    hide CheckIntroduction, Introduced, BookAfterKnown, SentToKnown, Reply, HasType, HelloEnvelope, ErrorEnvelope, Sent;
    var first := ch.Receive();
    if first == None || !first.value.JObj? {
      return;
    }
    var env := first.value;
    match KindOf(env) {
      case Hello => SendIfFits(ch, HelloEnvelope(h));
      case Contacting => HandleContactRequest(ch, store, h, env, host);
      case Other => SendIfFits(ch, h.Error(Asc("Unexpected message type: ") + h.shown(Field(env, Asc("type"))), 0));
      case kind => DispatchKnown(ch, store, h, env, kind);
    }
  }
}
