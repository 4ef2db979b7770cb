# p2pshare: a verified model of the file-transfer session and the contact store

p2pshare lets peers share files over TLS. A client and a server run an authenticated handshake, the server
asks its user for consent and then sends the file as encrypted chunks, and the client saves the file only if every chunk
authenticates, the bytes hash to the announced value and the owner's signature on the file's manifest verifies. Each
peer keeps contacts by key fingerprint; a contact may rotate its key, which revokes the old record in favour of the new.

This project models that behaviour in Dafny and proves what the parts promise, from the bytes that are signed up to
whole runs.

* `Bytes`, `Text`, `Json`, `Rereading`, `Base64`: bytes, UTF-8, the compact sorted JSON text with its reader, what a value
  read back prints as, base64 with Python's lenient decoder.
* `CryptoUtils`, `AadParsing`: what is fed into the primitives (fingerprints, HKDF info strings, chunk nonces and AADs), and
  which AADs can be read in two ways. SHA-256, Ed25519, X25519, HKDF, AES-GCM and `str.lower()` are function-valued fields of
  `Prims`; what a lemma needs of them is in its `requires`.
* `Protocol`, `Channel`: signed envelopes, manifests, length-prefixed frames on a byte stream that arrives in any pieces,
  and the frame-by-frame view of a connection that the byte-level round trip justifies.
* `Chunking`, `Transfer`, `Reassembly`, `FrameSize`: the two ends of a transfer, the receive loop and its dict, the slices,
  the sizes of frames.
* `Handshake`: the transcript and the two sides.
* `Network`, `SecureTransfer`: runs of any number of honest identities among adversaries who deliver what they like.
  Signatures are unforgeable by hypothesis: one verifies under an honest key only on a message that identity signed. AES-GCM is
  authentic by hypothesis: under a key derived from two honest ephemerals only what a sending sealed opens.
* `Contacts`, `TrustHistory`, `Rotation`: the contact store as a class over Contact objects, the history its marks stand
  for, and the store under concurrent handlers whose lookups, marks and adds interleave.
* `Server`, `Client`, `Sharing`: the handlers and commands as methods over channels and stores.
* `Session`, `Consent`, `Delivery`, `Outcome`, `Wire`: client and server as step machines joined by two queues, and the
  byte streams under the queues.

Exceptions are results: `None`, `Raised`, `Lost` where it is recv_frame that raised, or a `Refused` status where the source
reports and returns False. Clocks, random values, message ids, the user's answer and the disk are parameters.

Results a reader of the code may not expect, all proved here:

* The AAD of a chunk has a second reading exactly when, among its colon-separated pieces, two consecutive ones other than its
  own index and count are decimals with pieces on both sides (`AadParsing.SecondReading`). One colon in the file id is enough: file
  "a:5", chunk 7 of 9, reads as file "a", chunk 5 of 7 (`AadParsing.AadAmbiguous`). It binds whenever the sealing side's ids are
  colon-free, as uuids are (`CryptoUtils.ChunkAadBinds`).
* The float-based chunk count is exact up to 2^53 bytes. Up to 2^71 the chunks cover the file exactly when its length is a
  multiple of CHUNK_SIZE or the last chunk holds more than half the spacing of doubles at that length (`Chunking.ChunksCover`);
  2^53 + 1 is the first length that loses a byte.
* A lone high surrogate before a lone low one prints like one astral character. A value is read back as it was exactly when it
  has no such pair (`Json.LoadsDumps`), and a signed envelope still verifies exactly when no dict in its payload has keys that,
  read back, change order or fall together, short of a signature that verifies on two texts (`Protocol.SignedDelivery`,
  `Rereading.PairedKeysSwap`); ids, names and other values never matter.
* Equal transcripts alone give equal handshake fields exactly when the responder's record of the initiator has a 64-byte
  fingerprint and it read a 32-byte ephemeral and nonce (`Handshake.SameTranscriptMatches`, `Handshake.TranscriptsCollide`).
  Against an honest responder that has completed, it is enough that its record names the initiator's fingerprint, whatever key it
  pairs with it (`Network.HandshakeAgreement`).
* A contact stored under a fingerprint that is not in lower case is not found under its own key, so a rotation does not revoke it
  (`Contacts.OwnKeyResolves`, `Server.RotationEffect`). A query can move from one contact to another as contacts are added, exactly
  when some key in lower case is a proper prefix of another key (`Contacts.AnswersNeverMove`).
* A revocation can be undone without a rotation exactly when a contact request that saw the fingerprint absent has yet to
  add it, or when the fingerprint in lower case is not itself stored, so that a new request can come to see it absent
  (`Rotation.RevocationCanBeUndone`). Both kinds of state are reachable (`Rotation.StaleRequestReachable`,
  `Rotation.ShadowedRevocationReachable`).

`dafny verify dfyconfig.toml` checks the whole project.

## Model

| member | source | states |
|---|---|---|
| Network.EndToEnd | client.py:170-250 | In every run, whatever frames were delivered and by whom, a file saved under an honest owner's key is one that owner shared: same owner, size and manifest text, the very names and ids where the owner's are basic-plane text, and the owner's snapshot byte for byte unless SHA-256 collided |
| Network.HandshakeAgreement | handshake.py:59-133 | In every run an initiator that completed against an honest responder key holds that key under its own fingerprint and shares its exact transcript with an answer the key's owner signed; if that responder completed, both sides hold the same fields, and mirrored keys, exactly when its record of the initiator names the initiator's fingerprint |
| Network.ReplyMeansAnswer | handshake.py:119-129 | A HANDSHAKE_RESP accepted under an honest key was built in answering a handshake: its owner's fingerprint is the expected one, and its ephemeral, 32-byte nonce and transcript signature are those of that answer |
| Network.EnvelopeAuthentic | protocol.py:105-126 | In every run an envelope of a signed type that verifies under an honest key was built by its owner with that type, sender, id text and payload text; no signature made for a transcript, manifest or certificate stands in for it |
| Network.ManifestSignatureMeansShare | protocol.py:165-182 | An honest signature on a manifest text exists only because that identity shared a file with exactly that manifest text |
| Network.TranscriptSignatureMeansAnswer | handshake.py:120-129 | An honest signature on a transcript exists only because that identity answered a handshake with that transcript |
| Network.InitSignatureMeansStart | handshake.py:60-63 | An honest signature on a HANDSHAKE_INIT text exists only because that identity started a handshake with the ephemeral key and nonce the payload decodes to |
| Network.EnvelopeSignatureMeansBuilt | protocol.py:94-97 | An honest signature on an envelope text of any other signed type exists only because that identity built an envelope with exactly that text |
| Network.ContextsDisjoint | handshake.py:38-48 | Transcripts, signed envelopes, manifests and the texts TLS signs with the same key are pairwise different, for all fields |
| Network.RunKeeps | client.py:137-250 | Every run keeps the invariant: each honest signature is accounted for by what its owner did, each completed initiator and each HANDSHAKE_RESP by an answer, each TRANSFER_START by one sending, each saved file by a share, and no ephemeral serves two handshakes on one side |
| SecureTransfer.DownloadIsSent | client.py:137-250 | In every run, whatever frames are delivered: a started request to an honest contact saves only bytes that this contact sent, under their file id, still hashing to what its index said, in a session whose answer has the initiator's own fingerprint, ephemerals and nonces, unless HKDF or X25519 collided or a signature verifies on two texts |
| SecureTransfer.SameSession | crypto_utils.py:229-259 | If an honest responder sends under the key a completed initiator receives with, both took part in one handshake with the same fields, with the same exceptions |
| SecureTransfer.JoinedIsSent | client.py:203-233 | From the signed TRANSFER_START to the join, under a key derived from honest ephemerals: the joined bytes are those of the one sending the contact signed for, whose transfer id, file id, count, name, hash, size, owner and manifest signature are the offered ones |
| SecureTransfer.RefusedMeansChanged | client.py:233-241 | In every run a joined download is saved if the bytes sent still have the hash in the sender's index, and refused exactly if they do not |
| SecureTransfer.StartMeansSending | server.py:246-262 | A TRANSFER_START that verifies under an honest key was built for a file sending of its owner, with those ids and that count |
| SecureTransfer.NothingForgedInRuns | crypto_utils.py:280-305 | In every reachable state, under such a key in use nothing opens but the slices its one sending sealed, under their nonces and AADs |
| SecureTransfer.NoNonceReuse | server.py:264-269 | In every run, across all sendings, no two chunks are sealed under one key and one nonce |
| SecureTransfer.NoticeAuthentic | server.py:282-301 | In every run a rotation notice accepted under an honest contact's key was built by that contact, as a KEY_ROTATE_NOTICE with that payload text |
| Session.EveryRunEndsAlike | server.py:192-280 | Under every interleaving of client and server over faithful queues: the number of steps is bounded, some side can move until both are done, and the client ends with what _do_request makes of the server's frames taken one after the other |
| Session.NoDeadlock | client.py:137-168 | In every reachable shape of the product, until both sides have finished one of them can move |
| Session.ClientProgress | client.py:137-250 | Every client step lowers a natural-number bound on the steps to come |
| Session.ServerProgress | server.py:192-280 | Every server step lowers the same bound |
| Session.ResultIsDownload | client.py:137-168 | The outcome all schedules share is the sequential _do_request on the server's handshake reply and answer |
| Session.DeliveredIsDispatch | server.py:100-139 | The frames of the server machine are those the dispatcher sends on the same HANDSHAKE_INIT and request |
| Session.FeedRequest | client.py:147-166 | Taking frames one at a time through the client's states ends as processing the whole list does |
| Outcome.SavedExactlyWhen | server.py:192-280 | Between honest peers the file is saved exactly when the client is a known, unrevoked contact, the file is in the index, the user consents, the bytes can be read and match the recorded hash, and the client knows the owner who signed the manifest; what is saved is those bytes under those names |
| Outcome.EverySchedule | client.py:137-168 | The same condition decides, for every schedule of the two machines, whether the finished client has saved the file |
| Outcome.OwnShareSaved | p2pshare.py:241-267 | For a file the server's own user shared, saving comes down to: welcome, still indexed, consented, and the bytes on disk still have the hash they were shared with |
| Wire.ServerFramesArrive | protocol.py:133-158 | Whatever the server sends in a session fits its frames, and comes off the client's byte stream as these frames read back, then the close; the very frames where no text has a surrogate pair |
| Wire.ClientFramesArrive | protocol.py:133-158 | The same for what the client sends |
| Wire.FitsFrame | protocol.py:133-138 | The frame-by-frame view of a connection refuses exactly the frames send_frame raises on |
| Wire.SavedOverBytes | client.py:137-168 | The same condition decides whether the file is saved when the session runs over byte streams |
| Outcome.HonestHandshake | handshake.py:59-133 | Two sides that hold each other's fingerprint and key both complete, with mirrored session keys |
| Outcome.HonestOpening | handshake.py:97-127 | The responder accepts an honest HANDSHAKE_INIT and reads exactly the initiator's ephemeral key and nonce |
| Outcome.HandshakeCompletes | server.py:129-137 | Whatever else the contact book holds, a welcome client is dispatched to its own contact record, gets one reply and reaches the request with keys mirroring the server's |
| Outcome.StrangerGetsNothing | server.py:129-136 | An unknown or revoked client saves nothing, even where its fingerprint begins the one of another contact and is routed to that record |
| Consent.HandlerConsent | server.py:100-231 | Against any client, whatever its first frame, the contact book and what it sends after: file frames go only to a HANDSHAKE_INIT routed to an unrevoked contact, behind a FILE_APPROVE, and only if the next frame names an indexed file whose sending to that contact the user agreed to |
| Consent.HandlerOneTransfer | server.py:192-231 | Against any client a connection carries at most one TRANSFER_START |
| Consent.ConsentFirst | server.py:222-231 | In every reachable state of a session with an honest client a TRANSFER_START or CHUNK on the wire comes after a FILE_APPROVE, for the indexed file the client asked for, and goes to an unrevoked contact |
| Consent.OneTransfer | server.py:192-231 | In every reachable state of such a session at most one TRANSFER_START has been sent |
| Consent.AnswerTypes | server.py:209-231 | Among all answers to any first frame after the handshake, file frames occur only behind a first FILE_APPROVE and only for a file the request names and the user allows |
| Consent.StartIsFirst | server.py:261-279 | TRANSFER_START is the first frame of a transfer and never recurs |
| Delivery.HonestTransfer | server.py:251-279 | All frames of an honest sender get through a receiver with mirrored keys: the file is saved exactly when the manifest verifies under the known owner's key and the bytes have the announced hash |
| Delivery.LoopCollectsAll | client.py:203-226 | The receive loop accepts every chunk of an honest sender and ends with the dict of all slices and only TRANSFER_DONE left |
| Delivery.ChunkAccepted | crypto_utils.py:280-305 | A chunk sealed by the sender, put in its CHUNK envelope and read back opens to the slice it was cut from |
| Reassembly.ReassemblyExact | client.py:203-233 | Over a channel that drops, reorders, repeats or invents frames but cannot forge ciphertexts: if the loop accepts the announced number of chunks and the join finds every index, the joined bytes are the ones the sender read |
| Reassembly.SavedIsSendersData | client.py:170-250 | A TRANSFER_START that announces chunks is saved with this session's chunks only if its transfer id, file id and count are the sender's, and what is saved is what the sender read |
| Reassembly.NoChunksMeansEmpty | client.py:203-233 | A TRANSFER_START that announces no chunks can only save an empty file |
| Reassembly.HashDecidesSaving | client.py:233-241 | Past the loop, TRANSFER_DONE and the join, the file is saved exactly when the offered hash is that of the bytes the sender read, and refused otherwise |
| Reassembly.AcceptedIsSlice | client.py:212-226 | An accepted chunk carries the slice its index names, and the receiver's file id, count and transfer id are the sender's |
| Reassembly.SessionNoncesDistinct | server.py:264-269 | Over a whole _send_file run no two chunks share a nonce under the session's sending key |
| Reassembly.Pigeonhole | client.py:203-233 | After exactly n accepted chunks the join succeeds if and only if the received indices are 0 to n-1, and then each came exactly once |
| Reassembly.ArrivalOrderIrrelevant | client.py:226-233 | The same chunks in any arrival order join to the same bytes, or fail alike |
| Reassembly.CollectIs | client.py:203-226 | The loop gets through exactly when each of the next n frames is accepted, and its dict is that of the accepted pairs, the last of a repeated index winning |
| Reassembly.AcceptChunkIs | client.py:204-226 | A frame is accepted if and only if it is a CHUNK whose data is base64 that opens under the receiving key, the nonce of its index and the AAD of the offer |
| Reassembly.ChunkRefused | client.py:204-225 | Which of the other frames are reported and which raise |
| Reassembly.SavedMeans | client.py:170-250 | Success implies a manifest signature under the looked-up owner's key, every announced chunk accepted, a TRANSFER_DONE right after them, a complete join and a matching hash, and fixes the saved fields |
| Reassembly.DoneIsNeeded | client.py:228-231 | If the frame after the announced chunks is not a TRANSFER_DONE nothing is saved; an object of another type there is reported and refused |
| Reassembly.DoneDecides | client.py:228-241 | At TRANSFER_DONE an index missing raises, a hash that differs is refused, and otherwise the file is saved |
| Reassembly.OfferIs | client.py:171-180 | What is read of a TRANSFER_START: every field but the timestamp must be there, under its literal name |
| Reassembly.BeforeTheLoop | client.py:171-200 | A field missing or a count that is no integer raises and a manifest that does not verify is refused, all before a frame is read |
| Transfer.RecvTransfer | client.py:170-250 | The method with its loop consumes, reports and stores exactly as the receive function says, writing the store only on success |
| Transfer.SendFile | server.py:251-279 | The loop sends TRANSFER_START, the chunks in index order and TRANSFER_DONE, stopping at the first exception |
| Transfer.StartIs | server.py:253-262 | TRANSFER_START field by field, with the transfer id as its message id |
| Transfer.ChunkIs | server.py:264-274 | CHUNK field by field: index, count, and the sealed slice as base64 |
| Transfer.DoneIs | server.py:276-279 | TRANSFER_DONE field by field |
| FrameSize.ChunkFramesFit | server.py:264-274 | Every CHUNK frame, tag, base64 and JSON included, stays within MAX_FRAME for ids of up to thousands of characters |
| FrameSize.StartAndDoneFit | server.py:253-279 | TRANSFER_START and TRANSFER_DONE stay within MAX_FRAME for names and ids of up to 10 000 characters |
| FrameSize.BuiltEnvelopeFits | protocol.py:133-137 | Any built envelope, signature included, with a payload below 2 MB stays within MAX_FRAME |
| Chunking.TotalChunksExact | server.py:251 | Up to 2^53 bytes the float ceiling is the integer ceiling, with one chunk for an empty file |
| Chunking.ChunksCover | server.py:251 | For lengths up to 2^71 the computed chunks cover the file if and only if its length is a multiple of CHUNK_SIZE or the remainder is more than half the spacing of doubles there |
| Chunking.TotalChunksTooFew | server.py:251 | At 2^53 + 1 bytes, as an instance, they do not |
| Chunking.SlicesPartition | server.py:264-265 | The slices concatenate back to the file and only the last may be short |
| Handshake.SameTranscriptMatches | handshake.py:38-48 | Equal transcripts make a completed initiator and the responder hold the same fingerprints, ephemerals and nonces if and only if the responder's initiator fingerprint encodes to 64 bytes and it read a 32-byte ephemeral and nonce |
| Handshake.HonestReplyMatches | handshake.py:38-48 | If the responder's nonce has 32 bytes too, a responder that read a 32-byte ephemeral holds the same fields exactly when it takes the initiator for its own fingerprint |
| Handshake.TranscriptsCollide | handshake.py:38-48 | Different fields with one transcript: a short ephemeral with a long nonce, and a long fingerprint with a short nonce |
| Handshake.TranscriptFieldsAgree | handshake.py:38-48 | With 64-byte fingerprints the concatenation parses uniquely exactly when the received ephemeral and nonce have their proper length; the unchecked length of the responder's nonce follows |
| Handshake.TranscriptFingerprints | handshake.py:38-48 | A transcript decides both fingerprints whatever the lengths of the fields after them |
| Handshake.TranscriptLayout | handshake.py:38-48 | Where each field of a transcript of ordinary lengths lies, byte by byte |
| Handshake.MatchingKeysMirror | crypto_utils.py:229-259 | Matching sides derive keys and nonce bases that are each other's swapped |
| Handshake.CompletionMeans | handshake.py:81-94 | Completing needs a signature that verifies under the responder's key on exactly the initiator's transcript |
| Handshake.CompletionIs | handshake.py:66-94 | The initiator completes if and only if it reads a HANDSHAKE_RESP from the fingerprint it asked, signed over its own type, id, sender and payload with that contact's key, whose transcript signature verifies under that key and whose ephemeral has 32 bytes |
| Handshake.OpeningIs | handshake.py:97-123 | The responder takes a HANDSHAKE_INIT if and only if it comes from the fingerprint of its record and is so signed with the key of its record |
| Handshake.ResponderReplyIs | handshake.py:97-129 | An opening it takes gets the one reply; anything else at most one ERROR, and a frame of another type nothing |
| Handshake.ResponderRefuses | handshake.py:104-113 | Which ERROR answers the wrong sender, and which a signature that does not hold |
| Handshake.InitiatorKeyLengths | crypto_utils.py:229-259 | If HKDF gives the lengths asked for, a completed initiator has 32-byte keys and 12-byte nonce bases |
| Handshake.ResponderKeyLengths | crypto_utils.py:229-259 | So has a completed responder |
| Handshake.ResponderNoncesDistinct | crypto_utils.py:262-273 | Under the keys of any completed handshake no two chunk indices below 2^64 share a nonce |
| Handshake.PerformInitiator | handshake.py:59-94 | Sends the INIT if it fits, reads one frame and ends as the initiator function says, all exceptions included |
| Handshake.PerformResponder | handshake.py:97-133 | Sends the reply or the ERROR the checks call for, and has keys exactly when all checks passed and the reply was sent |
| Protocol.CanonicalEnvelopeInjective | protocol.py:59-71 | On values without surrogate pairs one signed text belongs to one type, id, sender and payload |
| Protocol.CanonicalEnvelopeDecides | protocol.py:59-71 | On arbitrary Python strings the signed text decides type, id, sender and payload up to UTF-16 code units |
| Protocol.SignedTreeText | protocol.py:65-70 | The pieces the source concatenates are what the printer prints for the ordered object, field by field |
| Protocol.EnvelopeTextIs | protocol.py:59-71 | The whole signed text is the five literal pieces with the four values between them, in this order |
| Protocol.ManifestTextIs | protocol.py:165-182 | The whole manifest text, literal names and values in order |
| Protocol.ManifestDecides | protocol.py:165-182 | Equal manifest texts agree on the text of all six fields |
| Protocol.ManifestKeyOrder | protocol.py:174-182 | The six manifest fields print in alphabetical order |
| Protocol.EnvelopeIsNotManifest | protocol.py:174-182 | No signed envelope text is a manifest text, for all fields |
| Protocol.BuiltEnvelopeVerifies | protocol.py:78-126 | Whatever the type and payload, a built envelope verifies under its builder's key |
| Protocol.SignatureNeeded | protocol.py:43-126 | An envelope of one of the seven literal types passes if and only if its sig field decodes to bytes that verify over its type, id, sender and payload; one of any other type always passes |
| Protocol.SignatureRefused | protocol.py:105-126 | Where the signature does not hold the check answers false, or raises if a field is missing |
| Protocol.TypeNotText | protocol.py:110-112 | An envelope without a type, or with one that is not text, passes, unless the type cannot be looked up in a set |
| Protocol.BuiltEnvelopeIs | protocol.py:78-98 | A built envelope has the six literal fields, and a signature over just these exactly on the seven types |
| Protocol.SignedDelivery | protocol.py:78-148 | Built, framed and read back, with nothing of the following bytes consumed, any envelope keeps its type and has its id and payload as read; it verifies under the sender's key if and only if its type is unsigned, or the keys of every dict in the payload, read back, are still distinct and in order, or the signature happens to verify on the changed text |
| Protocol.FramesRoundTrip | protocol.py:133-158 | Reading a stream of any sent frames yields the envelopes as they read back, in order, and then the end of the stream; they are the sent ones if and only if no string in them has a surrogate pair |
| Protocol.TruncatedStream | protocol.py:141-158 | A stream of any frames cut anywhere yields exactly the envelopes whose frames are complete, and then the closed connection |
| Protocol.FrameLayout | protocol.py:133-138 | A frame is four length bytes, the highest first, and the text, and exists for texts of at most 4 MiB only |
| Protocol.TakeFrameIs | protocol.py:141-158 | What recv_frame makes of any bytes: a frame, or which of the three exceptions, by the four length bytes and what follows |
| Protocol.Connection.RecvExact | protocol.py:151-158 | Whatever pieces recv returns, exactly the next n bytes are delivered, or the stream was shorter |
| Protocol.Connection.RecvFrame | protocol.py:141-148 | On every fragmentation recv_frame is the frame function of the bytes to come, and leaves exactly the rest |
| Protocol.Connection.SendFrame | protocol.py:133-138 | Appends length and text, or nothing when the text is too large |
| Json.LoadsDumps | protocol.py:133-148 | Reading back a printed value gives the value if and only if no string in it, dict keys included, has a lone high surrogate right before a lone low one |
| Rereading.PrintsAsBefore | protocol.py:105-126 | A value read back prints as before if and only if in every dict of it the keys, read back, are still distinct and in the same order |
| Rereading.PairedKeysSwap | protocol.py:69 | Two keys, one a pair of lone surrogates, that change order when read back |
| Json.DumpsInjective | protocol.py:165-182 | Two values without surrogate pairs print alike if and only if they are equal |
| Json.DumpsStrings | protocol.py:66-68 | Arbitrary strings print alike if and only if their UTF-16 code units agree |
| Json.LoneSurrogatesCollide | protocol.py:66-68 | A lone high and low surrogate print like the astral character they would form |
| Json.PlainIsUnique | protocol.py:69 | No other value, lone surrogates included, prints like one of basic-plane strings |
| Json.ParsePrint | protocol.py:135 | The reader undoes the printer on every tree of code units, whatever non-digit follows |
| Json.SortedKeysUnique | protocol.py:182 | The sorted key order of a dict is unique, so equal dicts print identically |
| Base64.RoundTrip | crypto_utils.py:316-321 | The lenient decoder gives back exactly the encoded bytes |
| Base64.SkipsOthers | crypto_utils.py:316-321 | Decoding skips every ASCII character that is neither base64 nor padding, wherever it stands |
| Base64.Vectors | crypto_utils.py:316-321 | The short vectors of RFC 4648 |
| CryptoUtils.ChunkAadBinds | crypto_utils.py:290 | If the sealing side's ids have no colon, no choice of the opening side's fields gives the same AAD but the same fields |
| CryptoUtils.ChunkAadInjective | crypto_utils.py:290 | For any file ids and colon-free message ids equal AADs have equal file id, index, total and message id |
| AadParsing.SecondReading | crypto_utils.py:290 | Other fields give the same AAD if and only if two consecutive colon-separated pieces other than the index and count are decimals with pieces on both sides |
| AadParsing.AadAmbiguous | crypto_utils.py:290 | One colon in the file id suffices: two field choices with one AAD |
| CryptoUtils.ChunkNonceInjective | crypto_utils.py:266-273 | Under one 12-byte base no two 64-bit indices share a nonce |
| CryptoUtils.ChunkNonceUndo | crypto_utils.py:266-273 | XORing the padded index in again restores the base, and the first four bytes are the base's |
| CryptoUtils.DeriveMirrors | crypto_utils.py:229-259 | Equal secrets, salts and fingerprints give the two roles swapped keys and nonce bases, or both fail |
| CryptoUtils.DeriveIs | crypto_utils.py:238-259 | The four outputs are HKDF over the XOR of the nonces and the literal prefix, both fingerprints and TX, RX, NTX or NRX, of 32, 32, 12 and 12 bytes, which side gets which included; derivation fails exactly when a fingerprint has a lone surrogate |
| CryptoUtils.InfoInjective | crypto_utils.py:240-247 | The HKDF info strings of 64-character fingerprints tell initiator, responder and label apart |
| CryptoUtils.HexInjective | crypto_utils.py:57-59 | Hexadecimal printing of digests loses nothing |
| Rotation.CyclesWaitForAnAdd | server.py:282-310 | In every reachable state of the interleaved handlers every cycle of successors passes through a fingerprint whose add is pending |
| Rotation.QuiescentBook | server.py:303-310 | With no rotation half done, revoked means having a successor, every successor is a contact, and from any contact fewer hops than there are contacts reach an unrevoked one |
| Rotation.QuiescentAcyclic | server.py:303-310 | With no rotation half done the successor graph has no cycle |
| Rotation.StepKeeps | server.py:79-85 | Every step of every handler keeps the ranking of records by the add that made them |
| Rotation.RevocationStands | storage.py:110-131 | A revoked contact whose lower-case fingerprint is stored, with no contact request for it under way, stays revoked through every run in which no rotation names it as the new one |
| Rotation.RevocationCanBeUndone | server.py:166-172 | For every revoked contact, some run undoes the revocation without a rotation to that fingerprint if and only if a contact request that saw it absent has yet to add it or its lower-case form is not stored |
| Rotation.StaleRequestReachable | server.py:166-172 | For every lower-case fingerprint and decodable key a run leads to a state of the first kind |
| Rotation.ShadowedRevocationReachable | server.py:165-172 | A run leads to a state of the second kind: a rotation revokes "abC" where no request for it is pending and "abc" is not stored |
| Rotation.OnlyAddsReset | storage.py:110-131 | A revoked contact stays revoked through a step if and only if the step does not add its fingerprint; a record just added is unverified and unrevoked |
| Rotation.OnlyRequestsAreUnchecked | client.py:75-80 | In every reachable state a record whose fingerprint is not that of its key was made by a contact request; adding a contact and rotation both check it |
| Rotation.RotationStepsAreHandler | server.py:282-310 | Run without interference the rotation steps change the book exactly as the handler does |
| Rotation.RequestStepsAreHandler | server.py:165-177 | Run without interference the contact-request steps change the book exactly as the handler does |
| Rotation.MarksInEveryRun | storage.py:110-131 | In every run of interleaved handlers the book is the history of its store operations, and a contact shows verified, or revoked, if and only if some such mark resolved to it after its latest add |
| TrustHistory.VerifiedHistory | storage.py:118-124 | Over every history a contact shows verified if and only if some mark_verified resolved to it after the latest add that made its record |
| TrustHistory.RevokedHistory | storage.py:126-131 | Over every history a contact shows revoked if and only if some mark_revoked resolved to it after the latest add that made its record |
| TrustHistory.SuccessorHistory | storage.py:126-131 | The successor shown is the one named by the last of those calls |
| TrustHistory.AnswersStay | storage.py:100-105 | Among fingerprint keys, once a query has answered with a contact no later operation makes it answer with another |
| Contacts.AnswersNeverMove | storage.py:100-105 | For every set of keys: as contacts are added no query ever moves to another contact if and only if no key that is its own lower case is a proper prefix of another |
| Contacts.FullResolvesToItself | storage.py:100-105 | Among 64-character keys a 64-character query finds exactly itself in lower case, or nothing |
| Contacts.OwnKeyResolves | storage.py:100-105 | A stored key finds its own record if and only if it is in lower case |
| Contacts.UniqueMatch | storage.py:104-105 | Scanning the keys in dict order for a single match finds the unique prefix match |
| Contacts.MarksAre | storage.py:118-138 | Each mark changes just its fields of the resolved contact, and no other record |
| Contacts.ContactStore.Get | storage.py:100-105 | Returns the stored object the lookup resolves to, or null |
| Contacts.ContactStore.Add | storage.py:110-112 | Stores the object under its fingerprint, a new key last, an old one in its place |
| Contacts.ContactStore.MarkVerified | storage.py:118-124 | Sets the mark on the resolved contact only, and reports whether there was one |
| Contacts.ContactStore.MarkRevoked | storage.py:126-131 | Sets mark and successor on the resolved contact only |
| Contacts.ContactStore.UpdateAddress | storage.py:133-138 | Sets host and port of the resolved contact only |
| Server.HandleFileSession | server.py:192-231 | Handshake, one request, one answer; sent frames and what is read are exactly those of the session functions, exceptions included |
| Server.AnswerRequest | server.py:209-231 | Index, consent and disk decide the frames sent after the handshake |
| Server.AnswerMeans | server.py:213-231 | Frame by frame: FILE_DENY with its reason for a file not in the index or refused by the user, who is shown fingerprint, name and file; FILE_APPROVE and the transfer otherwise |
| Server.AnswerToNoName | server.py:213-219 | A request without a file id asks for the empty name |
| Server.AnswerToNoText | server.py:213-219 | A file id that is not text gets FILE_DENY with that id, or raises if it is a list or an object |
| Server.AnswerToOthers | server.py:209-211 | Any other frame after the handshake gets one ERROR |
| Server.HandleContactRequest | server.py:148-183 | A stranger whose request verifies is added as announced; for a known contact only the address changes; the book changes only for a CONTACT_REQUEST signed with the key it announces |
| Server.IntroductionIs | server.py:148-177 | A CONTACT_REQUEST is accepted as (fingerprint, key, port) if and only if these are its sender, raw_pub and port and its signature, over its own type, id, sender and payload, verifies under that key |
| Server.IntroductionRefused | server.py:154-163 | Which ERROR answers an undecodable key, and which a signature that does not hold |
| Server.IntroductionMalformed | server.py:149-160 | A payload that is not an object raises; one that is missing counts as empty and fails at the signature |
| Server.AnyFingerprintAccepted | server.py:148-163 | A contact request is accepted under any fingerprint its sender names, since only its signature is checked |
| Server.IntroductionEffect | server.py:165-177 | A stranger gets a fresh record; a known contact keeps key and marks and gets the new address; no other contact changes, except that one stored under the same fingerprint not in lower case is replaced |
| Server.HandleKeyRotate | server.py:282-314 | An accepted notice revokes the old record in favour of the new one, which inherits address and alias; the book changes only for a notice signed with the old key |
| Server.RotationIs | server.py:282-301 | A KEY_ROTATE_NOTICE is accepted if and only if it is signed over its own type, id, sender and payload with the old key, and names a new key and the hexadecimal SHA-256 of that key |
| Server.RotationRefused | server.py:283-286 | The ERROR for a notice whose signature does not hold |
| Server.NewKeyRefused | server.py:291-295 | The ERROR for a signed notice whose new key does not decode |
| Server.NewFingerprintRefused | server.py:297-301 | The ERROR for a signed notice whose fingerprint is not that of its new key |
| Server.RotationMalformed | server.py:283-290 | A signed notice whose payload is not an object raises, as does a stored key that does not decode |
| Server.AnyNoticeAccepted | server.py:112-118 | The notice rotates the contact its sender name resolves to, whatever that name, if signed with that contact's key |
| Server.RotationEffect | server.py:303-310 | After an accepted notice the new record is unverified, unrevoked and without successor; the old one is revoked to it exactly when stored in lower case; no other record changes, unless the old fingerprint is not in lower case and resolves to it |
| Server.Dispatch | server.py:100-139 | The first frame's type decides the handler; the book and the frames sent are as stated for it, and only the rotation handler serves a revoked contact |
| Server.OnContactRequest | server.py:109-110 | By the literal type: a CONTACT_REQUEST changes the book by the introduction it makes, or not at all, and is answered by CONTACT_ACCEPT or the ERROR |
| Server.OnKeyRotateNotice | server.py:111-116 | A KEY_ROTATE_NOTICE rotates the contact its sender resolves to, revoked or not, if signed with that contact's key, and changes nothing otherwise |
| Server.OnListFiles | server.py:117-125 | A LIST_FILES_REQUEST changes nothing, needs no signature, and is answered to an unrevoked contact only |
| Server.OnHandshakeInit | server.py:126-134 | A HANDSHAKE_INIT changes nothing and opens a session with an unrevoked contact only |
| Server.OnHello | server.py:107-108 | A HELLO changes nothing and is answered to anyone |
| Server.OnOtherType | server.py:135-136 | Any other type changes nothing and gets the ERROR that names it |
| Client.DoRequest | client.py:137-168 | Sends the INIT and, once the handshake completed, the request; reports, reads and stores as the request function says |
| Client.SavedThroughTransfer | client.py:141-166 | Whatever a request saves came, frame by frame, as the reply that completed the handshake, a FILE_APPROVE, a TRANSFER_START signed with the key of the contact asked, the chunks it announces under that handshake's keys, and a TRANSFER_DONE |
| Client.DeclinedIs | client.py:147-156 | Only FILE_APPROVE lets the transfer begin; what is reported and what raises |
| Client.BadStartIs | client.py:158-164 | Only a TRANSFER_START signed over its own type, id, sender and payload with the contact's key is taken |
| Client.LaterFramesIgnored | client.py:137-168 | A request that ended in any way but by running out of frames ends just so whatever follows |
| Client.LostMeansAllTaken | client.py:137-168 | A request reports lost frames only when it has taken all there were |
| Client.ProxyDownload | client.py:255-297 | Dials, in dict order, only contacts that are not revoked, not the offline one, and whose cached list names the file; stops at the first that delivers and stores only its file; fails only after dialling all of them, or at a cached list that is not one of objects |
| Client.EligibleIs | client.py:257-266 | A contact is asked if and only if it is unrevoked, not the offline one, and the list cached under the first 16 characters of its fingerprint has an entry with the file id before which all are objects |
| Client.RequestFile | client.py:126-135 | A revoked contact is refused without being asked, and the proxies are tried exactly when there is no connection or the peer's byte stream closes where a frame is awaited |
| Client.OfflineIs | client.py:131-142 | The contact counts as offline if and only if there is no connection, or its stream closes, and is not merely unreadable, where a frame is awaited |
| Client.FirstAtIs | client.py:328-332 | The contact asked is the first in dict order with that host and port |
| Client.AddContact | client.py:53-94 | The book changes only by an accepted reply, as the stated introduction, and the request sent is the client's own |
| Client.AcceptanceIs | client.py:62-86 | A reply adds its sender if and only if it is a CONTACT_ACCEPT signed over its own type, id, sender and payload with the key it announces, by the hexadecimal SHA-256 of that key |
| Client.MutualIntroduction | client.py:53-94 | Two honest peers accept each other's introduction, each under the fingerprint of the other's key |
| Client.NoticeAccepted | client.py:302-306 | A contact that holds the old key accepts the notice and reads the new key and its fingerprint |
| Sharing.CmdShare | p2pshare.py:241-267 | Adds the entry with name, digest, size, owner and the owner's signature on exactly these fields |
| Sharing.EntryIs | p2pshare.py:245-266 | The entry field by field: name after the last slash, hexadecimal SHA-256, size read, owner fingerprint, and the signature on the manifest of just these |
| Sharing.SharedIsAccepted | p2pshare.py:256-266 | A receiver that knows the owner's key accepts the manifest of a shared file, whoever offers it |
| Sharing.SharingIsAStep | p2pshare.py:256-266 | cmd_share is the sharing step of the network runs: the signature in the index entry is on exactly the text whose issue that step records |
| Sharing.BasenameIs | p2pshare.py:250 | The name is what follows the last slash of the path |

## Left out

- TLS setup, certificates, sockets, timeouts and mDNS; the connection is a byte stream or a frame channel.
- The insides of Ed25519, X25519, AES-GCM, SHA-256, HKDF and Argon2id. Unforgeability of signatures is built into `Network`, and so is authenticity of AES-GCM under keys derived from two honest ephemerals; `Reassembly`, which is about one session whatever else runs, takes it as the hypothesis `NothingForged` on the frames delivered. The all-zero check of X25519 is not modelled.
- Identity files, passwords, the command line, prompts and printing; consent is a function of the inputs.
- The encrypted files of the contact store and of received files: each save is taken to complete, a process that stops between marking and adding is not modelled, and neither are two processes with the same data directory.
- In a session, a send to a peer that has hung up is taken to succeed; the source may get an exception and stop earlier.
- A dict that changes while another thread's save or lookup iterates over it.
- mark_revoked as two assignments: under interleaving it is one step.
- Json.Loads: reads only the compact ASCII text the printer writes; whitespace and raw non-ASCII text, which json.loads also reads, give None.
- Json.IsFloatText: a float is kept as its text, and which texts repr prints is not stated, so neither are the other texts of the same number nor the equality of a float with an integer.
- Contacts.LikeStrLower: all that is used of `str.lower()`, which is a parameter, is that it lowers ASCII text letter by letter and never shortens a string, and in `Contacts.AnswersNeverMove` that lowering twice is lowering once.
- Server.HandleListFiles: the public list is a parameter, so its contents and order are not stated.
- Transfer.RecvTransfer: a file id, owner or message id that is not a string counts as an exception, and a chunk index or count that is a JSON boolean is not taken for a number.
- Protocol.VerifyEnvelope: raises on an id or sender that is not a string, where the source would sign its JSON text.
- Network.EndToEnd: says nothing about which file was asked for, since the receiver does not compare the file id with the requested one, and nothing about the length of the data, since the signed size is not compared with it.
- Network.MaySend: that uuids are used once, that the keys of two handshakes in which files are sent differ, and that no file sent is longer than 2^53 bytes are conditions of the sending step; that each handshake has a new ephemeral key is one of the handshake steps.
- Client.RequestFile: timeouts and other socket errors while a frame is awaited are not told apart from a stream that closes there.
- Sharing.CmdShare: the file is hashed and measured in two separate reads, which are parameters; the expansion of `~` is not modelled.
- The received-file commands, unshare's output and the file-list command's cache writing, which would add only easy members.
