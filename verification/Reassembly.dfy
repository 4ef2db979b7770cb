/** What the receive loop's dict and join guarantee, first about the loop alone, then against an
    honest sender over a channel that may drop, reorder, repeat or invent frames. */
module Reassembly {
  import opened Bytes
  import opened Base64
  import opened Json
  import opened CryptoUtils
  import opened Chunking
  import opened Protocol
  import opened Transfer

  // ---------------------------------------------------------------- the dict as a list of accepted chunks

  type Pair = (int, Bytes)

  /** The dict after storing the pairs in order; a repeated index keeps the last. */
  function DictOf(l: seq<Pair>): map<int, Bytes>
  {
    if l == [] then map[] else DictOf(l[..|l| - 1])[l[|l| - 1].0 := l[|l| - 1].1]
  }

  function Indices(l: seq<Pair>): set<int> { set i | 0 <= i < |l| :: l[i].0 }

  predicate AllAccepted(c: ChunkCheck, frames: seq<J>)
  {
    forall i :: 0 <= i < |frames| ==> AcceptChunk(c, frames[i]).Chunk?
  }

  function AcceptedPairs(c: ChunkCheck, frames: seq<J>): (l: seq<Pair>)
    requires AllAccepted(c, frames)
    ensures |l| == |frames|
    ensures forall i :: 0 <= i < |l| ==> AcceptChunk(c, frames[i]) == Chunk(l[i].0, l[i].1)
  {
    seq(|frames|, i requires 0 <= i < |frames| => (AcceptChunk(c, frames[i]).index, AcceptChunk(c, frames[i]).plain))
  }

  lemma FirstAccepted(c: ChunkCheck, frames: seq<J>, n: nat)
    requires 1 <= n <= |frames|
    ensures AllAccepted(c, frames[..n]) <==> AcceptChunk(c, frames[0]).Chunk? && AllAccepted(c, frames[1..][..n - 1])
  {
    hide AcceptChunk;
    assert frames[..n][0] == frames[0];
    var tail := frames[1..][..n - 1];
    assert forall i :: 0 <= i < n - 1 ==> tail[i] == frames[..n][i + 1];
    if AcceptChunk(c, frames[0]).Chunk? && AllAccepted(c, frames[1..][..n - 1]) {
      forall i | 0 <= i < n
        ensures AcceptChunk(c, frames[..n][i]).Chunk?
      {
        if i > 0 { assert frames[..n][i] == frames[1..][..n - 1][i - 1]; }
      }
    }
  }

  lemma FirstPair(c: ChunkCheck, frames: seq<J>, n: nat)
    requires 1 <= n <= |frames| && AllAccepted(c, frames[..n]) && AllAccepted(c, frames[1..][..n - 1])
    requires AcceptChunk(c, frames[0]).Chunk?
    ensures var first := AcceptChunk(c, frames[0]);
            AcceptedPairs(c, frames[..n]) == [(first.index, first.plain)] + AcceptedPairs(c, frames[1..][..n - 1])
  {
    hide AcceptChunk, AllAccepted;
    assert frames[..n] == [frames[0]] + frames[1..][..n - 1];
  }

  lemma StoredLast(pre: seq<Pair>, last: Pair)
    ensures DictOf(pre + [last]) == DictOf(pre)[last.0 := last.1]
  {
    assert (pre + [last])[..|pre|] == pre;
  }

  /** The loop gets through exactly when each of the next n frames is accepted, and then its dict is
      that of the accepted pairs. */
  lemma {:induction false} CollectIs(c: ChunkCheck, n: nat, frames: seq<J>, pre: seq<Pair>)
    ensures var r := Collect(c, n, frames, DictOf(pre));
            if n <= |frames| && AllAccepted(c, frames[..n])
            then r == Collected(DictOf(pre + AcceptedPairs(c, frames[..n])), frames[n..])
            else r.Stopped?
  {
    hide AcceptChunk, AllAccepted, AcceptedPairs, DictOf;
    if n == 0 {
      NothingAccepted(c, frames[..0], pre);
    } else if frames != [] {
      var first := AcceptChunk(c, frames[0]);
      if n <= |frames| { FirstAccepted(c, frames, n); }
      if first.Chunk? {
        var pair := (first.index, first.plain);
        StoredLast(pre, pair);
        CollectIs(c, n - 1, frames[1..], pre + [pair]);
        if n <= |frames| && AllAccepted(c, frames[..n]) {
          FirstPair(c, frames, n);
          Assoc(pre, [pair], AcceptedPairs(c, frames[1..][..n - 1]));
        }
      }
    }
  }

  lemma NothingAccepted(c: ChunkCheck, none: seq<J>, pre: seq<Pair>)
    requires none == []
    ensures AllAccepted(c, none) && pre + AcceptedPairs(c, none) == pre
  {
  }

  lemma {:induction false} DictOfKeys(l: seq<Pair>)
    ensures DictOf(l).Keys == Indices(l)
    ensures forall k :: k in DictOf(l) ==> (k, DictOf(l)[k]) in l
  {
    if l != [] {
      var m, last := l[..|l| - 1], l[|l| - 1];
      DictOfKeys(m);
      assert l == m + [last];
      assert Indices(l) == Indices(m) + {last.0} by {
        forall i | 0 <= i < |l| ensures l[i].0 in Indices(m) + {last.0} {
          if i < |m| { assert m[i] == l[i]; }
        }
        forall i | 0 <= i < |m| ensures m[i].0 in Indices(l) { assert l[i] == m[i]; }
        assert l[|m|] == last;
      }
    }
  }

  /** The join finds every index exactly when the dict has 0..total-1. */
  lemma {:induction false} JoinSomeIff(d: map<int, Bytes>, k: int, total: int)
    ensures JoinChunks(d, k, total).Some? <==> forall i :: k <= i < total ==> i in d
    decreases total - k
  {
    if k < total { JoinSomeIff(d, k + 1, total); }
  }

  // ---------------------------------------------------------------- pigeonhole

  predicate DistinctIndices(l: seq<Pair>) { forall i, j :: 0 <= i < j < |l| ==> l[i].0 != l[j].0 }

  lemma {:induction false} FewIndices(l: seq<Pair>)
    ensures |Indices(l)| <= |l|
    ensures |Indices(l)| == |l| ==> DistinctIndices(l)
  {
    if l != [] {
      var m, last := l[..|l| - 1], l[|l| - 1];
      FewIndices(m);
      assert Indices(l) == Indices(m) + {last.0} by {
        assert l == m + [last];
        forall i | 0 <= i < |l| ensures l[i].0 in Indices(m) + {last.0} {
          if i < |m| { assert m[i] == l[i]; }
        }
        forall i | 0 <= i < |m| ensures m[i].0 in Indices(l) { assert l[i] == m[i]; }
        assert l[|m|] == last;
      }
      if |Indices(l)| == |l| {
        assert last.0 !in Indices(m);
        forall i, j | 0 <= i < j < |l| ensures l[i].0 != l[j].0 {
          assert m[i] == l[i];
          if j < |m| { assert m[j] == l[j]; } else { assert m[i].0 in Indices(m); }
        }
      }
    }
  }

  function Range(n: nat): (r: set<int>)
    ensures forall i :: i in r <==> 0 <= i < n
    ensures |r| == n
  {
    if n == 0 then {} else Range(n - 1) + {n - 1}
  }

  lemma SameSizeSubset(a: set<int>, b: set<int>)
    requires a <= b && |b| <= |a|
    ensures a == b
  {
    assert |b - a| == |b| - |a|;
  }

  /** After exactly n accepted chunks the join succeeds exactly when the indices are 0..n-1, each once. */
  lemma Pigeonhole(l: seq<Pair>)
    ensures JoinChunks(DictOf(l), 0, |l|).Some? <==> Indices(l) == Range(|l|)
    ensures JoinChunks(DictOf(l), 0, |l|).Some? ==> DistinctIndices(l)
  {
    JoinSomeIff(DictOf(l), 0, |l|);
    DictOfKeys(l);
    FewIndices(l);
    if JoinChunks(DictOf(l), 0, |l|).Some? {
      assert Range(|l|) <= Indices(l);
      SameSizeSubset(Range(|l|), Indices(l));
    }
  }

  lemma SameMembers(l: seq<Pair>, m: seq<Pair>)
    requires multiset(l) == multiset(m)
    ensures |l| == |m| && Indices(l) == Indices(m) && forall x :: x in l <==> x in m
  {
    assert |multiset(l)| == |l| && |multiset(m)| == |m|;
    assert forall x :: x in l <==> x in multiset(l);
    assert forall x :: x in m <==> x in multiset(m);
    forall i | 0 <= i < |l| ensures l[i].0 in Indices(m) { assert l[i] in m; }
    forall i | 0 <= i < |m| ensures m[i].0 in Indices(l) { assert m[i] in l; }
  }

  /** The joined file does not depend on the order in which the same chunks arrived. */
  lemma ArrivalOrderIrrelevant(l: seq<Pair>, m: seq<Pair>)
    requires multiset(l) == multiset(m)
    ensures JoinChunks(DictOf(l), 0, |l|) == JoinChunks(DictOf(m), 0, |m|)
  {
    SameMembers(l, m);
    Pigeonhole(l);
    Pigeonhole(m);
    if JoinChunks(DictOf(l), 0, |l|).Some? {
      SameDict(l, m);
    }
  }

  lemma SameDict(l: seq<Pair>, m: seq<Pair>)
    requires Indices(l) == Indices(m) && DistinctIndices(m) && forall x :: x in l ==> x in m
    ensures DictOf(l) == DictOf(m)
  {
    DictOfKeys(l);
    DictOfKeys(m);
    forall k | k in DictOf(l)
      ensures DictOf(l)[k] == DictOf(m)[k]
    {
      var i :| 0 <= i < |m| && m[i] == (k, DictOf(l)[k]);
      var j :| 0 <= j < |m| && m[j] == (k, DictOf(m)[k]);
      assert i == j;
    }
  }

  // ---------------------------------------------------------------- against the sender's key

  ghost predicate SealedByJob(x: SendJob, i: int, nonce: Bytes, aad: Bytes, plain: Bytes)
  {
    && 0 <= i < x.Total() && ChunkNonce(x.keys.txNonceBase, i) == Some(nonce)
    && ChunkAad(x.file.fileId, i, x.Total(), x.transferId) == Some(aad) && plain == Slice(x.data, i)
  }

  /** The ciphertext a CHUNK frame carries. */
  function Ciphertext(env: J): Option<Bytes>
  {
    var payload :- Field(env, Asc("payload"));
    var text :- TextField(payload, Asc("data"));
    B64d(text)
  }

  /** AES-GCM authenticity for one delivered frame: if its ciphertext opens under the session's key, the
      session's one _send_file call sealed what it opens to, under that nonce and AAD. */
  ghost predicate SealedHere(x: SendJob, env: J)
  {
    forall n, a, m :: Ciphertext(env).Some? && x.p.open(x.keys.txKey, n, a, Ciphertext(env).value) == Some(m)
                      ==> exists i :: SealedByJob(x, i, n, a, m)
  }

  /** The channel may drop, reorder, repeat, replay and invent frames, but not forge ciphertexts. A session
      sends at most one file, so nothing else uses its key. */
  ghost predicate NothingForged(x: SendJob, frames: seq<J>)
  {
    forall i :: 0 <= i < |frames| ==> SealedHere(x, frames[i])
  }

  /** The uuids the sender uses contain no colon. */
  predicate PlainIds(x: SendJob) { NoColon(x.file.fileId) && NoColon(x.transferId) }

  /** An accepted chunk is one that opened. */
  lemma AcceptedOpens(c: ChunkCheck, env: J)
    requires AcceptChunk(c, env).Chunk?
    ensures var r := AcceptChunk(c, env);
            && Ciphertext(env).Some? && ChunkNonce(c.rxNonceBase, r.index).Some?
            && ChunkAad(c.fileId, r.index, c.total, c.transferId).Some?
            && c.p.open(c.rxKey, ChunkNonce(c.rxNonceBase, r.index).value,
                        ChunkAad(c.fileId, r.index, c.total, c.transferId).value, Ciphertext(env).value) == Some(r.plain)
  {
    hide HasType, ChunkNonce, ChunkAad, B64d;
  }

  /** A chunk accepted under the session key carries the slice its index names, and the receiver's
      file id, chunk count and transfer id are the sender's. */
  lemma AcceptedIsSlice(x: SendJob, c: ChunkCheck, env: J)
    requires SealedHere(x, env) && PlainIds(x) && c.p == x.p && c.rxKey == x.keys.txKey
    requires AcceptChunk(c, env).Chunk?
    ensures var r := AcceptChunk(c, env);
            && c.fileId == x.file.fileId && c.total == x.Total() && c.transferId == x.transferId
            && 0 <= r.index < x.Total() && r.plain == Slice(x.data, r.index)
  {
    hide AcceptChunk, TotalChunks, ChunkNonce, ChunkAad, Ciphertext, Slice;
    AcceptedOpens(c, env);
    var r := AcceptChunk(c, env);
    var aad := ChunkAad(c.fileId, r.index, c.total, c.transferId);
    var nonce := ChunkNonce(c.rxNonceBase, r.index);
    assert x.p.open(x.keys.txKey, nonce.value, aad.value, Ciphertext(env).value) == Some(r.plain);
    var i :| SealedByJob(x, i, nonce.value, aad.value, r.plain);
    ChunkAadBinds(x.file.fileId, i, x.Total(), x.transferId, c.fileId, r.index, c.total, c.transferId);
  }

  lemma {:induction false} JoinOfSlices(x: SendJob, d: map<int, Bytes>, k: nat)
    requires k <= x.Total() && forall i :: i in d ==> 0 <= i < x.Total() && d[i] == Slice(x.data, i)
    requires JoinChunks(d, k, x.Total()).Some?
    ensures JoinChunks(d, k, x.Total()).value == JoinSlices(x.data, k, x.Total())
    decreases x.Total() - k
  {
    if k < x.Total() { JoinOfSlices(x, d, k + 1); }
  }

  /** The dict after the loop is that of the pairs its frames carry. */
  lemma CollectedPairs(c: ChunkCheck, frames: seq<J>, chunks: map<int, Bytes>, rest: seq<J>)
    requires c.total >= 1 && Collect(c, c.total, frames, map[]) == Collected(chunks, rest)
    ensures c.total <= |frames| && AllAccepted(c, frames[..c.total])
    ensures chunks == DictOf(AcceptedPairs(c, frames[..c.total]))
  {
    hide AcceptChunk, Collect;
    CollectIs(c, c.total, frames, []);
    var l := AcceptedPairs(c, frames[..c.total]);
    assert [] + l == l;
  }

  lemma PairIsSlice(x: SendJob, c: ChunkCheck, frames: seq<J>, i: nat)
    requires NothingForged(x, frames) && PlainIds(x) && c.p == x.p && c.rxKey == x.keys.txKey
    requires i < c.total <= |frames| && AllAccepted(c, frames[..c.total])
    ensures c.fileId == x.file.fileId && c.total == x.Total() && c.transferId == x.transferId
    ensures var pair := AcceptedPairs(c, frames[..c.total])[i];
            0 <= pair.0 < x.Total() && pair.1 == Slice(x.data, pair.0)
  {
    hide AcceptChunk, TotalChunks, SealedHere, Slice, PlainIds;
    assert frames[..c.total][i] == frames[i];
    AcceptedIsSlice(x, c, frames[i]);
  }

  /** Reassembly: whatever frames arrive, if the loop accepts the announced number of chunks and the
      join finds every index, the joined bytes are the ones the sender read. */
  lemma ReassemblyExact(x: SendJob, c: ChunkCheck, frames: seq<J>, chunks: map<int, Bytes>, rest: seq<J>)
    requires NothingForged(x, frames) && PlainIds(x) && c.p == x.p && c.rxKey == x.keys.txKey && |x.data| <= TWO53
    requires c.total >= 1 && Collect(c, c.total, frames, map[]) == Collected(chunks, rest)
    requires JoinChunks(chunks, 0, c.total).Some?
    ensures JoinChunks(chunks, 0, c.total).value == x.data
    ensures c.fileId == x.file.fileId && c.total == x.Total() && c.transferId == x.transferId
  {
    hide AcceptChunk, TotalChunks, Slice, Collect, JoinChunks, JoinSlices, DictOf, NothingForged, PlainIds;
    CollectedPairs(c, frames, chunks, rest);
    var l := AcceptedPairs(c, frames[..c.total]);
    forall i | 0 <= i < |l|
      ensures c.fileId == x.file.fileId && c.total == x.Total() && c.transferId == x.transferId
      ensures 0 <= l[i].0 < x.Total() && l[i].1 == Slice(x.data, l[i].0)
    {
      PairIsSlice(x, c, frames, i);
    }
    assert l[0] in l;
    DictOfKeys(l);
    JoinOfSlices(x, chunks, 0);
    SlicesPartition(x.data);
  }

  /** The number of turns the receive loop makes. */
  function Turns(o: Offer): nat { if o.totalChunks.JInt? && o.totalChunks.n > 0 then o.totalChunks.n else 0 }

  /** One turn of the loop takes exactly a CHUNK frame whose data is base64 text that opens under the receiving key, with
      the nonce of its index and the AAD of the offer. */
  lemma AcceptChunkIs(c: ChunkCheck, env: J, index: int, plain: Bytes)
    ensures AcceptChunk(c, env) == Chunk(index, plain)
            <==> && HasType(env, Asc("CHUNK")) && Field(env, Asc("payload")).Some?
                 && Field(Field(env, Asc("payload")).value, Asc("chunk_index")) == Some(JInt(index))
                 && Ciphertext(env).Some? && ChunkNonce(c.rxNonceBase, index).Some?
                 && ChunkAad(c.fileId, index, c.total, c.transferId).Some?
                 && c.p.open(c.rxKey, ChunkNonce(c.rxNonceBase, index).value,
                             ChunkAad(c.fileId, index, c.total, c.transferId).value, Ciphertext(env).value) == Some(plain)
  {
    hide ChunkNonce, ChunkAad, B64d;
    assert Asc("CHUNK")[0] != Asc("ERROR")[0];
  }

  /** Any other frame ends the loop. An ERROR with an object as payload, a frame of another type, an index that is not an
      integer and a chunk that does not open are reported; a frame, payload, index or data that cannot be read raises. */
  lemma ChunkRefused(c: ChunkCheck, env: J)
    requires AcceptChunk(c, env).Bad?
    ensures AcceptChunk(c, env).why
            == if !env.JObj? then Raised
               else if HasType(env, Asc("ERROR"))
                 then if Field(env, Asc("payload")).Some? && Field(env, Asc("payload")).value.JObj? then Refused else Raised
               else if !HasType(env, Asc("CHUNK")) then Refused
               else if Ciphertext(env) == None || Field(Field(env, Asc("payload")).value, Asc("chunk_index")) == None then Raised
               else Refused
  {
    hide DecryptChunk, B64d;
  }

  /** Everything _recv_transfer has established when it reports success: the manifest, every announced chunk, the
      TRANSFER_DONE right after them, the join and the hash. */
  lemma SavedMeans(p: Prims, owners: Str -> Option<Bytes>, keys: SessionKeys, start: J, frames: seq<J>, o: Offer)
    requires ReadOffer(start) == Some(o)
    requires ReceiveTransfer(p, owners, keys, start, frames).status == Saved
    ensures ManifestAccepted(p, owners(o.owner), o) && o.totalChunks.JInt?
    ensures Turns(o) < |frames| && AllAccepted(CheckOf(p, keys, o, o.totalChunks.n), frames[..Turns(o)])
    ensures HasType(frames[Turns(o)], Asc("TRANSFER_DONE"))
    ensures var n := if o.totalChunks.n > 0 then o.totalChunks.n else 0;
            var r := Collect(CheckOf(p, keys, o, o.totalChunks.n), n, frames, map[]);
            && r.Collected? && JoinChunks(r.chunks, 0, o.totalChunks.n).Some?
            && var data := JoinChunks(r.chunks, 0, o.totalChunks.n).value;
               && o.sha256Hex == JStr(HexString(p.sha256(data)))
               && ReceiveTransfer(p, owners, keys, start, frames).saved
                  == Some(SavedFile(o.fileId, data, o.filename, o.sha256Hex, o.size, o.owner, o.manifestSig.s, o.timestamp))
  {
    hide ReadOffer, ManifestAccepted, HasType, HexString, Collect, JoinChunks, AllAccepted;
    CollectedRest(CheckOf(p, keys, o, o.totalChunks.n), Turns(o), frames);
  }

  lemma CollectedRest(c: ChunkCheck, n: nat, frames: seq<J>)
    ensures var r := Collect(c, n, frames, map[]);
            && (r.Collected? <==> n <= |frames| && AllAccepted(c, frames[..n]))
            && (r.Collected? ==> r.rest == frames[n..])
  {
    hide Collect, AllAccepted;
    CollectIs(c, n, frames, []);
  }

  /** Every announced chunk came and was accepted, and a TRANSFER_DONE came right after the last. */
  ghost predicate ArrivedWhole(p: Prims, keys: SessionKeys, o: Offer, frames: seq<J>)
  {
    && o.totalChunks.JInt? && Turns(o) < |frames|
    && AllAccepted(CheckOf(p, keys, o, o.totalChunks.n), frames[..Turns(o)])
    && HasType(frames[Turns(o)], Asc("TRANSFER_DONE"))
  }

  /** After the announced chunks any other frame than TRANSFER_DONE ends the transfer: nothing is saved. */
  lemma DoneIsNeeded(p: Prims, owners: Str -> Option<Bytes>, keys: SessionKeys, start: J, frames: seq<J>, o: Offer)
    requires ReadOffer(start) == Some(o) && o.totalChunks.JInt? && Turns(o) < |frames|
    requires AllAccepted(CheckOf(p, keys, o, o.totalChunks.n), frames[..Turns(o)])
    requires !HasType(frames[Turns(o)], Asc("TRANSFER_DONE"))
    ensures var r := ReceiveTransfer(p, owners, keys, start, frames);
            && r.saved == None
            && (ManifestAccepted(p, owners(o.owner), o)
                ==> r.status == Failed(if frames[Turns(o)].JObj? then Refused else Raised) && r.rest == frames[Turns(o) + 1..])
            && (!ManifestAccepted(p, owners(o.owner), o) ==> r.status == Failed(Refused) && r.rest == frames)
  {
    hide ReadOffer, ManifestAccepted, HasType, HexString, Collect, JoinChunks, AllAccepted;
    CollectedRest(CheckOf(p, keys, o, o.totalChunks.n), Turns(o), frames);
  }

  /** At TRANSFER_DONE the indices received and the hash decide: an index missing raises, a hash that differs is refused,
      and otherwise the file is saved. */
  lemma DoneDecides(p: Prims, owners: Str -> Option<Bytes>, keys: SessionKeys, start: J, frames: seq<J>, o: Offer)
    requires ReadOffer(start) == Some(o) && o.totalChunks.JInt? && Turns(o) < |frames| && ManifestAccepted(p, owners(o.owner), o)
    requires AllAccepted(CheckOf(p, keys, o, o.totalChunks.n), frames[..Turns(o)])
    requires HasType(frames[Turns(o)], Asc("TRANSFER_DONE"))
    ensures var l := AcceptedPairs(CheckOf(p, keys, o, o.totalChunks.n), frames[..Turns(o)]);
            var data := JoinChunks(DictOf(l), 0, Turns(o));
            && (data.Some? <==> Indices(l) == Range(Turns(o)))
            && ReceiveTransfer(p, owners, keys, start, frames).status
               == if data == None then Failed(Raised)
                  else if o.sha256Hex == JStr(HexString(p.sha256(data.value))) then Saved else Failed(Refused)
  {
    hide ReadOffer, HexString, Collect, JoinChunks, AllAccepted, B64d, CanonicalManifest, DictOf;
    var c := CheckOf(p, keys, o, o.totalChunks.n);
    var l := AcceptedPairs(c, frames[..Turns(o)]);
    CollectedRest(c, Turns(o), frames);
    Pigeonhole(l);
    NoTurns(l, o.totalChunks.n);
    CollectedDict(c, Turns(o), frames);
  }

  lemma CollectedDict(c: ChunkCheck, n: nat, frames: seq<J>)
    requires n <= |frames| && AllAccepted(c, frames[..n])
    ensures Collect(c, n, frames, map[]) == Collected(DictOf(AcceptedPairs(c, frames[..n])), frames[n..])
  {
    hide Collect, AllAccepted, AcceptedPairs;
    CollectIs(c, n, frames, []);
    assert [] + AcceptedPairs(c, frames[..n]) == AcceptedPairs(c, frames[..n]);
  }

  lemma NoTurns(l: seq<Pair>, total: int)
    ensures total <= 0 && l == [] ==> JoinChunks(DictOf(l), 0, total) == JoinChunks(DictOf(l), 0, 0)
  {
  }

  /** What is read of a TRANSFER_START: all fields but the timestamp must be there, the ids and the owner as text. */
  lemma OfferIs(start: J, o: Offer)
    ensures ReadOffer(start) == Some(o)
            <==> && TextField(start, Asc("id")) == Some(o.transferId) && Field(start, Asc("payload")).Some?
                 && var p := Field(start, Asc("payload")).value;
                    && TextField(p, Asc("file_id")) == Some(o.fileId) && TextField(p, Asc("original_owner")) == Some(o.owner)
                    && Field(p, Asc("filename")) == Some(o.filename) && Field(p, Asc("sha256_hex")) == Some(o.sha256Hex)
                    && Field(p, Asc("size")) == Some(o.size) && Field(p, Asc("total_chunks")) == Some(o.totalChunks)
                    && Field(p, Asc("manifest_sig")) == Some(o.manifestSig)
                    && o.timestamp == match Field(p, Asc("timestamp")) { case None => JStr([]) case Some(t) => t }
  {
  }

  /** Before the loop: a field missing raises, a manifest that is not accepted is refused, a count that is not an integer
      raises; none of it reads a frame. */
  lemma BeforeTheLoop(p: Prims, owners: Str -> Option<Bytes>, keys: SessionKeys, start: J, frames: seq<J>)
    ensures var r, o := ReceiveTransfer(p, owners, keys, start, frames), ReadOffer(start);
            && (o == None ==> r == Receipt(Failed(Raised), None, frames))
            && (o.Some? && !ManifestAccepted(p, owners(o.value.owner), o.value) ==> r == Receipt(Failed(Refused), None, frames))
            && (o.Some? && ManifestAccepted(p, owners(o.value.owner), o.value) && !o.value.totalChunks.JInt?
                ==> r == Receipt(Failed(Raised), None, frames))
  {
    hide ReadOffer, ManifestAccepted, Collect, Finish;
  }

  /** A TRANSFER_START of any other session or transfer, with at least one chunk to come, is never
      saved with this session's chunks; and what is saved is what the sender read. */
  lemma SavedIsSendersData(x: SendJob, owners: Str -> Option<Bytes>, keys: SessionKeys, start: J, frames: seq<J>, o: Offer)
    requires NothingForged(x, frames) && PlainIds(x) && keys.rxKey == x.keys.txKey && |x.data| <= TWO53
    requires ReadOffer(start) == Some(o) && o.totalChunks.JInt? && o.totalChunks.n >= 1
    requires ReceiveTransfer(x.p, owners, keys, start, frames).status == Saved
    ensures ReceiveTransfer(x.p, owners, keys, start, frames).saved.Some?
    ensures ReceiveTransfer(x.p, owners, keys, start, frames).saved.value.data == x.data
    ensures o.transferId == x.transferId && o.fileId == x.file.fileId && o.totalChunks.n == x.Total()
  {
    hide ReadOffer, ManifestAccepted, TotalChunks, HasType, HexString, Collect, JoinChunks, ReceiveTransfer;
    SavedMeans(x.p, owners, keys, start, frames, o);
    var c := CheckOf(x.p, keys, o, o.totalChunks.n);
    var r := Collect(c, o.totalChunks.n, frames, map[]);
    ReassemblyExact(x, c, frames, r.chunks, r.rest);
  }

  /** A TRANSFER_START that announces no chunks is never combined with any: all it can save is an empty file. */
  lemma NoChunksMeansEmpty(p: Prims, owners: Str -> Option<Bytes>, keys: SessionKeys, start: J, frames: seq<J>, o: Offer)
    requires ReadOffer(start) == Some(o) && o.totalChunks.JInt? && o.totalChunks.n < 1
    requires ReceiveTransfer(p, owners, keys, start, frames).status == Saved
    ensures ReceiveTransfer(p, owners, keys, start, frames).saved.Some?
    ensures ReceiveTransfer(p, owners, keys, start, frames).saved.value.data == []
  {
    hide ReadOffer, ManifestAccepted, HasType, HexString;
  }

  /** A transfer that gets through the loop, TRANSFER_DONE and the join is saved exactly when the hash offered is
      that of the bytes the sender read, and refused otherwise. */
  lemma HashDecidesSaving(x: SendJob, c: ChunkCheck, o: Offer, frames: seq<J>, chunks: map<int, Bytes>, rest: seq<J>)
    requires NothingForged(x, frames) && PlainIds(x) && c.p == x.p && c.rxKey == x.keys.txKey && |x.data| <= TWO53
    requires c.total >= 1 && Collect(c, c.total, frames, map[]) == Collected(chunks, rest)
    requires JoinChunks(chunks, 0, c.total).Some? && rest != [] && HasType(rest[0], Asc("TRANSFER_DONE"))
    requires o.manifestSig.JStr?
    ensures Finish(x.p, o, c.total, chunks, rest).status
            == if o.sha256Hex == JStr(HexString(x.p.sha256(x.data))) then Saved else Failed(Refused)
  {
    hide Collect, HexString;
    ReassemblyExact(x, c, frames, chunks, rest);
  }

  /** Over a whole _send_file run no nonce repeats under the session's sending key. */
  lemma SessionNoncesDistinct(x: SendJob, i: nat, j: nat)
    requires |x.keys.txNonceBase| == 12 && |x.data| <= TWO53 && i < j < x.Total()
    ensures ChunkNonce(x.keys.txNonceBase, i).Some? && ChunkNonce(x.keys.txNonceBase, j).Some?
    ensures ChunkNonce(x.keys.txNonceBase, i) != ChunkNonce(x.keys.txNonceBase, j)
  {
    TotalChunksExact(|x.data|);
    WordSizes();
    if ChunkNonce(x.keys.txNonceBase, i) == ChunkNonce(x.keys.txNonceBase, j) {
      ChunkNonceInjective(x.keys.txNonceBase, i, j);
    }
  }
}
